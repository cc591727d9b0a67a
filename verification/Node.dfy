/**
 The `Node` object (cpos/node.py): the methods that make up one turn of its loop, working on the
 node's fields and on its `BlockChain`, and proved to do what `Protocol` says. What the program
 takes from the outside during a turn is one `Input`.
 */
module NodeObject {
  import opened Wrappers
  import opened Bytes
  import opened Blocks
  import opened Chain
  import opened BlockChainObject
  import opened NodeEffects
  import opened NodeInvariant
  import opened Protocol

  datatype Control = Proceed | Continue | Raised

  /** The end of a phase: how control goes on, and the state unless an exception ended the loop. */
  ghost predicate EndsAs(control: Control, state: NodeState, phase: Phase) {
    match phase
    case Go(s) => control.Proceed? && state == s
    case Skip(s) => control.Continue? && state == s
    case Raise => control.Raised?
  }

  class Node {
    const cfg: NodeConfig
    const bc: BlockChain
    var mode: Mode
    var missedBlocks: seq<Missed>
    var receivedResyncBlocks: seq<Block>
    var target: ByteString
    var requestIndex: int
    var loopRound: int
    var onConsensus: bool
    var resyncs: nat
    var successfulResyncs: nat

    ghost predicate Valid()
      reads this, bc
    {
      bc.cfg == cfg.chain && bc.Valid() && Aligned(bc.state.table) && ChainInvariant(bc.state.table.rows)
    }

    ghost function State(): NodeState
      reads this, bc
    {
      NodeState(bc.state, mode, missedBlocks, receivedResyncBlocks, target, requestIndex, loopRound, onConsensus,
                resyncs, successfulResyncs)
    }

    // The loop compares the first round with the timestamp of the genesis block
    constructor (cfg: NodeConfig, round: int, genesisTimestamp: int)
      ensures Valid() && fresh(bc) && this.cfg == cfg && JustStarted(cfg, State(), round)
      ensures State().loopRound == genesisTimestamp && !State().onConsensus
    {
      this.cfg := cfg;
      this.bc := new BlockChain(cfg.chain, round);
      mode, missedBlocks, receivedResyncBlocks := Listening, [], [];
      target, requestIndex, loopRound, onConsensus := [], 0, genesisTimestamp, false;
      resyncs, successfulResyncs := 0, 0;
    }

    // ---- generate_block ----

    /** The block of one ticket, signed; None when a field does not fit and the program raises. */
    method CreateCandidate(ticket: nat, input: Input) returns (block: Option<Block>)
      requires Valid()
      ensures block == Candidate(cfg, bc.state.table.rows, bc.state.currentRound, ticket, input)
    {
      var parentHash := bc.LastBlockId();
      var index := bc.NumberOfBlocks();
      var draft := Create(cfg.chain.sha, parentHash, input.mempool(ticket), cfg.publicKey, [], bc.currentRound,
                          index, ticket);
      if draft.None? {
        return None;
      }
      return Some(draft.value.(signedNodeHash := cfg.sign(draft.value.nodeHash)));
    }

    /** The one of two candidates with the smaller proof hash; the earlier one when they are equal. */
    static function Smaller(candidate: Option<Block>, block: Block): (best: Option<Block>)
      ensures best == Some(block) || (best == candidate && candidate.Some?)
      ensures best.Some? && !Less(block.proofHash, best.value.proofHash)
    {
      LessIsIrreflexive(block.proofHash);
      if candidate.None? || Less(block.proofHash, candidate.value.proofHash) then Some(block) else candidate
    }

    method GenerateBlock(input: Input) returns (raised: bool, candidate: Option<Block>)
      requires Valid()
      ensures raised <==> !CanCreateBlocks(cfg, bc.state.currentRound)
      ensures !raised ==> candidate == Protocol.GenerateBlock(cfg, bc.state.table.rows, bc.state.currentRound, input)
    {
      assert |bc.state.table.rows| >= 1;
      hide ChainInvariant, Validate, LookupNodeStake;
      ghost var rows, round := bc.state.table.rows, bc.state.currentRound;
      var stake := LookupNodeStake(cfg.publicKey);
      candidate := None;
      var i := 0;
      while i < stake
        invariant 0 <= i <= stake
        invariant i > 0 ==> 0 <= round < UINT32_LIMIT && i <= UINT32_LIMIT
        invariant candidate == BestCandidate(cfg, rows, round, i, input)
      {
        var block := CreateCandidate(i, input);
        if block.None? {
          return true, None;
        }
        var tickets := bc.ValidateBlock(block.value);
        if tickets.Some? {
          candidate := Smaller(candidate, block.value);
        }
        i := i + 1;
      }
      raised := false;
    }

    // ---- handle_new_block ----

    method InMissedBlocks(hash: ByteString) returns (known: bool)
      ensures known <==> Known(missedBlocks, hash)
    {
      for i := 0 to |missedBlocks|
        invariant forall k :: 0 <= k < i ==> missedBlocks[k].block.hash != hash
      {
        if missedBlocks[i].block.hash == hash {
          return true;
        }
      }
      return false;
    }

    method HandleNewBlock(b: Block, peer: ByteString) returns (inserted: bool)
      requires Valid()
      modifies this, bc
      ensures Valid() && ChainIsSound(old(State())) && State() == Protocol.HandleNewBlock(cfg, old(State()), b, peer)
      ensures inserted <==> !HasHash(old(State()).chain.table.rows, b.hash) && HasHash(State().chain.table.rows, b.hash)
    {
      hide ChainInvariant, Chain.Insert, Judge, FindHash, HasHash;
      var round := bc.currentRound;
      if !(round <= b.round < round + cfg.tolerance + 1) {
        return false;
      }
      if b.owner == cfg.publicKey {
        return false;
      }
      var inChain := bc.BlockInBlockchain(b);
      if inChain {
        return false;
      }
      var missed := InMissedBlocks(b.hash);
      if missed {
        return false;
      }
      HashArrivesWhenInserted(bc.cfg, bc.state.table, b);
      inserted := bc.Insert(b);
      if !inserted {
        missedBlocks := missedBlocks + [Missed(b, peer)];
      }
    }

    // ---- The start of a resync ----

    method StartResync(input: Input) returns (control: Control)
      requires Valid()
      modifies this
      ensures Valid() && EndsAs(control, State(), StartPhase(cfg, old(State()), input))
    {
      hide ChainInvariant;
      if !(mode.Listening? && bc.forkDetected && missedBlocks != []) {
        return Proceed;
      }
      var found := PickSender(input);
      if !found {
        return Continue;
      }
      mode := Resyncing;
      resyncs := resyncs + 1;
      return Proceed;
    }

    /** Takes random missed blocks out of the list until a request reaches the sender of one. */
    method PickSender(input: Input) returns (found: bool)
      requires Valid() && missedBlocks != []
      modifies `missedBlocks, `target, `requestIndex
      ensures Valid()
      ensures var pick := PickTarget(old(missedBlocks), input, 0);
              && missedBlocks == pick.missed && found == pick.target.Some? && requestIndex == -1
              && target == if found then pick.target.value else old(target)
    {
      ghost var goal := PickTarget(missedBlocks, input, 0);
      var k := 0;
      while true
        invariant Valid() && target == old(target)
        invariant PickTarget(missedBlocks, input, k) == goal
        invariant missedBlocks == [] ==> requestIndex == -1
        decreases |missedBlocks|
      {
        if missedBlocks == [] {
          return false;
        }
        var i := input.choose(k) % |missedBlocks|;
        var missed := missedBlocks[i];
        missedBlocks := RemoveAt(missedBlocks, i);
        requestIndex := -1;
        if input.canSend(k) {
          target := missed.from;
          return true;
        }
        k := k + 1;
      }
    }

    // ---- A new round ----

    method ProduceBlock(input: Input) returns (control: Control)
      requires Valid()
      modifies this, bc
      ensures Valid() && ChainIsSound(old(State()))
      ensures EndsAs(control, State(), Protocol.ProduceBlock(cfg, old(State()), input))
    {
      hide ChainInvariant, Chain.Insert, BestCandidate, Judge;
      var raised, block := GenerateBlock(input);
      if raised {
        return Raised;
      }
      if block.Some? && cfg.broadcastCreatedBlock {
        var inserted := bc.Insert(block.value);
      }
      return Proceed;
    }

    method UpdateRound(input: Input) returns (control: Control)
      requires Valid()
      modifies this, bc
      ensures Valid() && ChainIsSound(old(State()))
      ensures EndsAs(control, State(), RoundPhase(cfg, old(State()), input))
    {
      UpdateRoundKeepsInvariant(cfg.chain, bc.state, input.round);
      hide ChainInvariant, Chain.UpdateRound, Protocol.ProduceBlock;
      var raised := bc.UpdateRound(input.round);
      if raised {
        return Raised;
      }
      if loopRound == bc.currentRound {
        return Proceed;
      }
      loopRound := bc.currentRound;
      if !onConsensus {
        if cfg.period.None? {
          return Continue;
        }
        if cfg.period.value == 0 {
          return Raised;
        }
        if bc.currentRound % cfg.period.value != 0 {
          return Continue;
        }
        onConsensus := true;
      }
      control := ProduceBlock(input);
    }

    // ---- Messages ----

    /** The block to send for a request, or None to say that there is none. */
    method AnswerRequest(index: int) returns (answer: Result<Option<Block>>)
      requires Valid()
      ensures answer == Answer(cfg.chain.sha, bc.state.table.rows, index)
    {
      hide ChainInvariant;
      var count := bc.NumberOfBlocks();
      if count > (if index < 0 then -index else index) {
        var block := bc.BlockByIndex(index);
        answer := if block.None? then Failure("int too big to convert") else Success(block);
      } else {
        answer := Success(None);
      }
    }

    method HandleResponse(reply: Option<Block>, input: Input)
      requires Valid()
      modifies this, bc
      ensures Valid() && ChainIsSound(old(State()))
      ensures State() == Protocol.HandleResponse(cfg, old(State()), reply, input)
    {
      hide ChainInvariant, Chain.Merge;
      if reply.None? {
        receivedResyncBlocks := [];
        if missedBlocks != [] {
          var i := input.choose(0) % |missedBlocks|;
          target := missedBlocks[i].from;
          missedBlocks := RemoveAt(missedBlocks, i);
          requestIndex := -1;
        } else {
          mode := Listening;
          bc.forkDetected := false;
          bc.state := bc.state.(forkDetected := false);
        }
        return;
      }
      var merged, remaining := bc.Merge([reply.value] + receivedResyncBlocks);
      if merged {
        mode := Listening;
        receivedResyncBlocks := [];
        bc.forkDetected := false;
        bc.state := bc.state.(forkDetected := false);
        missedBlocks := [];
        successfulResyncs := successfulResyncs + 1;
      } else {
        receivedResyncBlocks := remaining;
        requestIndex := requestIndex - 1;
      }
    }

    method Receive(input: Input) returns (reply: Result<Option<Reply>>)
      requires Valid()
      modifies this, bc
      ensures Valid() && ChainIsSound(old(State()))
      ensures reply == ReplyTo(cfg.chain.sha, old(State()).chain.table.rows, input)
      ensures reply.Success? ==> State() == ReceivePhase(cfg, old(State()), input)
    {
      hide ChainInvariant, Protocol.HandleNewBlock, Protocol.HandleResponse, Answer;
      reply := Success(None);
      match input.message
      case Some(BlockBroadcast(b, peer)) =>
        if mode.Listening? {
          var inserted := HandleNewBlock(b, peer);
        }
      case Some(ResyncResponse(block)) =>
        if mode.Resyncing? {
          HandleResponse(block, input);
        }
      case Some(ResyncRequest(peer, index)) =>
        var answer := AnswerRequest(index);
        match answer {
          case Success(block) => reply := Success(Some(Reply(peer, block)));
          case Failure(reason) => reply := Failure(reason);
        }
      case _ =>
    }

    // ---- loop ----

    /** One turn of `loop`, and the reply it sends. */
    method LoopOnce(input: Input) returns (control: Control, reply: Option<Reply>)
      requires Valid()
      modifies this, bc
      ensures Valid() && ChainIsSound(old(State()))
      ensures EndsAs(control, State(), Turn(cfg, old(State()), input))
      ensures var p := BeforeReading(cfg, old(State()), input);
              Success(reply) == if control.Proceed? && p.Go? then ReplyTo(cfg.chain.sha, p.state.chain.table.rows, input)
                                else Success(None)
      ensures Kept(cfg, old(State()), input, control, State())
    {
      hide ChainInvariant, StartPhase, RoundPhase, ReceivePhase, ReplyTo, Kept;
      reply := None;
      control := StartResync(input);
      if control.Proceed? {
        control := UpdateRound(input);
        if control.Proceed? {
          var answered := Receive(input);
          if answered.Failure? {
            control := Raised;
          } else {
            reply := answered.value;
          }
        }
      }
      TurnKeeps(cfg, old(State()), input, control, State());
    }
  }

  /** The node invariant is kept, and no missed block gets into the chain unless the turn makes its hash. */
  ghost predicate Kept(cfg: NodeConfig, before: NodeState, input: Input, control: Control, after: NodeState)
    requires ChainIsSound(before)
  {
    !control.Raised? ==>
      && (KeptByTurns(cfg, before) ==> KeptByTurns(cfg, after))
      && (MissedStayOut(before) && !MakesMissedHash(cfg, before, input) ==> MissedStayOut(after))
  }

  lemma TurnKeeps(cfg: NodeConfig, before: NodeState, input: Input, control: Control, after: NodeState)
    requires ChainIsSound(before) && EndsAs(control, after, Turn(cfg, before, input))
    ensures Kept(cfg, before, input, control, after)
  {
    hide Turn, KeptByTurns, MissedStayOut, MakesMissedHash, StayOutThisTurn;
    if KeptByTurns(cfg, before) {
      TurnKeepsInvariant(cfg, before, input);
    }
    if MissedStayOut(before) {
      TurnIsExact(cfg, before, input);
    }
  }
}
