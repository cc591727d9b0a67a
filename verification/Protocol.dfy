/**
 One turn of the node's loop (cpos/node.py) as a function of its state and of what happens outside:
 the clock, the random choices, the mempool, whether a request can be sent, and the message read.
 Sockets, logging and the counters that only feed the logs are left out.
 */
module Protocol {
  import opened Wrappers
  import opened Bytes
  import opened Blocks
  import opened Chain
  import opened LocalChains

  datatype NodeConfig = NodeConfig(
    chain: Config,
    publicKey: ByteString,
    sign: ByteString -> ByteString,
    tolerance: nat,
    broadcastCreatedBlock: bool,
    period: Option<int>)

  datatype Mode = Listening | Resyncing

  datatype Missed = Missed(block: Block, from: ByteString)

  datatype NodeState = NodeState(
    chain: ChainState,
    mode: Mode,
    missed: seq<Missed>,
    received: seq<Block>,
    target: ByteString,   // the peer the resync talks to
    requestIndex: int,    // the index last asked for
    loopRound: int,
    onConsensus: bool,
    resyncs: nat,
    successfulResyncs: nat)

  datatype Message =
    | BlockBroadcast(block: Block, peer: ByteString)
    | ResyncRequest(peer: ByteString, index: int)
    | ResyncResponse(reply: Option<Block>)
    | OtherMessage

  datatype Input = Input(
    choose: nat -> nat,       // the k-th random number
    canSend: nat -> bool,     // whether the k-th request of the turn goes out
    round: int,
    mempool: nat -> TransactionList,
    message: Option<Message>)

  /** The blocks a message carries have the hashes their fields give. */
  ghost predicate Honest(sha: Hash, input: Input) {
    match input.message
    case Some(BlockBroadcast(b, _)) => Settled(sha, b)
    case Some(ResyncResponse(Some(b))) => Settled(sha, b)
    case _ => true
  }

  function RemoveAt(missed: seq<Missed>, i: nat): seq<Missed>
    requires i < |missed|
  {
    missed[..i] + missed[i + 1..]
  }

  // ---- Starting to resync ----

  datatype Pick = Pick(missed: seq<Missed>, target: Option<ByteString>)

  /** Drops random missed blocks until a request reaches the sender of one. */
  function PickTarget(missed: seq<Missed>, input: Input, k: nat): Pick
    decreases |missed|
  {
    if missed == [] then Pick([], None)
    else
      var i := input.choose(k) % |missed|;
      if input.canSend(k) then Pick(RemoveAt(missed, i), Some(missed[i].from))
      else PickTarget(RemoveAt(missed, i), input, k + 1)
  }

  predicate WantsResync(s: NodeState) {
    s.mode.Listening? && s.chain.forkDetected && s.missed != []
  }

  // ---- Generating a block ----

  /** The signed candidate for a ticket; None when the round does not fit its field. */
  function Candidate(cfg: NodeConfig, rows: seq<Row>, round: int, ticket: nat, input: Input): Option<Block>
    requires |rows| >= 1
  {
    var draft := Create(cfg.chain.sha, rows[|rows| - 1].block.hash, input.mempool(ticket), cfg.publicKey, [],
                        round, |rows|, ticket);
    if draft.None? then None else Some(draft.value.(signedNodeHash := cfg.sign(draft.value.nodeHash)))
  }

  /** The valid candidate with the smallest proof hash among the first n tickets. */
  ghost function BestCandidate(cfg: NodeConfig, rows: seq<Row>, round: int, n: nat, input: Input): Option<Block>
    requires |rows| >= 1
  {
    if n == 0 then None
    else
      var best := BestCandidate(cfg, rows, round, n - 1, input);
      var block := Candidate(cfg, rows, round, n - 1, input);
      if block.None? || Validate(cfg.chain, block.value).None? then best
      else if best.None? || Less(block.value.proofHash, best.value.proofHash) then block
      else best
  }

  ghost predicate IsCandidate(cfg: NodeConfig, rows: seq<Row>, round: int, i: nat, input: Input, b: Block)
    requires |rows| >= 1
  {
    Candidate(cfg, rows, round, i, input) == Some(b) && Validate(cfg.chain, b).Some?
  }

  /** What the search over the tickets finds: a valid candidate that none beats, if there is any. */
  lemma {:induction false} BestCandidateIsSmallest(cfg: NodeConfig, rows: seq<Row>, round: int, n: nat, input: Input)
    requires |rows| >= 1
    ensures var best := BestCandidate(cfg, rows, round, n, input);
            && (best.Some? ==> exists i :: 0 <= i < n && IsCandidate(cfg, rows, round, i, input, best.value))
            && (forall i, b :: 0 <= i < n && IsCandidate(cfg, rows, round, i, input, b) ==>
                  best.Some? && !Less(b.proofHash, best.value.proofHash))
  {
    hide Candidate, Validate, Less;
    if n > 0 {
      BestCandidateIsSmallest(cfg, rows, round, n - 1, input);
      var before, best := BestCandidate(cfg, rows, round, n - 1, input), BestCandidate(cfg, rows, round, n, input);
      if best.Some? {
        LessIsIrreflexive(best.value.proofHash);
        if best != before {
          assert IsCandidate(cfg, rows, round, n - 1, input, best.value);
        }
      }
      forall i, b | 0 <= i < n && IsCandidate(cfg, rows, round, i, input, b)
        ensures best.Some? && !Less(b.proofHash, best.value.proofHash)
      {
        if before.Some? && Less(b.proofHash, best.value.proofHash) && Less(best.value.proofHash, before.value.proofHash) {
          LessIsTransitive(b.proofHash, best.value.proofHash, before.value.proofHash);
        }
      }
    }
  }

  /** The node's own block fits behind the tip, so only a known hash or a round that has not risen keeps it out. */
  lemma OwnBlockFitsBehindTheTip(cfg: NodeConfig, rows: seq<Row>, round: int, input: Input)
    requires ChainInvariant(rows) && GenerateBlock(cfg, rows, round, input).Some?
    ensures var own := GenerateBlock(cfg, rows, round, input).value;
            && own.index == |rows| && own.parentHash == rows[|rows| - 1].block.hash && own.round == round
            && (Judge(cfg.chain, rows, own).Inserted? <==>
                  FindHash(rows, own.hash).None? && round > rows[|rows| - 1].block.round)
  {
    BestCandidateIsSmallest(cfg, rows, round, LookupNodeStake(cfg.publicKey), input);
  }

  // A round or a ticket outside an unsigned 32-bit field makes the creation of a block raise
  predicate CanCreateBlocks(cfg: NodeConfig, round: int) {
    var stake := LookupNodeStake(cfg.publicKey);
    stake == 0 || (0 <= round < UINT32_LIMIT && stake <= UINT32_LIMIT)
  }

  ghost function GenerateBlock(cfg: NodeConfig, rows: seq<Row>, round: int, input: Input): Option<Block>
    requires |rows| >= 1
  {
    BestCandidate(cfg, rows, round, LookupNodeStake(cfg.publicKey), input)
  }

  // ---- The phases of a turn ----

  datatype Phase = Go(state: NodeState) | Skip(state: NodeState) | Raise

  ghost predicate ChainIsSound(s: NodeState) {
    Sound(s.chain)
  }

  ghost function StartPhase(cfg: NodeConfig, s: NodeState, input: Input): Phase {
    if !WantsResync(s) then Go(s)
    else
      var pick := PickTarget(s.missed, input, 0);
      if pick.target.None? then Skip(s.(missed := pick.missed, requestIndex := -1))
      else
        Go(s.(missed := pick.missed, target := pick.target.value, requestIndex := -1,
              mode := Resyncing, resyncs := s.resyncs + 1))
  }

  /** Own blocks are generated and inserted in either mode. */
  ghost function ProduceBlock(cfg: NodeConfig, s: NodeState, input: Input): Phase
    requires ChainIsSound(s)
  {
    if !CanCreateBlocks(cfg, s.chain.currentRound) then Raise
    else
      var block := GenerateBlock(cfg, s.chain.table.rows, s.chain.currentRound, input);
      if block.Some? && cfg.broadcastCreatedBlock then
        Go(s.(chain := s.chain.(table := Insert(cfg.chain, s.chain.table, block.value))))
      else Go(s)
  }

  ghost function RoundPhase(cfg: NodeConfig, s: NodeState, input: Input): Phase
    requires ChainIsSound(s)
  {
    var updated := UpdateRound(cfg.chain, s.chain, input.round);
    if updated.raised then Raise
    else
      UpdateRoundKeepsInvariant(cfg.chain, s.chain, input.round);
      var s1 := s.(chain := updated.state);
      if s1.loopRound == s1.chain.currentRound then Go(s1)
      else
        var s2 := s1.(loopRound := s1.chain.currentRound);
        if s2.onConsensus then ProduceBlock(cfg, s2, input)
        else if cfg.period.None? then Skip(s2)
        else if cfg.period.value == 0 then Raise
        else if s2.chain.currentRound % cfg.period.value == 0 then ProduceBlock(cfg, s2.(onConsensus := true), input)
        else Skip(s2)
  }

  function Known(missed: seq<Missed>, hash: ByteString): bool {
    exists i :: 0 <= i < |missed| && missed[i].block.hash == hash
  }

  /** `handle_new_block`: refused blocks that could become useful are kept with their sender. */
  ghost function HandleNewBlock(cfg: NodeConfig, s: NodeState, b: Block, peer: ByteString): NodeState
    requires ChainIsSound(s)
  {
    if !(s.chain.currentRound <= b.round < s.chain.currentRound + cfg.tolerance + 1) then s
    else if b.owner == cfg.publicKey then s
    else if FindHash(s.chain.table.rows, b.hash).Some? then s
    else if Known(s.missed, b.hash) then s
    else
      var s1 := s.(chain := s.chain.(table := Insert(cfg.chain, s.chain.table, b)));
      if Judge(cfg.chain, s.chain.table.rows, b).Inserted? then s1
      else s1.(missed := s.missed + [Missed(b, peer)])
  }

  ghost function HandleResponse(cfg: NodeConfig, s: NodeState, reply: Option<Block>, input: Input): NodeState
    requires ChainIsSound(s)
  {
    if reply.None? then
      if s.missed != [] then
        var i := input.choose(0) % |s.missed|;
        s.(received := [], missed := RemoveAt(s.missed, i), target := s.missed[i].from, requestIndex := -1)
      else
        s.(received := [], mode := Listening, chain := s.chain.(forkDetected := false))
    else
      var r := Merge(cfg.chain, s.chain.table, [reply.value] + s.received);
      if r.merged then
        s.(mode := Listening, received := [], missed := [], successfulResyncs := s.successfulResyncs + 1,
           chain := s.chain.(table := r.table, forkDetected := false))
      else
        s.(received := r.remaining, requestIndex := s.requestIndex - 1, chain := s.chain.(table := r.table))
  }

  ghost function ReceivePhase(cfg: NodeConfig, s: NodeState, input: Input): NodeState
    requires ChainIsSound(s)
  {
    match input.message
    case None => s
    case Some(BlockBroadcast(b, peer)) => if s.mode.Listening? then HandleNewBlock(cfg, s, b, peer) else s
    case Some(ResyncResponse(reply)) => if s.mode.Resyncing? then HandleResponse(cfg, s, reply, input) else s
    case Some(ResyncRequest(_, _)) => s
    case Some(OtherMessage) => s
  }

  /**
   The answer to a request, in either mode: the block at the index, or None when there is none. It
   fails when the block of the row cannot be rebuilt because a field does not fit 32 bits.
   */
  function Answer(sha: Hash, rows: seq<Row>, index: int): Result<Option<Block>> {
    var distance := if index < 0 then -index else index;
    if |rows| <= distance then Success(None)
    else
      var block := ComposeBlock(sha, rows[if index < 0 then |rows| + index else index]);
      if block.None? then Failure("int too big to convert") else Success(block)
  }

  datatype Reply = Reply(to: ByteString, block: Option<Block>)

  /** What is sent back for the message that is read: only requests are answered, but in either mode. */
  function ReplyTo(sha: Hash, rows: seq<Row>, input: Input): Result<Option<Reply>> {
    match input.message
    case Some(ResyncRequest(peer, index)) =>
      (match Answer(sha, rows, index)
       case Success(block) => Success(Some(Reply(peer, block)))
       case Failure(reason) => Failure(reason))
    case _ => Success(None)
  }

  // ---- A turn of the loop ----

  /** The state in which a message is read, if the turn gets that far. */
  ghost function BeforeReading(cfg: NodeConfig, s: NodeState, input: Input): Phase
    requires ChainIsSound(s)
  {
    var started := StartPhase(cfg, s, input);
    if started.Go? then RoundPhase(cfg, started.state, input) else started
  }

  lemma BeforeReadingIsSound(cfg: NodeConfig, s: NodeState, input: Input)
    requires ChainIsSound(s)
    ensures var p := BeforeReading(cfg, s, input); !p.Raise? ==> ChainIsSound(p.state)
  {
    var started := StartPhase(cfg, s, input);
    if started.Go? {
      RoundPhaseIsSound(cfg, started.state, input);
    }
  }

  lemma RoundPhaseIsSound(cfg: NodeConfig, s: NodeState, input: Input)
    requires ChainIsSound(s)
    ensures var p := RoundPhase(cfg, s, input); !p.Raise? ==> ChainIsSound(p.state)
  {
    UpdateRoundKeepsInvariant(cfg.chain, s.chain, input.round);
    hide UpdateRound, ChainInvariant, ProduceBlock, BlocksOf;
    var updated := UpdateRound(cfg.chain, s.chain, input.round);
    if !updated.raised {
      var s2 := s.(chain := updated.state, loopRound := updated.state.currentRound);
      ProduceBlockIsSound(cfg, s2, input);
      ProduceBlockIsSound(cfg, s2.(onConsensus := true), input);
    }
  }

  lemma ProduceBlockIsSound(cfg: NodeConfig, s: NodeState, input: Input)
    requires ChainIsSound(s)
    ensures var p := ProduceBlock(cfg, s, input); !p.Raise? ==> ChainIsSound(p.state)
  {
    hide ChainInvariant, Insert, BestCandidate;
    assert |s.chain.table.rows| >= 1 by { SoundIsNonempty(s); }
    var block := GenerateBlock(cfg, s.chain.table.rows, s.chain.currentRound, input);
    if block.Some? {
      InsertKeepsInvariant(cfg.chain, s.chain.table, block.value);
    }
  }

  lemma SoundIsNonempty(s: NodeState)
    requires ChainIsSound(s)
    ensures |s.chain.table.rows| >= 1
  {
  }

  lemma ReceivePhaseIsSound(cfg: NodeConfig, s: NodeState, input: Input)
    requires ChainIsSound(s)
    ensures ChainIsSound(ReceivePhase(cfg, s, input))
  {
    match input.message
    case Some(BlockBroadcast(b, peer)) =>
      InsertKeepsInvariant(cfg.chain, s.chain.table, b);
    case Some(ResyncResponse(reply)) =>
      if reply.Some? {
        MergeKeepsInvariant(cfg.chain, s.chain.table, [reply.value] + s.received);
      }
    case _ =>
  }

  ghost function Turn(cfg: NodeConfig, s: NodeState, input: Input): (p: Phase)
    requires ChainIsSound(s)
    ensures !p.Raise? ==> ChainIsSound(p.state)
  {
    var p := BeforeReading(cfg, s, input);
    BeforeReadingIsSound(cfg, s, input);
    if !p.Go? then p
    else if ReplyTo(cfg.chain.sha, p.state.chain.table.rows, input).Failure? then Raise
    else (ReceivePhaseIsSound(cfg, p.state, input); Go(ReceivePhase(cfg, p.state, input)))
  }

  // ---- Runs ----

  /** The node after n turns, or None when one of them raised. */
  ghost function AfterTurns(cfg: NodeConfig, s: NodeState, inputs: seq<Input>, n: nat): (r: Option<NodeState>)
    requires ChainIsSound(s) && n <= |inputs|
    ensures r.Some? ==> ChainIsSound(r.value)
    decreases n
  {
    if n == 0 then Some(s)
    else
      var before := AfterTurns(cfg, s, inputs, n - 1);
      if before.None? then None
      else
        var p := Turn(cfg, before.value, inputs[n - 1]);
        if p.Raise? then None else Some(p.state)
  }
}
