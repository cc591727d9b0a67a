/**
 What holds of the node between any two turns of its loop, whatever messages arrive and whatever
 they hash to: the chain is sound, the missed blocks are distinct and foreign, and the mode agrees
 with the resync buffer and the counters. Whether a missed block can also be in the chain has an
 exact answer: only when the node itself makes a block with a missed hash.
 */
module NodeInvariant {
  import opened Wrappers
  import opened Bytes
  import opened Blocks
  import opened Chain
  import opened Protocol

  // ---- The invariant ----

  ghost predicate DistinctMissed(missed: seq<Missed>) {
    forall i, j :: 0 <= i < j < |missed| ==> missed[i].block.hash != missed[j].block.hash
  }

  ghost predicate NoneOwn(publicKey: ByteString, missed: seq<Missed>) {
    forall i :: 0 <= i < |missed| ==> missed[i].block.owner != publicKey
  }

  ghost predicate MissedIsClean(cfg: NodeConfig, missed: seq<Missed>) {
    DistinctMissed(missed) && NoneOwn(cfg.publicKey, missed)
  }

  ghost predicate ModeIsConsistent(s: NodeState) {
    && (s.mode.Listening? ==> s.received == [])
    && (s.mode.Resyncing? ==> s.chain.forkDetected)
    && s.successfulResyncs + (if s.mode.Resyncing? then 1 else 0) <= s.resyncs
  }

  ghost predicate KeptByTurns(cfg: NodeConfig, s: NodeState) {
    ChainIsSound(s) && MissedIsClean(cfg, s.missed) && ModeIsConsistent(s)
  }

  ghost predicate NoneInChain(missed: seq<Missed>, rows: seq<Row>) {
    forall i :: 0 <= i < |missed| ==> FindHash(rows, missed[i].block.hash).None?
  }

  ghost predicate MissedStayOut(s: NodeState) {
    NoneInChain(s.missed, s.chain.table.rows)
  }

  /** A node that has just been built; its key pair, clock and peers are arbitrary. */
  ghost predicate JustStarted(cfg: NodeConfig, s: NodeState, round: int)
    ensures JustStarted(cfg, s, round) ==> ChainIsSound(s)
  {
    UpdateRoundKeepsInvariant(cfg.chain, INITIAL_CHAIN, round);
    && s.mode.Listening? && s.missed == [] && s.received == [] && s.resyncs == 0 && s.successfulResyncs == 0
    && s.chain == UpdateRound(cfg.chain, INITIAL_CHAIN, round).state
  }

  // ---- Turns keep the invariant ----

  lemma {:induction false} PickKeepsMissed(cfg: NodeConfig, missed: seq<Missed>, input: Input, k: nat)
    requires MissedIsClean(cfg, missed)
    ensures MissedIsClean(cfg, PickTarget(missed, input, k).missed)
    decreases |missed|
  {
    if missed != [] {
      var i := input.choose(k) % |missed|;
      RemovalKeepsMissed(cfg, missed, i);
      PickKeepsMissed(cfg, RemoveAt(missed, i), input, k + 1);
    }
  }

  lemma RemovalKeepsMissed(cfg: NodeConfig, missed: seq<Missed>, i: nat)
    requires i < |missed| && MissedIsClean(cfg, missed)
    ensures MissedIsClean(cfg, RemoveAt(missed, i))
  {
    var rest := RemoveAt(missed, i);
    assert forall j :: 0 <= j < |rest| ==> rest[j] == missed[if j < i then j else j + 1];
  }

  lemma StartKeepsInvariant(cfg: NodeConfig, s: NodeState, input: Input)
    requires KeptByTurns(cfg, s)
    ensures KeptByTurns(cfg, StartPhase(cfg, s, input).state)
    ensures StartPhase(cfg, s, input).state.chain == s.chain
  {
    hide ChainInvariant, MissedIsClean;
    PickKeepsMissed(cfg, s.missed, input, 0);
  }

  lemma ForksStayDetected(cfg: Config, s: ChainState, round: int)
    requires Aligned(s.table) && |s.table.rows| >= 1
    ensures s.forkDetected ==> UpdateRound(cfg, s, round).state.forkDetected
  {
  }

  lemma RoundKeepsMode(cfg: NodeConfig, s: NodeState, input: Input)
    requires ChainIsSound(s) && ModeIsConsistent(s)
    ensures var p := RoundPhase(cfg, s, input); !p.Raise? ==> ModeIsConsistent(p.state) && p.state.missed == s.missed
  {
    hide UpdateRound, ChainInvariant, ProduceBlock;
    SoundIsNonempty(s);
    ForksStayDetected(cfg.chain, s.chain, input.round);
    UpdateRoundKeepsInvariant(cfg.chain, s.chain, input.round);
    var updated := UpdateRound(cfg.chain, s.chain, input.round);
    if !updated.raised {
      var s2 := s.(chain := updated.state, loopRound := updated.state.currentRound);
      ProducingKeepsMode(cfg, s2, input);
      ProducingKeepsMode(cfg, s2.(onConsensus := true), input);
    }
  }

  lemma ProducingKeepsMode(cfg: NodeConfig, s: NodeState, input: Input)
    requires ChainIsSound(s) && ModeIsConsistent(s)
    ensures var p := ProduceBlock(cfg, s, input); !p.Raise? ==> ModeIsConsistent(p.state) && p.state.missed == s.missed
  {
    hide Insert, BestCandidate;
  }

  lemma ReceivingKeepsMissed(cfg: NodeConfig, s: NodeState, input: Input)
    requires ChainIsSound(s) && MissedIsClean(cfg, s.missed)
    ensures MissedIsClean(cfg, ReceivePhase(cfg, s, input).missed)
  {
    hide ChainInvariant, Insert, Judge, Merge, FindHash;
    if input.message.Some? && input.message.value.ResyncResponse? && s.missed != [] {
      RemovalKeepsMissed(cfg, s.missed, input.choose(0) % |s.missed|);
    }
  }

  lemma ReceivingKeepsMode(cfg: NodeConfig, s: NodeState, input: Input)
    requires ChainIsSound(s) && ModeIsConsistent(s)
    ensures ModeIsConsistent(ReceivePhase(cfg, s, input))
  {
    hide ChainInvariant, Insert, Judge, Merge, FindHash;
  }

  lemma TurnKeepsInvariant(cfg: NodeConfig, s: NodeState, input: Input)
    requires KeptByTurns(cfg, s)
    ensures var p := Turn(cfg, s, input); !p.Raise? ==> KeptByTurns(cfg, p.state)
  {
    hide StartPhase, RoundPhase, ReceivePhase, ChainInvariant, MissedIsClean, ModeIsConsistent, ReplyTo;
    StartKeepsInvariant(cfg, s, input);
    var started := StartPhase(cfg, s, input);
    if started.Go? {
      RoundPhaseIsSound(cfg, started.state, input);
      RoundKeepsMode(cfg, started.state, input);
      var p := RoundPhase(cfg, started.state, input);
      if p.Go? {
        ReceivePhaseIsSound(cfg, p.state, input);
        ReceivingKeepsMissed(cfg, p.state, input);
        ReceivingKeepsMode(cfg, p.state, input);
      }
    }
  }

  lemma {:induction false} InvariantHoldsAfter(cfg: NodeConfig, s: NodeState, inputs: seq<Input>, n: nat)
    requires KeptByTurns(cfg, s) && ChainIsSound(s) && n <= |inputs|
    ensures var r := AfterTurns(cfg, s, inputs, n); r.Some? ==> KeptByTurns(cfg, r.value)
    decreases n
  {
    hide KeptByTurns, ChainIsSound, Turn;
    if n > 0 {
      InvariantHoldsAfter(cfg, s, inputs, n - 1);
      var before := AfterTurns(cfg, s, inputs, n - 1);
      if before.Some? {
        TurnKeepsInvariant(cfg, before.value, inputs[n - 1]);
      }
    }
  }

  /** For every node, every sequence of inputs and every hash function. */
  lemma InvariantHoldsInEveryRun(cfg: NodeConfig, s: NodeState, round: int, inputs: seq<Input>, n: nat)
    requires JustStarted(cfg, s, round) && n <= |inputs|
    ensures var r := AfterTurns(cfg, s, inputs, n); r.Some? ==> KeptByTurns(cfg, r.value)
  {
    hide ChainInvariant, UpdateRound, AfterTurns;
    InvariantHoldsAfter(cfg, s, inputs, n);
  }

  // ---- The chain only gains the block that is inserted ----

  lemma UnknownUnlessInserted(cfg: Config, t: Table, b: Block, hash: ByteString)
    requires Aligned(t) && FindHash(t.rows, hash).None?
    requires Judge(cfg, t.rows, b).Inserted? ==> b.hash != hash
    ensures FindHash(Insert(cfg, t, b).rows, hash).None?
  {
    InsertEffect(cfg, t, b);
    UnknownInBlocks(t.rows, hash);
    UnknownInBlocks(Insert(cfg, t, b).rows, hash);
  }

  lemma UnknownInBlocks(rows: seq<Row>, hash: ByteString)
    ensures FindHash(rows, hash).None? <==> forall b :: b in BlocksOf(rows) ==> b.hash != hash
  {
    FoundFirst(rows, hash);
    assert forall i :: 0 <= i < |rows| ==> BlocksOf(rows)[i] == rows[i].block && rows[i].block in BlocksOf(rows);
  }

  lemma SameBlocksSameUnknowns(missed: seq<Missed>, before: seq<Row>, after: seq<Row>)
    requires BlocksOf(before) == BlocksOf(after)
    ensures NoneInChain(missed, before) <==> NoneInChain(missed, after)
  {
    forall i | 0 <= i < |missed|
      ensures FindHash(after, missed[i].block.hash).None? <==> FindHash(before, missed[i].block.hash).None?
    {
      UnknownInBlocks(before, missed[i].block.hash);
      UnknownInBlocks(after, missed[i].block.hash);
    }
  }

  lemma InsertedIsFound(cfg: Config, t: Table, b: Block)
    requires Aligned(t) && Judge(cfg, t.rows, b).Inserted?
    ensures FindHash(Insert(cfg, t, b).rows, b.hash).Some?
  {
  }

  // ---- No message puts a missed block into the chain ----

  lemma {:induction false} PickStaysOut(missed: seq<Missed>, rows: seq<Row>, input: Input, k: nat)
    requires NoneInChain(missed, rows)
    ensures NoneInChain(PickTarget(missed, input, k).missed, rows)
    decreases |missed|
  {
    if missed != [] {
      var i := input.choose(k) % |missed|;
      RemovalStaysOut(missed, rows, i);
      PickStaysOut(RemoveAt(missed, i), rows, input, k + 1);
    }
  }

  lemma RemovalStaysOut(missed: seq<Missed>, rows: seq<Row>, i: nat)
    requires i < |missed| && NoneInChain(missed, rows)
    ensures NoneInChain(RemoveAt(missed, i), rows)
  {
    hide FindHash;
    var rest := RemoveAt(missed, i);
    assert forall j :: 0 <= j < |rest| ==> rest[j] == missed[if j < i then j else j + 1];
  }

  lemma NewBlockStaysOut(cfg: NodeConfig, s: NodeState, b: Block, peer: ByteString)
    requires ChainIsSound(s) && MissedStayOut(s)
    ensures MissedStayOut(HandleNewBlock(cfg, s, b, peer))
  {
    hide ChainInvariant, Insert, Judge, FindHash;
    if !Known(s.missed, b.hash) && FindHash(s.chain.table.rows, b.hash).None? {
      forall i | 0 <= i < |s.missed|
        ensures FindHash(Insert(cfg.chain, s.chain.table, b).rows, s.missed[i].block.hash).None?
      {
        UnknownUnlessInserted(cfg.chain, s.chain.table, b, s.missed[i].block.hash);
      }
      if !Judge(cfg.chain, s.chain.table.rows, b).Inserted? {
        UnknownUnlessInserted(cfg.chain, s.chain.table, b, b.hash);
      }
    }
  }

  lemma ResponseStaysOut(cfg: NodeConfig, s: NodeState, reply: Option<Block>, input: Input)
    requires ChainIsSound(s) && MissedStayOut(s)
    ensures MissedStayOut(HandleResponse(cfg, s, reply, input))
  {
    hide ChainInvariant, Merge, FindHash, BlocksOf;
    if reply.None? {
      if s.missed != [] {
        RemovalStaysOut(s.missed, s.chain.table.rows, input.choose(0) % |s.missed|);
      }
    } else {
      var foreign := [reply.value] + s.received;
      var r := Merge(cfg.chain, s.chain.table, foreign);
      if !r.merged {
        FailedMergeKeepsBlocks(cfg.chain, s.chain.table, foreign);
        SameBlocksSameUnknowns(s.missed, s.chain.table.rows, r.table.rows);
      }
    }
  }

  lemma ReceivingStaysOut(cfg: NodeConfig, s: NodeState, input: Input)
    requires ChainIsSound(s) && MissedStayOut(s)
    ensures MissedStayOut(ReceivePhase(cfg, s, input))
  {
    hide ChainIsSound, MissedStayOut, HandleNewBlock, HandleResponse;
    match input.message
    case Some(BlockBroadcast(b, peer)) => NewBlockStaysOut(cfg, s, b, peer);
    case Some(ResyncResponse(reply)) => ResponseStaysOut(cfg, s, reply, input);
    case _ =>
  }

  // ---- Only the node's own block can ----

  ghost predicate ProducesMissedHash(cfg: NodeConfig, s: NodeState, input: Input)
    requires ChainIsSound(s)
  {
    var own := GenerateBlock(cfg, s.chain.table.rows, s.chain.currentRound, input);
    && own.Some? && cfg.broadcastCreatedBlock && Judge(cfg.chain, s.chain.table.rows, own.value).Inserted?
    && Known(s.missed, own.value.hash)
  }

  /** Producing a block puts a missed hash into the chain exactly when it is the hash of that block. */
  lemma MissedStayOutUnlessProduced(cfg: NodeConfig, s: NodeState, input: Input)
    requires ChainIsSound(s) && MissedStayOut(s)
    requires !ProduceBlock(cfg, s, input).Raise?
    ensures MissedStayOut(ProduceBlock(cfg, s, input).state) <==> !ProducesMissedHash(cfg, s, input)
  {
    hide ChainInvariant, Insert, Judge, BestCandidate, FindHash;
    SoundIsNonempty(s);
    var t := s.chain.table;
    var own := GenerateBlock(cfg, t.rows, s.chain.currentRound, input);
    if own.Some? {
      if Judge(cfg.chain, t.rows, own.value).Inserted? {
        InsertedIsFound(cfg.chain, t, own.value);
      }
      forall i | 0 <= i < |s.missed| && !ProducesMissedHash(cfg, s, input) && cfg.broadcastCreatedBlock
        ensures FindHash(Insert(cfg.chain, t, own.value).rows, s.missed[i].block.hash).None?
      {
        UnknownUnlessInserted(cfg.chain, t, own.value, s.missed[i].block.hash);
      }
    }
  }

  /** The guards on the way to producing a block, after the round has been updated to `chain`. */
  predicate ReachesProduction(cfg: NodeConfig, s: NodeState, chain: ChainState) {
    && s.loopRound != chain.currentRound && CanCreateBlocks(cfg, chain.currentRound)
    && (s.onConsensus || (cfg.period.Some? && cfg.period.value != 0 && chain.currentRound % cfg.period.value == 0))
  }

  /** The round phase produces a block, inserts it, and its hash is a missed one. */
  ghost predicate RoundMakesMissedHash(cfg: NodeConfig, s: NodeState, input: Input)
    requires ChainIsSound(s)
  {
    UpdateRoundKeepsInvariant(cfg.chain, s.chain, input.round);
    var updated := UpdateRound(cfg.chain, s.chain, input.round);
    && !updated.raised && ReachesProduction(cfg, s, updated.state)
    && ProducesMissedHash(cfg, s.(chain := updated.state), input)
  }

  ghost predicate MakesMissedHash(cfg: NodeConfig, s: NodeState, input: Input)
    requires ChainIsSound(s)
  {
    var started := StartPhase(cfg, s, input);
    started.Go? && RoundMakesMissedHash(cfg, started.state, input)
  }

  lemma RoundIsExact(cfg: NodeConfig, s: NodeState, input: Input)
    requires ChainIsSound(s) && MissedStayOut(s)
    ensures var p := RoundPhase(cfg, s, input);
            if p.Raise? then !RoundMakesMissedHash(cfg, s, input)
            else MissedStayOut(p.state) <==> !RoundMakesMissedHash(cfg, s, input)
  {
    UpdateRoundKeepsInvariant(cfg.chain, s.chain, input.round);
    hide UpdateRound, ChainInvariant, NoneInChain, BlocksOf, BestCandidate, Judge, Insert;
    var updated := UpdateRound(cfg.chain, s.chain, input.round);
    if !updated.raised {
      SameBlocksSameUnknowns(s.missed, s.chain.table.rows, updated.state.table.rows);
      var s2 := s.(chain := updated.state, loopRound := updated.state.currentRound);
      if ReachesProduction(cfg, s, updated.state) {
        MissedStayOutUnlessProduced(cfg, s2, input);
        MissedStayOutUnlessProduced(cfg, s2.(onConsensus := true), input);
      }
    }
  }

  /** When a message is read, or the turn is over without one, no missed block is in the chain. */
  ghost predicate StayOutThisTurn(cfg: NodeConfig, s: NodeState, input: Input)
    requires ChainIsSound(s)
  {
    var p := BeforeReading(cfg, s, input);
    !p.Raise? ==> MissedStayOut(p.state)
  }

  /** For a turn: exactly the making of a missed hash lets a missed block in; reading a message never does. */
  lemma TurnIsExact(cfg: NodeConfig, s: NodeState, input: Input)
    requires ChainIsSound(s) && MissedStayOut(s)
    ensures StayOutThisTurn(cfg, s, input) <==> !MakesMissedHash(cfg, s, input)
    ensures var p := Turn(cfg, s, input); !MakesMissedHash(cfg, s, input) && !p.Raise? ==> MissedStayOut(p.state)
  {
    hide ChainInvariant, RoundPhase, ReceivePhase, NoneInChain, RoundMakesMissedHash, ReplyTo;
    PickStaysOut(s.missed, s.chain.table.rows, input, 0);
    var started := StartPhase(cfg, s, input);
    if started.Go? {
      RoundIsExact(cfg, started.state, input);
      RoundPhaseIsSound(cfg, started.state, input);
      var p := RoundPhase(cfg, started.state, input);
      if p.Go? && MissedStayOut(p.state) {
        ReceivingStaysOut(cfg, p.state, input);
      }
    }
  }

  ghost predicate StayOutAt(cfg: NodeConfig, s: NodeState, inputs: seq<Input>, k: nat)
    requires ChainIsSound(s) && k < |inputs|
  {
    var r := AfterTurns(cfg, s, inputs, k);
    r.Some? ==> StayOutThisTurn(cfg, r.value, inputs[k])
  }

  ghost predicate MakesAt(cfg: NodeConfig, s: NodeState, inputs: seq<Input>, k: nat)
    requires ChainIsSound(s) && k < |inputs|
  {
    var r := AfterTurns(cfg, s, inputs, k);
    r.Some? && MakesMissedHash(cfg, r.value, inputs[k])
  }

  ghost predicate StayOutUntil(cfg: NodeConfig, s: NodeState, inputs: seq<Input>, n: nat)
    requires ChainIsSound(s) && n <= |inputs|
  {
    forall k :: 0 <= k < n ==> StayOutAt(cfg, s, inputs, k)
  }

  ghost predicate NoneMadeUntil(cfg: NodeConfig, s: NodeState, inputs: seq<Input>, n: nat)
    requires ChainIsSound(s) && n <= |inputs|
  {
    forall k :: 0 <= k < n ==> !MakesAt(cfg, s, inputs, k)
  }

  lemma OneTurnIsExact(cfg: NodeConfig, s: NodeState, inputs: seq<Input>, k: nat)
    requires ChainIsSound(s) && k < |inputs|
    requires var r := AfterTurns(cfg, s, inputs, k); r.Some? ==> MissedStayOut(r.value)
    ensures StayOutAt(cfg, s, inputs, k) <==> !MakesAt(cfg, s, inputs, k)
    ensures var r := AfterTurns(cfg, s, inputs, k + 1); !MakesAt(cfg, s, inputs, k) && r.Some? ==> MissedStayOut(r.value)
  {
    hide ChainIsSound, MissedStayOut, StayOutThisTurn, MakesMissedHash, Turn;
    var before := AfterTurns(cfg, s, inputs, k);
    if before.Some? {
      TurnIsExact(cfg, before.value, inputs[k]);
    }
  }

  lemma {:induction false} RunIsExact(cfg: NodeConfig, s: NodeState, inputs: seq<Input>, n: nat)
    requires ChainIsSound(s) && MissedStayOut(s) && n <= |inputs|
    ensures StayOutUntil(cfg, s, inputs, n) <==> NoneMadeUntil(cfg, s, inputs, n)
    ensures var r := AfterTurns(cfg, s, inputs, n);
            NoneMadeUntil(cfg, s, inputs, n) && r.Some? ==> MissedStayOut(r.value)
    decreases n
  {
    hide ChainIsSound, MissedStayOut, StayOutAt, MakesAt, Turn;
    if n > 0 {
      RunIsExact(cfg, s, inputs, n - 1);
      if NoneMadeUntil(cfg, s, inputs, n - 1) {
        OneTurnIsExact(cfg, s, inputs, n - 1);
      }
    }
  }

  /**
   For every run of a node that has just started, with whatever messages and hashes: no missed block
   is in the chain at any moment exactly when no turn makes a block whose hash is a missed one.
   */
  lemma MissedStayOutOfEveryRun(cfg: NodeConfig, s: NodeState, round: int, inputs: seq<Input>, n: nat)
    requires JustStarted(cfg, s, round) && n <= |inputs|
    ensures StayOutUntil(cfg, s, inputs, n) <==> NoneMadeUntil(cfg, s, inputs, n)
    ensures var r := AfterTurns(cfg, s, inputs, n);
            NoneMadeUntil(cfg, s, inputs, n) && r.Some? ==> MissedStayOut(r.value)
  {
    hide ChainInvariant, UpdateRound, AfterTurns, StayOutUntil, NoneMadeUntil;
    RunIsExact(cfg, s, inputs, n);
  }
}
