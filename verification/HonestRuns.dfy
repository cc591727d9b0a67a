/**
 Nodes that only read honest messages have hash-linked chains, so the common-prefix result holds
 between any two of them, whatever else their runs did.
 */
module HonestRuns {
  import opened Wrappers
  import opened Bytes
  import opened Blocks
  import opened Chain
  import opened ChainRuns
  import opened Protocol
  import opened NodeInvariant

  ghost function IsSettled(sha: Hash): Block -> bool {
    b => Settled(sha, b)
  }

  ghost predicate SettledAfterGenesis(sha: Hash, c: seq<Block>) {
    AfterGenesis(IsSettled(sha), c)
  }

  ghost predicate AllBlocksSettled(sha: Hash, bs: seq<Block>) {
    forall i :: 0 <= i < |bs| ==> Settled(sha, bs[i])
  }

  ghost predicate MissedAreSettled(sha: Hash, missed: seq<Missed>) {
    forall i :: 0 <= i < |missed| ==> Settled(sha, missed[i].block)
  }

  ghost predicate NodeIsSettled(sha: Hash, s: NodeState) {
    && SettledAfterGenesis(sha, BlocksOf(s.chain.table.rows))
    && AllBlocksSettled(sha, s.received) && MissedAreSettled(sha, s.missed)
  }

  lemma SettledChainsAreHashLinked(sha: Hash, rows: seq<Row>)
    requires ChainInvariant(rows) && SettledAfterGenesis(sha, BlocksOf(rows))
    ensures HashLinked(sha, BlocksOf(rows))
  {
  }

  // ---- A turn ----

  lemma {:induction false} OwnBlocksAreSettled(cfg: NodeConfig, rows: seq<Row>, round: int, n: nat, input: Input)
    requires |rows| >= 1 && |cfg.publicKey| == PUBLIC_KEY_SIZE
    ensures var own := BestCandidate(cfg, rows, round, n, input);
            own.Some? ==> Settled(cfg.chain.sha, own.value) && own.value.owner == cfg.publicKey
  {
    if n > 0 {
      OwnBlocksAreSettled(cfg, rows, round, n - 1, input);
      CandidatesAreSettled(cfg, rows, round, n - 1, input);
    }
  }

  lemma CandidatesAreSettled(cfg: NodeConfig, rows: seq<Row>, round: int, ticket: nat, input: Input)
    requires |rows| >= 1 && |cfg.publicKey| == PUBLIC_KEY_SIZE
    ensures var own := Candidate(cfg, rows, round, ticket, input);
            own.Some? ==> Settled(cfg.chain.sha, own.value) && own.value.owner == cfg.publicKey
  {
  }

  lemma ProducingKeepsSettled(cfg: NodeConfig, s: NodeState, input: Input)
    requires ChainIsSound(s) && SettledAfterGenesis(cfg.chain.sha, BlocksOf(s.chain.table.rows))
    requires |cfg.publicKey| == PUBLIC_KEY_SIZE
    ensures var p := ProduceBlock(cfg, s, input);
            !p.Raise? ==> SettledAfterGenesis(cfg.chain.sha, BlocksOf(p.state.chain.table.rows))
  {
    hide ChainInvariant, Insert, BestCandidate, AfterGenesis, Settled, BlocksOf, Validate;
    SoundIsNonempty(s);
    var own := GenerateBlock(cfg, s.chain.table.rows, s.chain.currentRound, input);
    OwnBlocksAreSettled(cfg, s.chain.table.rows, s.chain.currentRound, LookupNodeStake(cfg.publicKey), input);
    if own.Some? {
      InsertKeepsAll(cfg.chain, s.chain.table, own.value, IsSettled(cfg.chain.sha));
    }
  }

  lemma RoundKeepsSettled(cfg: NodeConfig, s: NodeState, input: Input)
    requires ChainIsSound(s) && SettledAfterGenesis(cfg.chain.sha, BlocksOf(s.chain.table.rows))
    requires |cfg.publicKey| == PUBLIC_KEY_SIZE
    ensures var p := RoundPhase(cfg, s, input);
            !p.Raise? ==> SettledAfterGenesis(cfg.chain.sha, BlocksOf(p.state.chain.table.rows))
  {
    hide UpdateRound, ChainInvariant, ProduceBlock, SettledAfterGenesis, BlocksOf;
    SoundIsNonempty(s);
    UpdateRoundKeepsInvariant(cfg.chain, s.chain, input.round);
    var updated := UpdateRound(cfg.chain, s.chain, input.round);
    if !updated.raised {
      var s2 := s.(chain := updated.state, loopRound := updated.state.currentRound);
      ProducingKeepsSettled(cfg, s2, input);
      ProducingKeepsSettled(cfg, s2.(onConsensus := true), input);
    }
  }

  lemma RoundKeepsBuffers(cfg: NodeConfig, s: NodeState, input: Input)
    requires ChainIsSound(s)
    ensures var p := RoundPhase(cfg, s, input); !p.Raise? ==> p.state.received == s.received && p.state.missed == s.missed
  {
    hide UpdateRound, ChainInvariant, Insert, BestCandidate;
  }

  lemma {:induction false} PickKeepsSettled(sha: Hash, missed: seq<Missed>, input: Input, k: nat)
    requires MissedAreSettled(sha, missed)
    ensures MissedAreSettled(sha, PickTarget(missed, input, k).missed)
    decreases |missed|
  {
    hide Settled;
    if missed != [] {
      PickKeepsSettled(sha, RemoveAt(missed, input.choose(k) % |missed|), input, k + 1);
    }
  }

  lemma RemainingAreSettled(cfg: Config, t: Table, foreign: seq<Block>)
    requires Aligned(t) && |foreign| >= 1 && AllBlocksSettled(cfg.sha, foreign)
    ensures AllBlocksSettled(cfg.sha, Merge(cfg, t, foreign).remaining)
  {
    hide Settled, FindHash, Judge, Insert;
  }

  lemma ReceivingKeepsSettled(cfg: NodeConfig, s: NodeState, input: Input)
    requires ChainIsSound(s) && NodeIsSettled(cfg.chain.sha, s) && Honest(cfg.chain.sha, input)
    ensures NodeIsSettled(cfg.chain.sha, ReceivePhase(cfg, s, input))
  {
    hide ChainInvariant, Insert, Merge, Judge, Settled, AfterGenesis, BlocksOf, Validate;
    match input.message
    case Some(BlockBroadcast(b, peer)) =>
      InsertKeepsAll(cfg.chain, s.chain.table, b, IsSettled(cfg.chain.sha));
    case Some(ResyncResponse(Some(b))) =>
      MergeKeepsAll(cfg.chain, s.chain.table, [b] + s.received, IsSettled(cfg.chain.sha));
      RemainingAreSettled(cfg.chain, s.chain.table, [b] + s.received);
    case _ =>
  }

  lemma TurnKeepsSettled(cfg: NodeConfig, s: NodeState, input: Input)
    requires ChainIsSound(s) && NodeIsSettled(cfg.chain.sha, s) && |cfg.publicKey| == PUBLIC_KEY_SIZE
    requires Honest(cfg.chain.sha, input)
    ensures var p := Turn(cfg, s, input); !p.Raise? ==> NodeIsSettled(cfg.chain.sha, p.state)
  {
    hide RoundPhase, ReceivePhase, ChainInvariant, SettledAfterGenesis, AllBlocksSettled, MissedAreSettled, Honest,
      ReplyTo;
    PickKeepsSettled(cfg.chain.sha, s.missed, input, 0);
    var started := StartPhase(cfg, s, input);
    if started.Go? {
      RoundKeepsSettled(cfg, started.state, input);
      RoundKeepsBuffers(cfg, started.state, input);
      RoundPhaseIsSound(cfg, started.state, input);
      var p := RoundPhase(cfg, started.state, input);
      if p.Go? {
        ReceivingKeepsSettled(cfg, p.state, input);
      }
    }
  }

  // ---- Runs ----

  ghost predicate HonestRun(cfg: NodeConfig, inputs: seq<Input>) {
    |cfg.publicKey| == PUBLIC_KEY_SIZE && forall k :: 0 <= k < |inputs| ==> Honest(cfg.chain.sha, inputs[k])
  }

  lemma {:induction false} HonestRunsStaySettled(cfg: NodeConfig, s: NodeState, inputs: seq<Input>, n: nat)
    requires ChainIsSound(s) && NodeIsSettled(cfg.chain.sha, s) && HonestRun(cfg, inputs) && n <= |inputs|
    ensures var r := AfterTurns(cfg, s, inputs, n); r.Some? ==> NodeIsSettled(cfg.chain.sha, r.value)
    decreases n
  {
    hide ChainIsSound, NodeIsSettled, Turn, Honest;
    if n > 0 {
      HonestRunsStaySettled(cfg, s, inputs, n - 1);
      var before := AfterTurns(cfg, s, inputs, n - 1);
      if before.Some? {
        TurnKeepsSettled(cfg, before.value, inputs[n - 1]);
      }
    }
  }

  lemma StartIsSettled(cfg: NodeConfig, s: NodeState, round: int)
    requires JustStarted(cfg, s, round)
    ensures NodeIsSettled(cfg.chain.sha, s)
  {
  }

  lemma HonestChainsAreHashLinked(cfg: NodeConfig, s: NodeState, round: int, inputs: seq<Input>, n: nat)
    requires JustStarted(cfg, s, round) && HonestRun(cfg, inputs) && n <= |inputs|
    ensures var r := AfterTurns(cfg, s, inputs, n);
            r.Some? ==> HashLinked(cfg.chain.sha, BlocksOf(r.value.chain.table.rows))
  {
    hide ChainInvariant, SettledAfterGenesis, Turn, JustStarted, HonestRun;
    StartIsSettled(cfg, s, round);
    HonestRunsStaySettled(cfg, s, inputs, n);
    var r := AfterTurns(cfg, s, inputs, n);
    if r.Some? {
      SettledChainsAreHashLinked(cfg.chain.sha, r.value.chain.table.rows);
    }
  }

  // A node and all it has read since it started
  datatype Past = Past(cfg: NodeConfig, start: NodeState, round: int, inputs: seq<Input>)

  /** It has read honest messages only, and none of its turns has raised. */
  ghost predicate HonestPast(p: Past)
    ensures HonestPast(p) ==> ChainIsSound(p.start)
  {
    && JustStarted(p.cfg, p.start, p.round) && HonestRun(p.cfg, p.inputs)
    && AfterTurns(p.cfg, p.start, p.inputs, |p.inputs|).Some?
  }

  ghost function Now(p: Past): (s: NodeState)
    requires HonestPast(p)
    ensures ChainIsSound(s)
  {
    AfterTurns(p.cfg, p.start, p.inputs, |p.inputs|).value
  }

  ghost function RowsOf(p: Past): (rows: seq<Row>)
    requires HonestPast(p)
    ensures ChainInvariant(rows)
  {
    Now(p).chain.table.rows
  }

  /**
   Two honest nodes, with whatever keys, clocks, parameters and messages: if both chains hold a block
   with the same hash, they hold it at the same index and agree up to it, unless two of the chains'
   preimages collide.
   */
  lemma HonestNodesAgreeUpToACommonBlock(a: Past, b: Past, i: nat, j: nat)
    requires HonestPast(a) && HonestPast(b) && a.cfg.chain.sha == b.cfg.chain.sha
    requires i < |RowsOf(a)| && j < |RowsOf(b)| && RowsOf(a)[i].block.hash == RowsOf(b)[j].block.hash
    requires NoCollisions(a.cfg.chain.sha, ChainPreimages(BlocksOf(RowsOf(a))) + ChainPreimages(BlocksOf(RowsOf(b))))
    ensures i == j
    ensures forall k :: 0 <= k <= i ==>
              k < |RowsOf(a)| && k < |RowsOf(b)| && SameContent(RowsOf(a)[k].block, RowsOf(b)[k].block)
  {
    hide AfterTurns, JustStarted, HonestRun, HashLinked, ChainPreimages, NoCollisions, ChainIsSound, SameContent;
    HonestChainsAreHashLinked(a.cfg, a.start, a.round, a.inputs, |a.inputs|);
    HonestChainsAreHashLinked(b.cfg, b.start, b.round, b.inputs, |b.inputs|);
    var c, d := BlocksOf(RowsOf(a)), BlocksOf(RowsOf(b));
    CommonPrefix(a.cfg.chain.sha, c, d, i, j);
    forall k | 0 <= k <= i ensures SameContent(RowsOf(a)[k].block, RowsOf(b)[k].block) {
      assert SameContent(c[k], d[k]);
    }
  }

  // ---- Missed blocks stay out of the chain ----

  /** The block the turn would produce, if any. */
  ghost function OwnBlock(cfg: NodeConfig, s: NodeState, input: Input): Option<Block>
    requires ChainIsSound(s)
  {
    UpdateRoundKeepsInvariant(cfg.chain, s.chain, input.round);
    var chain := UpdateRound(cfg.chain, s.chain, input.round).state;
    GenerateBlock(cfg, chain.table.rows, chain.currentRound, input)
  }

  /** The preimages that decide whether the node's own block can share a hash with a missed one. */
  ghost function TurnPreimages(cfg: NodeConfig, s: NodeState, input: Input): set<ByteString>
    requires ChainIsSound(s)
  {
    var own := OwnBlock(cfg, s, input);
    MissedPreimages(s.missed) + if own.Some? && FieldsFit(own.value) then Preimages(own.value) else {}
  }

  ghost function MissedPreimages(missed: seq<Missed>): set<ByteString> {
    set i, x | 0 <= i < |missed| && FieldsFit(missed[i].block) && x in Preimages(missed[i].block) :: x
  }

  /** Without a collision, a block of this node has none of the missed hashes. */
  lemma OwnHashIsNew(cfg: NodeConfig, missed: seq<Missed>, own: Block, i: nat)
    requires MissedAreSettled(cfg.chain.sha, missed) && NoneOwn(cfg.publicKey, missed) && i < |missed|
    requires Settled(cfg.chain.sha, own) && own.owner == cfg.publicKey
    requires NoCollisions(cfg.chain.sha, MissedPreimages(missed) + Preimages(own))
    ensures own.hash != missed[i].block.hash
  {
    var b := missed[i].block;
    if own.hash == b.hash {
      assert Preimages(b) <= MissedPreimages(missed);
      NoCollisionsAmongFewer(cfg.chain.sha, Preimages(own) + Preimages(b), MissedPreimages(missed) + Preimages(own));
      HashBindsContent(cfg.chain.sha, own, b);
    }
  }

  lemma {:induction false} PickedWereKnown(missed: seq<Missed>, input: Input, k: nat, hash: ByteString)
    requires Known(PickTarget(missed, input, k).missed, hash)
    ensures Known(missed, hash)
    decreases |missed|
  {
    if missed != [] {
      var i := input.choose(k) % |missed|;
      if !input.canSend(k) {
        PickedWereKnown(RemoveAt(missed, i), input, k + 1, hash);
      }
      var rest := RemoveAt(missed, i);
      var j :| 0 <= j < |rest| && rest[j].block.hash == hash;
      assert missed[if j < i then j else j + 1].block.hash == hash;
    }
  }

  /** Honest messages and no collision rule the one thing out that could let a missed block in. */
  lemma CleanTurnsMakeNoMissedHash(cfg: NodeConfig, s: NodeState, input: Input)
    requires ChainIsSound(s) && MissedAreSettled(cfg.chain.sha, s.missed) && NoneOwn(cfg.publicKey, s.missed)
    requires |cfg.publicKey| == PUBLIC_KEY_SIZE && NoCollisions(cfg.chain.sha, TurnPreimages(cfg, s, input))
    ensures !MakesMissedHash(cfg, s, input)
  {
    hide ChainInvariant, UpdateRound, BestCandidate, Judge, NoCollisions, MissedPreimages, Preimages, MissedAreSettled,
      NoneOwn, PickTarget, Known;
    UpdateRoundKeepsInvariant(cfg.chain, s.chain, input.round);
    var chain := UpdateRound(cfg.chain, s.chain, input.round).state;
    SoundIsNonempty(s.(chain := chain));
    OwnBlocksAreSettled(cfg, chain.table.rows, chain.currentRound, LookupNodeStake(cfg.publicKey), input);
    var own := OwnBlock(cfg, s, input);
    if own.Some? {
      OwnIsNotKnown(cfg, s.missed, own.value);
      if Known(PickTarget(s.missed, input, 0).missed, own.value.hash) {
        PickedWereKnown(s.missed, input, 0, own.value.hash);
      }
    }
  }

  lemma OwnIsNotKnown(cfg: NodeConfig, missed: seq<Missed>, own: Block)
    requires MissedAreSettled(cfg.chain.sha, missed) && NoneOwn(cfg.publicKey, missed)
    requires Settled(cfg.chain.sha, own) && own.owner == cfg.publicKey
    requires NoCollisions(cfg.chain.sha, MissedPreimages(missed) + Preimages(own))
    ensures !Known(missed, own.hash)
  {
    hide NoCollisions, MissedPreimages, Preimages, MissedAreSettled, Settled, NoneOwn;
    forall i | 0 <= i < |missed| ensures missed[i].block.hash != own.hash {
      OwnHashIsNew(cfg, missed, own, i);
    }
  }

  /** No two preimages of the turn collide. */
  ghost predicate CollisionFreeAt(cfg: NodeConfig, s: NodeState, inputs: seq<Input>, k: nat)
    requires ChainIsSound(s) && k < |inputs|
  {
    var r := AfterTurns(cfg, s, inputs, k);
    r.Some? ==> NoCollisions(cfg.chain.sha, TurnPreimages(cfg, r.value, inputs[k]))
  }

  lemma CleanTurnMakesNone(cfg: NodeConfig, s: NodeState, round: int, inputs: seq<Input>, k: nat)
    requires JustStarted(cfg, s, round) && HonestRun(cfg, inputs) && k < |inputs|
    requires CollisionFreeAt(cfg, s, inputs, k)
    ensures !MakesAt(cfg, s, inputs, k)
  {
    hide AfterTurns, JustStarted, Honest, MakesMissedHash, ChainIsSound, NoCollisions, TurnPreimages, AllBlocksSettled,
      MissedAreSettled, ModeIsConsistent, NoneOwn, DistinctMissed, SettledAfterGenesis;
    StartIsSettled(cfg, s, round);
    HonestRunsStaySettled(cfg, s, inputs, k);
    InvariantHoldsInEveryRun(cfg, s, round, inputs, k);
    var r := AfterTurns(cfg, s, inputs, k);
    if r.Some? {
      CleanTurnsMakeNoMissedHash(cfg, r.value, inputs[k]);
    }
  }

  /** In an honest run without collisions no missed block is ever in the chain. */
  lemma MissedStayOutOfHonestRuns(cfg: NodeConfig, s: NodeState, round: int, inputs: seq<Input>, n: nat)
    requires JustStarted(cfg, s, round) && HonestRun(cfg, inputs) && n <= |inputs|
    requires forall k :: 0 <= k < n ==> CollisionFreeAt(cfg, s, inputs, k)
    ensures StayOutUntil(cfg, s, inputs, n)
    ensures var r := AfterTurns(cfg, s, inputs, n); r.Some? ==> MissedStayOut(r.value)
  {
    hide AfterTurns, JustStarted, HonestRun, MakesAt, MissedStayOut, StayOutUntil, ChainIsSound, CollisionFreeAt;
    forall k | 0 <= k < n ensures !MakesAt(cfg, s, inputs, k) {
      CleanTurnMakesNone(cfg, s, round, inputs, k);
    }
    MissedStayOutOfEveryRun(cfg, s, round, inputs, n);
  }
}
