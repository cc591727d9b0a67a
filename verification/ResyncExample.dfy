/**
 Two nodes that start from genesis, fork, and resync: all that `HonestNodesResync` asks for can be met
 together.
 */
module ResyncExample {
  import opened Wrappers
  import opened Bytes
  import opened Binomial
  import opened Blocks
  import opened Sortition
  import opened Chain
  import opened Confirmation
  import opened Protocol
  import opened NodeInvariant
  import opened HonestResync
  import opened HonestRuns
  import opened Resync
  import opened Samples

  // ---- Two nodes that fork and resync ----

  // A node that never produces blocks
  function Listener(k: byte): NodeConfig {
    NodeConfig(SampleChain(), KeyOf(k), x => [5], 2, true, None)
  }

  function InRoundOne(): NodeState {
    NodeState(INITIAL_CHAIN.(currentRound := 1), Listening, [], [], [], 0, 1, false, 0, 0)
  }

  // The first node hears of two blocks on top of genesis, the second of one; then round 3 begins for the first
  function First(): Past {
    Past(Listener(1), InRoundOne(), 1,
         [Reads(1, Some(BlockBroadcast(MadeBy(7), [1]))), Reads(1, Some(BlockBroadcast(MadeBy(9), [1]))), Reads(3, None)])
  }

  function Second(): Past {
    Past(Listener(2), InRoundOne(), 1, [Reads(1, Some(BlockBroadcast(MadeBy(9), [1])))])
  }

  function Answered(): Input {
    Reads(3, Some(ResyncResponse(Some(MadeBy(9)))))
  }

  lemma ListenersStart(k: byte)
    ensures JustStarted(Listener(k), InRoundOne(), 1)
  {
    RoundOneBegins();
    hide UpdateRound, ChainInvariant;
  }

  function WithTable(table: Table): NodeState {
    InRoundOne().(chain := INITIAL_CHAIN.(currentRound := 1, table := table))
  }

  ghost function TableWith(k: byte): Table {
    Insert(SampleChain(), GENESIS_TABLE, MadeBy(k))
  }

  lemma BlockIsHeard(node: byte, k: byte)
    requires node != k
    ensures ChainIsSound(InRoundOne()) && ChainIsSound(WithTable(TableWith(k)))
    ensures Turn(Listener(node), InRoundOne(), Reads(1, Some(BlockBroadcast(MadeBy(k), [1])))) == Go(WithTable(TableWith(k)))
  {
    ListenersStart(node);
    MadeByFields(k);
    MadeByGoesIn(k);
    KeysDiffer(node, k);
    InsertKeepsInvariant(SampleChain(), GENESIS_TABLE, MadeBy(k));
    FoundFirst(GENESIS_TABLE.rows, MadeBy(k).hash);
    hide MadeBy, KeyOf, SampleChain, Insert, Judge, ChainInvariant, FindHash, Validate, JustStarted, Turn;
    QuietTurn(Listener(node), InRoundOne(), Reads(1, Some(BlockBroadcast(MadeBy(k), [1]))));
  }

  lemma KeysDiffer(j: byte, k: byte)
    requires j != k
    ensures KeyOf(j) != KeyOf(k)
  {
    assert KeyOf(j)[0] != KeyOf(k)[0];
  }

  // The second block has no smaller proof hash, so it is refused and missed
  ghost function AfterBoth(): NodeState {
    WithTable(Insert(SampleChain(), TableWith(7), MadeBy(9))).(missed := [Missed(MadeBy(9), [1])])
  }

  lemma MadeByDiffer()
    ensures MadeBy(9).hash != MadeBy(7).hash && !Less(MadeBy(9).proofHash, MadeBy(7).proofHash)
    ensures NoCollisions(LengthHash, Preimages(MadeBy(7)) + Preimages(MadeBy(9)))
  {
    DigestsOf(7);
    DigestsOf(9);
    assert MadeBy(9).hash[3] != MadeBy(7).hash[3];
    var p, q := MadeBy(9).proofHash, MadeBy(7).proofHash;
    assert p[1..][0] == q[1..][0] && p[1..][1..][0] > q[1..][1..][0];
    hide LengthHash, MadeBy, NodePreimage, ProofPreimage, HashPreimage;
  }

  lemma SecondBlockIsWorse()
    ensures FindHash(TableWith(7).rows, MadeBy(9).hash).None?
    ensures Judge(SampleChain(), TableWith(7).rows, MadeBy(9)).WorseProofHash?
    ensures Insert(SampleChain(), TableWith(7), MadeBy(9)).rows == TableWith(7).rows
  {
    MadeByGoesIn(7);
    MadeByFields(9);
    MadeByDiffer();
    FoundFirst(TableWith(7).rows, MadeBy(9).hash);
    hide MadeBy, KeyOf, SampleChain, TableWith, FindHash, Validate, Less, Judge, Insert;
    WorseBlockChangesNoRows(SampleChain(), TableWith(7), MadeBy(7), MadeBy(9));
  }

  lemma RefusedBlocksAreMissed(cfg: NodeConfig, s: NodeState, input: Input, b: Block, peer: ByteString)
    requires ChainIsSound(s) && s.mode.Listening? && s.missed == [] && s.chain.currentRound == input.round == s.loopRound
    requires input.message == Some(BlockBroadcast(b, peer)) && b.round == input.round && b.owner != cfg.publicKey
    requires FindHash(s.chain.table.rows, b.hash).None? && !Judge(cfg.chain, s.chain.table.rows, b).Inserted?
    ensures Turn(cfg, s, input) ==
            Go(s.(chain := s.chain.(table := Insert(cfg.chain, s.chain.table, b)), missed := [Missed(b, peer)]))
  {
    hide ChainInvariant, Turn, FindHash, Judge, Insert;
    QuietTurn(cfg, s, input);
    assert [] + [Missed(b, peer)] == [Missed(b, peer)];
  }

  lemma SecondBlockIsMissed()
    ensures ChainIsSound(WithTable(TableWith(7))) && ChainIsSound(AfterBoth())
    ensures AfterBoth().chain.table.rows == TableWith(7).rows
    ensures Turn(Listener(1), WithTable(TableWith(7)), Reads(1, Some(BlockBroadcast(MadeBy(9), [1])))) == Go(AfterBoth())
  {
    hide MadeBy, KeyOf, SampleChain, TableWith, FindHash, Validate, Turn, ChainInvariant, Judge, Insert;
    BlockIsHeard(1, 7);
    SecondBlockIsWorse();
    MadeByFields(9);
    KeysDiffer(1, 9);
    InsertKeepsInvariant(SampleChain(), TableWith(7), MadeBy(9));
    RefusedBlocksAreMissed(Listener(1), WithTable(TableWith(7)), Reads(1, Some(BlockBroadcast(MadeBy(9), [1]))),
                           MadeBy(9), [1]);
  }

  lemma WorseBlockChangesNoRows(cfg: Config, t: Table, first: Block, b: Block)
    requires Aligned(t) && t.rows == [Row(GENESIS, 0, true), Row(first, 0, false)] && FindHash(t.rows, b.hash).None?
    requires b.index == 1 && b.parentHash == GENESIS.hash && Validate(cfg, b).Some? && !Less(b.proofHash, first.proofHash)
    ensures Judge(cfg, t.rows, b).WorseProofHash? && Insert(cfg, t, b).rows == t.rows
  {
    hide Validate, FindHash, Less;
  }

  // ---- Two rounds later the block is overdue ----

  ghost function AfterFork(): NodeState {
    AfterBoth().(chain := UpdateRound(SampleChain(), AfterBoth().chain, 3).state, loopRound := 3)
  }

  lemma ForkBoundIsOne()
    ensures ForkBound(1, 1, 1, FORK_CONFIDENCE) == 1
  {
    assert Pow(0.0, 1) == 0.0 * Pow(0.0, 0);
    assert Pmf(1, 0, 1.0) == Mass(1.0, 1.0, 0.0) == 0.0;
    assert SuccessProbability(1, 1) == 1.0;
    assert Cdf(1, 0, 1.0) == 0.0;
    assert Tail(1, 1, 1, 0) == 1.0;
    hide Cdf, Pmf, Pow, Mass, Tail, LastFork;
    assert ForkHolds(1, 1, 1, FORK_CONFIDENCE, 1);
  }

  lemma OverdueBlocksLookForked(row: Row)
    requires row.block.round == 1 && row.numSuc == 0
    ensures LooksForked(SampleChain(), row, 3) && !Passes(SampleChain(), row, 3)
  {
    hide ForkBound, ForkHolds, ConfirmationBound, IsConfirmationBound;
    FreshRowDoesNotPass(SampleChain(), row, 3);
    ForkBoundIsOne();
    assert DeltaR(row, 3) == 1 && Average(row, 1) == 0.0;
  }

  lemma TheForkIsDetected()
    ensures ChainIsSound(AfterBoth()) && ChainIsSound(AfterFork())
    ensures AfterFork().chain.forkDetected && AfterFork().chain.currentRound == 3
    ensures AfterFork().chain.table.rows == TableWith(7).rows
    ensures Turn(Listener(1), AfterBoth(), Reads(3, None)) == Skip(AfterFork())
  {
    SecondBlockIsMissed();
    MadeByGoesIn(7);
    MadeByFields(7);
    UpdateRoundKeepsInvariant(SampleChain(), AfterBoth().chain, 3);
    OverdueBlocksLookForked(TableWith(7).rows[1]);
    FirstOverdueRow(AfterBoth().chain, TableWith(7).rows[1].block);
    hide MadeBy, SampleChain, TableWith, Validate, UpdateRound, ChainInvariant, Insert, LooksForked, Passes;
  }

  lemma FirstOverdueRow(s: ChainState, b: Block)
    requires Aligned(s.table) && s.table.rows == [Row(GENESIS, 0, true), Row(b, 0, false)] && s.currentRound == 1
    requires LooksForked(SampleChain(), Row(b, 0, false), 3) && !Passes(SampleChain(), Row(b, 0, false), 3)
    ensures var r := UpdateRound(SampleChain(), s, 3);
            && !r.raised && r.state.forkDetected && r.state.currentRound == 3 && r.state.table.rows == s.table.rows
  {
    hide LooksForked, Passes, SampleChain;
    CountIs(s.table.rows, 1);
    ConfirmedSoFarAtStart(s.(currentRound := 3), 1);
  }

  // ---- The resync ----

  lemma FirstPast()
    ensures ChainIsSound(InRoundOne()) && AfterTurns(Listener(1), InRoundOne(), First().inputs, 3) == Some(AfterFork())
  {
    hide Turn, MadeBy, SampleChain, Insert, UpdateRound, Listener, ChainInvariant, AfterTurns, TableWith, WithTable,
      AfterBoth, AfterFork, InRoundOne;
    BlockIsHeard(1, 7);
    SecondBlockIsMissed();
    TheForkIsDetected();
    var cfg, s, inputs := Listener(1), InRoundOne(), First().inputs;
    NoTurnYet(cfg, s, inputs);
    OneMore(cfg, s, inputs, 0, s, WithTable(TableWith(7)));
    OneMore(cfg, s, inputs, 1, WithTable(TableWith(7)), AfterBoth());
    OneMore(cfg, s, inputs, 2, AfterBoth(), AfterFork());
  }

  lemma SecondPast()
    ensures ChainIsSound(InRoundOne())
    ensures AfterTurns(Listener(2), InRoundOne(), Second().inputs, 1) == Some(WithTable(TableWith(9)))
  {
    hide Turn, MadeBy, SampleChain, Insert, Listener, ChainInvariant, AfterTurns, TableWith, WithTable, InRoundOne;
    BlockIsHeard(2, 9);
    NoTurnYet(Listener(2), InRoundOne(), Second().inputs);
    OneMore(Listener(2), InRoundOne(), Second().inputs, 0, InRoundOne(), WithTable(TableWith(9)));
  }

  lemma BroadcastsAreHonest(round: int, b: Block, peer: ByteString)
    requires Settled(LengthHash, b)
    ensures Honest(LengthHash, Reads(round, Some(BlockBroadcast(b, peer))))
  {
  }

  lemma FirstHearsHonestMessages()
    ensures HonestRun(Listener(1), First().inputs)
  {
    hide MadeBy, Settled, Honest, LengthHash, HonestRun;
    MadeByFields(7);
    MadeByFields(9);
    BroadcastsAreHonest(1, MadeBy(7), [1]);
    BroadcastsAreHonest(1, MadeBy(9), [1]);
    SilenceIsHonest();
    ThreeHonest(Listener(1), First().inputs);
  }

  lemma SecondHearsAnHonestMessage()
    ensures HonestRun(Listener(2), Second().inputs)
  {
    hide MadeBy, Settled, Honest, LengthHash, HonestRun;
    MadeByFields(9);
    BroadcastsAreHonest(1, MadeBy(9), [1]);
    ThreeHonest(Listener(2), Second().inputs);
  }

  lemma ThreeHonest(cfg: NodeConfig, inputs: seq<Input>)
    requires |cfg.publicKey| == PUBLIC_KEY_SIZE && |inputs| <= 3
    requires |inputs| > 0 ==> Honest(cfg.chain.sha, inputs[0])
    requires |inputs| > 1 ==> Honest(cfg.chain.sha, inputs[1])
    requires |inputs| > 2 ==> Honest(cfg.chain.sha, inputs[2])
    ensures HonestRun(cfg, inputs)
  {
    hide Honest;
  }

  lemma HonestBy(p: Past, now: NodeState)
    requires JustStarted(p.cfg, p.start, p.round) && HonestRun(p.cfg, p.inputs)
    requires AfterTurns(p.cfg, p.start, p.inputs, |p.inputs|) == Some(now)
    ensures HonestPast(p) && Now(p) == now
  {
    hide JustStarted, HonestRun, AfterTurns;
  }

  lemma PastsAreHonest()
    ensures HonestPast(First()) && Now(First()) == AfterFork()
    ensures HonestPast(Second()) && Now(Second()) == WithTable(TableWith(9))
  {
    hide MadeBy, SampleChain, Listener, JustStarted, HonestRun, AfterTurns, ChainInvariant, TableWith, WithTable,
      AfterFork, InRoundOne, HonestPast, Now;
    ListenersStart(1);
    ListenersStart(2);
    FirstPast();
    SecondPast();
    FirstHearsHonestMessages();
    SecondHearsAnHonestMessage();
    HonestBy(First(), AfterFork());
    HonestBy(Second(), WithTable(TableWith(9)));
  }

  lemma SilenceIsHonest()
    ensures Honest(LengthHash, Reads(3, None))
  {
  }

  ghost function Asking(): NodeState {
    AfterFork().(missed := [], target := [1], requestIndex := -1, mode := Resyncing, resyncs := 1)
  }

  lemma TheFirstNodeAsks()
    ensures ChainIsSound(AfterFork()) && ChainIsSound(Asking())
    ensures AsksFrom(Listener(1), AfterFork(), Answered(), Asking())
    ensures BeforeReading(Listener(1), Asking(), Answered()) == Go(Asking())
    ensures !Turn(Listener(1), Asking(), Answered()).Raise?
  {
    TheForkIsDetected();
    hide MadeBy, SampleChain, UpdateRound, ChainInvariant, Insert, ReceivePhase;
    assert RemoveAt([Missed(MadeBy(9), [1])], 0) == [];
    QuietTurn(Listener(1), Asking(), Answered());
  }

  lemma TheNodesAreCompatible()
    ensures Compatible(First(), Second(), 1)
    ensures RowsOf(First()) == [Row(GENESIS, 0, true), Row(MadeBy(7), 0, false)]
    ensures RowsOf(Second()) == [Row(GENESIS, 0, true), Row(MadeBy(9), 0, false)]
  {
    hide MadeBy, SampleChain, Insert, HonestPast, ChainInvariant, FindHash;
    PastsAreHonest();
    TheForkIsDetected();
    MadeByGoesIn(7);
    MadeByGoesIn(9);
    MadeByFields(9);
    GenesisIsShared(RowsOf(First()), RowsOf(Second()));
  }

  lemma NothingCollidesBetween(sha: Hash, b: Block, c: Block)
    requires FieldsFit(b) && FieldsFit(c) && NoCollisions(sha, Preimages(b) + Preimages(c))
    ensures NoCollisionsBetween(sha, [Row(GENESIS, 0, true), Row(b, 0, false)], [Row(GENESIS, 0, true), Row(c, 0, false)])
  {
    hide Preimages, NoCollisions, ChainPreimages;
    assert BlocksOf([Row(GENESIS, 0, true), Row(b, 0, false)]) == [GENESIS, b];
    assert BlocksOf([Row(GENESIS, 0, true), Row(c, 0, false)]) == [GENESIS, c];
    OnlyTheBlockIsHashed(b);
    OnlyTheBlockIsHashed(c);
  }

  lemma OnlyTheBlockIsHashed(b: Block)
    requires FieldsFit(b)
    ensures ChainPreimages([GENESIS, b]) == Preimages(b)
  {
    var c := [GENESIS, b];
    assert c[1] == b && Preimages(c[1]) <= ChainPreimages(c);
  }

  lemma TheAnswerIsTheirs()
    ensures ChainIsSound(Asking()) && HonestPast(Second())
    ensures AnsweredFor(Listener(1), Asking(), RowsOf(Second()), [Answered()], 1)
  {
    hide MadeBy, SampleChain, Insert, HonestPast, ChainInvariant, Turn, BeforeReading, UpdateRound, NoCollisionsBetween,
      Answer, ServesResync, LengthHash, Preimages, NoCollisions, FieldsFit;
    TheNodesAreCompatible();
    PastsAreHonest();
    TheForkIsDetected();
    TheFirstNodeAsks();
    HonestPeersServe(Second(), 1);
    AnswersWalkBackwards(SampleChain(), RowsOf(Second()), 1, 0);
    MadeByDiffer();
    MadeByFit();
    NothingCollidesBetween(LengthHash, MadeBy(7), MadeBy(9));
    SampleHash();
    var cfg, s, inputs := Listener(1), Asking(), [Answered()];
    assert AfterTurns(cfg, s, inputs, 0) == Some(s);
    assert AnsweredBy(cfg, s, RowsOf(Second()), inputs[0]);
  }

  lemma MadeByFit()
    ensures FieldsFit(MadeBy(7)) && FieldsFit(MadeBy(9))
  {
  }

  lemma SampleHash()
    ensures SampleChain().sha == LengthHash
  {
  }

  /** All that `HonestNodesResync` asks for holds, the chains differ, and at the end they do not. */
  ghost predicate IsResync(a: Past, b: Past, asking: NodeState, later: seq<Input>) {
    && Compatible(a, b, 1) && later != [] && AsksFrom(a.cfg, Now(a), later[0], asking)
    && AnsweredFor(a.cfg, asking, RowsOf(b), later, |later|) && !AgreesWith(RowsOf(a), RowsOf(b))
    && var last := AfterTurns(a.cfg, Now(a), later, |later|);
       last.Some? && Done(asking, last.value, RowsOf(b))
  }

  /**
   Two nodes that start from genesis: the first hears of two blocks and keeps the one the second has
   not got, detects the fork two rounds later, asks, and after one answer has the second's chain.
   */
  lemma AResyncThatCompletes()
    ensures IsResync(First(), Second(), Asking(), [Answered()])
  {
    hide MadeBy, Listener, HonestPast, ChainInvariant, Turn, Done, AsksFrom, AfterTurns, First, Second, Asking,
      Answered, Compatible, AnsweredFor, AgreesWith, ReadsAnswer, Now, RowsOf;
    TheNodesAreCompatible();
    PastsAreHonest();
    TheFirstNodeAsks();
    TheAnswerIsTheirs();
    TheConfigs();
    TheChainsDiffer();
    TheAnswerIsRead();
    OneAnswerIsEnough(First(), Second(), Asking(), Answered());
  }

  lemma TheChainsDiffer()
    ensures HonestPast(First()) && HonestPast(Second()) && |RowsOf(Second())| == 2
    ensures !AgreesWith(RowsOf(First()), RowsOf(Second()))
  {
    hide MadeBy, Listener, HonestPast, ChainInvariant, Compatible, RowsOf;
    TheNodesAreCompatible();
    CompatiblePastsAreHonest(First(), Second(), 1);
    MadeByDiffer();
    assert RowsOf(First())[1].block.hash != RowsOf(Second())[1].block.hash;
  }

  lemma CompatiblePastsAreHonest(a: Past, b: Past, from: nat)
    requires Compatible(a, b, from)
    ensures HonestPast(a) && HonestPast(b)
  {
    hide HonestPast, PlainFrom, SharesAncestor;
  }

  lemma TheAnswerIsRead()
    ensures ChainIsSound(Asking()) && ReadsAnswer(Listener(1), Asking(), Answered())
  {
    hide BeforeReading, Listener, ChainInvariant, Asking;
    TheFirstNodeAsks();
  }

  lemma TheConfigs()
    ensures First().cfg == Listener(1)
  {
  }

  lemma OneAnswerIsEnough(a: Past, b: Past, asking: NodeState, answer: Input)
    requires Compatible(a, b, 1) && |RowsOf(b)| == 2 && AsksFrom(a.cfg, Now(a), answer, asking)
    requires AnsweredFor(a.cfg, asking, RowsOf(b), [answer], 1) && ReadsAnswer(a.cfg, asking, answer)
    ensures var last := AfterTurns(a.cfg, Now(a), [answer], 1); last.Some? && Done(asking, last.value, RowsOf(b))
  {
    hide HonestPast, AfterTurns, AsksFrom, Done, ReadsAnswer, PlainFrom, SharesAncestor, ChainInvariant, EveryAnswerIsBy,
      ResyncingUntil, AnswersRead;
    HonestNodesResync(a, b, asking, [answer], 1, 1);
    var last := AfterTurns(a.cfg, Now(a), [answer], 1).value;
    if last.mode.Resyncing? {
      OneAnswerRead(a.cfg, asking, [answer]);
    }
  }

  lemma OneAnswerRead(cfg: NodeConfig, s: NodeState, inputs: seq<Input>)
    requires ChainIsSound(s) && inputs != [] && ReadsAnswer(cfg, s, inputs[0])
    ensures AnswersRead(cfg, s, inputs, 1) == 1
  {
    hide ChainIsSound, ReadsAnswer;
    assert AfterTurns(cfg, s, inputs, 0) == Some(s) && AnswersRead(cfg, s, inputs, 0) == 0;
  }
}
