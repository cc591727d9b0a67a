/**
 Two small runs that go wrong: a broadcast with a forged hash field puts a missed block into the chain,
 and honest blocks make `update_round` fail.
 */
module Counterexamples {
  import opened Wrappers
  import opened Bytes
  import opened Blocks
  import opened Sortition
  import opened Chain
  import opened ChainRuns
  import opened Confirmation
  import opened Protocol
  import opened NodeInvariant
  import opened HonestRuns
  import opened Samples

  // ---- A forged hash ----

  // A node that is on consensus in every round
  function Producer(): NodeConfig {
    NodeConfig(SampleChain(), KeyOf(7), x => [5], 2, true, Some(1))
  }

  function FreshNode(): NodeState {
    NodeState(INITIAL_CHAIN, Listening, [], [], [], 0, 0, false, 0, 0)
  }

  // Somebody else's block that carries the hash of the block the node is about to make
  function ForgedBlock(): Block {
    MadeBy(7).(owner := [], index := 5)
  }

  function Turns(): seq<Input> {
    [Reads(0, Some(BlockBroadcast(ForgedBlock(), [1]))), Reads(1, None)]
  }

  function AfterForgery(): NodeState {
    FreshNode().(missed := [Missed(ForgedBlock(), [1])])
  }

  lemma TheForgedBlockIsMissed()
    ensures ChainIsSound(FreshNode()) && JustStarted(Producer(), FreshNode(), 0)
    ensures Turn(Producer(), FreshNode(), Turns()[0]) == Go(AfterForgery())
  {
    TheForgedBlockIsRefused();
    FreshStart();
    hide MadeBy, ForgedBlock, SampleChain, Judge, Insert, FindHash, Turn, ChainInvariant, JustStarted;
    QuietTurn(Producer(), FreshNode(), Turns()[0]);
  }

  lemma FreshStart()
    ensures JustStarted(Producer(), FreshNode(), 0)
  {
  }

  lemma TheForgedBlockIsRefused()
    ensures ForgedBlock().round == 1 && ForgedBlock().owner == []
    ensures FindHash(GENESIS_TABLE.rows, ForgedBlock().hash).None?
    ensures !Judge(SampleChain(), GENESIS_TABLE.rows, ForgedBlock()).Inserted?
    ensures Insert(SampleChain(), GENESIS_TABLE, ForgedBlock()) == GENESIS_TABLE
  {
    hide MadeBy, FindHash, SampleChain, Validate, Judge, Insert, Settled, KeyOf;
    MadeByFields(7);
    FoundFirst(GENESIS_TABLE.rows, ForgedBlock().hash);
    GapsChangeNothing(SampleChain(), GENESIS_TABLE, ForgedBlock());
  }

  lemma GapsChangeNothing(cfg: Config, t: Table, b: Block)
    requires Aligned(t) && FindHash(t.rows, b.hash).None? && b.index > |t.rows|
    ensures Judge(cfg, t.rows, b).Gap? && Insert(cfg, t, b) == t
  {
    hide FindHash, Validate;
  }

  lemma TheNodeMakesThatBlock(input: Input)
    requires input == Turns()[1]
    ensures GenerateBlock(Producer(), INITIAL_CHAIN.table.rows, 1, input) == Some(MadeBy(7))
    ensures Judge(SampleChain(), INITIAL_CHAIN.table.rows, MadeBy(7)).Inserted?
  {
    MadeByFields(7);
    MadeByGoesIn(7);
    hide LengthHash, FindHash, Validate, Judge, Insert;
    assert Candidate(Producer(), INITIAL_CHAIN.table.rows, 1, 0, input) == Some(MadeBy(7));
    assert BestCandidate(Producer(), INITIAL_CHAIN.table.rows, 1, 0, input) == None;
  }

  ghost predicate MissedIsInChain(s: NodeState, b: Block) {
    (exists i :: 0 <= i < |s.missed| && s.missed[i].block == b) && FindHash(s.chain.table.rows, b.hash).Some?
  }

  lemma MissedInChainIsNotOut(s: NodeState, b: Block)
    requires MissedIsInChain(s, b)
    ensures !MissedStayOut(s)
  {
    hide FindHash;
  }

  /** Two turns of a fresh node: a block with a forged hash is missed, then the node makes that hash itself. */
  lemma AForgedHashEntersTheChain()
    ensures JustStarted(Producer(), FreshNode(), 0)
    ensures var last := AfterTurns(Producer(), FreshNode(), Turns(), 2);
            && last.Some? && MissedIsInChain(last.value, ForgedBlock())
            && !MissedStayOut(last.value)
  {
    hide Insert, Judge, GenerateBlock, FindHash, MadeBy, Turn, JustStarted, ChainInvariant, MissedStayOut,
      AfterTurns, Producer, Validate;
    TheForgedBlockIsMissed();
    TheNodeMakesThatBlock(Turns()[1]);
    InsertedIsFound(SampleChain(), INITIAL_CHAIN.table, MadeBy(7));
    SecondTurn(Turns()[1]);
    var last := Turn(Producer(), AfterForgery(), Turns()[1]).state;
    NoTurnYet(Producer(), FreshNode(), Turns());
    OneMore(Producer(), FreshNode(), Turns(), 0, FreshNode(), AfterForgery());
    OneMore(Producer(), FreshNode(), Turns(), 1, AfterForgery(), last);
    assert last.missed[0].block == ForgedBlock();
    MissedInChainIsNotOut(last, ForgedBlock());
  }

  /** And nothing collides: the forged block simply is not what its hash says. */
  lemma TheForgeryIsNoCollision()
    ensures NoCollisions(LengthHash, MissedPreimages(AfterForgery().missed) + Preimages(MadeBy(7)))
  {
    var b, forged := MadeBy(7), ForgedBlock();
    UpdateFixesHashes(LengthHash, b);
    assert |NodePreimage(b)| == 37 && |ProofPreimage(b)| == 36 && |HashPreimage(b)| == 33 && |NodePreimage(forged)| == 5;
    assert ProofPreimage(forged) == ProofPreimage(b) && HashPreimage(forged) == HashPreimage(b);
    var all := {NodePreimage(b), ProofPreimage(b), HashPreimage(b), NodePreimage(forged)};
    assert MissedPreimages(AfterForgery().missed) + Preimages(b) <= all;
    assert LengthHash(NodePreimage(b))[0] == 37 && LengthHash(ProofPreimage(b))[0] == 36;
    assert LengthHash(HashPreimage(b))[0] == 33 && LengthHash(NodePreimage(forged))[0] == 5;
    assert NoCollisions(LengthHash, all);
  }

  lemma SecondTurn(input: Input)
    requires input == Turns()[1]
    requires GenerateBlock(Producer(), INITIAL_CHAIN.table.rows, 1, input) == Some(MadeBy(7))
    ensures ChainIsSound(AfterForgery())
    ensures var p := Turn(Producer(), AfterForgery(), input);
            && p.Go? && p.state.missed == AfterForgery().missed
            && p.state.chain.table == Insert(SampleChain(), INITIAL_CHAIN.table, MadeBy(7))
  {
    hide Insert, GenerateBlock, MadeBy, UpdateRound;
    RoundOneBegins();
  }

  // ---- Honest blocks that make a round fail ----

  // Two children of that block, made in its round, that differ in their transactions
  function Child(transactionHash: ByteString): Block {
    Create(LengthHash, MadeBy(7).hash, TransactionList("[]", transactionHash), KeyOf(7), [5], 1, 2, 0).value
  }

  function ThreeInserts(): seq<Operation> {
    [DoInsert(MadeBy(7)), DoInsert(Child([])), DoInsert(Child([1]))]
  }

  lemma TheBlocksAreSettled()
    ensures Settled(LengthHash, MadeBy(7)) && Settled(LengthHash, Child([])) && Settled(LengthHash, Child([1]))
  {
  }

  lemma LengthHashTells(x: ByteString, y: ByteString)
    requires LengthHash(x) == LengthHash(y) && |x| < 256 && |y| < 256
    ensures |x| == |y| && (x != [] ==> x[0] == y[0])
  {
    assert LengthHash(x)[0] == |x| as byte && LengthHash(x)[1] == ByteAt(x, 0);
    assert LengthHash(y)[0] == |y| as byte && LengthHash(y)[1] == ByteAt(y, 0);
  }

  // Lengths, and the byte that tells two preimages of one length apart
  lemma PreimageLengths(b: Block)
    requires WellFormed(LengthHash, b)
    ensures |NodePreimage(b)| == |b.owner| + 4 + |b.parentHash| && |ProofPreimage(b)| == 36
    ensures |HashPreimage(b)| == 32 + |b.parentHash| + |b.transactionHash|
    ensures ProofPreimage(b)[0] as int == |NodePreimage(b)| % 256
  {
    UpdateFixesHashes(LengthHash, b);
    assert b.nodeHash[0] == LengthHash(NodePreimage(b))[0];
    hide LengthHash;
  }

  lemma MadeOnTheSameParent(b: Block, c: Block)
    requires WellFormed(LengthHash, b) && WellFormed(LengthHash, c) && b.owner == c.owner && b.round == c.round
    requires b.parentHash == c.parentHash && b.ticket == c.ticket
    ensures NodePreimage(b) == NodePreimage(c) && ProofPreimage(b) == ProofPreimage(c)
  {
    UpdateFixesHashes(LengthHash, b);
    UpdateFixesHashes(LengthHash, c);
    hide LengthHash;
  }

  lemma PreimagesOfChild(b: Block)
    requires b == Child([]) || b == Child([1])
    ensures FieldsFit(b) && NodePreimage(b) == NodePreimage(Child([])) && ProofPreimage(b) == ProofPreimage(Child([]))
    ensures |NodePreimage(b)| == 68 && |ProofPreimage(b)| == 36 && |HashPreimage(b)| == 64 + |b.transactionHash|
    ensures ProofPreimage(b)[0] == 68
  {
    hide LengthHash, MadeBy, Child, NodePreimage, ProofPreimage, HashPreimage, WellFormed;
    ShapeOfChild(b.transactionHash);
    ShapeOfChild([]);
    ShapeOfChild([1]);
    PreimageLengths(b);
    MadeOnTheSameParent(b, Child([]));
  }

  lemma ShapeOfChild(transactionHash: ByteString)
    ensures var b := Child(transactionHash);
            && WellFormed(LengthHash, b) && FieldsFit(b) && |b.owner| == 32 == |b.parentHash|
            && b.owner == KeyOf(7) && b.parentHash == MadeBy(7).hash && b.round == 1 && b.ticket == 0
            && b.transactionHash == transactionHash
  {
    UpdateFixesHashes(LengthHash, MadeBy(7));
    hide LengthHash;
  }

  lemma NothingCollidesThere()
    ensures NoCollisions(LengthHash, Preimages(MadeBy(7)) + Preimages(Child([])) + Preimages(Child([1])))
  {
    hide LengthHash, MadeBy, Child, NodePreimage, ProofPreimage, HashPreimage;
    var b, c, d := MadeBy(7), Child([]), Child([1]);
    PreimagesOfMade();
    PreimagesOfChild(c);
    PreimagesOfChild(d);
    ChildrenDiffer();
    var all := Preimages(b) + Preimages(c) + Preimages(d);
    forall x, y | x in all && y in all && LengthHash(x) == LengthHash(y) ensures x == y {
      LengthHashTells(x, y);
    }
  }

  lemma PreimagesOfMade()
    ensures var b := MadeBy(7);
            && FieldsFit(b) && |NodePreimage(b)| == 37 && |ProofPreimage(b)| == 36 && |HashPreimage(b)| == 33
            && ProofPreimage(b)[0] == 37
  {
    DigestsOf(7);
    UpdateFixesHashes(LengthHash, MadeBy(7));
    hide LengthHash;
  }

  lemma ChildrenDiffer()
    ensures |Child([]).transactionHash| == 0 && |Child([1]).transactionHash| == 1
  {
  }

  /** A valid child of the tip that is refused for its round still credits the tip. */
  lemma RejectedChildCreditsTheTip(cfg: Config, t: Table, first: Block, credited: nat, b: Block)
    requires Aligned(t) && t.rows == [Row(GENESIS, 0, true), Row(first, credited, false)]
    requires b.index == 2 && b.parentHash == first.hash && b.round == first.round && Validate(cfg, b) == Some(1)
    requires b.hash != GENESIS.hash && b.hash != first.hash
    ensures Judge(cfg, t.rows, b).SameRoundAsParent?
    ensures Insert(cfg, t, b).rows == [Row(GENESIS, 0, true), Row(first, credited + 1, false)]
  {
    hide Validate, FindHash;
    FoundFirst(t.rows, b.hash);
  }

  lemma ChildFields(b: Block)
    requires b == Child([]) || b == Child([1])
    ensures b.index == 2 && b.round == 1 == MadeBy(7).round && b.parentHash == MadeBy(7).hash
    ensures |b.hash| == 32 && b.hash != MadeBy(7).hash && Validate(SampleChain(), b) == Some(1)
  {
    SampleBlocksWinATicket(b);
    ChildHashIsNew(b);
    MadeByFields(7);
    hide Validate, LengthHash;
  }

  lemma ChildHashIsNew(b: Block)
    requires b == Child([]) || b == Child([1])
    ensures |b.hash| == 32 && b.hash != MadeBy(7).hash
  {
    hide LengthHash, MadeBy, Child, NodePreimage, ProofPreimage, HashPreimage;
    TheBlocksAreSettled();
    UpdateFixesHashes(LengthHash, b);
    UpdateFixesHashes(LengthHash, MadeBy(7));
    PreimagesOfMade();
    PreimagesOfChild(b);
    ChildrenDiffer();
    if b.hash == MadeBy(7).hash {
      LengthHashTells(HashPreimage(b), HashPreimage(MadeBy(7)));
    }
  }

  /**
   Two such children are enough, honest as they are: the next round but one confirms the tip as
   well, and fails on the row that is missing behind it.
   */
  lemma RejectedChildrenCanMakeARoundRaise()
    ensures Settled(LengthHash, MadeBy(7)) && Settled(LengthHash, Child([])) && Settled(LengthHash, Child([1]))
    ensures NoCollisions(LengthHash, Preimages(MadeBy(7)) + Preimages(Child([])) + Preimages(Child([1])))
    ensures Sound(INITIAL_CHAIN)
    ensures UpdateRound(SampleChain(), After(SampleChain(), INITIAL_CHAIN, ThreeInserts(), 3), 3).raised
  {
    GenesisIsSound();
    TheBlocksAreSettled();
    NothingCollidesThere();
    hide Insert, ConfirmationBound, LookForFork, Judge, MadeBy, Child, LengthHash, ChainInvariant, Validate,
      UpdateRound, Settled, Preimages, NoCollisions;
    var cfg := SampleChain();
    var t1 := Insert(cfg, GENESIS_TABLE, MadeBy(7));
    var t2 := Insert(cfg, t1, Child([]));
    var t3 := Insert(cfg, t2, Child([1]));
    MadeByGoesIn(7);
    ChildFields(Child([]));
    ChildFields(Child([1]));
    RejectedChildCreditsTheTip(cfg, t1, MadeBy(7), 0, Child([]));
    RejectedChildCreditsTheTip(cfg, t2, MadeBy(7), 1, Child([1]));
    AfterThree(cfg);
    MadeByFields(7);
    TipPasses(cfg, t3.rows[1]);
    RoundRaisesWhenEveryRowPasses(cfg, After(cfg, INITIAL_CHAIN, ThreeInserts(), 3), 3);
  }

  lemma AfterThree(cfg: Config)
    requires Sound(INITIAL_CHAIN)
    ensures After(cfg, INITIAL_CHAIN, ThreeInserts(), 3) ==
              var t1 := Insert(cfg, GENESIS_TABLE, MadeBy(7));
              var t2 := Insert(cfg, t1, Child([]));
              INITIAL_CHAIN.(table := Insert(cfg, t2, Child([1])))
  {
    hide Insert, MadeBy, Child, ChainInvariant;
    var ops := ThreeInserts();
    assert After(cfg, INITIAL_CHAIN, ops, 0) == INITIAL_CHAIN;
    assert After(cfg, INITIAL_CHAIN, ops, 1) == Step(cfg, INITIAL_CHAIN, ops[0]);
    assert After(cfg, INITIAL_CHAIN, ops, 2) == Step(cfg, After(cfg, INITIAL_CHAIN, ops, 1), ops[1]);
  }

  lemma TipPasses(cfg: Config, row: Row)
    requires cfg.totalStake == 1 && row.block.round == 1 && row.numSuc == 2
    ensures Passes(cfg, row, 3)
  {
    hide ConfirmationBound, IsConfirmationBound, ConfirmationHolds;
    assert DeltaR(row, 3) == 1 && Average(row, 1) == 2.0;
    assert ConfirmationBound(1, cfg.tau, 1, CONFIRMATION_RISK) <= 1;
  }
}
