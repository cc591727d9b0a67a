/**
 The resync converges. A node that asks a peer with a fixed valid chain for its blocks, last one
 first, finds a common ancestor at the latest when it has every block behind one that both chains
 hold, such as genesis, and the merge that follows makes the local chain the peer's, whatever the
 node appended on its own meanwhile.
 */
module Resync {
  import opened Wrappers
  import opened Bytes
  import opened Blocks
  import opened Chain
  import opened LocalChains
  import opened Protocol
  import opened NodeInvariant
  import opened NodeOperations
  import opened HonestRuns

  /**
   A chain whose blocks from an index on can be handed over: they are valid under the same
   parameters and have plain transaction lists.
   */
  ghost predicate ServesResync(cfg: Config, peer: seq<Row>, from: nat) {
    && 1 <= from < |peer| && ChainInvariant(peer) && SettledAfterGenesis(cfg.sha, BlocksOf(peer))
    && (forall i :: from <= i < |peer| ==> Servable(cfg, peer[i].block))
  }

  /** The block right before those is also a local one. */
  ghost predicate SharesAncestor(rows: seq<Row>, peer: seq<Row>, from: nat) {
    1 <= from <= |peer| && FindHash(rows, peer[from - 1].block.hash).Some?
  }

  ghost predicate Servable(cfg: Config, b: Block) {
    WellFormed(cfg.sha, b) && Validate(cfg, b).Some? && b.transactionHash == NO_TRANSACTIONS.hash
  }

  /** Block by block the same in everything the hash covers, and in the index. */
  ghost predicate AgreesWith(rows: seq<Row>, peer: seq<Row>) {
    Follows(rows, peer, |peer|) && forall i :: 0 <= i < |rows| ==> rows[i].block.index == peer[i].block.index
  }

  ghost predicate Follows(rows: seq<Row>, peer: seq<Row>, j: nat) {
    |rows| == j <= |peer| && forall i :: 0 <= i < j ==> SameContent(rows[i].block, peer[i].block)
  }

  // ---- What the peer sends ----

  /**
   A block survives being stored and rebuilt exactly when its hashes are the ones its fields give and
   its transaction list is a plain one.
   */
  lemma ComposingGivesTheBlockBack(sha: Hash, r: Row)
    ensures ComposeBlock(sha, r) == Some(r.block) <==>
            WellFormed(sha, r.block) && r.block.transactionHash == NO_TRANSACTIONS.hash
  {
  }

  lemma AnswersWalkBackwards(cfg: Config, peer: seq<Row>, from: nat, answers: nat)
    requires ServesResync(cfg, peer, from) && answers < |peer| - from
    ensures Answer(cfg.sha, peer, -1 - answers) == Success(Some(peer[|peer| - 1 - answers].block))
  {
    hide ChainInvariant, SettledAfterGenesis, ComposeBlock;
    ComposingGivesTheBlockBack(cfg.sha, peer[|peer| - 1 - answers]);
  }

  // ---- The merge ----

  lemma NextPeerBlockGoesIn(cfg: Config, t: Table, peer: seq<Row>, from: nat, j: nat)
    requires Aligned(t) && ChainInvariant(t.rows) && ServesResync(cfg, peer, from)
    requires from <= j < |peer| && Follows(t.rows, peer, j)
    ensures Judge(cfg, t.rows, peer[j].block).Inserted?
    ensures Follows(Insert(cfg, t, peer[j].block).rows, peer, j + 1)
  {
    hide SettledAfterGenesis, Validate;
    var b := peer[j].block;
    FoundFirst(t.rows, b.hash);
    assert Servable(cfg, b);
    assert SameContent(t.rows[j - 1].block, peer[j - 1].block);
  }

  lemma {:induction false} RestOfPeerGoesIn(cfg: Config, t: Table, peer: seq<Row>, from: nat, j: nat)
    requires Aligned(t) && ChainInvariant(t.rows) && ServesResync(cfg, peer, from)
    requires from <= j <= |peer| && Follows(t.rows, peer, j)
    ensures Follows(InsertAll(cfg, t, BlocksOf(peer)[j..]).rows, peer, |peer|)
    decreases |peer| - j
  {
    hide ChainInvariant, ServesResync, Follows, Judge, Insert;
    var rest := BlocksOf(peer)[j..];
    if j < |peer| {
      NextPeerBlockGoesIn(cfg, t, peer, from, j);
      InsertKeepsInvariant(cfg, t, peer[j].block);
      assert rest[0] == peer[j].block && rest[1..] == BlocksOf(peer)[j + 1..];
      RestOfPeerGoesIn(cfg, Insert(cfg, t, peer[j].block), peer, from, j + 1);
    } else {
      assert rest == [];
    }
  }

  /** A local block with the hash of a peer's block sits at its index, and the chains agree up to it. */
  lemma AncestorIsInPlace(cfg: Config, rows: seq<Row>, peer: seq<Row>, from: nat, j: nat)
    requires ChainInvariant(rows) && HashLinked(cfg.sha, BlocksOf(rows)) && ServesResync(cfg, peer, from)
    requires NoCollisions(cfg.sha, ChainPreimages(BlocksOf(rows)) + ChainPreimages(BlocksOf(peer)))
    requires j < |peer| && FindHash(rows, peer[j].block.hash).Some?
    ensures FindHash(rows, peer[j].block.hash) == Some(j)
    ensures j < |rows| && Follows(rows[..j + 1], peer, j + 1)
  {
    hide ChainInvariant, SettledAfterGenesis, HashLinked, ChainPreimages, NoCollisions, FindHash, Servable;
    SettledChainsAreHashLinked(cfg.sha, peer);
    var c, d := BlocksOf(rows), BlocksOf(peer);
    var a := FindHash(rows, peer[j].block.hash).value;
    CommonPrefix(cfg.sha, c, d, a, j);
    forall i | 0 <= i < j + 1 ensures SameContent(rows[i].block, peer[i].block) {
      assert SameContent(c[i], d[i]);
    }
  }

  /** Both chains hold genesis, so an ancestor is always shared. */
  lemma GenesisIsShared(rows: seq<Row>, peer: seq<Row>)
    requires ChainInvariant(rows) && ChainInvariant(peer) && |peer| >= 2
    ensures SharesAncestor(rows, peer, 1)
  {
    FoundFirst(rows, peer[0].block.hash);
    assert peer[0].block == rows[0].block;
  }

  /**
   Merging the peer's blocks from index j on succeeds exactly when the block before them is known;
   it then gives the peer's chain, and otherwise changes nothing.
   */
  lemma MergingASuffixOfThePeer(cfg: Config, t: Table, peer: seq<Row>, from: nat, j: nat)
    requires Aligned(t) && ChainInvariant(t.rows) && HashLinked(cfg.sha, BlocksOf(t.rows))
    requires ServesResync(cfg, peer, from) && from <= j < |peer|
    requires NoCollisions(cfg.sha, ChainPreimages(BlocksOf(t.rows)) + ChainPreimages(BlocksOf(peer)))
    ensures var r := Merge(cfg, t, BlocksOf(peer)[j..]);
            && (r.merged <==> FindHash(t.rows, peer[j - 1].block.hash).Some?)
            && (r.merged ==> AgreesWith(r.table.rows, peer))
            && (!r.merged ==> r.table == t && r.remaining == BlocksOf(peer)[j..])
  {
    hide NoCollisions, ChainPreimages, HashLinked, SettledAfterGenesis, Judge, Insert, Servable;
    var foreign := BlocksOf(peer)[j..];
    assert foreign[0] == peer[j].block && foreign[0].parentHash == peer[j - 1].block.hash;
    if FindHash(t.rows, peer[j - 1].block.hash).Some? {
      MergeKeepsInvariant(cfg, t, foreign);
      AncestorIsInPlace(cfg, t.rows, peer, from, j - 1);
      MergingAtTheAncestor(cfg, t, peer, from, j);
      AgreementIncludesIndexes(Merge(cfg, t, foreign).table.rows, peer);
    }
  }

  lemma MergingAtTheAncestor(cfg: Config, t: Table, peer: seq<Row>, from: nat, j: nat)
    requires Aligned(t) && ChainInvariant(t.rows) && ServesResync(cfg, peer, from) && from <= j < |peer|
    requires FindHash(t.rows, BlocksOf(peer)[j..][0].parentHash) == Some(j - 1)
    requires j <= |t.rows| && Follows(t.rows[..j], peer, j)
    ensures var r := Merge(cfg, t, BlocksOf(peer)[j..]); r.merged && Follows(r.table.rows, peer, |peer|)
  {
    hide ChainInvariant, ServesResync, FindHash, Judge, Insert, Follows;
    TruncationKeepsInvariant(t.rows, j);
    NextPeerBlockGoesIn(cfg, Truncate(t, j), peer, from, j);
    RestOfPeerGoesIn(cfg, Truncate(t, j), peer, from, j);
    assert BlocksOf(peer)[j..][0] == peer[j].block;
  }

  lemma AgreementIncludesIndexes(rows: seq<Row>, peer: seq<Row>)
    requires ChainInvariant(rows) && ChainInvariant(peer) && Follows(rows, peer, |peer|)
    ensures AgreesWith(rows, peer)
  {
  }

  // ---- An ancestor stays shared while the node appends its own blocks ----

  lemma KnownStaysKnown(cfg: Config, t: Table, b: Block, hash: ByteString)
    requires Aligned(t) && FindHash(t.rows, hash).Some? && b.index == |t.rows|
    ensures FindHash(Insert(cfg, t, b).rows, hash).Some?
  {
    hide Judge, Insert, FindHash;
    InsertEffect(cfg, t, b);
    UnknownInBlocks(t.rows, hash);
    UnknownInBlocks(Insert(cfg, t, b).rows, hash);
    assert BlocksOf(t.rows)[..|t.rows|] == BlocksOf(t.rows);
  }

  lemma RoundKeepsKnown(cfg: NodeConfig, s: NodeState, input: Input, hash: ByteString)
    requires ChainIsSound(s) && FindHash(s.chain.table.rows, hash).Some?
    ensures var p := RoundPhase(cfg, s, input); !p.Raise? ==> FindHash(p.state.chain.table.rows, hash).Some?
  {
    hide RoundPhase, UpdateRound, ReachesProduction, GenerateBlock, Insert, Judge, FindHash, BlocksOf;
    RoundChain(cfg, s, input);
    UpdateRoundKeepsInvariant(cfg.chain, s.chain, input.round);
    var updated := UpdateRound(cfg.chain, s.chain, input.round).state;
    UnknownInBlocks(s.chain.table.rows, hash);
    UnknownInBlocks(updated.table.rows, hash);
    var own := GenerateBlock(cfg, updated.table.rows, updated.currentRound, input);
    if own.Some? {
      OwnBlockFitsBehindTheTip(cfg, updated.table.rows, updated.currentRound, input);
      KnownStaysKnown(cfg.chain, updated.table, own.value, hash);
    }
  }

  // ---- The node while it resyncs ----

  /** So many answers have been read, without a common ancestor, and the next request is out. */
  ghost predicate InProgress(s: NodeState, peer: seq<Row>, from: nat, answers: nat) {
    && s.mode.Resyncing? && answers < |peer| - from
    && s.requestIndex == -1 - answers
    && s.received == BlocksOf(peer)[|peer| - answers..]
  }

  ghost predicate Done(before: NodeState, after: NodeState, peer: seq<Row>) {
    && after.mode.Listening? && AgreesWith(after.chain.table.rows, peer)
    && !after.chain.forkDetected && after.missed == [] && after.received == []
    && after.successfulResyncs == before.successfulResyncs + 1
  }

  ghost predicate IsAnswer(input: Input) {
    input.message.Some? && input.message.value.ResyncResponse?
  }

  ghost predicate NoCollisionsBetween(sha: Hash, rows: seq<Row>, peer: seq<Row>) {
    NoCollisions(sha, ChainPreimages(BlocksOf(rows)) + ChainPreimages(BlocksOf(peer)))
  }

  /** A local chain that the peer's blocks can be merged into. */
  ghost predicate ReadyToMerge(cfg: NodeConfig, s: NodeState, peer: seq<Row>, from: nat) {
    SettledAfterGenesis(cfg.chain.sha, BlocksOf(s.chain.table.rows)) && SharesAncestor(s.chain.table.rows, peer, from)
  }

  lemma ReadingAnAnswer(cfg: NodeConfig, s: NodeState, peer: seq<Row>, from: nat, answers: nat, input: Input)
    requires ChainIsSound(s) && ReadyToMerge(cfg, s, peer, from)
    requires ServesResync(cfg.chain, peer, from) && InProgress(s, peer, from, answers)
    requires NoCollisionsBetween(cfg.chain.sha, s.chain.table.rows, peer)
    requires IsAnswer(input) && Success(input.message.value.reply) == Answer(cfg.chain.sha, peer, s.requestIndex)
    ensures var s' := ReceivePhase(cfg, s, input);
            && (s'.mode.Listening? ==> Done(s, s', peer))
            && (s'.mode.Resyncing? ==>
                  && InProgress(s', peer, from, answers + 1)
                  && s'.chain == s.chain && s'.successfulResyncs == s.successfulResyncs)
  {
    hide ServesResync, ChainInvariant, SettledAfterGenesis, Merge, Answer, AgreesWith, HashLinked, FindHash;
    AnswersWalkBackwards(cfg.chain, peer, from, answers);
    SettledChainsAreHashLinked(cfg.chain.sha, s.chain.table.rows);
    var j := |peer| - 1 - answers;
    assert [peer[j].block] + s.received == BlocksOf(peer)[j..];
    MergingASuffixOfThePeer(cfg.chain, s.chain.table, peer, from, j);
  }

  /** The turn gets as far as reading a message, and it is an answer. */
  ghost predicate ReadsAnswer(cfg: NodeConfig, s: NodeState, input: Input)
    requires ChainIsSound(s)
  {
    BeforeReading(cfg, s, input).Go? && IsAnswer(input)
  }

  /** Answers are the peer's to the request that is out, and no preimages of the two chains collide. */
  ghost predicate AnsweredBy(cfg: NodeConfig, s: NodeState, peer: seq<Row>, input: Input)
    requires ChainIsSound(s)
  {
    ReadsAnswer(cfg, s, input) ==>
      && Success(input.message.value.reply) == Answer(cfg.chain.sha, peer, s.requestIndex)
      && NoCollisionsBetween(cfg.chain.sha, BeforeReading(cfg, s, input).state.chain.table.rows, peer)
  }

  lemma RoundKeepsProgress(cfg: NodeConfig, s: NodeState, peer: seq<Row>, from: nat, answers: nat, input: Input)
    requires ChainIsSound(s) && InProgress(s, peer, from, answers)
    ensures var p := BeforeReading(cfg, s, input);
            !p.Raise? ==> InProgress(p.state, peer, from, answers) && p.state.successfulResyncs == s.successfulResyncs
  {
    hide ChainInvariant, UpdateRound, Insert, BestCandidate;
  }

  lemma RoundKeepsReady(cfg: NodeConfig, s: NodeState, peer: seq<Row>, from: nat, input: Input)
    requires ChainIsSound(s) && |cfg.publicKey| == PUBLIC_KEY_SIZE
    requires s.mode.Resyncing? && ReadyToMerge(cfg, s, peer, from)
    ensures var p := BeforeReading(cfg, s, input); !p.Raise? ==> ReadyToMerge(cfg, p.state, peer, from)
  {
    hide ChainInvariant, RoundPhase, SettledAfterGenesis, FindHash;
    RoundKeepsSettled(cfg, s, input);
    RoundKeepsKnown(cfg, s, input, peer[from - 1].block.hash);
  }

  /** A turn that reads no answer keeps the resync where it is; one that does completes it or goes one block back. */
  lemma TurnMakesProgress(cfg: NodeConfig, s: NodeState, peer: seq<Row>, from: nat, answers: nat, input: Input)
    requires ChainIsSound(s) && |cfg.publicKey| == PUBLIC_KEY_SIZE && ReadyToMerge(cfg, s, peer, from)
    requires ServesResync(cfg.chain, peer, from) && InProgress(s, peer, from, answers)
    requires AnsweredBy(cfg, s, peer, input) && !Turn(cfg, s, input).Raise?
    ensures var s' := Turn(cfg, s, input).state;
            && (s'.mode.Listening? ==> ReadsAnswer(cfg, s, input) && Done(s, s', peer))
            && (s'.mode.Resyncing? ==>
                  && InProgress(s', peer, from, answers + if ReadsAnswer(cfg, s, input) then 1 else 0)
                  && s'.successfulResyncs == s.successfulResyncs && ReadyToMerge(cfg, s', peer, from))
  {
    hide ServesResync, ChainIsSound, BeforeReading, SettledAfterGenesis, SharesAncestor, BlocksOf, NoCollisionsBetween,
      AgreesWith, ReceivePhase, Answer;
    RoundKeepsProgress(cfg, s, peer, from, answers, input);
    RoundKeepsReady(cfg, s, peer, from, input);
    BeforeReadingIsSound(cfg, s, input);
    var p := BeforeReading(cfg, s, input);
    if ReadsAnswer(cfg, s, input) {
      ReadingAnAnswer(cfg, p.state, peer, from, answers, input);
    } else if p.Go? {
      OtherMessagesChangeNothing(cfg, p.state, input);
    }
  }

  lemma OtherMessagesChangeNothing(cfg: NodeConfig, s: NodeState, input: Input)
    requires ChainIsSound(s) && s.mode.Resyncing? && !IsAnswer(input)
    ensures ReceivePhase(cfg, s, input) == s
  {
  }

  // ---- Runs ----

  ghost function AnswersRead(cfg: NodeConfig, s: NodeState, inputs: seq<Input>, n: nat): (m: nat)
    requires ChainIsSound(s) && n <= |inputs|
    ensures m <= n
  {
    if n == 0 then 0
    else
      var before := AfterTurns(cfg, s, inputs, n - 1);
      AnswersRead(cfg, s, inputs, n - 1) +
      if before.Some? && ReadsAnswer(cfg, before.value, inputs[n - 1]) then 1 else 0
  }

  ghost predicate EveryAnswerIsBy(cfg: NodeConfig, s: NodeState, peer: seq<Row>, inputs: seq<Input>)
    requires ChainIsSound(s)
  {
    forall k :: 0 <= k < |inputs| ==> AnsweredWhen(cfg, AfterTurns(cfg, s, inputs, k), peer, inputs[k])
  }

  ghost predicate AnsweredWhen(cfg: NodeConfig, s: Option<NodeState>, peer: seq<Row>, input: Input)
    requires s.Some? ==> ChainIsSound(s.value)
  {
    s.Some? ==> AnsweredBy(cfg, s.value, peer, input)
  }

  ghost predicate ResyncingUntil(cfg: NodeConfig, s: NodeState, inputs: seq<Input>, n: nat)
    requires ChainIsSound(s) && n <= |inputs|
  {
    forall k :: 0 <= k < n ==> IsResyncing(AfterTurns(cfg, s, inputs, k))
  }

  predicate IsResyncing(s: Option<NodeState>) {
    s.Some? && s.value.mode.Resyncing?
  }

  /** A resync that has just asked for the peer's last block. */
  ghost predicate JustAsked(s: NodeState) {
    s.mode.Resyncing? && s.received == [] && s.requestIndex == -1
  }

  ghost predicate Progress(cfg: NodeConfig, s0: NodeState, s: NodeState, peer: seq<Row>, from: nat, answers: nat) {
    && InProgress(s, peer, from, answers) && ReadyToMerge(cfg, s, peer, from)
    && s.successfulResyncs == s0.successfulResyncs
  }

  lemma {:induction false} ProgressInEveryRun(cfg: NodeConfig, s: NodeState, peer: seq<Row>, from: nat,
                                              inputs: seq<Input>, n: nat)
    requires ChainIsSound(s) && |cfg.publicKey| == PUBLIC_KEY_SIZE && n <= |inputs| && ReadyToMerge(cfg, s, peer, from)
    requires ServesResync(cfg.chain, peer, from) && JustAsked(s) && EveryAnswerIsBy(cfg, s, peer, inputs)
    requires ResyncingUntil(cfg, s, inputs, n) && IsResyncing(AfterTurns(cfg, s, inputs, n))
    ensures Progress(cfg, s, AfterTurns(cfg, s, inputs, n).value, peer, from, AnswersRead(cfg, s, inputs, n))
    decreases n
  {
    hide ServesResync, ChainIsSound, AnsweredBy, ReadsAnswer, Turn, ReadyToMerge, BlocksOf;
    if n == 0 {
      NothingReceivedYet(cfg, s, peer, from);
    } else {
      var before := AfterTurns(cfg, s, inputs, n - 1);
      assert IsResyncing(before);
      ProgressInEveryRun(cfg, s, peer, from, inputs, n - 1);
      assert AnsweredWhen(cfg, before, peer, inputs[n - 1]);
      TurnMakesProgress(cfg, before.value, peer, from, AnswersRead(cfg, s, inputs, n - 1), inputs[n - 1]);
    }
  }

  lemma NothingReceivedYet(cfg: NodeConfig, s: NodeState, peer: seq<Row>, from: nat)
    requires ServesResync(cfg.chain, peer, from) && JustAsked(s)
    ensures InProgress(s, peer, from, 0)
  {
  }

  lemma OneMoreTurn(cfg: NodeConfig, s: NodeState, inputs: seq<Input>, n: nat)
    requires ChainIsSound(s) && 1 <= n <= |inputs| && AfterTurns(cfg, s, inputs, n).Some?
    ensures var before := AfterTurns(cfg, s, inputs, n - 1);
            && before.Some? && !Turn(cfg, before.value, inputs[n - 1]).Raise?
            && AfterTurns(cfg, s, inputs, n) == Some(Turn(cfg, before.value, inputs[n - 1]).state)
            && AnswersRead(cfg, s, inputs, n) == AnswersRead(cfg, s, inputs, n - 1) +
                 if ReadsAnswer(cfg, before.value, inputs[n - 1]) then 1 else 0
  {
  }

  /** Either no ancestor yet, one request further back per answer, or the chain is the peer's. */
  ghost predicate Outcome(s: NodeState, now: NodeState, peer: seq<Row>, from: nat, answers: nat) {
    && (now.mode.Resyncing? ==> answers < |peer| - from && now.requestIndex == -1 - answers)
    && (now.mode.Listening? ==> 1 <= answers <= |peer| - from && Done(s, now, peer))
  }

  lemma LastTurn(cfg: NodeConfig, s: NodeState, before: NodeState, peer: seq<Row>, from: nat, answers: nat, input: Input)
    requires ChainIsSound(before) && |cfg.publicKey| == PUBLIC_KEY_SIZE
    requires ServesResync(cfg.chain, peer, from) && Progress(cfg, s, before, peer, from, answers)
    requires AnsweredWhen(cfg, Some(before), peer, input) && !Turn(cfg, before, input).Raise?
    ensures Outcome(s, Turn(cfg, before, input).state, peer, from,
                    answers + if ReadsAnswer(cfg, before, input) then 1 else 0)
  {
    hide ServesResync, ChainInvariant, AnsweredBy, Turn, ReadyToMerge, BlocksOf, AgreesWith, BeforeReading;
    TurnMakesProgress(cfg, before, peer, from, answers, input);
  }

  /**
   For every run of turns of a node that has just asked: as long as it is resyncing it has read
   fewer than |peer| - from answers and its request is one further back with each. At the first turn
   after which it is not, its chain is the peer's, block by block, and the fork is forgotten.
   With from = 1 the shared ancestor is genesis (`GenesisIsShared`).
   */
  lemma ResyncConverges(cfg: NodeConfig, s: NodeState, peer: seq<Row>, from: nat, inputs: seq<Input>, n: nat)
    requires ChainIsSound(s) && |cfg.publicKey| == PUBLIC_KEY_SIZE && 1 <= n <= |inputs|
    requires ReadyToMerge(cfg, s, peer, from)
    requires ServesResync(cfg.chain, peer, from) && JustAsked(s) && EveryAnswerIsBy(cfg, s, peer, inputs)
    requires ResyncingUntil(cfg, s, inputs, n) && AfterTurns(cfg, s, inputs, n).Some?
    ensures Outcome(s, AfterTurns(cfg, s, inputs, n).value, peer, from, AnswersRead(cfg, s, inputs, n))
  {
    hide ServesResync, ChainIsSound, AnsweredBy, ReadsAnswer, Turn, ReadyToMerge, BlocksOf, JustAsked,
      Progress, Outcome, AfterTurns, AnswersRead;
    var before := AfterTurns(cfg, s, inputs, n - 1);
    assert IsResyncing(before) && AnsweredWhen(cfg, before, peer, inputs[n - 1]);
    ProgressInEveryRun(cfg, s, peer, from, inputs, n - 1);
    OneMoreTurn(cfg, s, inputs, n);
    LastTurn(cfg, s, before.value, peer, from, AnswersRead(cfg, s, inputs, n - 1), inputs[n - 1]);
  }
}
