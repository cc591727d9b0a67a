/**
 The meaning of the three operations of cpos/core/blockchain.py on the `localChains` table, and
 the invariant every reachable table satisfies.

 A table is its rows in index order. The history fields (`log`, `birth`, `frozen`) are not in the
 program: they record which tickets were credited, and since when each row has been counting.
 */
module Chain {
  import opened Wrappers
  import opened Bytes
  import opened Blocks
  import opened Sortition

  datatype Parameters = Parameters(
    sha: Hash,
    verify: (ByteString, ByteString, ByteString) -> bool,  // Ed25519: key, signature, message
    tau: nat,
    totalStake: nat)

  ghost predicate ValidParameters(p: Parameters) {
    1 <= p.totalStake && p.tau <= p.totalStake
  }

  type Config = p: Parameters | ValidParameters(p)
    ghost witness Parameters(x => seq(32, _ => 0), (k, s, m) => false, 1, 1)

  datatype Row = Row(block: Block, numSuc: nat, confirmed: bool)

  datatype Credit = Credit(index: nat, tickets: nat)

  datatype Table = Table(rows: seq<Row>, log: seq<Credit>, birth: seq<nat>, frozen: seq<nat>)

  const GENESIS_TABLE := Table([Row(GENESIS, 0, true)], [], [0], [0])

  // ---- The invariant ----

  ghost predicate Indexed(rows: seq<Row>) {
    forall i :: 0 <= i < |rows| ==> rows[i].block.index == i
  }

  ghost predicate Linked(rows: seq<Row>) {
    forall i :: 1 <= i < |rows| ==> rows[i].block.parentHash == rows[i - 1].block.hash
  }

  ghost predicate DistinctHashes(rows: seq<Row>) {
    forall i, j :: 0 <= i < j < |rows| ==> rows[i].block.hash != rows[j].block.hash
  }

  ghost predicate RoundsRise(rows: seq<Row>) {
    forall i, j :: 0 <= i < j < |rows| ==> rows[i].block.round < rows[j].block.round
  }

  ghost predicate ConfirmedPrefix(rows: seq<Row>) {
    forall i, j :: 0 <= i < j < |rows| && rows[j].confirmed ==> rows[i].confirmed
  }

  ghost predicate NumSucFalls(rows: seq<Row>) {
    forall i, j :: 0 <= i < j < |rows| && !rows[i].confirmed ==> rows[i].numSuc >= rows[j].numSuc
  }

  ghost predicate ChainInvariant(rows: seq<Row>) {
    && |rows| >= 1
    && rows[0].block == GENESIS && rows[0].confirmed
    && Indexed(rows) && Linked(rows) && DistinctHashes(rows) && RoundsRise(rows)
    && ConfirmedPrefix(rows) && NumSucFalls(rows)
  }

  ghost predicate NoLongerThanItsRound(rows: seq<Row>) {
    |rows| >= 1 && |rows| <= rows[|rows| - 1].block.round + 1
  }

  /** Rounds rise from 0, so the tip's round bounds the length of the chain. */
  lemma LengthIsBoundedByRound(rows: seq<Row>)
    requires ChainInvariant(rows)
    ensures NoLongerThanItsRound(rows)
  {
    RoundAtLeastIndex(rows, |rows| - 1);
  }

  lemma {:induction false} RoundAtLeastIndex(rows: seq<Row>, i: nat)
    requires RoundsRise(rows) && i < |rows| && rows[0].block == GENESIS
    ensures rows[i].block.round >= i
  {
    if i > 0 {
      RoundAtLeastIndex(rows, i - 1);
    }
  }

  function BlocksOf(rows: seq<Row>): seq<Block> {
    seq(|rows|, i requires 0 <= i < |rows| => rows[i].block)
  }

  // ---- validate_block ----

  const NODE_STAKE: nat := 1

  function LookupNodeStake(id: ByteString): nat {
    NODE_STAKE
  }

  ghost function Validate(cfg: Config, b: Block): (tickets: Option<nat>)
    ensures tickets.Some? ==> |b.owner| == PUBLIC_KEY_SIZE && cfg.verify(b.owner, b.signedNodeHash, b.nodeHash)
    ensures tickets.Some? ==> 0 < tickets.value <= LookupNodeStake(b.owner) && b.ticket <= tickets.value
  {
    if |b.owner| != PUBLIC_KEY_SIZE || !cfg.verify(b.owner, b.signedNodeHash, b.nodeHash) then None
    else
      var won := WinningTickets(HashFraction(cfg.sha(b.signedNodeHash)), LookupNodeStake(b.owner),
                                SuccessProbability(cfg.totalStake, cfg.tau));
      if won == 0 || won < b.ticket then None else Some(won)
  }

  // ---- insert ----

  ghost function FindHash(rows: seq<Row>, hash: ByteString): (r: Option<nat>)
    ensures r.Some? ==> r.value < |rows| && rows[r.value].block.hash == hash
  {
    if rows == [] then None
    else
      var n := |rows| - 1;
      var r := FindHash(rows[..n], hash);
      if r.Some? then r else if rows[n].block.hash == hash then Some(n) else None
  }

  datatype Verdict =
    | Inserted
    | AlreadyInChain
    | NewGenesis
    | Gap
    | ParentMismatch
    | ValidationFailed
    | WorseProofHash
    | SameRoundAsParent

  lemma {:induction false} FoundFirst(rows: seq<Row>, hash: ByteString)
    ensures FindHash(rows, hash).None? <==> forall i :: 0 <= i < |rows| ==> rows[i].block.hash != hash
    ensures var r := FindHash(rows, hash); r.Some? ==> forall i :: 0 <= i < r.value ==> rows[i].block.hash != hash
  {
    if rows != [] {
      FoundFirst(rows[..|rows| - 1], hash);
    }
  }

  ghost function Judge(cfg: Config, rows: seq<Row>, b: Block): Verdict {
    if FindHash(rows, b.hash).Some? then AlreadyInChain
    else if b.index == 0 then NewGenesis
    else if b.index > |rows| then Gap
    else if rows[b.index - 1].block.hash != b.parentHash then ParentMismatch
    else if Validate(cfg, b).None? then ValidationFailed
    else if b.index < |rows| && !Less(b.proofHash, rows[b.index].block.proofHash) then WorseProofHash
    else if b.round <= rows[b.index - 1].block.round then SameRoundAsParent
    else Inserted
  }

  // Tickets are credited once the block is valid, before its proof hash and round are looked at
  ghost predicate Credits(v: Verdict) {
    v.Inserted? || v.WorseProofHash? || v.SameRoundAsParent?
  }

  function CreditRow(row: Row, tickets: nat): Row {
    if row.confirmed then row else row.(numSuc := row.numSuc + tickets)
  }

  function CreditBelow(rows: seq<Row>, index: nat, tickets: nat): (credited: seq<Row>)
    ensures |credited| == |rows|
  {
    seq(|rows|, i requires 0 <= i < |rows| => if i < index then CreditRow(rows[i], tickets) else rows[i])
  }

  function CreditTable(t: Table, index: nat, tickets: nat): Table {
    t.(rows := CreditBelow(t.rows, index, tickets), log := t.log + [Credit(index, tickets)])
  }

  function Truncate(t: Table, n: nat): Table
    requires Aligned(t) && n <= |t.rows|
  {
    Table(t.rows[..n], t.log, t.birth[..n], t.frozen[..n])
  }

  function Append(t: Table, b: Block): Table
    requires Aligned(t)
  {
    Table(t.rows + [Row(b, 0, false)], t.log, t.birth + [|t.log|], t.frozen + [0])
  }

  predicate Aligned(t: Table) {
    |t.rows| == |t.birth| == |t.frozen|
  }

  ghost function Insert(cfg: Config, t: Table, b: Block): (t': Table)
    requires Aligned(t)
    ensures Aligned(t')
  {
    var v := Judge(cfg, t.rows, b);
    if !Credits(v) then t
    else
      var won := Validate(cfg, b).value;
      var credited := CreditTable(t, b.index, won);
      if !v.Inserted? then credited
      else
        Append(Truncate(credited, b.index), b)
  }

  /** What the last row must be for a new block to go behind it. */
  ghost predicate CanFollow(rows: seq<Row>, b: Block) {
    && |rows| >= 1 && b.index == |rows| && FindHash(rows, b.hash).None?
    && b.parentHash == rows[|rows| - 1].block.hash && b.round > rows[|rows| - 1].block.round
  }

  /** The two tests that are left for a block that has been credited. */
  lemma CreditedOutcome(cfg: Config, t: Table, b: Block, won: nat)
    requires Aligned(t) && Validate(cfg, b) == Some(won) && Credits(Judge(cfg, t.rows, b))
    ensures 1 <= b.index <= |t.rows| && t.rows[b.index - 1].block.hash == b.parentHash
    ensures var credited := CreditTable(t, b.index, won);
            && Aligned(credited) && |credited.rows| == |t.rows|
            && credited.rows[b.index - 1].block == t.rows[b.index - 1].block
            && (b.index < |t.rows| ==> credited.rows[b.index].block == t.rows[b.index].block)
            && Aligned(Truncate(credited, b.index))
            && (Judge(cfg, t.rows, b).Inserted? ==> CanFollow(Truncate(credited, b.index).rows, b))
    ensures Judge(cfg, t.rows, b).Inserted? <==>
              && (b.index < |t.rows| ==> Less(b.proofHash, t.rows[b.index].block.proofHash))
              && b.round > t.rows[b.index - 1].block.round
    ensures Insert(cfg, t, b) ==
              var credited := CreditTable(t, b.index, won);
              if Judge(cfg, t.rows, b).Inserted? then Append(Truncate(credited, b.index), b) else credited
  {
    UnknownStaysUnknown(t.rows, b.hash, b.index, won);
  }

  // ---- merge ----

  /** Inserts one block after another and stops at the first that is refused. */
  ghost function InsertAll(cfg: Config, t: Table, bs: seq<Block>): (t': Table)
    requires Aligned(t)
    ensures Aligned(t')
    decreases |bs|
  {
    if bs == [] then t
    else
      var t1 := Insert(cfg, t, bs[0]);
      if Judge(cfg, t.rows, bs[0]).Inserted? then InsertAll(cfg, t1, bs[1..]) else t1
  }

  function Reattach(t: Table, removedFrom: Table, n: nat): Table
    requires Aligned(removedFrom) && n <= |removedFrom.rows|
  {
    Table(t.rows + removedFrom.rows[n..], t.log, t.birth + removedFrom.birth[n..], t.frozen + removedFrom.frozen[n..])
  }

  datatype MergeResult = MergeResult(table: Table, merged: bool, remaining: seq<Block>)

  /** `remaining` is what is left of the caller's list: the head is popped once an ancestor is found. */
  ghost function Merge(cfg: Config, t: Table, foreign: seq<Block>): (r: MergeResult)
    requires Aligned(t) && |foreign| >= 1
    ensures Aligned(r.table)
  {
    var ancestor := FindHash(t.rows, foreign[0].parentHash);
    if ancestor.None? then MergeResult(t, false, foreign)
    else
      var n := ancestor.value + 1;
      var cut := Truncate(t, n);
      var tried := Insert(cfg, cut, foreign[0]);
      if Judge(cfg, cut.rows, foreign[0]).Inserted? then
        MergeResult(InsertAll(cfg, tried, foreign[1..]), true, foreign[1..])
      else
        MergeResult(Reattach(tried, t, n), false, foreign[1..])
  }

  // ---- update_round ----

  const CONFIRMATION_RISK: real := 0.000001
  const FORK_CONFIDENCE: real := 0.95

  function DeltaR(row: Row, round: int): int {
    round - row.block.round - 1
  }

  function Average(row: Row, deltaR: int): real
    requires deltaR > 0
  {
    row.numSuc as real / deltaR as real
  }

  predicate Measured(row: Row, round: int, deltaR: int, average: real) {
    deltaR == DeltaR(row, round) && (deltaR > 0 ==> average == Average(row, deltaR))
  }

  /** The row has waited at least a round and its average beats the confirmation bound. */
  ghost predicate Passes(cfg: Config, row: Row, round: int) {
    var d := DeltaR(row, round);
    d > 0 && Average(row, d) > ConfirmationBound(cfg.totalStake, cfg.tau, d, CONFIRMATION_RISK) as real
  }

  ghost predicate LooksForked(cfg: Config, row: Row, round: int) {
    var d := DeltaR(row, round);
    d > 0 && Average(row, d) < ForkBound(cfg.totalStake, cfg.tau, d, FORK_CONFIDENCE) as real
  }

  datatype Delay = Delay(id: ByteString, index: nat, rounds: int)

  datatype ChainState = ChainState(
    table: Table,
    currentRound: int,
    forkDetected: bool,
    forksDetected: nat,
    delays: seq<Delay>,
    lastDelay: int)

  ghost predicate Sound(s: ChainState) {
    Aligned(s.table) && ChainInvariant(s.table.rows)
  }

  const INITIAL_CHAIN := ChainState(GENESIS_TABLE, 0, false, 0, [], 0)

  /** How many rows are confirmed; under the invariant, the index of the oldest unconfirmed row. */
  function ConfirmedCount(rows: seq<Row>): (n: nat)
    ensures n <= |rows|
  {
    FirstUnconfirmed(rows, 0)
  }

  function FirstUnconfirmed(rows: seq<Row>, from: nat): (n: nat)
    requires from <= |rows|
    ensures from <= n <= |rows|
    decreases |rows| - from
  {
    if from < |rows| && rows[from].confirmed then FirstUnconfirmed(rows, from + 1) else from
  }

  lemma {:induction false} FirstUnconfirmedSplits(rows: seq<Row>, from: nat)
    requires from <= |rows|
    ensures forall i :: from <= i < FirstUnconfirmed(rows, from) ==> rows[i].confirmed
    ensures FirstUnconfirmed(rows, from) < |rows| ==> !rows[FirstUnconfirmed(rows, from)].confirmed
    decreases |rows| - from
  {
    if from < |rows| && rows[from].confirmed {
      FirstUnconfirmedSplits(rows, from + 1);
    }
  }

  /** The end of the longest run of passing rows that starts at `from`. */
  ghost function RunEnd(cfg: Config, rows: seq<Row>, round: int, from: nat): (n: nat)
    requires from <= |rows|
    ensures from <= n <= |rows|
    decreases |rows| - from
  {
    if from < |rows| && Passes(cfg, rows[from], round) then RunEnd(cfg, rows, round, from + 1) else from
  }

  function ConfirmRange(t: Table, lo: nat, hi: nat): (t': Table)
    requires Aligned(t) && lo <= hi <= |t.rows|
    ensures Aligned(t')
  {
    t.(rows := seq(|t.rows|, i requires 0 <= i < |t.rows| =>
                     if lo <= i < hi then t.rows[i].(confirmed := true) else t.rows[i]),
       frozen := seq(|t.rows|, i requires 0 <= i < |t.rows| => if lo <= i < hi then |t.log| else t.frozen[i]))
  }

  function DelaysOf(rows: seq<Row>, round: int): seq<Delay> {
    seq(|rows|, i requires 0 <= i < |rows| =>
      Delay(rows[i].block.hash, rows[i].block.index, round - rows[i].block.round))
  }

  /** The state once rows lo..hi, the oldest unconfirmed ones, have been confirmed in this round. */
  function ConfirmedSoFar(s: ChainState, lo: nat, hi: nat): ChainState
    requires Aligned(s.table) && lo <= hi <= |s.table.rows|
  {
    var rows := s.table.rows;
    s.(table := ConfirmRange(s.table, lo, hi),
       delays := s.delays + DelaysOf(rows[lo..hi], s.currentRound),
       lastDelay := if 0 < lo < hi then s.currentRound - rows[lo - 1].block.round else s.lastDelay)
  }

  function RowAt(rows: seq<Row>, i: nat): Option<Row> {
    if i < |rows| then Some(rows[i]) else None
  }

  function OldestOf(rows: seq<Row>): Option<Row> {
    RowAt(rows, ConfirmedCount(rows))
  }

  function ConfirmNext(t: Table): Table
    requires Aligned(t) && OldestOf(t.rows).Some?
  {
    ConfirmRange(t, ConfirmedCount(t.rows), ConfirmedCount(t.rows) + 1)
  }

  function ConfirmOne(s: ChainState, lastConfirmedRound: int): ChainState
    requires Aligned(s.table) && OldestOf(s.table.rows).Some?
  {
    var row := OldestOf(s.table.rows).value;
    s.(table := ConfirmNext(s.table),
       delays := s.delays + [Delay(row.block.hash, row.block.index, s.currentRound - row.block.round)],
       lastDelay := s.currentRound - lastConfirmedRound)
  }

  ghost function RunOf(cfg: Config, s: ChainState): nat {
    RunEnd(cfg, s.table.rows, s.currentRound, ConfirmedCount(s.table.rows))
  }

  ghost function ConfirmRun(cfg: Config, s: ChainState): ChainState
    requires Aligned(s.table)
  {
    ConfirmedSoFar(s, ConfirmedCount(s.table.rows), RunOf(cfg, s))
  }

  ghost function RowAfterRun(cfg: Config, s: ChainState): Option<Row> {
    RowAt(s.table.rows, RunOf(cfg, s))
  }

  datatype RoundResult = RoundResult(state: ChainState, raised: bool)

  ghost function LookForFork(cfg: Config, s: ChainState, row: Row): ChainState {
    if LooksForked(cfg, row, s.currentRound) then s.(forkDetected := true, forksDetected := s.forksDetected + 1)
    else s
  }

  /**
   A new round confirms the maximal run of oldest rows that pass, then looks at the row after it
   for a fork. When every unconfirmed row passes there is no such row and the program raises.
   */
  ghost function UpdateRound(cfg: Config, s: ChainState, round: int): (r: RoundResult)
    requires Aligned(s.table) && |s.table.rows| >= 1
    ensures Aligned(r.state.table)
  {
    if s.currentRound == round then RoundResult(s, false)
    else
      var rows := s.table.rows;
      var s1 := s.(currentRound := round);
      var lo := ConfirmedCount(rows);
      if lo == |rows| then RoundResult(s1, false)
      else
        var s2 := ConfirmRun(cfg, s1);
        var next := RowAfterRun(cfg, s1);
        if next.None? then RoundResult(s2, true) else RoundResult(LookForFork(cfg, s2, next.value), false)
  }

  /** One turn of the confirmation loop: after rows lo..k have been confirmed, row k is the oldest. */
  lemma ConfirmingOneMore(s: ChainState, lo: nat, k: nat)
    requires Aligned(s.table) && ConfirmedPrefix(s.table.rows) && 1 <= lo == ConfirmedCount(s.table.rows)
    requires lo <= k <= |s.table.rows|
    ensures var rows, done := s.table.rows, ConfirmedSoFar(s, lo, k);
            && Aligned(done.table) && done.currentRound == s.currentRound
            && OldestOf(done.table.rows) == RowAt(rows, k)
            && (k < |rows| ==> ConfirmedSoFar(s, lo, k + 1) == ConfirmOne(done, rows[lo - 1].block.round))
  {
    var rows, done := s.table.rows, ConfirmedSoFar(s, lo, k);
    FirstUnconfirmedSplits(rows, 0);
    CountIs(done.table.rows, k);
    hide ConfirmedPrefix;
    if k < |rows| {
      DelaysOfOneMore(rows, lo, k, s.currentRound);
      ConfirmRangeOneMore(s.table, lo, k);
    }
  }

  lemma DelaysOfOneMore(rows: seq<Row>, lo: nat, k: nat, round: int)
    requires lo <= k < |rows|
    ensures DelaysOf(rows[lo..k + 1], round) == DelaysOf(rows[lo..k], round) +
              [Delay(rows[k].block.hash, rows[k].block.index, round - rows[k].block.round)]
  {
  }

  lemma ConfirmRangeOneMore(t: Table, lo: nat, k: nat)
    requires Aligned(t) && lo <= k < |t.rows|
    ensures ConfirmRange(ConfirmRange(t, lo, k), k, k + 1) == ConfirmRange(t, lo, k + 1)
  {
  }

  /** Comparing the last confirmed hash with the last one tells whether every row is confirmed. */
  lemma LastIsConfirmedWhenAllAre(rows: seq<Row>)
    requires ChainInvariant(rows)
    ensures var n := ConfirmedCount(rows);
            n >= 1 && (rows[n - 1].block.hash == rows[|rows| - 1].block.hash <==> n == |rows|)
  {
  }

  lemma ConfirmingAdvances(t: Table)
    requires Aligned(t) && OldestOf(t.rows).Some?
    ensures ConfirmedCount(ConfirmNext(t).rows) > ConfirmedCount(t.rows)
  {
    FirstUnconfirmedSplits(t.rows, 0);
    FirstUnconfirmedSplits(ConfirmNext(t).rows, 0);
  }

  /** The confirmation loop, one row a turn. */
  ghost function ConfirmOldest(cfg: Config, s: ChainState, lastConfirmedRound: int): (s': ChainState)
    requires Aligned(s.table)
    ensures Aligned(s'.table)
    decreases |s.table.rows| - ConfirmedCount(s.table.rows)
  {
    var oldest := OldestOf(s.table.rows);
    if oldest.Some? && Passes(cfg, oldest.value, s.currentRound) then
      (ConfirmingAdvances(s.table); ConfirmOldest(cfg, ConfirmOne(s, lastConfirmedRound), lastConfirmedRound))
    else s
  }

  /** Confirming one row at a time confirms the maximal run, and stops at the row after it. */
  lemma LoopConfirmsRun(cfg: Config, s: ChainState)
    requires Aligned(s.table) && ConfirmedPrefix(s.table.rows) && ConfirmedCount(s.table.rows) >= 1
    ensures var last := s.table.rows[ConfirmedCount(s.table.rows) - 1].block.round;
            && ConfirmOldest(cfg, s, last) == ConfirmRun(cfg, s)
            && OldestOf(ConfirmRun(cfg, s).table.rows) == RowAfterRun(cfg, s)
  {
    var lo := ConfirmedCount(s.table.rows);
    ConfirmedSoFarAtStart(s, lo);
    LoopConfirmsFrom(cfg, s, lo, lo);
  }

  lemma {:induction false} LoopConfirmsFrom(cfg: Config, s: ChainState, lo: nat, k: nat)
    requires Aligned(s.table) && ConfirmedPrefix(s.table.rows) && 1 <= lo == ConfirmedCount(s.table.rows)
    requires lo <= k <= |s.table.rows|
    ensures var hi := RunEnd(cfg, s.table.rows, s.currentRound, k);
            && ConfirmOldest(cfg, ConfirmedSoFar(s, lo, k), s.table.rows[lo - 1].block.round) == ConfirmedSoFar(s, lo, hi)
            && OldestOf(ConfirmedSoFar(s, lo, hi).table.rows) == RowAt(s.table.rows, hi)
    decreases |s.table.rows| - k
  {
    hide ConfirmedPrefix, Passes, ConfirmOne, OldestOf, ConfirmedSoFar;
    ConfirmingOneMore(s, lo, k);
    if k < |s.table.rows| && Passes(cfg, s.table.rows[k], s.currentRound) {
      LoopConfirmsFrom(cfg, s, lo, k + 1);
    }
  }

  lemma ConfirmedSoFarAtStart(s: ChainState, lo: nat)
    requires Aligned(s.table) && lo <= |s.table.rows|
    ensures ConfirmedSoFar(s, lo, lo) == s
  {
  }

  lemma CountIs(rows: seq<Row>, n: nat)
    requires n <= |rows| && forall i :: 0 <= i < n ==> rows[i].confirmed
    requires n < |rows| ==> !rows[n].confirmed
    ensures ConfirmedCount(rows) == n
  {
    FirstUnconfirmedSplits(rows, 0);
  }

  /** The run from `from` is maximal: all of it passes, and the row after it, if any, does not. */
  lemma {:induction false} RunIsMaximal(cfg: Config, rows: seq<Row>, round: int, from: nat)
    requires from <= |rows|
    ensures forall i :: from <= i < RunEnd(cfg, rows, round, from) ==> Passes(cfg, rows[i], round)
    ensures var n := RunEnd(cfg, rows, round, from); n < |rows| ==> !Passes(cfg, rows[n], round)
    decreases |rows| - from
  {
    if from < |rows| && Passes(cfg, rows[from], round) {
      RunIsMaximal(cfg, rows, round, from + 1);
    }
  }

  // ---- Every operation keeps the invariant ----

  lemma TruncationKeepsInvariant(rows: seq<Row>, n: nat)
    requires ChainInvariant(rows) && 1 <= n <= |rows|
    ensures ChainInvariant(rows[..n])
  {
  }

  lemma UnknownStaysUnknown(rows: seq<Row>, hash: ByteString, index: nat, tickets: nat)
    requires FindHash(rows, hash).None? && index <= |rows|
    ensures FindHash(CreditBelow(rows, index, tickets)[..index], hash).None?
  {
    FoundFirst(rows, hash);
    FoundFirst(CreditBelow(rows, index, tickets)[..index], hash);
  }

  ghost predicate SameBlocks(before: seq<Row>, after: seq<Row>) {
    |before| == |after| && forall i :: 0 <= i < |after| ==> after[i].block == before[i].block
  }

  lemma SameBlocksKeepInvariant(before: seq<Row>, after: seq<Row>)
    requires ChainInvariant(before) && SameBlocks(before, after)
    requires after[0].confirmed && ConfirmedPrefix(after) && NumSucFalls(after)
    ensures ChainInvariant(after)
  {
  }

  lemma CreditKeepsInvariant(rows: seq<Row>, index: nat, tickets: nat)
    requires ChainInvariant(rows)
    ensures ChainInvariant(CreditBelow(rows, index, tickets))
    ensures BlocksOf(CreditBelow(rows, index, tickets)) == BlocksOf(rows)
  {
    var after := CreditBelow(rows, index, tickets);
    assert SameBlocks(rows, after);
    assert ConfirmedPrefix(after);
    assert NumSucFalls(after);
    SameBlocksKeepInvariant(rows, after);
  }

  lemma AppendKeepsInvariant(rows: seq<Row>, b: Block)
    requires ChainInvariant(rows) && b.index == |rows|
    requires forall i :: 0 <= i < |rows| ==> rows[i].block.hash != b.hash
    requires b.parentHash == rows[|rows| - 1].block.hash && b.round > rows[|rows| - 1].block.round
    ensures ChainInvariant(rows + [Row(b, 0, false)])
  {
    var after := rows + [Row(b, 0, false)];
    AppendKeepsOrder(rows, b);
    assert Indexed(after) && Linked(after);
    assert ConfirmedPrefix(after) && NumSucFalls(after);
  }

  lemma AppendKeepsOrder(rows: seq<Row>, b: Block)
    requires |rows| >= 1 && DistinctHashes(rows) && RoundsRise(rows)
    requires forall i :: 0 <= i < |rows| ==> rows[i].block.hash != b.hash
    requires b.round > rows[|rows| - 1].block.round
    ensures DistinctHashes(rows + [Row(b, 0, false)])
    ensures RoundsRise(rows + [Row(b, 0, false)])
  {
  }

  lemma InsertKeepsInvariant(cfg: Config, t: Table, b: Block)
    requires Aligned(t) && ChainInvariant(t.rows)
    ensures ChainInvariant(Insert(cfg, t, b).rows)
  {
    var v := Judge(cfg, t.rows, b);
    if Credits(v) {
      FoundFirst(t.rows, b.hash);
      var credited := CreditBelow(t.rows, b.index, Validate(cfg, b).value);
      CreditKeepsInvariant(t.rows, b.index, Validate(cfg, b).value);
      if v.Inserted? {
        TruncationKeepsInvariant(credited, b.index);
        AppendKeepsInvariant(credited[..b.index], b);
      }
    }
  }

  lemma {:induction false} InsertAllKeepsInvariant(cfg: Config, t: Table, bs: seq<Block>)
    requires Aligned(t) && ChainInvariant(t.rows)
    ensures ChainInvariant(InsertAll(cfg, t, bs).rows)
    decreases |bs|
  {
    if bs != [] {
      InsertKeepsInvariant(cfg, t, bs[0]);
      InsertAllKeepsInvariant(cfg, Insert(cfg, t, bs[0]), bs[1..]);
    }
  }

  /** What an insert that is refused, or lands at the end, does to the rows that were there. */
  lemma InsertEffect(cfg: Config, t: Table, b: Block)
    requires Aligned(t)
    ensures Judge(cfg, t.rows, b).Inserted? ==>
              && 1 <= b.index <= |t.rows|
              && BlocksOf(Insert(cfg, t, b).rows) == BlocksOf(t.rows)[..b.index] + [b]
    ensures !Judge(cfg, t.rows, b).Inserted? ==> BlocksOf(Insert(cfg, t, b).rows) == BlocksOf(t.rows)
  {
  }

  ghost predicate OnlyCredited(before: seq<Row>, after: seq<Row>, upTo: nat) {
    && |after| == |before|
    && forall i :: 0 <= i < |before| ==>
         && after[i].block == before[i].block && after[i].confirmed == before[i].confirmed
         && after[i].numSuc >= before[i].numSuc
         && (before[i].confirmed || i > upTo ==> after[i] == before[i])
  }

  /** A failed merge leaves every block and flag, and credits only unconfirmed rows up to the ancestor. */
  lemma FailedMergeOnlyCredits(cfg: Config, t: Table, foreign: seq<Block>)
    requires Aligned(t) && |foreign| >= 1 && !Merge(cfg, t, foreign).merged
    ensures var ancestor := FindHash(t.rows, foreign[0].parentHash);
            var after := Merge(cfg, t, foreign).table.rows;
            if ancestor.None? then after == t.rows else OnlyCredited(t.rows, after, ancestor.value)
  {
    var ancestor := FindHash(t.rows, foreign[0].parentHash);
    if ancestor.Some? {
      var n := ancestor.value + 1;
      var cut := Truncate(t, n);
      RefusedInsertOnlyCredits(cfg, cut, foreign[0]);
      ReattachedOnlyCredited(t.rows, Insert(cfg, cut, foreign[0]).rows, ancestor.value);
    }
  }

  /**
   What exactly a failed merge does: nothing, unless its head is a new and valid block right above the
   ancestor that is refused for its round, whose tickets then go to every unconfirmed row below it.
   */
  lemma FailedMergeIsExact(cfg: Config, t: Table, foreign: seq<Block>)
    requires Aligned(t) && ChainInvariant(t.rows) && |foreign| >= 1 && !Merge(cfg, t, foreign).merged
    ensures var after, head := Merge(cfg, t, foreign).table, foreign[0];
            match FindHash(t.rows, head.parentHash)
            case None => after == t
            case Some(i) =>
              if head.index == i + 1 && FindHash(t.rows[..i + 1], head.hash).None? && Validate(cfg, head).Some? then
                head.round <= t.rows[i].block.round && after == CreditTable(t, i + 1, Validate(cfg, head).value)
              else
                after == t
  {
    hide Validate, FindHash, Indexed, Linked, RoundsRise, ConfirmedPrefix, NumSucFalls, CreditTable, Reattach, Append;
    var head := foreign[0];
    var ancestor := FindHash(t.rows, head.parentHash);
    if ancestor.Some? {
      var i := ancestor.value;
      var cut := Truncate(t, i + 1);
      if 1 <= head.index <= i + 1 && cut.rows[head.index - 1].block.hash == head.parentHash {
        assert head.index - 1 == i;
      }
      if Credits(Judge(cfg, cut.rows, head)) {
        CreditingThePrefix(t, i + 1, Validate(cfg, head).value);
      } else {
        NothingReattached(t, i + 1);
      }
    }
  }

  /** The head is popped from the caller's list exactly when its parent is known, whatever comes of it. */
  lemma HeadIsPoppedWhenItsParentIsKnown(cfg: Config, t: Table, foreign: seq<Block>)
    requires Aligned(t) && |foreign| >= 1
    ensures Merge(cfg, t, foreign).remaining ==
            if exists i :: 0 <= i < |t.rows| && t.rows[i].block.hash == foreign[0].parentHash then foreign[1..]
            else foreign
  {
    FoundFirst(t.rows, foreign[0].parentHash);
    hide FindHash, Judge, Insert;
  }

  /** A merge succeeds exactly when its head is a new and valid block right above a known parent, in a later round. */
  lemma MergeSucceedsExactlyWhen(cfg: Config, t: Table, foreign: seq<Block>)
    requires Aligned(t) && ChainInvariant(t.rows) && |foreign| >= 1
    ensures var head := foreign[0];
            Merge(cfg, t, foreign).merged <==>
              exists i :: 0 <= i < |t.rows| && GoesAbove(cfg, t.rows, i, head)
  {
    hide Validate, FindHash, Indexed, Linked, RoundsRise, ConfirmedPrefix, NumSucFalls, CreditTable, Reattach, Append;
    var head := foreign[0];
    FoundFirst(t.rows, head.parentHash);
    var ancestor := FindHash(t.rows, head.parentHash);
    if ancestor.Some? {
      var cut := Truncate(t, ancestor.value + 1);
      FoundFirst(cut.rows, head.hash);
      assert Judge(cfg, cut.rows, head).Inserted? <==> GoesAbove(cfg, t.rows, ancestor.value, head);
    }
  }

  ghost predicate GoesAbove(cfg: Config, rows: seq<Row>, i: nat, head: Block)
    requires i < |rows|
  {
    && head.parentHash == rows[i].block.hash && head.index == i + 1 && head.round > rows[i].block.round
    && Validate(cfg, head).Some? && forall j :: 0 <= j <= i ==> rows[j].block.hash != head.hash
  }

  lemma CreditingThePrefix(t: Table, n: nat, tickets: nat)
    requires Aligned(t) && n <= |t.rows|
    ensures Reattach(CreditTable(Truncate(t, n), n, tickets), t, n) == CreditTable(t, n, tickets)
  {
  }

  lemma NothingReattached(t: Table, n: nat)
    requires Aligned(t) && n <= |t.rows|
    ensures Reattach(Truncate(t, n), t, n) == t
  {
  }

  lemma FailedMergeKeepsBlocks(cfg: Config, t: Table, foreign: seq<Block>)
    requires Aligned(t) && |foreign| >= 1 && !Merge(cfg, t, foreign).merged
    ensures BlocksOf(Merge(cfg, t, foreign).table.rows) == BlocksOf(t.rows)
  {
    FailedMergeOnlyCredits(cfg, t, foreign);
    hide Merge;
  }

  lemma RefusedInsertOnlyCredits(cfg: Config, t: Table, b: Block)
    requires Aligned(t) && !Judge(cfg, t.rows, b).Inserted?
    ensures OnlyCredited(t.rows, Insert(cfg, t, b).rows, |t.rows|)
  {
  }

  lemma ReattachedOnlyCredited(before: seq<Row>, middle: seq<Row>, upTo: nat)
    requires upTo < |before| && OnlyCredited(before[..upTo + 1], middle, upTo + 1)
    ensures OnlyCredited(before, middle + before[upTo + 1..], upTo)
  {
  }

  lemma ReattachedKeepsInvariant(before: seq<Row>, middle: seq<Row>, n: nat)
    requires ChainInvariant(before) && 1 <= n <= |before|
    requires ChainInvariant(middle) && OnlyCredited(before[..n], middle, n)
    ensures ChainInvariant(middle + before[n..])
  {
    var after := middle + before[n..];
    ReattachedOnlyCredited(before, middle, n - 1);
    assert SameBlocks(before, after) && after[0].confirmed;
    assert ConfirmedPrefix(after);
    ReattachedNumSucFalls(before, middle, n);
    hide *;
    SameBlocksKeepInvariant(before, after);
  }

  lemma ReattachedNumSucFalls(before: seq<Row>, middle: seq<Row>, n: nat)
    requires NumSucFalls(before) && NumSucFalls(middle) && |middle| == n <= |before|
    requires forall i :: 0 <= i < n ==>
               middle[i].confirmed == before[i].confirmed && middle[i].numSuc >= before[i].numSuc
    ensures NumSucFalls(middle + before[n..])
  {
  }

  lemma MergeKeepsInvariant(cfg: Config, t: Table, foreign: seq<Block>)
    requires Aligned(t) && ChainInvariant(t.rows) && |foreign| >= 1
    ensures ChainInvariant(Merge(cfg, t, foreign).table.rows)
  {
    var ancestor := FindHash(t.rows, foreign[0].parentHash);
    if ancestor.Some? {
      var n := ancestor.value + 1;
      var cut := Truncate(t, n);
      TruncationKeepsInvariant(t.rows, n);
      InsertKeepsInvariant(cfg, cut, foreign[0]);
      if Judge(cfg, cut.rows, foreign[0]).Inserted? {
        InsertAllKeepsInvariant(cfg, Insert(cfg, cut, foreign[0]), foreign[1..]);
      } else {
        RefusedInsertOnlyCredits(cfg, cut, foreign[0]);
        ReattachedKeepsInvariant(t.rows, Insert(cfg, cut, foreign[0]).rows, n);
      }
    }
  }

  lemma UpdateRoundKeepsInvariant(cfg: Config, s: ChainState, round: int)
    requires Aligned(s.table) && ChainInvariant(s.table.rows)
    ensures ChainInvariant(UpdateRound(cfg, s, round).state.table.rows)
    ensures BlocksOf(UpdateRound(cfg, s, round).state.table.rows) == BlocksOf(s.table.rows)
  {
    var rows := s.table.rows;
    var lo := ConfirmedCount(rows);
    FirstUnconfirmedSplits(rows, 0);
    if s.currentRound != round && lo < |rows| {
      ConfirmingKeepsInvariant(s.table, lo, RunEnd(cfg, rows, round, lo));
    }
  }

  lemma ConfirmingKeepsInvariant(t: Table, lo: nat, hi: nat)
    requires Aligned(t) && ChainInvariant(t.rows)
    requires lo <= hi <= |t.rows| && forall i :: 0 <= i < lo ==> t.rows[i].confirmed
    requires lo < |t.rows| ==> !t.rows[lo].confirmed
    ensures ChainInvariant(ConfirmRange(t, lo, hi).rows)
    ensures BlocksOf(ConfirmRange(t, lo, hi).rows) == BlocksOf(t.rows)
  {
    var after := ConfirmRange(t, lo, hi).rows;
    assert SameBlocks(t.rows, after) && after[0].confirmed;
    assert ConfirmedPrefix(after);
    assert NumSucFalls(after);
    SameBlocksKeepInvariant(t.rows, after);
  }
}
