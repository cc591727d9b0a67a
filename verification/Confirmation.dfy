/** What a new round confirms, when it raises, and the runs in which it never does. */
module Confirmation {
  import opened Blocks
  import opened Chain
  import opened ChainRuns
  import opened Sortition

  /** A row is confirmed after a round exactly when it was before, or all unconfirmed rows up to it pass. */
  lemma RoundConfirmsThePassingPrefix(cfg: Config, s: ChainState, round: int, i: nat)
    requires Sound(s) && s.currentRound != round && i < |s.table.rows|
    ensures var rows := s.table.rows;
            UpdateRound(cfg, s, round).state.table.rows[i].confirmed <==>
              rows[i].confirmed || forall j :: 0 <= j <= i && !rows[j].confirmed ==> Passes(cfg, rows[j], round)
  {
    var rows := s.table.rows;
    FirstUnconfirmedSplits(rows, 0);
    RunIsMaximal(cfg, rows, round, ConfirmedCount(rows));
    hide Passes, LookForFork;
  }

  /** The program fails on a missing row exactly when some row is unconfirmed and all of them pass. */
  lemma RoundRaisesWhenEveryRowPasses(cfg: Config, s: ChainState, round: int)
    requires Sound(s)
    ensures var rows := s.table.rows;
            UpdateRound(cfg, s, round).raised <==>
              && s.currentRound != round
              && !rows[|rows| - 1].confirmed
              && forall j :: 0 <= j < |rows| && !rows[j].confirmed ==> Passes(cfg, rows[j], round)
  {
    var rows := s.table.rows;
    FirstUnconfirmedSplits(rows, 0);
    RunIsMaximal(cfg, rows, round, ConfirmedCount(rows));
    hide Passes, LookForFork;
  }

  /** A fork is reported exactly when the oldest row that does not pass has too low an average. */
  lemma RoundReportsAFork(cfg: Config, s: ChainState, round: int)
    requires Sound(s) && s.currentRound != round
    ensures var rows := s.table.rows;
            UpdateRound(cfg, s, round).state.forkDetected <==>
              s.forkDetected ||
              exists i :: 0 <= i < |rows| && IsFirstToFail(cfg, rows, round, i) && LooksForked(cfg, rows[i], round)
  {
    var rows := s.table.rows;
    FirstUnconfirmedSplits(rows, 0);
    RunIsMaximal(cfg, rows, round, ConfirmedCount(rows));
    var n := RunEnd(cfg, rows, round, ConfirmedCount(rows));
    hide Passes, LooksForked;
    if n < |rows| {
      assert IsFirstToFail(cfg, rows, round, n);
    }
    forall i | 0 <= i < |rows| && IsFirstToFail(cfg, rows, round, i)
      ensures i == n
    {
    }
  }

  ghost predicate IsFirstToFail(cfg: Config, rows: seq<Row>, round: int, i: nat)
    requires i < |rows|
  {
    && !rows[i].confirmed && !Passes(cfg, rows[i], round)
    && forall j :: 0 <= j < i && !rows[j].confirmed ==> Passes(cfg, rows[j], round)
  }

  // ---- The two tests on the fields of a row ----

  lemma QuotientAbove(a: nat, d: nat, s: nat)
    requires d >= 1
    ensures a as real / d as real > s as real <==> a > s * d
    ensures a as real / d as real < s as real <==> a < s * d
  {
    assert (s * d) as real == s as real * d as real;
    assert a as real == (a as real / d as real) * d as real;
  }

  /** More than s tickets a round, on average over the d rounds since the row's own, with s the bound for d. */
  lemma PassesMeans(cfg: Config, row: Row, round: int)
    ensures var d := round - row.block.round - 1;
            Passes(cfg, row, round) <==>
              d >= 1 && row.numSuc > ConfirmationBound(cfg.totalStake, cfg.tau, d, 0.000001) * d
  {
    var d := round - row.block.round - 1;
    if d >= 1 {
      QuotientAbove(row.numSuc, d, ConfirmationBound(cfg.totalStake, cfg.tau, d, 0.000001));
    }
    hide ConfirmationBound, IsConfirmationBound;
  }

  lemma LooksForkedMeans(cfg: Config, row: Row, round: int)
    ensures var d := round - row.block.round - 1;
            LooksForked(cfg, row, round) <==>
              d >= 1 && row.numSuc < ForkBound(cfg.totalStake, cfg.tau, d, 0.95) * d
  {
    var d := round - row.block.round - 1;
    if d >= 1 {
      QuotientAbove(row.numSuc, d, ForkBound(cfg.totalStake, cfg.tau, d, 0.95));
    }
    hide ForkBound, ForkHolds;
  }

  /** i is the oldest unconfirmed row. */
  ghost predicate IsOldest(rows: seq<Row>, i: nat) {
    i < |rows| && !rows[i].confirmed && forall j :: 0 <= j < i ==> rows[j].confirmed
  }

  /**
   In a new round the oldest unconfirmed row, d full rounds after its own, is confirmed exactly when
   d >= 1 and it has more than s * d tickets, with s the confirmation bound for d.
   */
  lemma OldestIsConfirmedExactlyWhen(cfg: Config, s: ChainState, round: int, i: nat)
    requires Sound(s) && s.currentRound != round && IsOldest(s.table.rows, i)
    ensures var row := s.table.rows[i];
            var d := round - row.block.round - 1;
            UpdateRound(cfg, s, round).state.table.rows[i].confirmed <==>
              d >= 1 && row.numSuc > ConfirmationBound(cfg.totalStake, cfg.tau, d, 0.000001) * d
  {
    RoundConfirmsThePassingPrefix(cfg, s, round, i);
    PassesMeans(cfg, s.table.rows[i], round);
    hide UpdateRound, Passes, ChainInvariant, ConfirmationBound, IsConfirmationBound;
  }

  /** A row with no more tickets than rounds since its own is never confirmed. */
  lemma FewTicketsNeverConfirm(cfg: Config, s: ChainState, round: int, i: nat)
    requires Sound(s) && s.currentRound != round && i < |s.table.rows| && !s.table.rows[i].confirmed
    requires s.table.rows[i].numSuc <= round - s.table.rows[i].block.round - 1
    ensures !UpdateRound(cfg, s, round).state.table.rows[i].confirmed
  {
    var row := s.table.rows[i];
    var d := round - row.block.round - 1;
    RoundConfirmsThePassingPrefix(cfg, s, round, i);
    PassesMeans(cfg, row, round);
    if d >= 1 {
      AtLeastOnce(ConfirmationBound(cfg.totalStake, cfg.tau, d, 0.000001), d);
    }
    hide UpdateRound, Passes, ChainInvariant, IsConfirmationBound;
  }

  lemma AtLeastOnce(s: nat, d: nat)
    requires s >= 1
    ensures s * d >= d
  {
  }

  /** The first row that a round leaves unconfirmed. */
  ghost predicate IsLeftOver(before: seq<Row>, after: seq<Row>, i: nat) {
    |after| == |before| && IsOldest(after, i)
  }

  /**
   What a new round reports and records: the first row left over, if any, makes it report a fork
   exactly when d >= 1 and the row has fewer than a * d tickets, with a the fork bound for d.
   */
  lemma LeftOverRowDecidesTheFork(cfg: Config, s: ChainState, round: int, i: nat)
    requires Sound(s) && s.currentRound != round
    requires IsLeftOver(s.table.rows, UpdateRound(cfg, s, round).state.table.rows, i)
    ensures var row, after := s.table.rows[i], UpdateRound(cfg, s, round).state;
            var d := round - row.block.round - 1;
            var forked := d >= 1 && row.numSuc < ForkBound(cfg.totalStake, cfg.tau, d, 0.95) * d;
            && after.currentRound == round
            && after.forkDetected == (s.forkDetected || forked)
            && after.forksDetected == s.forksDetected + (if forked then 1 else 0)
  {
    var rows := s.table.rows;
    LooksForkedMeans(cfg, rows[i], round);
    FirstUnconfirmedSplits(rows, 0);
    RunIsMaximal(cfg, rows, round, ConfirmedCount(rows));
    LeftOverIsTheRunEnd(cfg, s, round, i);
    hide Passes, LooksForked, ForkBound, ForkHolds;
  }

  lemma LeftOverIsTheRunEnd(cfg: Config, s: ChainState, round: int, i: nat)
    requires Sound(s) && s.currentRound != round
    requires IsLeftOver(s.table.rows, UpdateRound(cfg, s, round).state.table.rows, i)
    ensures i == RunEnd(cfg, s.table.rows, round, ConfirmedCount(s.table.rows))
  {
    var rows := s.table.rows;
    FirstUnconfirmedSplits(rows, 0);
    hide Passes, LookForFork, NumSucFalls, Linked, DistinctHashes, RoundsRise;
    var n := RunEnd(cfg, rows, round, ConfirmedCount(rows));
    var after := UpdateRound(cfg, s, round).state.table.rows;
    assert forall j :: 0 <= j < n ==> after[j].confirmed;
    assert n < |rows| ==> !after[n].confirmed;
  }

  /** When the round leaves no row over there is no fork to report, and in the same round nothing happens. */
  lemma NothingLeftOverNoFork(cfg: Config, s: ChainState, round: int)
    requires Sound(s)
    ensures s.currentRound == round ==> UpdateRound(cfg, s, round) == RoundResult(s, false)
    ensures var after := UpdateRound(cfg, s, round).state;
            after.currentRound == round &&
            ((forall i :: 0 <= i < |after.table.rows| ==> after.table.rows[i].confirmed) ==>
               after.forkDetected == s.forkDetected && after.forksDetected == s.forksDetected)
  {
    var rows := s.table.rows;
    FirstUnconfirmedSplits(rows, 0);
    hide Passes, LooksForked;
    if s.currentRound != round && ConfirmedCount(rows) < |rows| {
      var n := RunEnd(cfg, rows, round, ConfirmedCount(rows));
      assert n < |rows| ==> !UpdateRound(cfg, s, round).state.table.rows[n].confirmed;
    }
  }

  // ---- What a round records ----

  /** Rows lo..hi are recorded with hash, index and age in rounds, and the last delay counts from the row before them. */
  ghost predicate Recorded(rows: seq<Row>, round: int, lo: nat, hi: nat, before: seq<Delay>, lastBefore: int,
                           after: seq<Delay>, lastAfter: int) {
    && 1 <= lo <= hi <= |rows|
    && |after| == |before| + hi - lo && after[..|before|] == before
    && (forall k :: lo <= k < hi ==>
          after[|before| + k - lo] == Delay(rows[k].block.hash, k, round - rows[k].block.round))
    && lastAfter == if hi > lo then round - rows[lo - 1].block.round else lastBefore
  }

  /** Every newly confirmed row is recorded, oldest first, and no other. */
  lemma RoundRecordsDelays(cfg: Config, s: ChainState, round: int)
    requires Sound(s) && s.currentRound != round
    ensures var after := UpdateRound(cfg, s, round).state;
            Recorded(s.table.rows, round, ConfirmedCount(s.table.rows), ConfirmedCount(after.table.rows),
                     s.delays, s.lastDelay, after.delays, after.lastDelay)
  {
    var rows := s.table.rows;
    var lo := ConfirmedCount(rows);
    hide UpdateRound, ChainInvariant, ConfirmedCount, ConfirmedSoFar, Recorded;
    var now := s.(currentRound := round);
    if lo < |rows| {
      var hi := RunEnd(cfg, rows, round, lo);
      RoundGivesTheRun(cfg, s, round);
      CountAfterRun(now, lo, hi);
      RecordedSoFar(now, lo, hi);
    } else {
      NothingToConfirm(cfg, s, round);
      CountAfterRun(now, lo, lo);
      RecordedSoFar(now, lo, lo);
      ConfirmedSoFarAtStart(now, lo);
    }
  }

  lemma NothingToConfirm(cfg: Config, s: ChainState, round: int)
    requires Sound(s) && s.currentRound != round && ConfirmedCount(s.table.rows) >= |s.table.rows|
    ensures UpdateRound(cfg, s, round).state == s.(currentRound := round)
  {
  }

  lemma RoundGivesTheRun(cfg: Config, s: ChainState, round: int)
    requires Sound(s) && s.currentRound != round && ConfirmedCount(s.table.rows) < |s.table.rows|
    ensures var lo := ConfirmedCount(s.table.rows);
            var done := ConfirmedSoFar(s.(currentRound := round), lo, RunEnd(cfg, s.table.rows, round, lo));
            var after := UpdateRound(cfg, s, round).state;
            after.table == done.table && after.delays == done.delays && after.lastDelay == done.lastDelay
  {
    hide ChainInvariant, ConfirmRange, Passes, LooksForked, DelaysOf;
  }

  lemma CountAfterRun(s: ChainState, lo: nat, hi: nat)
    requires Sound(s) && lo == ConfirmedCount(s.table.rows) && lo <= hi <= |s.table.rows|
    ensures 1 <= lo && ConfirmedCount(ConfirmedSoFar(s, lo, hi).table.rows) == hi
  {
    FirstUnconfirmedSplits(s.table.rows, 0);
    CountIs(ConfirmedSoFar(s, lo, hi).table.rows, hi);
    hide NumSucFalls, Linked, DistinctHashes, RoundsRise;
  }

  lemma RecordedSoFar(s: ChainState, lo: nat, hi: nat)
    requires Sound(s) && 1 <= lo <= hi <= |s.table.rows|
    ensures var done := ConfirmedSoFar(s, lo, hi);
            Recorded(s.table.rows, s.currentRound, lo, hi, s.delays, s.lastDelay, done.delays, done.lastDelay)
  {
    hide NumSucFalls, Linked, DistinctHashes, RoundsRise, ConfirmRange;
  }

  // ---- Runs in which no valid child of the tip is turned down for its round ----

  ghost predicate RejectsChildOfTip(cfg: Config, t: Table, b: Block) {
    Judge(cfg, t.rows, b).SameRoundAsParent? && b.index == |t.rows|
  }

  ghost predicate InsertAllRejectsChild(cfg: Config, t: Table, bs: seq<Block>)
    requires Aligned(t)
    decreases |bs|
  {
    && bs != []
    && if Judge(cfg, t.rows, bs[0]).Inserted? then InsertAllRejectsChild(cfg, Insert(cfg, t, bs[0]), bs[1..])
       else RejectsChildOfTip(cfg, t, bs[0])
  }

  ghost predicate MergeRejectsChild(cfg: Config, t: Table, foreign: seq<Block>)
    requires Aligned(t) && |foreign| >= 1
  {
    var ancestor := FindHash(t.rows, foreign[0].parentHash);
    && ancestor.Some?
    && var cut := Truncate(t, ancestor.value + 1);
       if Judge(cfg, cut.rows, foreign[0]).Inserted? then
         InsertAllRejectsChild(cfg, Insert(cfg, cut, foreign[0]), foreign[1..])
       else RejectsChildOfTip(cfg, cut, foreign[0]) && |cut.rows| == |t.rows|
  }

  ghost predicate RejectsChild(cfg: Config, s: ChainState, op: Operation)
    requires Sound(s)
  {
    match op
    case DoInsert(b) => RejectsChildOfTip(cfg, s.table, b)
    case DoMerge(head, tail) => MergeRejectsChild(cfg, s.table, [head] + tail)
    case DoRound(round) => false
  }

  // Nothing has been credited to the last row
  ghost predicate TipIsFresh(rows: seq<Row>) {
    |rows| >= 1 && rows[|rows| - 1].numSuc == 0
  }

  lemma InsertKeepsTipFresh(cfg: Config, t: Table, b: Block)
    requires Aligned(t) && TipIsFresh(t.rows) && !RejectsChildOfTip(cfg, t, b)
    ensures TipIsFresh(Insert(cfg, t, b).rows)
  {
  }

  lemma {:induction false} InsertAllKeepsTipFresh(cfg: Config, t: Table, bs: seq<Block>)
    requires Aligned(t) && TipIsFresh(t.rows) && !InsertAllRejectsChild(cfg, t, bs)
    ensures TipIsFresh(InsertAll(cfg, t, bs).rows)
    decreases |bs|
  {
    hide Judge, Insert, RejectsChildOfTip, TipIsFresh;
    if bs != [] {
      if Judge(cfg, t.rows, bs[0]).Inserted? {
        InsertedIsNotRejected(cfg, t, bs[0]);
        InsertKeepsTipFresh(cfg, t, bs[0]);
        InsertAllKeepsTipFresh(cfg, Insert(cfg, t, bs[0]), bs[1..]);
      } else {
        InsertKeepsTipFresh(cfg, t, bs[0]);
      }
    }
  }

  lemma InsertedIsNotRejected(cfg: Config, t: Table, b: Block)
    requires Judge(cfg, t.rows, b).Inserted?
    ensures !RejectsChildOfTip(cfg, t, b)
  {
  }

  lemma AcceptedInsertMakesTipFresh(cfg: Config, t: Table, b: Block)
    requires Aligned(t) && Judge(cfg, t.rows, b).Inserted?
    ensures TipIsFresh(Insert(cfg, t, b).rows)
  {
  }

  lemma MergeKeepsTipFresh(cfg: Config, t: Table, foreign: seq<Block>)
    requires Aligned(t) && TipIsFresh(t.rows) && |foreign| >= 1 && !MergeRejectsChild(cfg, t, foreign)
    ensures TipIsFresh(Merge(cfg, t, foreign).table.rows)
  {
    hide Judge, Insert, ChainInvariant, RejectsChildOfTip;
    var ancestor := FindHash(t.rows, foreign[0].parentHash);
    if ancestor.Some? {
      var n := ancestor.value + 1;
      var cut := Truncate(t, n);
      if Judge(cfg, cut.rows, foreign[0]).Inserted? {
        AcceptedInsertMakesTipFresh(cfg, cut, foreign[0]);
        InsertAllKeepsTipFresh(cfg, Insert(cfg, cut, foreign[0]), foreign[1..]);
      } else if n == |t.rows| {
        assert cut.rows == t.rows;
        InsertKeepsTipFresh(cfg, cut, foreign[0]);
      } else {
        RefusedInsertOnlyCredits(cfg, cut, foreign[0]);
      }
    }
  }

  lemma FreshRowDoesNotPass(cfg: Config, row: Row, round: int)
    requires row.numSuc == 0
    ensures !Passes(cfg, row, round)
  {
  }

  lemma RoundKeepsTipFresh(cfg: Config, s: ChainState, round: int)
    requires Sound(s) && TipIsFresh(s.table.rows)
    ensures TipIsFresh(UpdateRound(cfg, s, round).state.table.rows)
    ensures !UpdateRound(cfg, s, round).raised
  {
    RoundRaisesWhenEveryRowPasses(cfg, s, round);
    RoundOnlySetsFlags(cfg, s, round);
    hide UpdateRound, Passes, ChainInvariant;
    var tip := s.table.rows[|s.table.rows| - 1];
    if !tip.confirmed {
      FreshRowDoesNotPass(cfg, tip, round);
    }
  }

  lemma RoundOnlySetsFlags(cfg: Config, s: ChainState, round: int)
    requires Sound(s)
    ensures var rows, rows' := s.table.rows, UpdateRound(cfg, s, round).state.table.rows;
            |rows'| == |rows| && forall i :: 0 <= i < |rows| ==>
              && rows'[i].block == rows[i].block && rows'[i].numSuc == rows[i].numSuc
              && (rows[i].confirmed ==> rows'[i].confirmed)
  {
    hide Passes, ChainInvariant;
  }

  lemma StepKeepsTipFresh(cfg: Config, s: ChainState, op: Operation)
    requires Sound(s) && TipIsFresh(s.table.rows) && !RejectsChild(cfg, s, op)
    ensures TipIsFresh(Step(cfg, s, op).table.rows)
  {
    match op
    case DoInsert(b) => InsertKeepsTipFresh(cfg, s.table, b);
    case DoMerge(head, tail) => MergeKeepsTipFresh(cfg, s.table, [head] + tail);
    case DoRound(round) => RoundKeepsTipFresh(cfg, s, round);
  }

  lemma {:induction false} TipStaysFresh(cfg: Config, s: ChainState, ops: seq<Operation>, n: nat)
    requires Sound(s) && TipIsFresh(s.table.rows) && n <= |ops|
    requires forall i :: 0 <= i < n ==> !RejectsChild(cfg, After(cfg, s, ops, i), ops[i])
    ensures TipIsFresh(After(cfg, s, ops, n).table.rows)
  {
    hide Sound, Step, TipIsFresh, RejectsChild;
    if n > 0 {
      TipStaysFresh(cfg, s, ops, n - 1);
      StepKeepsTipFresh(cfg, After(cfg, s, ops, n - 1), ops[n - 1]);
    }
  }

  /**
   In a run from genesis that never turns a valid child of the tip down for its round, no ticket
   reaches the last row, so the loop of `update_round` always finds an unconfirmed row.
   */
  lemma RoundsNeverRaise(cfg: Config, ops: seq<Operation>, n: nat, round: int)
    requires Sound(INITIAL_CHAIN) && n <= |ops|
    requires forall i :: 0 <= i < n ==> !RejectsChild(cfg, After(cfg, INITIAL_CHAIN, ops, i), ops[i])
    ensures TipIsFresh(After(cfg, INITIAL_CHAIN, ops, n).table.rows)
    ensures !UpdateRound(cfg, After(cfg, INITIAL_CHAIN, ops, n), round).raised
  {
    TipStaysFresh(cfg, INITIAL_CHAIN, ops, n);
    RoundKeepsTipFresh(cfg, After(cfg, INITIAL_CHAIN, ops, n), round);
  }
}
