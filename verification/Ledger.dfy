/**
 The ticket ledger: what `numSuc` counts. The log of a table lists, in order, the tickets of every
 block that passed validation, inserted or not; a row counts the entries above it since its birth.
 */
module Ledger {
  import opened Blocks
  import opened Chain
  import opened ChainRuns

  /** A block is logged exactly when it is new, linked to the row below its index, and valid. */
  lemma EveryValidatedBlockIsLogged(cfg: Config, t: Table, b: Block)
    requires Aligned(t)
    ensures var linked := FindHash(t.rows, b.hash).None? && 1 <= b.index <= |t.rows|
                          && t.rows[b.index - 1].block.hash == b.parentHash;
            Insert(cfg, t, b).log ==
              if linked && Validate(cfg, b).Some? then t.log + [Credit(b.index, Validate(cfg, b).value)] else t.log
  {
  }

  function SumAbove(log: seq<Credit>, index: nat): nat {
    if log == [] then 0
    else
      var last := log[|log| - 1];
      SumAbove(log[..|log| - 1], index) + if last.index > index then last.tickets else 0
  }

  /** The row at this index counts the tickets logged above it from its birth, up to its confirmation. */
  ghost predicate Accounts(log: seq<Credit>, row: Row, index: nat, birth: nat, frozen: nat) {
    && birth <= |log|
    && if row.confirmed then birth <= frozen <= |log| && row.numSuc == SumAbove(log[birth..frozen], index)
       else row.numSuc == SumAbove(log[birth..], index)
  }

  ghost predicate Balanced(t: Table) {
    Aligned(t) && forall i :: 0 <= i < |t.rows| ==> Accounts(t.log, t.rows[i], i, t.birth[i], t.frozen[i])
  }

  lemma CreditKeepsAccount(log: seq<Credit>, c: Credit, row: Row, index: nat, birth: nat, frozen: nat)
    requires Accounts(log, row, index, birth, frozen)
    ensures Accounts(log + [c], if index < c.index then CreditRow(row, c.tickets) else row, index, birth, frozen)
  {
    assert (log + [c])[birth..] == log[birth..] + [c];
    if row.confirmed {
      assert (log + [c])[birth..frozen] == log[birth..frozen];
    } else {
      assert (log[birth..] + [c])[..|log| - birth] == log[birth..];
    }
  }

  lemma ConfirmingFreezesAccount(log: seq<Credit>, row: Row, index: nat, birth: nat)
    requires Accounts(log, row, index, birth, 0) && !row.confirmed
    ensures Accounts(log, row.(confirmed := true), index, birth, |log|)
  {
    assert log[birth..|log|] == log[birth..];
  }

  lemma CreditKeepsBalance(t: Table, index: nat, tickets: nat)
    requires Balanced(t)
    ensures Balanced(CreditTable(t, index, tickets))
  {
    forall i | 0 <= i < |t.rows|
      ensures Accounts(t.log + [Credit(index, tickets)], CreditBelow(t.rows, index, tickets)[i], i,
                       t.birth[i], t.frozen[i])
    {
      CreditKeepsAccount(t.log, Credit(index, tickets), t.rows[i], i, t.birth[i], t.frozen[i]);
    }
  }

  lemma TruncationKeepsBalance(t: Table, n: nat)
    requires Balanced(t) && n <= |t.rows|
    ensures Balanced(Truncate(t, n))
  {
  }

  lemma AppendKeepsBalance(t: Table, b: Block)
    requires Balanced(t)
    ensures Balanced(Append(t, b))
  {
  }

  lemma InsertKeepsBalance(cfg: Config, t: Table, b: Block)
    requires Balanced(t)
    ensures Balanced(Insert(cfg, t, b))
  {
    var v := Judge(cfg, t.rows, b);
    if Credits(v) {
      var credited := CreditTable(t, b.index, Validate(cfg, b).value);
      CreditKeepsBalance(t, b.index, Validate(cfg, b).value);
      if v.Inserted? {
        TruncationKeepsBalance(credited, b.index);
        AppendKeepsBalance(Truncate(credited, b.index), b);
      }
    }
  }

  lemma {:induction false} InsertAllKeepsBalance(cfg: Config, t: Table, bs: seq<Block>)
    requires Balanced(t)
    ensures Balanced(InsertAll(cfg, t, bs))
    decreases |bs|
  {
    if bs != [] {
      InsertKeepsBalance(cfg, t, bs[0]);
      InsertAllKeepsBalance(cfg, Insert(cfg, t, bs[0]), bs[1..]);
    }
  }

  /**
   Rows that a failed merge puts back still account: what was logged meanwhile is a block at most
   one above the ancestor, which is not above any of them.
   */
  lemma ReattachedRowsAccount(cfg: Config, t: Table, n: nat, b: Block)
    requires Balanced(t) && n <= |t.rows| && !Judge(cfg, t.rows[..n], b).Inserted?
    ensures Balanced(Reattach(Insert(cfg, Truncate(t, n), b), t, n))
  {
    var cut := Truncate(t, n);
    var tried := Insert(cfg, cut, b);
    TruncationKeepsBalance(t, n);
    InsertKeepsBalance(cfg, cut, b);
    RefusedInsertOnlyCredits(cfg, cut, b);
    if Credits(Judge(cfg, cut.rows, b)) {
      forall i | n <= i < |t.rows|
        ensures Accounts(tried.log, t.rows[i], i, t.birth[i], t.frozen[i])
      {
        CreditKeepsAccount(t.log, Credit(b.index, Validate(cfg, b).value), t.rows[i], i, t.birth[i], t.frozen[i]);
      }
    }
    ReattachKeepsBalance(tried, t, n);
  }

  lemma ReattachKeepsBalance(tried: Table, t: Table, n: nat)
    requires Balanced(tried) && Aligned(t) && |tried.rows| == n <= |t.rows|
    requires forall i :: n <= i < |t.rows| ==> Accounts(tried.log, t.rows[i], i, t.birth[i], t.frozen[i])
    ensures Balanced(Reattach(tried, t, n))
  {
  }

  lemma MergeKeepsBalance(cfg: Config, t: Table, foreign: seq<Block>)
    requires Balanced(t) && |foreign| >= 1
    ensures Balanced(Merge(cfg, t, foreign).table)
  {
    var ancestor := FindHash(t.rows, foreign[0].parentHash);
    if ancestor.Some? {
      var n := ancestor.value + 1;
      var cut := Truncate(t, n);
      if Judge(cfg, cut.rows, foreign[0]).Inserted? {
        TruncationKeepsBalance(t, n);
        InsertKeepsBalance(cfg, cut, foreign[0]);
        InsertAllKeepsBalance(cfg, Insert(cfg, cut, foreign[0]), foreign[1..]);
      } else {
        ReattachedRowsAccount(cfg, t, n, foreign[0]);
      }
    }
  }

  lemma ConfirmingKeepsBalance(t: Table, lo: nat, hi: nat)
    requires Balanced(t) && lo <= hi <= |t.rows|
    requires forall i :: lo <= i < hi ==> !t.rows[i].confirmed
    ensures Balanced(ConfirmRange(t, lo, hi))
  {
    forall i | lo <= i < hi
      ensures Accounts(t.log, t.rows[i].(confirmed := true), i, t.birth[i], |t.log|)
    {
      ConfirmingFreezesAccount(t.log, t.rows[i], i, t.birth[i]);
    }
  }

  lemma RoundKeepsBalance(cfg: Config, s: ChainState, round: int)
    requires Sound(s) && Balanced(s.table)
    ensures Balanced(UpdateRound(cfg, s, round).state.table)
  {
    var rows := s.table.rows;
    var lo := ConfirmedCount(rows);
    FirstUnconfirmedSplits(rows, 0);
    hide ChainInvariant, Passes, LooksForked, Balanced, ConfirmRange;
    if s.currentRound != round && lo < |rows| {
      UnconfirmedBehind(rows, lo);
      ConfirmingKeepsBalance(s.table, lo, RunEnd(cfg, rows, round, lo));
    }
  }

  lemma UnconfirmedBehind(rows: seq<Row>, lo: nat)
    requires ChainInvariant(rows) && lo < |rows| && !rows[lo].confirmed
    ensures forall i :: lo <= i < |rows| ==> !rows[i].confirmed
  {
  }

  lemma StepKeepsBalance(cfg: Config, s: ChainState, op: Operation)
    requires Sound(s) && Balanced(s.table)
    ensures Balanced(Step(cfg, s, op).table)
  {
    hide Balanced, ChainInvariant, Insert, Merge, UpdateRound;
    match op
    case DoInsert(b) => InsertKeepsBalance(cfg, s.table, b);
    case DoMerge(head, tail) => MergeKeepsBalance(cfg, s.table, [head] + tail);
    case DoRound(round) => RoundKeepsBalance(cfg, s, round);
  }

  /** In every reachable state every row's count is exactly what the log says. */
  lemma {:induction false} LedgerBalancesInEveryRun(cfg: Config, ops: seq<Operation>, n: nat)
    requires n <= |ops|
    ensures Sound(INITIAL_CHAIN) && Balanced(After(cfg, INITIAL_CHAIN, ops, n).table)
  {
    if n == 0 {
      assert INITIAL_CHAIN.table.log[0..0] == [];
    } else {
      LedgerBalancesInEveryRun(cfg, ops, n - 1);
      StepKeepsBalance(cfg, After(cfg, INITIAL_CHAIN, ops, n - 1), ops[n - 1]);
    }
  }
}
