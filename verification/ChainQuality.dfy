/**
 Chain quality: inserts only ever improve the chain. A chain is better when, at the first block
 where the proof hashes differ, its own is smaller, or when it properly extends the other.
 */
module ChainQuality {
  import opened Bytes
  import opened Blocks
  import opened Chain
  import opened ChainRuns

  function ProofHashes(blocks: seq<Block>): seq<ByteString> {
    seq(|blocks|, i requires 0 <= i < |blocks| => blocks[i].proofHash)
  }

  function Quality(rows: seq<Row>): seq<ByteString> {
    ProofHashes(BlocksOf(rows))
  }

  ghost predicate BetterAt(a: seq<ByteString>, b: seq<ByteString>, i: nat) {
    && i < |a| && i <= |b| && a[..i] == b[..i]
    && (i < |b| ==> Less(a[i], b[i]))
  }

  ghost predicate Better(a: seq<ByteString>, b: seq<ByteString>) {
    exists i :: BetterAt(a, b, i)
  }

  lemma BetterIsIrreflexive(a: seq<ByteString>)
    ensures !Better(a, a)
  {
    forall i: nat
      ensures !BetterAt(a, a, i)
    {
      if i < |a| {
        LessIsIrreflexive(a[i]);
      }
    }
  }

  lemma BetterIsTransitive(a: seq<ByteString>, b: seq<ByteString>, c: seq<ByteString>)
    requires Better(a, b) && Better(b, c)
    ensures Better(a, c)
  {
    var i: nat :| BetterAt(a, b, i);
    var j: nat :| BetterAt(b, c, j);
    var k := if i < j then i else j;
    assert a[..k] == a[..i][..k] && b[..k] == b[..i][..k] == b[..j][..k] && c[..k] == c[..j][..k];
    if i < j {
      assert b[i] == b[..j][i] == c[..j][i] == c[i];
    } else if j < i {
      assert a[j] == a[..i][j] == b[..i][j] == b[j];
    } else if i < |b| && i < |c| {
      LessIsTransitive(a[i], b[i], c[i]);
    }
    assert BetterAt(a, c, k);
  }

  /** Every successful insert makes the chain strictly better; every other one leaves its blocks. */
  lemma InsertImproves(cfg: Config, t: Table, b: Block)
    requires Aligned(t)
    ensures BetterOrSame(Judge(cfg, t.rows, b).Inserted?, Quality(Insert(cfg, t, b).rows), Quality(t.rows))
  {
    InsertEffect(cfg, t, b);
    if Judge(cfg, t.rows, b).Inserted? {
      var i := b.index;
      assert Quality(Insert(cfg, t, b).rows) == Quality(t.rows)[..i] + [b.proofHash];
      assert BetterAt(Quality(Insert(cfg, t, b).rows), Quality(t.rows), i);
    }
  }

  // A run in which every merge fails
  ghost predicate NoMergeSucceeds(cfg: Config, s: ChainState, ops: seq<Operation>)
    requires Sound(s)
  {
    forall i :: 0 <= i < |ops| && ops[i].DoMerge? ==>
      !Merge(cfg, After(cfg, s, ops, i).table, [ops[i].head] + ops[i].tail).merged
  }

  ghost predicate InsertsAt(cfg: Config, s: ChainState, ops: seq<Operation>, i: nat)
    requires Sound(s) && i < |ops|
  {
    ops[i].DoInsert? && Judge(cfg, After(cfg, s, ops, i).table.rows, ops[i].block).Inserted?
  }

  lemma StepImproves(cfg: Config, s: ChainState, op: Operation)
    requires Sound(s)
    requires op.DoMerge? ==> !Merge(cfg, s.table, [op.head] + op.tail).merged
    ensures BetterOrSame(op.DoInsert? && Judge(cfg, s.table.rows, op.block).Inserted?,
                         Quality(Step(cfg, s, op).table.rows), Quality(s.table.rows))
  {
    match op
    case DoInsert(b) => InsertImproves(cfg, s.table, b);
    case DoMerge(head, tail) =>
      FailedMergeOnlyCredits(cfg, s.table, [head] + tail);
      assert BlocksOf(Merge(cfg, s.table, [head] + tail).table.rows) == BlocksOf(s.table.rows);
    case DoRound(round) =>
      UpdateRoundKeepsInvariant(cfg, s, round);
  }

  /** How many inserts succeed between the moments m and n of a run. */
  ghost function Inserts(cfg: Config, s: ChainState, ops: seq<Operation>, m: nat, n: nat): nat
    requires Sound(s) && m <= n <= |ops|
    decreases n
  {
    if m == n then 0 else Inserts(cfg, s, ops, m, n - 1) + if InsertsAt(cfg, s, ops, n - 1) then 1 else 0
  }

  ghost predicate BetterOrSame(strictly: bool, after: seq<ByteString>, before: seq<ByteString>) {
    if strictly then Better(after, before) else after == before
  }

  lemma BetterOrSameComposes(x: bool, y: bool, a: seq<ByteString>, b: seq<ByteString>, c: seq<ByteString>)
    requires BetterOrSame(x, b, a) && BetterOrSame(y, c, b)
    ensures BetterOrSame(x || y, c, a)
  {
    if x && y {
      BetterIsTransitive(c, b, a);
    }
  }

  lemma MomentImproves(cfg: Config, s: ChainState, ops: seq<Operation>, i: nat)
    requires Sound(s) && i < |ops| && NoMergeSucceeds(cfg, s, ops)
    ensures BetterOrSame(InsertsAt(cfg, s, ops, i), Quality(After(cfg, s, ops, i + 1).table.rows),
                         Quality(After(cfg, s, ops, i).table.rows))
  {
    StepImproves(cfg, After(cfg, s, ops, i), ops[i]);
    hide Quality, BetterOrSame, Step, Sound;
  }

  /**
   Between any two moments of a run without a successful merge, the chain is the same or strictly
   better, and it is strictly better as soon as one insert succeeded in between.
   */
  lemma {:induction false} RunsOnlyImprove(cfg: Config, s: ChainState, ops: seq<Operation>, m: nat, n: nat)
    requires Sound(s) && m <= n <= |ops| && NoMergeSucceeds(cfg, s, ops)
    ensures BetterOrSame(Inserts(cfg, s, ops, m, n) > 0,
                         Quality(After(cfg, s, ops, n).table.rows), Quality(After(cfg, s, ops, m).table.rows))
    decreases n - m
  {
    hide Quality, BetterOrSame, InsertsAt, Sound, After, NoMergeSucceeds;
    if m == n {
      NotWorseThanItself(Quality(After(cfg, s, ops, m).table.rows));
    } else {
      RunsOnlyImprove(cfg, s, ops, m, n - 1);
      MomentImproves(cfg, s, ops, n - 1);
      BetterOrSameComposes(Inserts(cfg, s, ops, m, n - 1) > 0, InsertsAt(cfg, s, ops, n - 1),
                           Quality(After(cfg, s, ops, m).table.rows), Quality(After(cfg, s, ops, n - 1).table.rows),
                           Quality(After(cfg, s, ops, n).table.rows));
    }
  }

  lemma NotWorseThanItself(a: seq<ByteString>)
    ensures BetterOrSame(false, a, a)
  {
  }

  /** Once an insert has succeeded, no chain from before it ever comes back. */
  lemma NoEarlierChainReturns(cfg: Config, s: ChainState, ops: seq<Operation>, m: nat, n: nat)
    requires Sound(s) && m <= n <= |ops| && NoMergeSucceeds(cfg, s, ops)
    requires Inserts(cfg, s, ops, m, n) > 0
    ensures BlocksOf(After(cfg, s, ops, n).table.rows) != BlocksOf(After(cfg, s, ops, m).table.rows)
  {
    RunsOnlyImprove(cfg, s, ops, m, n);
    BetterIsIrreflexive(Quality(After(cfg, s, ops, m).table.rows));
  }
}
