/** What a successful merge does with a foreign list whose blocks are linked by their hashes. */
module MergeOutcome {
  import opened Bytes
  import opened Blocks
  import opened Chain

  ghost predicate HashLinkedList(bs: seq<Block>) {
    forall k :: 1 <= k < |bs| ==> bs[k].parentHash == bs[k - 1].hash
  }

  function TipHash(rows: seq<Row>): ByteString
    requires |rows| >= 1
  {
    rows[|rows| - 1].block.hash
  }

  /** A block whose parent is the tip can only land behind it. */
  lemma ChildOfTipLandsAtTheEnd(cfg: Config, t: Table, b: Block)
    requires Aligned(t) && ChainInvariant(t.rows) && b.parentHash == TipHash(t.rows)
    requires Judge(cfg, t.rows, b).Inserted?
    ensures b.index == |t.rows|
    ensures BlocksOf(Insert(cfg, t, b).rows) == BlocksOf(t.rows) + [b]
    ensures |Insert(cfg, t, b).rows| >= 1 && TipHash(Insert(cfg, t, b).rows) == b.hash
  {
    InsertEffect(cfg, t, b);
    assert BlocksOf(Insert(cfg, t, b).rows)[|t.rows|] == b;
    assert t.rows[b.index - 1].block.hash == t.rows[|t.rows| - 1].block.hash;
  }

  /** How many blocks go in before one is refused. */
  ghost function Accepted(cfg: Config, t: Table, bs: seq<Block>): (m: nat)
    requires Aligned(t)
    ensures m <= |bs|
    decreases |bs|
  {
    if bs != [] && Judge(cfg, t.rows, bs[0]).Inserted? then 1 + Accepted(cfg, Insert(cfg, t, bs[0]), bs[1..]) else 0
  }

  /** The blocks of a linked list that are accepted are its longest accepted prefix, in order, at the end. */
  lemma {:induction false} LinkedListIsAppended(cfg: Config, t: Table, bs: seq<Block>)
    requires Aligned(t) && ChainInvariant(t.rows) && HashLinkedList(bs)
    requires bs != [] ==> |t.rows| >= 1 && bs[0].parentHash == TipHash(t.rows)
    ensures BlocksOf(InsertAll(cfg, t, bs).rows) == BlocksOf(t.rows) + bs[..Accepted(cfg, t, bs)]
    decreases |bs|
  {
    hide Judge, Insert, ChainInvariant, TipHash, BlocksOf;
    if bs == [] {
    } else if !Judge(cfg, t.rows, bs[0]).Inserted? {
      InsertEffect(cfg, t, bs[0]);
      assert bs[..0] == [];
    } else {
      ChildOfTipLandsAtTheEnd(cfg, t, bs[0]);
      InsertKeepsInvariant(cfg, t, bs[0]);
      LinkedListIsAppended(cfg, Insert(cfg, t, bs[0]), bs[1..]);
      PrefixOfTail(bs, Accepted(cfg, Insert(cfg, t, bs[0]), bs[1..]));
    }
  }

  lemma PrefixOfTail(bs: seq<Block>, m: nat)
    requires m < |bs|
    ensures bs[..m + 1] == [bs[0]] + bs[1..][..m]
  {
  }

  /** The first block that is left out was refused by the chain that had grown until then. */
  lemma {:induction false} FirstLeftOutIsRefused(cfg: Config, t: Table, bs: seq<Block>)
    requires Aligned(t) && Accepted(cfg, t, bs) < |bs|
    ensures var m := Accepted(cfg, t, bs); !Judge(cfg, InsertAll(cfg, t, bs[..m]).rows, bs[m]).Inserted?
    decreases |bs|
  {
    if Judge(cfg, t.rows, bs[0]).Inserted? {
      var m := Accepted(cfg, Insert(cfg, t, bs[0]), bs[1..]);
      FirstLeftOutIsRefused(cfg, Insert(cfg, t, bs[0]), bs[1..]);
      assert bs[..m + 1][1..] == bs[1..][..m];
    }
  }

  /**
   A merge that succeeds leaves the local blocks up to the common ancestor, followed by the longest
   accepted prefix of the foreign list, which is not empty.
   */
  lemma SuccessfulMergeReplacesTheFork(cfg: Config, t: Table, foreign: seq<Block>)
    requires Aligned(t) && ChainInvariant(t.rows) && |foreign| >= 1 && HashLinkedList(foreign)
    requires Merge(cfg, t, foreign).merged
    ensures var ancestor := FindHash(t.rows, foreign[0].parentHash);
            && ancestor.Some?
            && var cut := Truncate(t, ancestor.value + 1);
               var m := Accepted(cfg, cut, foreign);
               && 1 <= m <= |foreign|
               && BlocksOf(Merge(cfg, t, foreign).table.rows) == BlocksOf(t.rows)[..ancestor.value + 1] + foreign[..m]
               && (m < |foreign| ==> !Judge(cfg, InsertAll(cfg, cut, foreign[..m]).rows, foreign[m]).Inserted?)
  {
    var n := FindHash(t.rows, foreign[0].parentHash).value + 1;
    var cut := Truncate(t, n);
    TruncationKeepsInvariant(t.rows, n);
    assert BlocksOf(cut.rows) == BlocksOf(t.rows)[..n];
    LinkedListIsAppended(cfg, cut, foreign);
    if Accepted(cfg, cut, foreign) < |foreign| {
      FirstLeftOutIsRefused(cfg, cut, foreign);
    }
    assert Merge(cfg, t, foreign).table == InsertAll(cfg, cut, foreign);
  }
}
