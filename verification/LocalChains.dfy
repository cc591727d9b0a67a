/**
 The SQL statements of cpos/core/blockchain.py, each as its meaning on the rows of `localChains`.
 Rows are listed by block_index, so ORDER BY ... LIMIT 1 takes the first or the last of a selection.
 A precondition says when the program's `fetchone()[0]` or INSERT would raise. The lemmas say what
 each statement yields on a table that satisfies the chain invariant.
 */
module LocalChains {
  import opened Wrappers
  import opened Bytes
  import opened Blocks
  import opened Chain

  function Select(rows: seq<Row>, where: Row -> bool): (selected: seq<Row>)
    ensures |selected| <= |rows|
  {
    if rows == [] then []
    else if where(rows[0]) then [rows[0]] + Select(rows[1..], where)
    else Select(rows[1..], where)
  }

  function FetchOne(rows: seq<Row>): Option<Row> {
    if rows == [] then None else Some(rows[0])
  }

  function FetchLast(rows: seq<Row>): Option<Row> {
    if rows == [] then None else Some(rows[|rows| - 1])
  }

  // The WHERE clauses
  function HashIs(hash: ByteString): Row -> bool { (r: Row) => r.block.hash == hash }
  function IndexIs(index: int): Row -> bool { (r: Row) => r.block.index == index }
  function IndexFrom(index: int): Row -> bool { (r: Row) => r.block.index >= index }
  function IndexBelow(index: int): Row -> bool { (r: Row) => r.block.index < index }
  function IsConfirmed(): Row -> bool { (r: Row) => r.confirmed }
  function IsUnconfirmed(): Row -> bool { (r: Row) => !r.confirmed }
  function UnconfirmedBelow(index: int): Row -> bool { (r: Row) => r.block.index < index && !r.confirmed }

  function WithHash(rows: seq<Row>, hash: ByteString): Option<Row> {
    FetchOne(Select(rows, HashIs(hash)))
  }

  function AtIndex(rows: seq<Row>, index: int): Option<Row> {
    FetchOne(Select(rows, IndexIs(index)))
  }

  function Since(rows: seq<Row>, index: int): seq<Row> {
    Select(rows, IndexFrom(index))
  }

  function DeleteSince(rows: seq<Row>, index: int): seq<Row> {
    Select(rows, IndexBelow(index))
  }

  function LastConfirmed(rows: seq<Row>): Option<Row> {
    FetchLast(Select(rows, IsConfirmed()))
  }

  function OldestUnconfirmed(rows: seq<Row>): Option<Row> {
    FetchOne(Select(rows, IsUnconfirmed()))
  }

  function UpdateEach(rows: seq<Row>, where: Row -> bool, change: Row -> Row): (updated: seq<Row>)
    ensures |updated| == |rows|
    ensures forall i :: 0 <= i < |rows| ==> updated[i] == if where(rows[i]) then change(rows[i]) else rows[i]
  {
    if rows == [] then []
    else [if where(rows[0]) then change(rows[0]) else rows[0]] + UpdateEach(rows[1..], where, change)
  }

  function CreditSortition(rows: seq<Row>, index: int, tickets: nat): seq<Row> {
    UpdateEach(rows, UnconfirmedBelow(index), (r: Row) => r.(numSuc := r.numSuc + tickets))
  }

  function Confirm(rows: seq<Row>, id: ByteString): seq<Row> {
    UpdateEach(rows, HashIs(id), (r: Row) => r.(confirmed := true))
  }

  // The primary key (id, block_index) is new, and the row belongs at the end of the listing
  predicate KeyIsNew(rows: seq<Row>, r: Row) {
    && (forall i :: 0 <= i < |rows| ==> rows[i].block.hash != r.block.hash || rows[i].block.index != r.block.index)
    && (forall i :: 0 <= i < |rows| ==> rows[i].block.index < r.block.index)
  }

  function InsertRow(rows: seq<Row>, r: Row): seq<Row>
    requires KeyIsNew(rows, r)
  {
    rows + [r]
  }

  /** `compose_block`: the block rebuilt from its row, with a plain transaction list's hash. */
  function ComposeBlock(sha: Hash, r: Row): Option<Block> {
    Create(sha, r.block.parentHash, TransactionList(r.block.transactions, NO_TRANSACTIONS.hash), r.block.owner,
           r.block.signedNodeHash, r.block.round, r.block.index, r.block.ticket)
  }

  // ---- What the statements yield on an indexed table ----

  lemma {:induction false} SelectNone(rows: seq<Row>, where: Row -> bool)
    requires forall i :: 0 <= i < |rows| ==> !where(rows[i])
    ensures Select(rows, where) == []
  {
    if rows != [] {
      SelectNone(rows[1..], where);
    }
  }

  lemma {:induction false} SelectPrefix(rows: seq<Row>, where: Row -> bool, n: nat)
    requires n <= |rows|
    requires forall i :: 0 <= i < |rows| ==> (where(rows[i]) <==> i < n)
    ensures Select(rows, where) == rows[..n]
  {
    if n == 0 {
      SelectNone(rows, where);
    } else {
      SelectPrefix(rows[1..], where, n - 1);
      assert rows[..n] == [rows[0]] + rows[1..][..n - 1];
    }
  }

  lemma {:induction false} SelectFirst(rows: seq<Row>, where: Row -> bool, n: nat)
    requires n < |rows| && where(rows[n])
    requires forall i :: 0 <= i < n ==> !where(rows[i])
    ensures FetchOne(Select(rows, where)) == Some(rows[n])
  {
    if n > 0 {
      SelectFirst(rows[1..], where, n - 1);
    }
  }

  lemma {:induction false} SelectSuffix(rows: seq<Row>, where: Row -> bool, n: nat)
    requires n <= |rows|
    requires forall i :: 0 <= i < |rows| ==> (where(rows[i]) <==> n <= i)
    ensures Select(rows, where) == rows[n..]
  {
    if rows != [] {
      if n == 0 {
        SelectSuffix(rows[1..], where, 0);
      } else {
        SelectSuffix(rows[1..], where, n - 1);
      }
    }
  }

  lemma AtIndexIsThere(rows: seq<Row>, index: nat)
    requires Indexed(rows) && index < |rows|
    ensures AtIndex(rows, index) == Some(rows[index])
  {
    SelectFirst(rows, IndexIs(index), index);
  }

  lemma DeletionKeepsPrefix(rows: seq<Row>, index: nat)
    requires Indexed(rows) && index <= |rows|
    ensures DeleteSince(rows, index) == rows[..index]
    ensures Since(rows, index) == rows[index..]
  {
    SelectPrefix(rows, IndexBelow(index), index);
    SelectSuffix(rows, IndexFrom(index), index);
  }

  /** When the whole is a chain, the rows behind a prefix of it can be put back one by one. */
  lemma RemovedKeyIsNew(before: seq<Row>, removed: seq<Row>, i: nat)
    requires ChainInvariant(before + removed) && i < |removed|
    ensures KeyIsNew(before + removed[..i], removed[i])
  {
    hide Linked, DistinctHashes, RoundsRise, ConfirmedPrefix, NumSucFalls;
    var whole := before + removed;
    assert whole[|before| + i] == removed[i];
    assert forall k :: 0 <= k < |before| + i ==> (before + removed[..i])[k] == whole[k];
  }

  lemma CreditReachesBelow(rows: seq<Row>, index: nat, tickets: nat)
    requires Indexed(rows)
    ensures CreditSortition(rows, index, tickets) == CreditBelow(rows, index, tickets)
  {
  }

  lemma WithHashFindsFirst(rows: seq<Row>, hash: ByteString)
    ensures WithHash(rows, hash) ==
            match FindHash(rows, hash)
            case Some(i) => Some(rows[i])
            case None => None
  {
    FoundFirst(rows, hash);
    match FindHash(rows, hash)
    case Some(i) => SelectFirst(rows, HashIs(hash), i);
    case None => SelectNone(rows, HashIs(hash));
  }

  lemma ConfirmedRowsAreAPrefix(rows: seq<Row>)
    requires ConfirmedPrefix(rows) && |rows| >= 1 && rows[0].confirmed
    ensures ConfirmedCount(rows) >= 1
    ensures LastConfirmed(rows) == Some(rows[ConfirmedCount(rows) - 1])
    ensures OldestUnconfirmed(rows) == if ConfirmedCount(rows) < |rows| then Some(rows[ConfirmedCount(rows)]) else None
  {
    FirstUnconfirmedSplits(rows, 0);
    var n := ConfirmedCount(rows);
    SelectPrefix(rows, IsConfirmed(), n);
    if n < |rows| {
      SelectFirst(rows, IsUnconfirmed(), n);
    } else {
      SelectNone(rows, IsUnconfirmed());
    }
  }

  lemma ConfirmChangesOneRow(rows: seq<Row>, n: nat)
    requires DistinctHashes(rows) && n < |rows|
    ensures Confirm(rows, rows[n].block.hash) == rows[n := rows[n].(confirmed := true)]
  {
  }
}
