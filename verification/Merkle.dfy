/**
 The Merkle tree of cpos/util/merkle.py: chunk digests padded to a power of two, and a root
 computed level by level inside one array. `Root` is the tree hash it is measured against.
 */
module Merkle {
  import opened Wrappers
  import opened Bytes

  // ---- Powers of two and padding ----

  /** The `&` of two naturals. */
  function BitAnd(a: nat, b: nat): nat {
    if a == 0 || b == 0 then 0 else (a % 2) * (b % 2) + 2 * BitAnd(a / 2, b / 2)
  }

  predicate IsPowerOfTwo(n: nat) {
    n != 0 && BitAnd(n, n - 1) == 0
  }

  /** `n.bit_length()` */
  function BitLength(n: nat): nat {
    if n == 0 then 0 else 1 + BitLength(n / 2)
  }

  function CalculatePadding(n: nat): int {
    if IsPowerOfTwo(n) then 0 else Power(2, BitLength(n)) - n
  }

  lemma {:induction false} BitAndOfSelf(n: nat)
    ensures BitAnd(n, n) == n
  {
    if n > 0 {
      BitAndOfSelf(n / 2);
      SquareOfBit(n % 2);
    }
  }

  lemma SquareOfBit(r: nat)
    requires r < 2
    ensures r * r == r
  {
  }

  lemma {:induction false} BitLengthBounds(n: nat)
    requires n > 0
    ensures BitLength(n) >= 1
    ensures Power(2, BitLength(n) - 1) <= n < Power(2, BitLength(n))
  {
    if n > 1 {
      BitLengthBounds(n / 2);
    } else {
      assert BitLength(1) == 1 + BitLength(0);
    }
  }

  lemma TestOfDouble(m: nat)
    requires m >= 1
    ensures IsPowerOfTwo(2 * m) <==> IsPowerOfTwo(m)
  {
  }

  lemma TestOfOdd(m: nat)
    requires m >= 1
    ensures !IsPowerOfTwo(2 * m + 1)
  {
    assert (2 * m + 1) / 2 == m && (2 * m) / 2 == m && (2 * m) % 2 == 0;
    assert BitAnd(2 * m + 1, 2 * m) == 2 * BitAnd(m, m);
    BitAndOfSelf(m);
  }

  /** The bit trick recognises exactly the powers of two. */
  lemma {:induction false} PowerOfTwoTest(n: nat)
    requires n > 0
    ensures IsPowerOfTwo(n) <==> n == Power(2, BitLength(n) - 1)
  {
    if n == 1 {
      assert BitLength(1) == 1 + BitLength(0);
    } else {
      var m := n / 2;
      PowerOfTwoTest(m);
      BitLengthBounds(m);
      TestOfDouble(m);
      TestOfOdd(m);
      hide IsPowerOfTwo;
      assert BitLength(n) == BitLength(m) + 1;
      assert Power(2, BitLength(n) - 1) == 2 * Power(2, BitLength(m) - 1);
    }
  }

  /** The height of the tree over n padded leaves. */
  function Height(n: nat): nat {
    if n == 0 then 0 else if IsPowerOfTwo(n) then BitLength(n) - 1 else BitLength(n)
  }

  /** Padding rounds up to the next power of two, and no further. */
  lemma PaddingRoundsUp(n: nat)
    ensures CalculatePadding(n) >= 0
    ensures n + CalculatePadding(n) == Power(2, Height(n))
    ensures Height(n) == 0 || Power(2, Height(n) - 1) < n
  {
    if n > 0 {
      PowerOfTwoTest(n);
      BitLengthBounds(n);
      if IsPowerOfTwo(n) && Height(n) > 0 {
        PowerPositive(Height(n) - 1);
      }
    }
  }

  lemma {:induction false} PowerPositive(k: nat)
    ensures Power(2, k) >= 1
  {
    if k > 0 {
      PowerPositive(k - 1);
    }
  }

  // ---- Leaves ----

  /** The digests of the consecutive chunks; the last one may be short, and a negative size gives none. */
  function ChunkDigests(sha: Hash, data: ByteString, chunkSize: int): (digests: seq<ByteString>)
    requires chunkSize != 0
    ensures forall i :: 0 <= i < |digests| ==> |digests[i]| == 32
    ensures |digests| >= 1 <==> data != [] && chunkSize > 0
  {
    if data == [] || chunkSize < 0 then []
    else if |data| <= chunkSize then [sha(data)]
    else [sha(data[..chunkSize])] + ChunkDigests(sha, data[chunkSize..], chunkSize)
  }

  lemma FirstChunk(sha: Hash, data: ByteString, chunkSize: nat, offset: nat, end: nat)
    requires chunkSize >= 1 && offset < |data|
    requires end == if offset + chunkSize < |data| then offset + chunkSize else |data|
    ensures ChunkDigests(sha, data[offset..], chunkSize)
            == [sha(data[offset..end])] + ChunkDigests(sha, data[end..], chunkSize)
  {
    var rest := data[offset..];
    if |rest| <= chunkSize {
      assert data[offset..end] == rest;
    } else {
      assert rest[..chunkSize] == data[offset..end];
      assert rest[chunkSize..] == data[end..];
    }
  }

  const PADDING_LEAF: ByteString := [0]

  function Pad(digests: seq<ByteString>): (leaves: seq<ByteString>)
    ensures |leaves| == Power(2, Height(|digests|))
  {
    PaddingRoundsUp(|digests|);
    digests + seq(CalculatePadding(|digests|), _ => PADDING_LEAF)
  }

  function Leaves(sha: Hash, data: ByteString, chunkSize: int): seq<ByteString>
    requires chunkSize != 0
  {
    Pad(ChunkDigests(sha, data, chunkSize))
  }

  function Min(a: nat, b: nat): nat {
    if a < b then a else b
  }

  lemma {:induction false} ChunkAt(sha: Hash, data: ByteString, chunkSize: nat, i: nat)
    requires chunkSize >= 1
    ensures i < |ChunkDigests(sha, data, chunkSize)| <==> i * chunkSize < |data|
    ensures i * chunkSize < |data| ==>
              ChunkDigests(sha, data, chunkSize)[i] == sha(data[i * chunkSize..Min((i + 1) * chunkSize, |data|)])
    decreases i
  {
    if data == [] {
      assert i * chunkSize >= 0;
    } else if i == 0 {
      assert 0 * chunkSize == 0 && 1 * chunkSize == chunkSize;
      assert data[0..|data|] == data;
      assert |data| > chunkSize ==> data[0..chunkSize] == data[..chunkSize];
    } else {
      NextChunk(i, chunkSize);
      if |data| > chunkSize {
        var rest := data[chunkSize..];
        ChunkAt(sha, rest, chunkSize, i - 1);
        if i * chunkSize < |data| {
          assert rest[(i - 1) * chunkSize..Min(i * chunkSize, |rest|)]
              == data[i * chunkSize..Min((i + 1) * chunkSize, |data|)];
        }
      }
    }
  }

  lemma NextChunk(i: nat, chunkSize: nat)
    requires i >= 1 && chunkSize >= 1
    ensures i * chunkSize == (i - 1) * chunkSize + chunkSize && (i + 1) * chunkSize == i * chunkSize + chunkSize
    ensures i * chunkSize >= chunkSize
  {
  }

  /** Leaf i is the digest of bytes i * size up to (i + 1) * size, or what is left of them, and a zero byte beyond the data. */
  lemma LeafAt(sha: Hash, data: ByteString, chunkSize: nat, i: nat)
    requires chunkSize >= 1 && i < |Leaves(sha, data, chunkSize)|
    ensures Leaves(sha, data, chunkSize)[i] ==
            if i * chunkSize < |data| then sha(data[i * chunkSize..Min((i + 1) * chunkSize, |data|)]) else [0]
  {
    ChunkAt(sha, data, chunkSize, i);
    PaddingRoundsUp(|ChunkDigests(sha, data, chunkSize)|);
  }

  // ---- The tree hash ----

  ghost function Root(sha: Hash, leaves: seq<ByteString>, height: nat): ByteString
    requires |leaves| == Power(2, height)
  {
    if height == 0 then leaves[0]
    else
      var half := Power(2, height - 1);
      sha(Root(sha, leaves[..half], height - 1) + Root(sha, leaves[half..], height - 1))
  }

  /** Left before right on every level. */
  lemma RootOfFour(sha: Hash, a: ByteString, b: ByteString, c: ByteString, d: ByteString)
    ensures Power(2, 2) == 4 && Root(sha, [a, b, c, d], 2) == sha(sha(a + b) + sha(c + d))
  {
    assert Power(2, 2) == 4 && Power(2, 1) == 2 && Power(2, 0) == 1;
    assert [a, b, c, d][..2] == [a, b] && [a, b, c, d][2..] == [c, d];
    RootOfTwo(sha, a, b);
    RootOfTwo(sha, c, d);
  }

  lemma RootOfTwo(sha: Hash, a: ByteString, b: ByteString)
    ensures Power(2, 1) == 2 && Root(sha, [a, b], 1) == sha(a + b)
  {
    assert Power(2, 1) == 2 && Power(2, 0) == 1;
    assert [a, b][..1] == [a] && [a, b][1..] == [b];
  }

  // ---- The tree object ----

  class MerkleTree {
    const sha: Hash
    const data: ByteString
    const chunkSize: int
    var chunks: array<ByteString>
    ghost var height: nat

    ghost predicate Valid()
      reads this, chunks
    {
      chunks.Length == Power(2, height)
    }

    // As it is after construction; `merkle_root` then overwrites the leaves
    ghost predicate Fresh()
      reads this, chunks
    {
      && Valid() && chunkSize != 0 && data != []
      && chunks[..] == Leaves(sha, data, chunkSize)
      && height == Height(|ChunkDigests(sha, data, chunkSize)|)
    }

    constructor (sha: Hash, data: ByteString, chunkSize: int)
      requires data != [] && chunkSize != 0
      ensures Fresh() && fresh(chunks)
      ensures this.sha == sha && this.data == data && this.chunkSize == chunkSize
    {
      this.sha, this.data, this.chunkSize := sha, data, chunkSize;
      new;
      var leaves := CreateHashedChunks(sha, data, chunkSize);
      height := Height(|leaves|);
      leaves := InsertPadding(leaves);
      chunks := new ByteString[|leaves|](i requires 0 <= i < |leaves| => leaves[i]);
      assert chunks[..] == leaves;
    }

    /** Building a tree fails on empty data, and on a chunk size of 0, which is no step for a range. */
    static method Build(sha: Hash, data: ByteString, chunkSize: int) returns (r: Result<MerkleTree>)
      ensures r.Failure? <==> data == [] || chunkSize == 0
      ensures r.Success? ==>
                && fresh(r.value) && r.value.Fresh()
                && r.value.sha == sha && r.value.data == data && r.value.chunkSize == chunkSize
    {
      if data == [] {
        return Failure("MerkleTree input data cannot be empty");
      }
      if chunkSize == 0 {
        return Failure("range() arg 3 must not be zero");
      }
      var tree := new MerkleTree(sha, data, chunkSize);
      return Success(tree);
    }

    static method CreateHashedChunks(sha: Hash, data: ByteString, chunkSize: int) returns (digests: seq<ByteString>)
      requires chunkSize != 0
      ensures digests == ChunkDigests(sha, data, chunkSize)
    {
      digests := [];
      var offset := 0;
      assert data[0..] == data;
      while if chunkSize > 0 then offset < |data| else offset > |data|
        invariant 0 <= offset && (chunkSize < 0 ==> offset == 0)
        invariant digests + ChunkDigests(sha, data[if offset < |data| then offset else |data|..], chunkSize)
                  == ChunkDigests(sha, data, chunkSize)
        decreases |data| - offset
      {
        var end := if offset + chunkSize < |data| then offset + chunkSize else |data|;
        FirstChunk(sha, data, chunkSize, offset, end);
        digests := digests + [sha(data[offset..end])];
        offset := offset + chunkSize;
      }
      assert data[|data|..] == [];
    }

    static method InsertPadding(digests: seq<ByteString>) returns (leaves: seq<ByteString>)
      ensures leaves == Pad(digests)
    {
      leaves := digests;
      if !IsPowerOfTwo(|digests|) {
        PaddingRoundsUp(|digests|);
        var padding := CalculatePadding(|digests|);
        leaves := leaves + seq(padding, _ => PADDING_LEAF);
      }
    }

    /** Overwrites the array level by level and returns the root of the leaves that were in it. */
    method MerkleRoot() returns (root: ByteString)
      requires Valid()
      modifies chunks
      ensures root == Root(sha, old(chunks[..]), height)
      ensures old(Fresh()) ==> root == TreeRoot(sha, data, chunkSize)
    {
      ghost var leaves := chunks[..];
      var size, round := chunks.Length, 0;
      PowerPositive(height);
      LeavesAreLevelZero(sha, leaves, height);
      while size > 1
        invariant 0 <= round <= height && size == Power(2, height - round) >= 1
        invariant LevelHolds(sha, leaves, height, round, chunks[..], 0, size)
      {
        SizeHalves(height - round);
        HashLevel(leaves, round, size);
        size := size / 2;
        round := round + 1;
      }
      OnlyTheRootIsLeft(height - round);
      TopOfTree(sha, leaves, height, chunks[..]);
      root := chunks[0];
    }

    // The inner loop of `merkle_root`: one pass over the level
    method HashLevel(ghost leaves: seq<ByteString>, round: nat, size: nat)
      requires Valid() && round < height && size == Power(2, height - round) && size % 2 == 0
      requires |leaves| == Power(2, height)
      requires LevelHolds(sha, leaves, height, round, chunks[..], 0, size)
      modifies chunks
      ensures LevelHolds(sha, leaves, height, round + 1, chunks[..], 0, size / 2)
    {
      hide LevelHolds, NodeHash, Power, Index;
      NothingDoneYet(sha, leaves, height, round, chunks[..]);
      var i := 0;
      while i < size
        invariant 0 <= i <= size && i % 2 == 0
        invariant LevelHolds(sha, leaves, height, round, chunks[..], i, size)
        invariant LevelHolds(sha, leaves, height, round + 1, chunks[..], 0, i / 2)
      {
        ghost var before := chunks[..];
        PairFits(height, round, i);
        var first := Index(i, round);
        var second := Index(i + 1, round);
        var hash := sha(chunks[first] + chunks[second]);
        PairHash(sha, leaves, height, round, before, i, size);
        chunks[first] := hash;
        assert chunks[..] == before[first := hash];
        WriteKeepsOthers(sha, leaves, height, round, before, i, size, hash);
        i := i + 2;
      }
    }
  }

  // ---- Why the in-place passes compute the tree hash ----

  /** `get_index` */
  function Index(i: nat, round: nat): nat {
    i * Power(2, round)
  }

  // The node number i of a level: the tree hash of the leaves below it
  ghost function NodeHash(sha: Hash, leaves: seq<ByteString>, height: nat, round: nat, i: nat): ByteString
    requires |leaves| == Power(2, height) && round <= height && i < Power(2, height - round)
  {
    LevelFits(height, round, i);
    Root(sha, leaves[Index(i, round)..Index(i + 1, round)], round)
  }

  ghost predicate LevelHolds(sha: Hash, leaves: seq<ByteString>, height: nat, round: nat, cells: seq<ByteString>,
                             from: nat, to: nat) {
    && |leaves| == |cells| == Power(2, height) && round <= height && to <= Power(2, height - round)
    && forall i :: from <= i < to ==>
         Index(i, round) < |cells| && cells[Index(i, round)] == NodeHash(sha, leaves, height, round, i)
  }

  lemma {:induction false} PowerSum(a: nat, b: nat)
    ensures Power(2, a + b) == Power(2, a) * Power(2, b)
  {
    if a > 0 {
      PowerSum(a - 1, b);
      assert 2 * (Power(2, a - 1) * Power(2, b)) == (2 * Power(2, a - 1)) * Power(2, b);
    }
  }

  lemma LevelFits(height: nat, round: nat, i: nat)
    requires round <= height && i < Power(2, height - round)
    ensures Index(i, round) < Index(i + 1, round) <= Power(2, height)
    ensures Index(i + 1, round) - Index(i, round) == Power(2, round)
  {
    PowerPositive(round);
    PowerSum(height - round, round);
    Scale(i + 1, Power(2, height - round), Power(2, round));
    assert (i + 1) * Power(2, round) == i * Power(2, round) + Power(2, round);
  }

  lemma Scale(a: nat, b: nat, w: nat)
    requires a <= b
    ensures a * w <= b * w
  {
  }

  lemma IndexIsInjective(i: nat, j: nat, round: nat)
    requires i < j
    ensures Index(i, round) < Index(j, round)
  {
    PowerPositive(round);
    Scale(i + 1, j, Power(2, round));
    assert (i + 1) * Power(2, round) == i * Power(2, round) + Power(2, round);
  }

  lemma SizeHalves(k: nat)
    requires Power(2, k) > 1
    ensures k > 0 && Power(2, k) % 2 == 0 && Power(2, k) / 2 == Power(2, k - 1) >= 1
  {
  }

  lemma OnlyTheRootIsLeft(k: nat)
    requires Power(2, k) <= 1
    ensures k == 0
  {
  }

  lemma LeavesAreLevelZero(sha: Hash, leaves: seq<ByteString>, height: nat)
    requires |leaves| == Power(2, height)
    ensures LevelHolds(sha, leaves, height, 0, leaves, 0, |leaves|)
  {
  }

  lemma TopOfTree(sha: Hash, leaves: seq<ByteString>, height: nat, cells: seq<ByteString>)
    requires LevelHolds(sha, leaves, height, height, cells, 0, 1)
    ensures |cells| > 0 && cells[0] == Root(sha, leaves, height)
  {
    PowerPositive(height);
    assert Index(0, height) == 0 && Index(1, height) == |leaves|;
    assert leaves[0..|leaves|] == leaves;
  }

  lemma NothingDoneYet(sha: Hash, leaves: seq<ByteString>, height: nat, round: nat, cells: seq<ByteString>)
    requires |leaves| == |cells| == Power(2, height) && round < height
    ensures LevelHolds(sha, leaves, height, round + 1, cells, 0, 0)
  {
  }

  lemma PairFits(height: nat, round: nat, i: nat)
    requires round < height && i % 2 == 0 && i + 1 < Power(2, height - round)
    ensures Index(i, round) < Index(i + 1, round) < Power(2, height)
    ensures Index(i / 2, round + 1) == Index(i, round)
    ensures i / 2 < Power(2, height - (round + 1))
  {
    LevelFits(height, round, i);
    LevelFits(height, round, i + 1);
    assert (i / 2) * (2 * Power(2, round)) == i * Power(2, round);
  }

  /** The digest of a pair of nodes is the node above them. */
  lemma PairHash(sha: Hash, leaves: seq<ByteString>, height: nat, round: nat, cells: seq<ByteString>, i: nat, size: nat)
    requires LevelHolds(sha, leaves, height, round, cells, i, size)
    requires round < height && i % 2 == 0 && i + 1 < size
    ensures Index(i + 1, round) < |cells| && i / 2 < Power(2, height - (round + 1))
    ensures sha(cells[Index(i, round)] + cells[Index(i + 1, round)]) == NodeHash(sha, leaves, height, round + 1, i / 2)
  {
    PairFits(height, round, i);
    LevelFits(height, round, i);
    LevelFits(height, round, i + 1);
    LevelFits(height, round + 1, i / 2);
    var lo, mid, hi := Index(i, round), Index(i + 1, round), Index(i + 2, round);
    assert Index(i / 2 + 1, round + 1) == hi by {
      assert (i / 2 + 1) * (2 * Power(2, round)) == (i + 2) * Power(2, round);
    }
    assert leaves[lo..hi][..Power(2, round)] == leaves[lo..mid];
    assert leaves[lo..hi][Power(2, round)..] == leaves[mid..hi];
    assert cells[lo] == NodeHash(sha, leaves, height, round, i);
    assert cells[mid] == NodeHash(sha, leaves, height, round, i + 1);
  }

  lemma WriteKeepsOthers(sha: Hash, leaves: seq<ByteString>, height: nat, round: nat, cells: seq<ByteString>,
                         i: nat, size: nat, hash: ByteString)
    requires LevelHolds(sha, leaves, height, round, cells, i, size)
    requires LevelHolds(sha, leaves, height, round + 1, cells, 0, i / 2)
    requires round < height && i % 2 == 0 && i + 1 < size
    requires i / 2 < Power(2, height - (round + 1)) && hash == NodeHash(sha, leaves, height, round + 1, i / 2)
    requires Index(i, round) < |cells|
    ensures LevelHolds(sha, leaves, height, round, cells[Index(i, round) := hash], i + 2, size)
    ensures LevelHolds(sha, leaves, height, round + 1, cells[Index(i, round) := hash], 0, i / 2 + 1)
  {
    PairFits(height, round, i);
    var above := round + 1;
    forall j | i + 2 <= j < size
      ensures Index(j, round) != Index(i, round)
    {
      IndexIsInjective(i, j, round);
    }
    forall j | 0 <= j < i / 2
      ensures Index(j, above) != Index(i, round)
    {
      IndexIsInjective(j, i / 2, above);
    }
  }

  // ---- Binding ----

  // Digests, and behind them padding
  ghost predicate DigestsThenPadding(leaves: seq<ByteString>) {
    && (forall i :: 0 <= i < |leaves| ==> |leaves[i]| == 32 || leaves[i] == PADDING_LEAF)
    && (forall i, j :: 0 <= i < j < |leaves| && leaves[i] == PADDING_LEAF ==> leaves[j] == PADDING_LEAF)
  }

  /** Everything hashed inside a tree. */
  ghost function NodePreimages(sha: Hash, leaves: seq<ByteString>, height: nat): set<ByteString>
    requires |leaves| == Power(2, height)
  {
    if height == 0 then {}
    else
      var half := Power(2, height - 1);
      {Root(sha, leaves[..half], height - 1) + Root(sha, leaves[half..], height - 1)}
      + NodePreimages(sha, leaves[..half], height - 1) + NodePreimages(sha, leaves[half..], height - 1)
  }

  /** Everything hashed to make the leaves. */
  ghost function ChunkPreimages(data: ByteString, chunkSize: nat): set<ByteString>
    requires chunkSize >= 1
  {
    if data == [] then {}
    else if |data| <= chunkSize then {data}
    else {data[..chunkSize]} + ChunkPreimages(data[chunkSize..], chunkSize)
  }

  /** The length of a pair, 64, 33 or 2, tells how it splits: padding is never taken for a digest. */
  lemma PairSplits(a: ByteString, b: ByteString, c: ByteString, d: ByteString)
    requires DigestsThenPadding([a, b]) && DigestsThenPadding([c, d])
    requires a + b == c + d
    ensures a == c && b == d
  {
    assert [a, b][0] == a && [a, b][1] == b && [c, d][0] == c && [c, d][1] == d;
    assert |a + b| == |a| + |b| && |c + d| == |c| + |d|;
    SplitConcatenation(a, b, c, d);
  }

  lemma InnerNodesAreDigests(sha: Hash, leaves: seq<ByteString>, height: nat)
    requires |leaves| == Power(2, height) && height > 0
    ensures |Root(sha, leaves, height)| == 32
  {
  }

  /** The two children of equal roots are equal. */
  lemma ChildrenAgree(sha: Hash, al: seq<ByteString>, ar: seq<ByteString>, bl: seq<ByteString>, br: seq<ByteString>,
                      height: nat)
    requires |al| == |ar| == |bl| == |br| == Power(2, height)
    requires DigestsThenPadding(al + ar) && DigestsThenPadding(bl + br)
    requires Root(sha, al, height) + Root(sha, ar, height) == Root(sha, bl, height) + Root(sha, br, height)
    ensures Root(sha, al, height) == Root(sha, bl, height) && Root(sha, ar, height) == Root(sha, br, height)
  {
    if height == 0 {
      assert al + ar == [al[0], ar[0]] && bl + br == [bl[0], br[0]];
      PairSplits(al[0], ar[0], bl[0], br[0]);
    } else {
      InnerNodesAreDigests(sha, al, height);
      InnerNodesAreDigests(sha, bl, height);
      SplitConcatenation(Root(sha, al, height), Root(sha, ar, height), Root(sha, bl, height), Root(sha, br, height));
    }
  }

  /** Equal roots come from equal leaves, unless two of the inner preimages collide. */
  lemma {:induction false} RootBindsLeaves(sha: Hash, a: seq<ByteString>, b: seq<ByteString>, height: nat)
    requires |a| == |b| == Power(2, height)
    requires DigestsThenPadding(a) && DigestsThenPadding(b)
    requires NoCollisions(sha, NodePreimages(sha, a, height) + NodePreimages(sha, b, height))
    requires Root(sha, a, height) == Root(sha, b, height)
    ensures a == b
    decreases height
  {
    hide NoCollisions, NodePreimages, DigestsThenPadding, Root;
    if height == 0 {
      RootOfLeaf(sha, a);
      RootOfLeaf(sha, b);
    } else {
      var half := Power(2, height - 1);
      assert a == a[..half] + a[half..] && b == b[..half] + b[half..];
      HalvesAreInOrder(a, half);
      HalvesAreInOrder(b, half);
      RootsComeFromOnePreimage(sha, a, b, height);
      ChildrenAgree(sha, a[..half], a[half..], b[..half], b[half..], height - 1);
      NoCollisionsInHalves(sha, a, b, height);
      RootBindsLeaves(sha, a[..half], b[..half], height - 1);
      RootBindsLeaves(sha, a[half..], b[half..], height - 1);
    }
  }

  lemma RootOfLeaf(sha: Hash, leaves: seq<ByteString>)
    requires |leaves| == 1 == Power(2, 0)
    ensures leaves == [Root(sha, leaves, 0)]
  {
  }

  lemma HalvesAreInOrder(leaves: seq<ByteString>, half: nat)
    requires half <= |leaves| && DigestsThenPadding(leaves)
    ensures DigestsThenPadding(leaves[..half]) && DigestsThenPadding(leaves[half..])
  {
  }

  lemma NoCollisionsInHalves(sha: Hash, a: seq<ByteString>, b: seq<ByteString>, height: nat)
    requires |a| == |b| == Power(2, height) && height > 0
    requires NoCollisions(sha, NodePreimages(sha, a, height) + NodePreimages(sha, b, height))
    ensures var half := Power(2, height - 1);
            && NoCollisions(sha, NodePreimages(sha, a[..half], height - 1) + NodePreimages(sha, b[..half], height - 1))
            && NoCollisions(sha, NodePreimages(sha, a[half..], height - 1) + NodePreimages(sha, b[half..], height - 1))
  {
  }

  lemma RootsComeFromOnePreimage(sha: Hash, a: seq<ByteString>, b: seq<ByteString>, height: nat)
    requires |a| == |b| == Power(2, height) && height > 0
    requires NoCollisions(sha, NodePreimages(sha, a, height) + NodePreimages(sha, b, height))
    requires Root(sha, a, height) == Root(sha, b, height)
    ensures var half := Power(2, height - 1);
            Root(sha, a[..half], height - 1) + Root(sha, a[half..], height - 1)
            == Root(sha, b[..half], height - 1) + Root(sha, b[half..], height - 1)
  {
  }

  /** Equal padded leaves come from equal digests: a digest is never one byte long. */
  lemma PaddingHidesNothing(a: seq<ByteString>, b: seq<ByteString>)
    requires |a| > 0 && |b| > 0 && Pad(a) == Pad(b)
    requires forall i :: 0 <= i < |a| ==> |a[i]| == 32
    requires forall i :: 0 <= i < |b| ==> |b[i]| == 32
    ensures a == b
  {
    hide Pad;
    PadStartsWith(a);
    PadStartsWith(b);
    if |a| < |b| {
      LeafLength(a, |a|);
      LeafLength(b, |a|);
      assert false;
    } else if |b| < |a| {
      LeafLength(a, |b|);
      LeafLength(b, |b|);
      assert false;
    }
  }

  lemma PadStartsWith(digests: seq<ByteString>)
    requires |digests| > 0
    ensures |digests| <= |Pad(digests)| && Pad(digests)[..|digests|] == digests
  {
  }

  lemma LeafLength(digests: seq<ByteString>, i: nat)
    requires |digests| > 0 && i < |Pad(digests)|
    requires forall i :: 0 <= i < |digests| ==> |digests[i]| == 32
    ensures |Pad(digests)[i]| == if i < |digests| then 32 else 1
  {
  }

  lemma PaddedDigestsAreInOrder(digests: seq<ByteString>)
    requires forall i :: 0 <= i < |digests| ==> |digests[i]| == 32
    ensures DigestsThenPadding(Pad(digests))
  {
  }

  /** Equal chunk digests come from equal data, unless two chunks collide. */
  lemma {:induction false} DigestsBindData(sha: Hash, a: ByteString, b: ByteString, chunkSize: nat)
    requires chunkSize >= 1 && a != [] && b != []
    requires ChunkDigests(sha, a, chunkSize) == ChunkDigests(sha, b, chunkSize)
    requires NoCollisions(sha, ChunkPreimages(a, chunkSize) + ChunkPreimages(b, chunkSize))
    ensures a == b
    decreases |a|
  {
    var all := ChunkPreimages(a, chunkSize) + ChunkPreimages(b, chunkSize);
    var a0 := if |a| <= chunkSize then a else a[..chunkSize];
    var b0 := if |b| <= chunkSize then b else b[..chunkSize];
    assert a0 in all && b0 in all;
    assert ChunkDigests(sha, a, chunkSize)[0] == sha(a0) && ChunkDigests(sha, b, chunkSize)[0] == sha(b0);
    if |a| > chunkSize && |b| > chunkSize {
      assert ChunkDigests(sha, a, chunkSize)[1..] == ChunkDigests(sha, a[chunkSize..], chunkSize);
      assert ChunkDigests(sha, b, chunkSize)[1..] == ChunkDigests(sha, b[chunkSize..], chunkSize);
      NoCollisionsAmongFewer(sha, ChunkPreimages(a[chunkSize..], chunkSize) + ChunkPreimages(b[chunkSize..], chunkSize),
                             all);
      DigestsBindData(sha, a[chunkSize..], b[chunkSize..], chunkSize);
      assert a == a[..chunkSize] + a[chunkSize..] && b == b[..chunkSize] + b[chunkSize..];
    }
  }

  ghost function TreePreimages(sha: Hash, data: ByteString, chunkSize: nat): set<ByteString>
    requires chunkSize >= 1 && data != []
  {
    ChunkPreimages(data, chunkSize)
    + NodePreimages(sha, Leaves(sha, data, chunkSize), Height(|ChunkDigests(sha, data, chunkSize)|))
  }

  ghost function TreeRoot(sha: Hash, data: ByteString, chunkSize: int): ByteString
    requires chunkSize != 0 && data != []
  {
    Root(sha, Leaves(sha, data, chunkSize), Height(|ChunkDigests(sha, data, chunkSize)|))
  }

  /**
   Two trees with the same chunk size, number of leaves and root are trees of the same data,
   unless two of their preimages collide.
   */
  lemma RootBindsData(sha: Hash, a: ByteString, b: ByteString, chunkSize: nat)
    requires chunkSize >= 1 && a != [] && b != []
    requires |Leaves(sha, a, chunkSize)| == |Leaves(sha, b, chunkSize)|
    requires TreeRoot(sha, a, chunkSize) == TreeRoot(sha, b, chunkSize)
    requires NoCollisions(sha, TreePreimages(sha, a, chunkSize) + TreePreimages(sha, b, chunkSize))
    ensures a == b
  {
    var da, db := ChunkDigests(sha, a, chunkSize), ChunkDigests(sha, b, chunkSize);
    var all := TreePreimages(sha, a, chunkSize) + TreePreimages(sha, b, chunkSize);
    var h := Height(|da|);
    HeightFromLength(h, Height(|db|));
    PaddedDigestsAreInOrder(da);
    PaddedDigestsAreInOrder(db);
    NoCollisionsAmongFewer(sha, NodePreimages(sha, Pad(da), h) + NodePreimages(sha, Pad(db), h), all);
    RootBindsLeaves(sha, Pad(da), Pad(db), h);
    PaddingHidesNothing(da, db);
    NoCollisionsAmongFewer(sha, ChunkPreimages(a, chunkSize) + ChunkPreimages(b, chunkSize), all);
    DigestsBindData(sha, a, b, chunkSize);
  }

  /** A negative chunk size is accepted, but then the root is the padding byte, whatever the data. */
  lemma NegativeChunkSizeBindsNothing(sha: Hash, data: ByteString, chunkSize: int)
    requires chunkSize < 0 && data != []
    ensures Leaves(sha, data, chunkSize) == [PADDING_LEAF] && TreeRoot(sha, data, chunkSize) == PADDING_LEAF
  {
    PaddingRoundsUp(0);
  }

  lemma HeightFromLength(h: nat, k: nat)
    requires Power(2, h) == Power(2, k)
    ensures h == k
  {
  }
}
