/**
 Blocks and their three hashes (cpos/core/block.py), and what equal hashes say about two blocks
 and about the two chains they sit on.
 */
module Blocks {
  import opened Wrappers
  import opened Bytes

  datatype TransactionList = TransactionList(transactions: string, hash: ByteString)

  const NO_TRANSACTIONS := TransactionList("[]", [])

  datatype Block = Block(
    parentHash: ByteString,
    owner: ByteString,
    signedNodeHash: ByteString,
    round: int,
    index: nat,
    transactions: string,
    transactionHash: ByteString,
    ticket: int,
    nodeHash: ByteString,
    proofHash: ByteString,
    hash: ByteString)

  // GenesisBlock sets every byte field to one zero byte and has no node hash
  const GENESIS := Block([0], [0], [0], 0, 0, "[]", [0], 0, [], [0], [0])

  predicate FieldsFit(b: Block) {
    0 <= b.round < UINT32_LIMIT && 0 <= b.ticket < UINT32_LIMIT
  }

  function NodePreimage(b: Block): ByteString
    requires FieldsFit(b)
  {
    b.owner + Encode32(b.round) + b.parentHash
  }

  function ProofPreimage(b: Block): ByteString
    requires FieldsFit(b)
  {
    b.nodeHash + Encode32(b.ticket)
  }

  function HashPreimage(b: Block): ByteString {
    b.proofHash + b.parentHash + b.transactionHash
  }

  /** `update`: the three hashes, each from the one before. */
  function Update(sha: Hash, b: Block): Block
    requires FieldsFit(b)
  {
    var b1 := b.(nodeHash := sha(NodePreimage(b)));
    var b2 := b1.(proofHash := sha(ProofPreimage(b1)));
    b2.(hash := sha(HashPreimage(b2)))
  }

  predicate WellFormed(sha: Hash, b: Block) {
    FieldsFit(b) && Update(sha, b) == b
  }

  /** The constructor; `to_bytes(4)` raises when the round or the ticket does not fit. */
  function Create(sha: Hash, parentHash: ByteString, tx: TransactionList, owner: ByteString,
                  signedNodeHash: ByteString, round: int, index: nat, ticket: int): (r: Option<Block>)
    ensures r.Some? <==> 0 <= round < UINT32_LIMIT && 0 <= ticket < UINT32_LIMIT
    ensures r.Some? ==> WellFormed(sha, r.value)
  {
    if !(0 <= round < UINT32_LIMIT && 0 <= ticket < UINT32_LIMIT) then None
    else
      Some(Update(sha, Block(parentHash, owner, signedNodeHash, round, index, tx.transactions, tx.hash,
                             ticket, [], [], [])))
  }

  // ---- What a hash binds ----

  // Everything the hash covers; the index, the signature and the transaction text are not in it
  predicate SameContent(a: Block, b: Block) {
    && a.hash == b.hash
    && a.parentHash == b.parentHash
    && a.owner == b.owner
    && a.round == b.round
    && a.ticket == b.ticket
    && a.transactionHash == b.transactionHash
    && a.nodeHash == b.nodeHash
    && a.proofHash == b.proofHash
  }

  function Preimages(b: Block): set<ByteString>
    requires FieldsFit(b)
  {
    {NodePreimage(b), ProofPreimage(b), HashPreimage(b)}
  }

  const PUBLIC_KEY_SIZE := 32

  /**
   Two well-formed blocks with 32-byte keys and the same hash agree on all that is hashed,
   unless two of their six preimages collide.
   */
  lemma HashBindsContent(sha: Hash, a: Block, b: Block)
    requires WellFormed(sha, a) && WellFormed(sha, b)
    requires |a.owner| == |b.owner| == PUBLIC_KEY_SIZE
    requires a.hash == b.hash
    requires NoCollisions(sha, Preimages(a) + Preimages(b))
    ensures SameContent(a, b)
  {
    HashBindsProof(sha, a, b);
    ProofBindsNode(sha, a, b);
    NodeBindsParent(sha, a, b);
    SplitConcatenation(a.parentHash, a.transactionHash, b.parentHash, b.transactionHash);
  }

  // The three layers of the hash, outermost first
  lemma HashBindsProof(sha: Hash, a: Block, b: Block)
    requires WellFormed(sha, a) && WellFormed(sha, b) && a.hash == b.hash
    requires NoCollisions(sha, Preimages(a) + Preimages(b))
    ensures a.proofHash == b.proofHash && a.parentHash + a.transactionHash == b.parentHash + b.transactionHash
  {
    UpdateFixesHashes(sha, a);
    UpdateFixesHashes(sha, b);
    assert HashPreimage(a) in Preimages(a) + Preimages(b) && HashPreimage(b) in Preimages(a) + Preimages(b);
    assert HashPreimage(a) == a.proofHash + (a.parentHash + a.transactionHash);
    assert HashPreimage(b) == b.proofHash + (b.parentHash + b.transactionHash);
    SplitConcatenation(a.proofHash, a.parentHash + a.transactionHash, b.proofHash, b.parentHash + b.transactionHash);
  }

  lemma ProofBindsNode(sha: Hash, a: Block, b: Block)
    requires WellFormed(sha, a) && WellFormed(sha, b) && a.proofHash == b.proofHash
    requires NoCollisions(sha, Preimages(a) + Preimages(b))
    ensures a.nodeHash == b.nodeHash && a.ticket == b.ticket
  {
    UpdateFixesHashes(sha, a);
    UpdateFixesHashes(sha, b);
    assert ProofPreimage(a) in Preimages(a) + Preimages(b) && ProofPreimage(b) in Preimages(a) + Preimages(b);
    SplitConcatenation(a.nodeHash, Encode32(a.ticket), b.nodeHash, Encode32(b.ticket));
    Encode32IsInjective(a.ticket, b.ticket);
  }

  lemma NodeBindsParent(sha: Hash, a: Block, b: Block)
    requires WellFormed(sha, a) && WellFormed(sha, b) && a.nodeHash == b.nodeHash
    requires |a.owner| == |b.owner| == PUBLIC_KEY_SIZE
    requires NoCollisions(sha, Preimages(a) + Preimages(b))
    ensures a.owner == b.owner && a.round == b.round && a.parentHash == b.parentHash
  {
    UpdateFixesHashes(sha, a);
    UpdateFixesHashes(sha, b);
    assert NodePreimage(a) in Preimages(a) + Preimages(b) && NodePreimage(b) in Preimages(a) + Preimages(b);
    SplitConcatenation(a.owner + Encode32(a.round), a.parentHash, b.owner + Encode32(b.round), b.parentHash);
    SplitConcatenation(a.owner, Encode32(a.round), b.owner, Encode32(b.round));
    Encode32IsInjective(a.round, b.round);
  }

  lemma UpdateFixesHashes(sha: Hash, b: Block)
    requires WellFormed(sha, b)
    ensures b.nodeHash == sha(NodePreimage(b))
    ensures b.proofHash == sha(ProofPreimage(b))
    ensures b.hash == sha(HashPreimage(b))
    ensures |b.nodeHash| == |b.proofHash| == |b.hash| == 32
  {
  }

  /** A block is well formed exactly when round and ticket fit and its hashes are these three digests. */
  lemma WellFormedMeans(sha: Hash, b: Block)
    ensures WellFormed(sha, b) <==>
            && 0 <= b.round < 0x1_0000_0000 && 0 <= b.ticket < 0x1_0000_0000
            && b.nodeHash == sha(b.owner + Encode32(b.round) + b.parentHash)
            && b.proofHash == sha(b.nodeHash + Encode32(b.ticket))
            && b.hash == sha(b.proofHash + b.parentHash + b.transactionHash)
  {
    if FieldsFit(b) {
      var b1 := b.(nodeHash := sha(NodePreimage(b)));
      var b2 := b1.(proofHash := sha(ProofPreimage(b1)));
      assert Update(sha, b) == b2.(hash := sha(HashPreimage(b2)));
    }
  }

  // ---- Hash-linked chains ----

  /** The hashes are the ones `update` gives, and the key has the length of an Ed25519 key. */
  ghost predicate Settled(sha: Hash, b: Block) {
    WellFormed(sha, b) && |b.owner| == PUBLIC_KEY_SIZE
  }

  /** Genesis, then well-formed blocks that each name the hash before them. */
  ghost predicate HashLinked(sha: Hash, c: seq<Block>) {
    && |c| >= 1
    && c[0] == GENESIS
    && (forall i :: 1 <= i < |c| ==> Settled(sha, c[i]))
    && (forall i :: 1 <= i < |c| ==> c[i].parentHash == c[i - 1].hash)
  }

  ghost function ChainPreimages(c: seq<Block>): set<ByteString> {
    set i, x | 1 <= i < |c| && FieldsFit(c[i]) && x in Preimages(c[i]) :: x
  }

  /**
   Two chains that hold blocks with the same hash hold them at the same place and agree on every
   block up to there, unless two of their preimages collide.
   */
  lemma {:induction false} CommonPrefix(sha: Hash, c: seq<Block>, d: seq<Block>, i: nat, j: nat)
    requires HashLinked(sha, c) && HashLinked(sha, d)
    requires i < |c| && j < |d| && c[i].hash == d[j].hash
    requires NoCollisions(sha, ChainPreimages(c) + ChainPreimages(d))
    ensures i == j
    ensures forall k :: 0 <= k <= i ==> SameContent(c[k], d[k])
    decreases i
  {
    OnlyGenesisHashIsShort(sha, c, i);
    OnlyGenesisHashIsShort(sha, d, j);
    if i > 0 {
      LinkedBlocksAgree(sha, c, d, i, j);
      hide NoCollisions, ChainPreimages, Settled;
      assert c[i - 1].hash == c[i].parentHash == d[j].parentHash == d[j - 1].hash;
      CommonPrefix(sha, c, d, i - 1, j - 1);
    }
  }

  lemma OnlyGenesisHashIsShort(sha: Hash, c: seq<Block>, i: nat)
    requires HashLinked(sha, c) && i < |c|
    ensures |c[i].hash| == if i == 0 then 1 else 32
  {
  }

  lemma LinkedBlocksAgree(sha: Hash, c: seq<Block>, d: seq<Block>, i: nat, j: nat)
    requires HashLinked(sha, c) && HashLinked(sha, d)
    requires 0 < i < |c| && 0 < j < |d| && c[i].hash == d[j].hash
    requires NoCollisions(sha, ChainPreimages(c) + ChainPreimages(d))
    ensures SameContent(c[i], d[j])
  {
    PreimagesInChain(c, i);
    PreimagesInChain(d, j);
    NoCollisionsAmongFewer(sha, Preimages(c[i]) + Preimages(d[j]), ChainPreimages(c) + ChainPreimages(d));
    HashBindsContent(sha, c[i], d[j]);
  }

  lemma PreimagesInChain(c: seq<Block>, i: nat)
    requires 1 <= i < |c| && FieldsFit(c[i])
    ensures Preimages(c[i]) <= ChainPreimages(c)
  {
  }
}
