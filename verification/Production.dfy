/**
 When a block is valid, and when a node can produce one: the sortition test on the fields of the block
 and on the bytes that are signed.
 */
module Production {
  import opened Wrappers
  import opened Bytes
  import opened Binomial
  import opened Blocks
  import opened Sortition
  import opened Chain
  import opened Protocol

  lemma NoSuccessInOneDraw(p: real)
    ensures Cdf(1, 0, p) == 1.0 - p
  {
    assert Pow(1.0 - p, 1) == (1.0 - p) * Pow(1.0 - p, 0);
    assert Choose(1, 0) == 1 && Pow(p, 0) == 1.0;
    assert Cdf(1, 0, p) == Cdf(1, -1, p) + Pmf(1, 0, p);
  }

  /** With a stake of one, the ticket is won exactly when q exceeds 1 - p. */
  lemma OneTicketIsWonExactlyWhen(q: real, p: real)
    requires q <= 1.0
    ensures WinningTickets(q, 1, p) == if q > 1.0 - p then 1 else 0
  {
    NoSuccessInOneDraw(p);
    var w := WinningTickets(q, 1, p);
    hide WinningTickets, Cdf;
    assert IsTicketCount(q, 1, p, w);
  }

  /**
   A block is valid, with one winning ticket, exactly when its key has 32 bytes, its signature is one of
   its node hash, its ticket number is at most one, and the digest of the signature, read as a
   little-endian fraction, exceeds 1 - tau / totalStake.
   */
  lemma ValidExactlyWhen(cfg: Config, b: Block)
    ensures Validate(cfg, b) ==
            if |b.owner| == 32 && cfg.verify(b.owner, b.signedNodeHash, b.nodeHash) && b.ticket <= 1
               && HashFraction(cfg.sha(b.signedNodeHash)) > 1.0 - cfg.tau as real / cfg.totalStake as real
            then Some(1) else None
  {
    OneTicketIsWonExactlyWhen(HashFraction(cfg.sha(b.signedNodeHash)), SuccessProbability(cfg.totalStake, cfg.tau));
    hide WinningTickets, HashFraction;
  }

  /** What a node signs in a round: the digest of its key, the round as four bytes, and the hash of its tip. */
  function SignedMessage(cfg: NodeConfig, rows: seq<Row>, round: nat): ByteString
    requires |rows| >= 1 && round < UINT32_LIMIT
  {
    cfg.chain.sha(cfg.publicKey + Encode32(round) + rows[|rows| - 1].block.hash)
  }

  // The signatures of the node are ones its own key verifies
  ghost predicate KeysMatch(cfg: NodeConfig) {
    |cfg.publicKey| == 32 && forall m :: cfg.chain.verify(cfg.publicKey, cfg.sign(m), m)
  }

  lemma CandidateIsExact(cfg: NodeConfig, rows: seq<Row>, round: nat, ticket: nat, input: Input)
    requires |rows| >= 1 && round < UINT32_LIMIT && ticket < UINT32_LIMIT
    ensures var block, tip := Candidate(cfg, rows, round, ticket, input), rows[|rows| - 1].block;
            && block.Some? && var b := block.value;
            && b.owner == cfg.publicKey && b.parentHash == tip.hash && b.round == round && b.index == |rows|
            && b.ticket == ticket
            && b.transactions == input.mempool(ticket).transactions && b.transactionHash == input.mempool(ticket).hash
            && b.nodeHash == SignedMessage(cfg, rows, round) && b.signedNodeHash == cfg.sign(b.nodeHash)
            && WellFormed(cfg.chain.sha, b)
  {
    var draft := Create(cfg.chain.sha, rows[|rows| - 1].block.hash, input.mempool(ticket), cfg.publicKey, [],
                        round, |rows|, ticket).value;
    UpdateFixesHashes(cfg.chain.sha, draft);
  }

  /**
   A node whose keys match produces a block exactly when the digest of its signature of the round's
   message exceeds 1 - tau / totalStake. The block has ticket 0 and carries the mempool's transactions
   for it.
   */
  lemma ProducesExactlyWhen(cfg: NodeConfig, rows: seq<Row>, round: nat, input: Input)
    requires |rows| >= 1 && round < UINT32_LIMIT && KeysMatch(cfg)
    ensures var own, message := GenerateBlock(cfg, rows, round, input), SignedMessage(cfg, rows, round);
            && (own.Some? <==>
                  HashFraction(cfg.chain.sha(cfg.sign(message)))
                  > 1.0 - cfg.chain.tau as real / cfg.chain.totalStake as real)
            && (own.Some? ==> own == Candidate(cfg, rows, round, 0, input) && own.value.ticket == 0)
  {
    var b := Candidate(cfg, rows, round, 0, input).value;
    CandidateIsExact(cfg, rows, round, 0, input);
    ValidExactlyWhen(cfg.chain, b);
    assert cfg.chain.verify(cfg.publicKey, cfg.sign(b.nodeHash), b.nodeHash);
    assert LookupNodeStake(cfg.publicKey) == 1;
    assert BestCandidate(cfg, rows, round, 0, input) == None;
    hide Validate, HashFraction, Candidate, SignedMessage;
  }

  /** Whatever its keys, what a node produces is signed over its own node hash and carries the mempool's transactions. */
  lemma ProducedBlockIsExact(cfg: NodeConfig, rows: seq<Row>, round: nat, input: Input)
    requires |rows| >= 1 && round < UINT32_LIMIT && GenerateBlock(cfg, rows, round, input).Some?
    ensures var b := GenerateBlock(cfg, rows, round, input).value;
            && b.owner == cfg.publicKey && b.parentHash == rows[|rows| - 1].block.hash
            && b.round == round && b.index == |rows| && b.ticket == 0
            && b.nodeHash == SignedMessage(cfg, rows, round) && b.signedNodeHash == cfg.sign(b.nodeHash)
            && b.transactions == input.mempool(0).transactions && b.transactionHash == input.mempool(0).hash
            && Validate(cfg.chain, b) == Some(1)
  {
    CandidateIsExact(cfg, rows, round, 0, input);
    ValidExactlyWhen(cfg.chain, GenerateBlock(cfg, rows, round, input).value);
    assert LookupNodeStake(cfg.publicKey) == 1;
    assert BestCandidate(cfg, rows, round, 0, input) == None;
    hide Validate, HashFraction, Candidate, SignedMessage;
  }
}
