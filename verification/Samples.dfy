/** Blocks, parameters and turns for the concrete runs of `ResyncExample` and `Counterexamples`. */
module Samples {
  import opened Wrappers
  import opened Bytes
  import opened Blocks
  import opened Sortition
  import opened Chain
  import opened Protocol

  // A digest that tells the few byte strings of these runs apart: by their length and first bytes
  function LengthHash(x: ByteString): Digest {
    [(|x| % 256) as byte, ByteAt(x, 0), ByteAt(x, 1), ByteAt(x, 2)] + seq(28, _ => 0)
  }

  function ByteAt(x: ByteString, i: nat): byte {
    if i < |x| then x[i] else 0
  }

  function KeyOf(k: byte): ByteString {
    seq(PUBLIC_KEY_SIZE, _ => k)
  }

  // One stake in all, a ticket for everyone, and every signature valid
  function SampleChain(): Config {
    Parameters(LengthHash, (k, s, m) => true, 1, 1)
  }

  // The block that the holder of a key makes on top of genesis in round 1
  function MadeBy(k: byte): Block {
    Create(LengthHash, GENESIS.hash, NO_TRANSACTIONS, KeyOf(k), [5], 1, 1, 0).value
  }

  lemma MadeByFields(k: byte)
    ensures var b := MadeBy(k);
            && Settled(LengthHash, b) && Validate(SampleChain(), b) == Some(1)
            && b.index == 1 && b.round == 1 && b.parentHash == GENESIS.hash && b.owner == KeyOf(k)
            && b.transactionHash == [] && b.hash != GENESIS.hash
  {
    SampleBlocksWinATicket(MadeBy(k));
    UpdateFixesHashes(LengthHash, MadeBy(k));
    hide Validate, LengthHash;
  }

  lemma MadeByGoesIn(k: byte)
    ensures Judge(SampleChain(), GENESIS_TABLE.rows, MadeBy(k)).Inserted?
    ensures Insert(SampleChain(), GENESIS_TABLE, MadeBy(k)).rows == [Row(GENESIS, 0, true), Row(MadeBy(k), 0, false)]
  {
    MadeByFields(k);
    hide MadeBy, Validate, LengthHash, FindHash;
    FoundFirst(GENESIS_TABLE.rows, MadeBy(k).hash);
  }

  // ---- Winning a ticket ----

  lemma SomeDigestIsPositive(d: Digest)
    requires d[0] == 1
    ensures HashFraction(d) > 0.0
  {
    assert FromLittleEndian(d) >= 1;
    PowerOfBits(|d|);
    hide Power, FromLittleEndian;
    PositiveQuotient(FromLittleEndian(d), Power(2, |d| * 8));
  }

  lemma PositiveQuotient(a: nat, b: nat)
    requires a >= 1 && b >= 1
    ensures a as real / b as real > 0.0
  {
  }

  lemma EveryPositiveFractionWins(q: real)
    requires 0.0 < q <= 1.0
    ensures WinningTickets(q, 1, 1.0) == 1
  {
  }

  lemma SampleBlocksWinATicket(b: Block)
    requires |b.owner| == PUBLIC_KEY_SIZE && b.ticket == 0 && b.signedNodeHash == [5]
    ensures Validate(SampleChain(), b) == Some(1)
  {
    var d := LengthHash(b.signedNodeHash);
    SomeDigestIsPositive(d);
    EveryPositiveFractionWins(HashFraction(d));
    assert SuccessProbability(1, 1) == 1.0;
    hide WinningTickets, HashFraction, SuccessProbability;
  }

  lemma DigestsOf(k: byte)
    ensures var b := MadeBy(k);
            && b.nodeHash == LengthHash(NodePreimage(b)) && b.nodeHash[..4] == [37, k, k, k]
            && b.proofHash == LengthHash(ProofPreimage(b)) && b.proofHash[..4] == [36, 37, k, k]
            && b.hash == LengthHash(HashPreimage(b)) && b.hash[..4] == [33, 36, 37, k]
  {
    var b := MadeBy(k);
    UpdateFixesHashes(LengthHash, b);
    assert |NodePreimage(b)| == 37 && NodePreimage(b)[0] == NodePreimage(b)[1] == NodePreimage(b)[2] == k;
    assert |ProofPreimage(b)| == 36 && |HashPreimage(b)| == 33;
  }

  // ---- Turns ----

  function Reads(round: int, message: Option<Message>): Input {
    Input(k => 0, k => true, round, k => NO_TRANSACTIONS, message)
  }

  lemma RoundOneBegins()
    ensures UpdateRound(SampleChain(), INITIAL_CHAIN, 1) == RoundResult(INITIAL_CHAIN.(currentRound := 1), false)
  {
    assert ConfirmedCount(INITIAL_CHAIN.table.rows) == 1;
  }

  /** A turn in which nothing is due but to read a message. */
  lemma QuietTurn(cfg: NodeConfig, s: NodeState, input: Input)
    requires ChainIsSound(s) && !WantsResync(s) && s.chain.currentRound == input.round == s.loopRound
    requires input.message.Some? ==> !input.message.value.ResyncRequest?
    ensures BeforeReading(cfg, s, input) == Go(s) && Turn(cfg, s, input) == Go(ReceivePhase(cfg, s, input))
  {
    hide ChainInvariant, ReceivePhase;
  }

  lemma OneMore(cfg: NodeConfig, s: NodeState, inputs: seq<Input>, n: nat, before: NodeState, after: NodeState)
    requires ChainIsSound(s) && n < |inputs| && AfterTurns(cfg, s, inputs, n) == Some(before) && ChainIsSound(before)
    requires Turn(cfg, before, inputs[n]) == Go(after) || Turn(cfg, before, inputs[n]) == Skip(after)
    ensures AfterTurns(cfg, s, inputs, n + 1) == Some(after)
  {
    hide Turn, ChainIsSound;
  }

  lemma NoTurnYet(cfg: NodeConfig, s: NodeState, inputs: seq<Input>)
    requires ChainIsSound(s)
    ensures AfterTurns(cfg, s, inputs, 0) == Some(s)
  {
    hide ChainIsSound;
  }
}
