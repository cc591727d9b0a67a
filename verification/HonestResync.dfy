/**
 Two nodes that have only read honest messages can resync: nothing is assumed of their chains but
 that the blocks to hand over have plain transaction lists.
 */
module HonestResync {
  import opened Wrappers
  import opened Blocks
  import opened Chain
  import opened ChainRuns
  import opened NodeEffects
  import opened Protocol
  import opened NodeInvariant
  import opened NodeOperations
  import opened HonestRuns
  import opened Resync

  ghost predicate PlainFrom(rows: seq<Row>, from: nat) {
    forall i :: from <= i < |rows| ==> rows[i].block.transactionHash == NO_TRANSACTIONS.hash
  }

  lemma HonestPeersServe(p: Past, from: nat)
    requires HonestPast(p) && 1 <= from < |RowsOf(p)| && PlainFrom(RowsOf(p), from)
    ensures ServesResync(p.cfg.chain, RowsOf(p), from)
  {
    hide JustStarted, HonestRun, AfterTurns, AfterGenesis;
    StartIsSettled(p.cfg, p.start, p.round);
    HonestRunsStaySettled(p.cfg, p.start, p.inputs, |p.inputs|);
    NodeChainIsValidated(p.cfg, p.start, p.round, p.inputs, |p.inputs|);
    ServedFrom(p.cfg.chain, RowsOf(p), from);
  }

  lemma ServedFrom(cfg: Config, rows: seq<Row>, from: nat)
    requires ChainInvariant(rows) && 1 <= from < |rows| && PlainFrom(rows, from)
    requires SettledAfterGenesis(cfg.sha, BlocksOf(rows)) && ValidatedAfterGenesis(cfg, BlocksOf(rows))
    ensures ServesResync(cfg, rows, from)
  {
    hide ChainInvariant, WellFormed, Validate;
    forall i | from <= i < |rows| ensures Servable(cfg, rows[i].block) {
      assert BlocksOf(rows)[i] == rows[i].block;
    }
  }

  // ---- The two ways in which a resync asks for a last block ----

  /** Starting leaves a request for the last block out, and the turn goes on as if it had been out before. */
  lemma StartingIsJustAsking(cfg: NodeConfig, s: NodeState, input: Input)
    requires ChainIsSound(s) && ModeIsConsistent(s) && WantsResync(s) && StartPhase(cfg, s, input).Go?
    ensures var started := StartPhase(cfg, s, input).state;
            JustAsked(started) && started.chain == s.chain && Turn(cfg, s, input) == Turn(cfg, started, input)
  {
    hide RoundPhase, ReceivePhase, ChainInvariant;
  }

  /** An empty answer drops what was received and asks the sender of another missed block, or ends the resync. */
  lemma EmptyAnswerAsksAnotherPeer(cfg: NodeConfig, s: NodeState, input: Input)
    requires ChainIsSound(s) && s.mode.Resyncing? && input.message == Some(ResyncResponse(None))
    requires BeforeReading(cfg, s, input).Go?
    ensures var read, p := BeforeReading(cfg, s, input).state, Turn(cfg, s, input);
            && p.Go? && p.state.chain.table == read.chain.table
            && if read.missed != [] then JustAsked(p.state) && exists i :: AsksSenderOf(read, p.state, i)
               else p.state.mode.Listening? && !p.state.chain.forkDetected && p.state.received == []
  {
    RoundKeepsResyncing(cfg, s, input);
    BeforeReadingIsSound(cfg, s, input);
    EmptyAnswerIsExact(cfg, BeforeReading(cfg, s, input).state, input);
    hide BeforeReading, ChainInvariant, ReceivePhase;
  }

  lemma RoundKeepsResyncing(cfg: NodeConfig, s: NodeState, input: Input)
    requires ChainIsSound(s) && s.mode.Resyncing?
    ensures var p := BeforeReading(cfg, s, input); !p.Raise? ==> p.state.mode.Resyncing?
  {
    hide ChainInvariant, UpdateRound, Insert, BestCandidate;
  }

  /** The state whose resync a turn continues: it has just asked, or asks at the start of the turn. */
  ghost predicate AsksFrom(cfg: NodeConfig, s: NodeState, input: Input, asking: NodeState)
    ensures AsksFrom(cfg, s, input, asking) ==> asking.chain == s.chain
  {
    (JustAsked(s) && asking == s) || (WantsResync(s) && StartPhase(cfg, s, input) == Go(asking))
  }

  lemma AskingChangesNoTurn(cfg: NodeConfig, s: NodeState, input: Input, asking: NodeState)
    requires ChainIsSound(s) && ModeIsConsistent(s) && AsksFrom(cfg, s, input, asking)
    ensures JustAsked(asking) && asking.chain == s.chain && Turn(cfg, s, input) == Turn(cfg, asking, input)
  {
    hide Turn, ChainInvariant, StartPhase;
    if !JustAsked(s) {
      StartingIsJustAsking(cfg, s, input);
    } else {
      AskedIsNotListening(s);
    }
  }

  lemma AskedIsNotListening(s: NodeState)
    requires JustAsked(s)
    ensures !WantsResync(s)
  {
  }

  lemma {:induction false} AskingChangesNoRun(cfg: NodeConfig, s: NodeState, inputs: seq<Input>, asking: NodeState,
                                              n: nat)
    requires ChainIsSound(s) && ModeIsConsistent(s) && 1 <= n <= |inputs|
    requires AsksFrom(cfg, s, inputs[0], asking)
    ensures AfterTurns(cfg, s, inputs, n) == AfterTurns(cfg, asking, inputs, n)
    decreases n
  {
    hide Turn, ChainInvariant, AsksFrom, ModeIsConsistent;
    if n == 1 {
      AskingChangesNoTurn(cfg, s, inputs[0], asking);
      assert AfterTurns(cfg, s, inputs, 0) == Some(s) && AfterTurns(cfg, asking, inputs, 0) == Some(asking);
    } else {
      AskingChangesNoRun(cfg, s, inputs, asking, n - 1);
    }
  }

  // ---- The theorem ----

  /** Facts about a node with an honest past that its resync needs. */
  lemma HonestNodesAreReady(p: Past)
    requires HonestPast(p)
    ensures ModeIsConsistent(Now(p)) && SettledAfterGenesis(p.cfg.chain.sha, BlocksOf(RowsOf(p)))
    ensures |p.cfg.publicKey| == PUBLIC_KEY_SIZE
  {
    hide JustStarted, AfterTurns, ChainInvariant, ModeIsConsistent, SettledAfterGenesis, AllBlocksSettled,
      MissedAreSettled, MissedIsClean, Honest;
    StartIsSettled(p.cfg, p.start, p.round);
    HonestRunsStaySettled(p.cfg, p.start, p.inputs, |p.inputs|);
    InvariantHoldsInEveryRun(p.cfg, p.start, p.round, p.inputs, |p.inputs|);
  }

  /** Same parameters, and a block with plain transaction lists behind it on b's side that both chains hold. */
  ghost predicate Compatible(a: Past, b: Past, from: nat) {
    && HonestPast(a) && HonestPast(b) && a.cfg.chain == b.cfg.chain
    && 1 <= from < |RowsOf(b)| && PlainFrom(RowsOf(b), from) && SharesAncestor(RowsOf(a), RowsOf(b), from)
  }

  /** n turns, none of which raises; while they resync, every answer they read is the peer's, without collisions. */
  ghost predicate AnsweredFor(cfg: NodeConfig, asking: NodeState, peer: seq<Row>, later: seq<Input>, n: nat)
    requires ChainIsSound(asking)
  {
    && 1 <= n <= |later| && EveryAnswerIsBy(cfg, asking, peer, later)
    && ResyncingUntil(cfg, asking, later, n) && AfterTurns(cfg, asking, later, n).Some?
  }

  /**
   Nodes a and b have honest pasts and the same parameters. Then a asks for a last block, and every
   answer it reads is b's. Whatever block with plain lists behind it both chains hold, genesis
   included: a is done after at most as many answers as b has blocks behind it, and its chain is
   then b's.
   */
  lemma HonestNodesResync(a: Past, b: Past, asking: NodeState, later: seq<Input>, from: nat, n: nat)
    requires Compatible(a, b, from) && later != [] && AsksFrom(a.cfg, Now(a), later[0], asking)
    requires AnsweredFor(a.cfg, asking, RowsOf(b), later, n)
    ensures AfterTurns(a.cfg, Now(a), later, n) == AfterTurns(a.cfg, asking, later, n)
    ensures AfterTurns(a.cfg, Now(a), later, n).Some?
    ensures Outcome(asking, AfterTurns(a.cfg, Now(a), later, n).value, RowsOf(b), from,
                    AnswersRead(a.cfg, asking, later, n))
  {
    hide HonestPast, AfterTurns, AsksFrom, ChainInvariant, ServesResync, AfterGenesis, PlainFrom,
      EveryAnswerIsBy, ResyncingUntil, Outcome, AnswersRead, SharesAncestor, ModeIsConsistent, JustAsked;
    HonestPeersServe(b, from);
    HonestNodesAreReady(a);
    AskingChangesNoTurn(a.cfg, Now(a), later[0], asking);
    AskingChangesNoRun(a.cfg, Now(a), later, asking, n);
    ResyncConverges(a.cfg, asking, RowsOf(b), from, later, n);
  }

  /** The last message the node has read is an empty answer, and another missed block was left. */
  ghost predicate JustTurnedAway(p: Past)
    requires HonestPast(p)
  {
    && |p.inputs| >= 1 && p.inputs[|p.inputs| - 1].message == Some(ResyncResponse(None))
    && var before := AfterTurns(p.cfg, p.start, p.inputs, |p.inputs| - 1);
       && before.Some? && before.value.mode.Resyncing?
       && var read := BeforeReading(p.cfg, before.value, p.inputs[|p.inputs| - 1]);
          read.Go? && read.state.missed != []
  }

  /** A peer without useful blocks does no harm: the resync that goes on with another one converges all the same. */
  lemma ResyncConvergesAfterAnEmptyAnswer(a: Past, b: Past, later: seq<Input>, from: nat, n: nat)
    requires Compatible(a, b, from) && JustTurnedAway(a) && AnsweredFor(a.cfg, Now(a), RowsOf(b), later, n)
    ensures AfterTurns(a.cfg, Now(a), later, n).Some?
    ensures Outcome(Now(a), AfterTurns(a.cfg, Now(a), later, n).value, RowsOf(b), from,
                    AnswersRead(a.cfg, Now(a), later, n))
  {
    hide PlainFrom, EveryAnswerIsBy, ResyncingUntil, Outcome, AnswersRead, SharesAncestor, JustStarted, HonestRun,
      Turn, BeforeReading, ChainInvariant;
    var last := |a.inputs| - 1;
    EmptyAnswerAsksAnotherPeer(a.cfg, AfterTurns(a.cfg, a.start, a.inputs, last).value, a.inputs[last]);
    HonestNodesResync(a, b, Now(a), later, from, n);
  }
}
