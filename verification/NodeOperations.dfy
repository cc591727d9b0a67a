/**
 The node's runs are runs of its chain: every turn does a list of operations on the chain and, when
 a resync ends, resets the fork flag, which no operation reads. What holds in every run of
 operations so holds in every run of turns.
 */
module NodeOperations {
  import opened Blocks
  import opened Chain
  import opened ChainRuns
  import opened Ledger
  import opened ChainQuality
  import opened Confirmation
  import opened Protocol
  import opened NodeInvariant

  // ---- Lists of operations ----

  ghost function AfterAll(cfg: Config, s: ChainState, ops: seq<Operation>): (s': ChainState)
    requires Sound(s)
    ensures Sound(s')
  {
    After(cfg, s, ops, |ops|)
  }

  lemma {:induction false} AfterPrefix(cfg: Config, s: ChainState, ops: seq<Operation>, more: seq<Operation>, n: nat)
    requires Sound(s) && n <= |ops|
    ensures After(cfg, s, ops + more, n) == After(cfg, s, ops, n)
  {
    hide Sound, Step;
    if n > 0 {
      AfterPrefix(cfg, s, ops, more, n - 1);
      assert (ops + more)[n - 1] == ops[n - 1];
    }
  }

  lemma {:induction false} AfterBoth(cfg: Config, s: ChainState, ops: seq<Operation>, more: seq<Operation>)
    requires Sound(s)
    ensures AfterAll(cfg, s, ops + more) == AfterAll(cfg, AfterAll(cfg, s, ops), more)
    decreases |more|
  {
    hide Sound, Step;
    if more == [] {
      assert ops + more == ops;
    } else {
      var n := |more| - 1;
      AfterBoth(cfg, s, ops, more[..n]);
      var all := ops + more;
      assert all == (ops + more[..n]) + [more[n]] && more == more[..n] + [more[n]];
      AfterPrefix(cfg, s, ops + more[..n], [more[n]], |ops| + n);
      AfterPrefix(cfg, AfterAll(cfg, s, ops), more[..n], [more[n]], n);
    }
  }

  lemma AfterOne(cfg: Config, s: ChainState, op: Operation)
    requires Sound(s)
    ensures AfterAll(cfg, s, [op]) == Step(cfg, s, op)
  {
    hide Sound, Step;
    assert After(cfg, s, [op], 0) == s;
  }

  // ---- The fork flag ----

  ghost predicate SameButFork(a: ChainState, b: ChainState) {
    a.(forkDetected := b.forkDetected) == b
  }

  lemma StepIgnoresFork(cfg: Config, a: ChainState, b: ChainState, op: Operation)
    requires Sound(a) && Sound(b) && SameButFork(a, b)
    ensures SameButFork(Step(cfg, a, op), Step(cfg, b, op))
  {
    hide ChainInvariant, Insert, Merge, Passes, LooksForked;
  }

  lemma {:induction false} RunIgnoresFork(cfg: Config, a: ChainState, b: ChainState, ops: seq<Operation>, n: nat)
    requires Sound(a) && Sound(b) && SameButFork(a, b) && n <= |ops|
    ensures SameButFork(After(cfg, a, ops, n), After(cfg, b, ops, n))
  {
    hide Sound, Step, SameButFork;
    if n > 0 {
      RunIgnoresFork(cfg, a, b, ops, n - 1);
      StepIgnoresFork(cfg, After(cfg, a, ops, n - 1), After(cfg, b, ops, n - 1), ops[n - 1]);
    }
  }

  // ---- The operations of a turn ----

  ghost function RoundOps(cfg: NodeConfig, s: NodeState, input: Input): seq<Operation>
    requires ChainIsSound(s)
  {
    UpdateRoundKeepsInvariant(cfg.chain, s.chain, input.round);
    var chain := UpdateRound(cfg.chain, s.chain, input.round).state;
    var own := GenerateBlock(cfg, chain.table.rows, chain.currentRound, input);
    [DoRound(input.round)] +
    if ReachesProduction(cfg, s, chain) && own.Some? && cfg.broadcastCreatedBlock then [DoInsert(own.value)] else []
  }

  /** A broadcast that `handle_new_block` does not drop at once. */
  ghost predicate IsTried(cfg: NodeConfig, s: NodeState, b: Block)
    requires ChainIsSound(s)
  {
    && s.chain.currentRound <= b.round < s.chain.currentRound + cfg.tolerance + 1 && b.owner != cfg.publicKey
    && FindHash(s.chain.table.rows, b.hash).None? && !Known(s.missed, b.hash)
  }

  ghost function ReceiveOps(cfg: NodeConfig, s: NodeState, input: Input): seq<Operation>
    requires ChainIsSound(s)
  {
    match input.message
    case Some(BlockBroadcast(b, _)) => if s.mode.Listening? && IsTried(cfg, s, b) then [DoInsert(b)] else []
    case Some(ResyncResponse(Some(b))) => if s.mode.Resyncing? then [DoMerge(b, s.received)] else []
    case _ => []
  }

  ghost function TurnOps(cfg: NodeConfig, s: NodeState, input: Input): seq<Operation>
    requires ChainIsSound(s)
  {
    var started := StartPhase(cfg, s, input);
    if !started.Go? then []
    else
      RoundPhaseIsSound(cfg, started.state, input);
      var p := RoundPhase(cfg, started.state, input);
      RoundOps(cfg, started.state, input) + if p.Go? then ReceiveOps(cfg, p.state, input) else []
  }

  lemma RoundChain(cfg: NodeConfig, s: NodeState, input: Input)
    requires ChainIsSound(s)
    ensures var p, updated := RoundPhase(cfg, s, input), UpdateRound(cfg.chain, s.chain, input.round).state;
            && ChainIsSound(s.(chain := updated))
            && var own := GenerateBlock(cfg, updated.table.rows, updated.currentRound, input);
               var made := ReachesProduction(cfg, s, updated) && own.Some? && cfg.broadcastCreatedBlock;
               p.Raise? || p.state.chain == if made then Step(cfg.chain, updated, DoInsert(own.value)) else updated
  {
    UpdateRoundKeepsInvariant(cfg.chain, s.chain, input.round);
    hide ChainInvariant, UpdateRound, Insert, BestCandidate, BlocksOf;
  }

  lemma RoundIsOperations(cfg: NodeConfig, s: NodeState, input: Input)
    requires ChainIsSound(s)
    ensures var p := RoundPhase(cfg, s, input);
            !p.Raise? ==> p.state.chain == AfterAll(cfg.chain, s.chain, RoundOps(cfg, s, input))
  {
    RoundChain(cfg, s, input);
    UpdateRoundKeepsInvariant(cfg.chain, s.chain, input.round);
    hide ChainInvariant, RoundPhase, UpdateRound, Insert, GenerateBlock, AfterAll, ReachesProduction, BlocksOf;
    var chain := UpdateRound(cfg.chain, s.chain, input.round).state;
    var own := GenerateBlock(cfg, chain.table.rows, chain.currentRound, input);
    var first := [DoRound(input.round)];
    AfterOne(cfg.chain, s.chain, DoRound(input.round));
    if own.Some? {
      AfterOne(cfg.chain, chain, DoInsert(own.value));
      AfterBoth(cfg.chain, s.chain, first, [DoInsert(own.value)]);
    }
    assert first + [] == first;
  }

  lemma ReceivingIsOperations(cfg: NodeConfig, s: NodeState, input: Input)
    requires ChainIsSound(s)
    ensures SameButFork(ReceivePhase(cfg, s, input).chain, AfterAll(cfg.chain, s.chain, ReceiveOps(cfg, s, input)))
  {
    hide ChainInvariant, Insert, Merge, Judge, FindHash, After;
    NoOperations(cfg.chain, s.chain);
    match input.message
    case Some(BlockBroadcast(b, _)) => AfterOne(cfg.chain, s.chain, DoInsert(b));
    case Some(ResyncResponse(Some(b))) => AfterOne(cfg.chain, s.chain, DoMerge(b, s.received));
    case _ =>
  }

  lemma NoOperations(cfg: Config, s: ChainState)
    requires Sound(s)
    ensures AfterAll(cfg, s, []) == s
  {
  }

  /** The chain after a turn is the chain after its operations, up to the fork flag. */
  lemma TurnIsOperations(cfg: NodeConfig, s: NodeState, input: Input)
    requires ChainIsSound(s)
    ensures var p := Turn(cfg, s, input);
            !p.Raise? ==> SameButFork(p.state.chain, AfterAll(cfg.chain, s.chain, TurnOps(cfg, s, input)))
  {
    hide ChainInvariant, RoundPhase, ReceivePhase, RoundOps, ReceiveOps, AfterAll, ReplyTo;
    NoOperations(cfg.chain, s.chain);
    var started := StartPhase(cfg, s, input);
    if started.Go? {
      RoundPhaseIsSound(cfg, started.state, input);
      RoundIsOperations(cfg, started.state, input);
      var p := RoundPhase(cfg, started.state, input);
      var ops := RoundOps(cfg, started.state, input);
      if p.Go? {
        ReceivingIsOperations(cfg, p.state, input);
        AfterBoth(cfg.chain, s.chain, ops, ReceiveOps(cfg, p.state, input));
      } else {
        assert ops + [] == ops;
      }
    }
  }

  // ---- The operations of a run ----

  /** All operations of the first n turns of a node that started in this round. */
  ghost function RunOps(cfg: NodeConfig, s: NodeState, round: int, inputs: seq<Input>, n: nat): seq<Operation>
    requires ChainIsSound(s) && n <= |inputs|
  {
    if n == 0 then [DoRound(round)]
    else
      var before := AfterTurns(cfg, s, inputs, n - 1);
      RunOps(cfg, s, round, inputs, n - 1) +
      if before.Some? then TurnOps(cfg, before.value, inputs[n - 1]) else []
  }

  ghost function OperationsGive(cfg: NodeConfig, s: NodeState, round: int, inputs: seq<Input>, n: nat):
    (chain: ChainState)
    requires ChainIsSound(s) && n <= |inputs|
    ensures Sound(chain)
  {
    GenesisIsSound();
    AfterAll(cfg.chain, INITIAL_CHAIN, RunOps(cfg, s, round, inputs, n))
  }

  /** The chain of a node is the chain after the operations of its turns, up to the fork flag. */
  lemma {:induction false} RunIsOperations(cfg: NodeConfig, s: NodeState, round: int, inputs: seq<Input>, n: nat)
    requires JustStarted(cfg, s, round) && n <= |inputs|
    ensures var r := AfterTurns(cfg, s, inputs, n);
            r.Some? ==> SameButFork(r.value.chain, OperationsGive(cfg, s, round, inputs, n))
    decreases n
  {
    GenesisIsSound();
    hide ChainInvariant, UpdateRound, Turn, TurnOps, SameButFork, AfterAll, INITIAL_CHAIN;
    if n == 0 {
      AfterOne(cfg.chain, INITIAL_CHAIN, DoRound(round));
      SameAsItself(s.chain);
    } else {
      RunIsOperations(cfg, s, round, inputs, n - 1);
      var before := AfterTurns(cfg, s, inputs, n - 1);
      if before.Some? && !Turn(cfg, before.value, inputs[n - 1]).Raise? {
        OneMoreTurnIsOperations(cfg, OperationsGive(cfg, s, round, inputs, n - 1), before.value, inputs[n - 1]);
        AfterBoth(cfg.chain, INITIAL_CHAIN, RunOps(cfg, s, round, inputs, n - 1),
                  TurnOps(cfg, before.value, inputs[n - 1]));
      }
    }
  }

  lemma SameAsItself(s: ChainState)
    ensures SameButFork(s, s)
  {
  }

  lemma OneMoreTurnIsOperations(cfg: NodeConfig, chain: ChainState, s: NodeState, input: Input)
    requires ChainIsSound(s) && Sound(chain) && SameButFork(s.chain, chain) && !Turn(cfg, s, input).Raise?
    ensures SameButFork(Turn(cfg, s, input).state.chain, AfterAll(cfg.chain, chain, TurnOps(cfg, s, input)))
  {
    hide ChainInvariant, Turn, TurnOps, After;
    TurnIsOperations(cfg, s, input);
    RunIgnoresFork(cfg.chain, s.chain, chain, TurnOps(cfg, s, input), |TurnOps(cfg, s, input)|);
  }

  // ---- What runs of operations promise holds for nodes ----

  /** In every run of a node, every row's numSuc is the tickets credited above it, and frozen once confirmed. */
  lemma NodeLedgerBalances(cfg: NodeConfig, s: NodeState, round: int, inputs: seq<Input>, n: nat)
    requires JustStarted(cfg, s, round) && n <= |inputs|
    ensures var r := AfterTurns(cfg, s, inputs, n); r.Some? ==> Balanced(r.value.chain.table)
  {
    hide JustStarted, ChainInvariant, AfterTurns, RunOps, After, Balanced;
    GenesisIsSound();
    RunIsOperations(cfg, s, round, inputs, n);
    var ops := RunOps(cfg, s, round, inputs, n);
    LedgerBalancesInEveryRun(cfg.chain, ops, |ops|);
  }

  /** In every run of a node, every block behind genesis has passed validation. */
  lemma NodeChainIsValidated(cfg: NodeConfig, s: NodeState, round: int, inputs: seq<Input>, n: nat)
    requires JustStarted(cfg, s, round) && n <= |inputs|
    ensures var r := AfterTurns(cfg, s, inputs, n);
            r.Some? ==> ValidatedAfterGenesis(cfg.chain, BlocksOf(r.value.chain.table.rows))
  {
    hide JustStarted, ChainInvariant, AfterTurns, RunOps, After, ValidatedAfterGenesis, BlocksOf;
    GenesisIsSound();
    RunIsOperations(cfg, s, round, inputs, n);
    var ops := RunOps(cfg, s, round, inputs, n);
    EveryReachableChainIsValidated(cfg.chain, ops, |ops|);
  }

  /** No operation of the first n turns turns a valid child of the tip down for its round. */
  ghost predicate NoChildRejected(cfg: NodeConfig, ops: seq<Operation>)
    requires Sound(INITIAL_CHAIN)
  {
    forall i :: 0 <= i < |ops| ==> !RejectsChild(cfg.chain, After(cfg.chain, INITIAL_CHAIN, ops, i), ops[i])
  }

  /** Such a node's tip has no tickets, so its next `update_round` does not fail, whatever the round. */
  lemma NodeRoundsNeverRaise(cfg: NodeConfig, s: NodeState, round: int, inputs: seq<Input>, n: nat, next: int)
    requires JustStarted(cfg, s, round) && n <= |inputs|
    requires Sound(INITIAL_CHAIN) && NoChildRejected(cfg, RunOps(cfg, s, round, inputs, n))
    ensures var r := AfterTurns(cfg, s, inputs, n);
            r.Some? ==> TipIsFresh(r.value.chain.table.rows) && !UpdateRound(cfg.chain, r.value.chain, next).raised
  {
    hide JustStarted, ChainInvariant, AfterTurns, RunOps, After, TipIsFresh, RejectsChild, UpdateRound, INITIAL_CHAIN;
    RunIsOperations(cfg, s, round, inputs, n);
    var ops := RunOps(cfg, s, round, inputs, n);
    RoundsNeverRaise(cfg.chain, ops, |ops|, next);
    var r := AfterTurns(cfg, s, inputs, n);
    if r.Some? {
      RoundKeepsTipFresh(cfg.chain, r.value.chain, next);
    }
  }

  lemma {:induction false} EarlierOpsArePrefix(cfg: NodeConfig, s: NodeState, round: int, inputs: seq<Input>,
                                               m: nat, n: nat)
    requires ChainIsSound(s) && m <= n <= |inputs|
    ensures RunOps(cfg, s, round, inputs, m) <= RunOps(cfg, s, round, inputs, n)
    decreases n
  {
    hide ChainIsSound, TurnOps, AfterTurns;
    if m < n {
      EarlierOpsArePrefix(cfg, s, round, inputs, m, n - 1);
    }
  }

  /** Between two moments of a node's run without a successful merge the chain never gets worse. */
  lemma NodeChainOnlyImproves(cfg: NodeConfig, s: NodeState, round: int, inputs: seq<Input>, m: nat, n: nat)
    requires JustStarted(cfg, s, round) && m <= n <= |inputs|
    requires Sound(INITIAL_CHAIN) && NoMergeSucceeds(cfg.chain, INITIAL_CHAIN, RunOps(cfg, s, round, inputs, n))
    requires AfterTurns(cfg, s, inputs, m).Some? && AfterTurns(cfg, s, inputs, n).Some?
    ensures |RunOps(cfg, s, round, inputs, m)| <= |RunOps(cfg, s, round, inputs, n)|
    ensures var ops, from := RunOps(cfg, s, round, inputs, n), |RunOps(cfg, s, round, inputs, m)|;
            BetterOrSame(Inserts(cfg.chain, INITIAL_CHAIN, ops, from, |ops|) > 0,
                         Quality(AfterTurns(cfg, s, inputs, n).value.chain.table.rows),
                         Quality(AfterTurns(cfg, s, inputs, m).value.chain.table.rows))
  {
    hide JustStarted, ChainInvariant, AfterTurns, RunOps, After, BetterOrSame, Inserts, Quality, NoMergeSucceeds,
      INITIAL_CHAIN;
    var earlier, ops := RunOps(cfg, s, round, inputs, m), RunOps(cfg, s, round, inputs, n);
    EarlierOpsArePrefix(cfg, s, round, inputs, m, n);
    RunIsOperations(cfg, s, round, inputs, m);
    RunIsOperations(cfg, s, round, inputs, n);
    assert ops == earlier + ops[|earlier|..];
    AfterPrefix(cfg.chain, INITIAL_CHAIN, earlier, ops[|earlier|..], |earlier|);
    RunsOnlyImprove(cfg.chain, INITIAL_CHAIN, ops, |earlier|, |ops|);
  }
}
