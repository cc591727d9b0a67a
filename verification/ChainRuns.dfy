/** Runs of the three operations, and what holds in every state they reach. */
module ChainRuns {
  import opened Blocks
  import opened Chain

  datatype Operation =
    | DoInsert(block: Block)
    | DoMerge(head: Block, tail: seq<Block>)
    | DoRound(round: int)

  ghost function Step(cfg: Config, s: ChainState, op: Operation): ChainState
    requires Sound(s)
  {
    match op
    case DoInsert(b) => s.(table := Insert(cfg, s.table, b))
    case DoMerge(head, tail) => s.(table := Merge(cfg, s.table, [head] + tail).table)
    case DoRound(round) => UpdateRound(cfg, s, round).state
  }

  lemma StepIsSound(cfg: Config, s: ChainState, op: Operation)
    requires Sound(s)
    ensures Sound(Step(cfg, s, op))
  {
    match op
    case DoInsert(b) => InsertKeepsInvariant(cfg, s.table, b);
    case DoMerge(head, tail) => MergeKeepsInvariant(cfg, s.table, [head] + tail);
    case DoRound(round) => UpdateRoundKeepsInvariant(cfg, s, round);
  }

  lemma GenesisIsSound()
    ensures Sound(INITIAL_CHAIN)
  {
  }

  /** The state after the first n operations. */
  ghost function After(cfg: Config, s: ChainState, ops: seq<Operation>, n: nat): (s': ChainState)
    requires Sound(s) && n <= |ops|
    ensures Sound(s')
    decreases n
  {
    if n == 0 then s
    else
      var before := After(cfg, s, ops, n - 1);
      StepIsSound(cfg, before, ops[n - 1]);
      Step(cfg, before, ops[n - 1])
  }

  /**
   Every state that a run from the genesis chain reaches satisfies the chain invariant; in
   particular its length is bounded by the round of its tip.
   */
  lemma EveryReachableChainIsSound(cfg: Config, ops: seq<Operation>, n: nat)
    requires n <= |ops|
    ensures Sound(INITIAL_CHAIN)
    ensures var rows := After(cfg, INITIAL_CHAIN, ops, n).table.rows;
            ChainInvariant(rows) && NoLongerThanItsRound(rows)
  {
    GenesisIsSound();
    hide ChainInvariant, NoLongerThanItsRound, INITIAL_CHAIN;
    var rows := After(cfg, INITIAL_CHAIN, ops, n).table.rows;
    LengthIsBoundedByRound(rows);
  }

  // ---- What holds of every block behind genesis ----

  ghost predicate AfterGenesis(ok: Block -> bool, c: seq<Block>) {
    forall i :: 1 <= i < |c| ==> ok(c[i])
  }

  ghost predicate ValidOnesAre(cfg: Config, ok: Block -> bool, bs: seq<Block>) {
    forall i :: 0 <= i < |bs| && Validate(cfg, bs[i]).Some? ==> ok(bs[i])
  }

  lemma InsertKeepsAll(cfg: Config, t: Table, b: Block, ok: Block -> bool)
    requires Aligned(t) && AfterGenesis(ok, BlocksOf(t.rows)) && (Validate(cfg, b).Some? ==> ok(b))
    ensures AfterGenesis(ok, BlocksOf(Insert(cfg, t, b).rows))
  {
    hide Validate, Judge, Insert;
    InsertEffect(cfg, t, b);
    if Judge(cfg, t.rows, b).Inserted? {
      InsertedIsValid(cfg, t.rows, b);
    }
  }

  lemma InsertedIsValid(cfg: Config, rows: seq<Row>, b: Block)
    requires Judge(cfg, rows, b).Inserted?
    ensures Validate(cfg, b).Some?
  {
  }

  lemma {:induction false} InsertAllKeepsAll(cfg: Config, t: Table, bs: seq<Block>, ok: Block -> bool)
    requires Aligned(t) && AfterGenesis(ok, BlocksOf(t.rows)) && ValidOnesAre(cfg, ok, bs)
    ensures AfterGenesis(ok, BlocksOf(InsertAll(cfg, t, bs).rows))
    decreases |bs|
  {
    hide AfterGenesis, Validate, Judge, Insert;
    if bs != [] {
      InsertKeepsAll(cfg, t, bs[0], ok);
      InsertAllKeepsAll(cfg, Insert(cfg, t, bs[0]), bs[1..], ok);
    }
  }

  lemma MergeKeepsAll(cfg: Config, t: Table, foreign: seq<Block>, ok: Block -> bool)
    requires Aligned(t) && AfterGenesis(ok, BlocksOf(t.rows)) && |foreign| >= 1 && ValidOnesAre(cfg, ok, foreign)
    ensures AfterGenesis(ok, BlocksOf(Merge(cfg, t, foreign).table.rows))
  {
    hide Validate, Judge, Insert;
    var r := Merge(cfg, t, foreign);
    if !r.merged {
      FailedMergeKeepsBlocks(cfg, t, foreign);
    } else {
      var n := FindHash(t.rows, foreign[0].parentHash).value + 1;
      var cut := Truncate(t, n);
      assert BlocksOf(cut.rows) == BlocksOf(t.rows)[..n];
      InsertAllKeepsAll(cfg, cut, foreign, ok);
      assert r.table == InsertAll(cfg, cut, foreign);
    }
  }

  // ---- Everything behind genesis has been validated ----

  ghost function IsValid(cfg: Config): Block -> bool {
    b => Validate(cfg, b).Some?
  }

  ghost predicate ValidatedAfterGenesis(cfg: Config, c: seq<Block>) {
    AfterGenesis(IsValid(cfg), c)
  }

  lemma StepKeepsValidated(cfg: Config, s: ChainState, op: Operation)
    requires Sound(s) && ValidatedAfterGenesis(cfg, BlocksOf(s.table.rows))
    ensures ValidatedAfterGenesis(cfg, BlocksOf(Step(cfg, s, op).table.rows))
  {
    hide AfterGenesis, ChainInvariant, Insert, Merge, UpdateRound, BlocksOf, Validate;
    match op
    case DoInsert(b) => InsertKeepsAll(cfg, s.table, b, IsValid(cfg));
    case DoMerge(head, tail) => MergeKeepsAll(cfg, s.table, [head] + tail, IsValid(cfg));
    case DoRound(round) => UpdateRoundKeepsInvariant(cfg, s, round);
  }

  /** Every block behind genesis of every reachable chain passed validation under the chain's parameters. */
  lemma {:induction false} EveryReachableChainIsValidated(cfg: Config, ops: seq<Operation>, n: nat)
    requires n <= |ops|
    ensures Sound(INITIAL_CHAIN)
    ensures ValidatedAfterGenesis(cfg, BlocksOf(After(cfg, INITIAL_CHAIN, ops, n).table.rows))
    decreases n
  {
    GenesisIsSound();
    hide ValidatedAfterGenesis, ChainInvariant, Step, INITIAL_CHAIN;
    if n == 0 {
      NothingToValidateYet(cfg);
    } else {
      EveryReachableChainIsValidated(cfg, ops, n - 1);
      StepKeepsValidated(cfg, After(cfg, INITIAL_CHAIN, ops, n - 1), ops[n - 1]);
    }
  }

  lemma NothingToValidateYet(cfg: Config)
    ensures ValidatedAfterGenesis(cfg, BlocksOf(INITIAL_CHAIN.table.rows))
  {
  }
}
