/**
 The `BlockChain` object (cpos/core/blockchain.py): its methods run the statements of
 `LocalChains` one after another and are proved to do what `Chain` says. That every lookup finds
 its row and every INSERT a new key is part of that proof. Clock readings are parameters.
 */
module BlockChainObject {
  import opened Wrappers
  import opened Bytes
  import opened Blocks
  import opened Sortition
  import opened Chain
  import opened LocalChains

  class BlockChain {
    const cfg: Config
    var rows: seq<Row>
    var currentRound: int
    var forkDetected: bool
    var forksDetected: nat
    var confirmationDelays: seq<Delay>
    var lastConfirmationDelay: int

    // The fields above as one value, with the history of credited tickets
    ghost var state: ChainState

    ghost predicate Valid()
      reads this
    {
      && Aligned(state.table) && ChainInvariant(state.table.rows)
      && rows == state.table.rows
      && currentRound == state.currentRound
      && forkDetected == state.forkDetected && forksDetected == state.forksDetected
      && confirmationDelays == state.delays && lastConfirmationDelay == state.lastDelay
    }

    constructor (cfg: Config, round: int)
      ensures Valid()
      ensures this.cfg == cfg && state == Chain.UpdateRound(cfg, INITIAL_CHAIN, round).state
    {
      this.cfg := cfg;
      rows := [Row(GENESIS, 0, true)];
      currentRound, forkDetected, forksDetected := 0, false, 0;
      confirmationDelays, lastConfirmationDelay := [], 0;
      state := INITIAL_CHAIN;
      new;
      var raised := UpdateRound(round);
    }

    method ValidateBlock(b: Block) returns (tickets: Option<nat>)
      ensures tickets == Validate(cfg, b)
    {
      if |b.owner| != PUBLIC_KEY_SIZE {
        return None;
      }
      if !cfg.verify(b.owner, b.signedNodeHash, b.nodeHash) {
        return None;
      }
      var won := RunSortition(cfg.sha, b.signedNodeHash, LookupNodeStake(b.owner),
                              SuccessProbability(cfg.totalStake, cfg.tau));
      if won == 0 || won < b.ticket {
        return None;
      }
      return Some(won);
    }

    // ---- The statements ----

    method BlockInBlockchain(b: Block) returns (found: bool)
      requires Valid()
      ensures found <==> FindHash(state.table.rows, b.hash).Some?
    {
      WithHashFindsFirst(rows, b.hash);
      found := WithHash(rows, b.hash).Some?;
    }

    method NumberOfBlocks() returns (n: nat)
      requires Valid()
      ensures n == |state.table.rows|
    {
      n := |rows|;
    }

    method HasCorrectParent(b: Block) returns (correct: bool)
      requires Valid() && 1 <= b.index <= |state.table.rows|
      ensures correct <==> state.table.rows[b.index - 1].block.hash == b.parentHash
    {
      AtIndexIsThere(rows, b.index - 1);
      correct := AtIndex(rows, b.index - 1).value.block.hash == b.parentHash;
    }

    method UpdateSuccessfulSortition(index: nat, tickets: nat)
      requires Valid()
      modifies `rows, `state
      ensures Valid()
      ensures state == old(state).(table := CreditTable(old(state).table, index, tickets))
    {
      CreditReachesBelow(rows, index, tickets);
      CreditKeepsInvariant(rows, index, tickets);
      rows := CreditSortition(rows, index, tickets);
      state := state.(table := CreditTable(state.table, index, tickets));
    }

    method GetProofHashOfBlock(index: nat) returns (proofHash: ByteString)
      requires Valid() && index < |state.table.rows|
      ensures proofHash == state.table.rows[index].block.proofHash
    {
      AtIndexIsThere(rows, index);
      proofHash := AtIndex(rows, index).value.block.proofHash;
    }

    method GetRoundOfBlock(index: nat) returns (round: int)
      requires Valid() && index < |state.table.rows|
      ensures round == state.table.rows[index].block.round
    {
      AtIndexIsThere(rows, index);
      round := AtIndex(rows, index).value.block.round;
    }

    method DeleteBlocksSince(index: nat)
      requires Valid() && Aligned(state.table) && 1 <= index <= |state.table.rows|
      modifies `rows, `state
      ensures Valid()
      ensures state == old(state).(table := Truncate(old(state).table, index))
    {
      DeletionKeepsPrefix(rows, index);
      TruncationKeepsInvariant(rows, index);
      rows := DeleteSince(rows, index);
      state := state.(table := Truncate(state.table, index));
    }

    method InsertBlock(b: Block)
      requires Valid() && Aligned(state.table) && CanFollow(state.table.rows, b)
      modifies `rows, `state
      ensures Valid()
      ensures state == old(state).(table := Append(old(state).table, b))
    {
      FoundFirst(rows, b.hash);
      AppendKeepsInvariant(rows, b);
      rows := InsertRow(rows, Row(b, 0, false));
      state := state.(table := Append(state.table, b));
    }

    method BlockOfHash(hash: ByteString) returns (found: Option<(ByteString, nat)>)
      requires Valid()
      ensures found == match FindHash(state.table.rows, hash)
                       case Some(i) => Some((hash, i))
                       case None => None
    {
      WithHashFindsFirst(rows, hash);
      var row := WithHash(rows, hash);
      if row.None? {
        return None;
      }
      return Some((row.value.block.hash, row.value.block.index));
    }

    method BlocksSinceIndex(index: nat) returns (since: seq<Row>)
      requires Valid() && index <= |state.table.rows|
      ensures since == state.table.rows[index..]
    {
      DeletionKeepsPrefix(rows, index);
      since := Since(rows, index);
    }

    /** Puts back rows that were deleted from `removedFrom`, one INSERT each, under an invariant the caller shows. */
    method ReintroduceBlocks(removed: seq<Row>, ghost removedFrom: Table, ghost n: nat)
      requires Valid() && Aligned(removedFrom) && n <= |removedFrom.rows| && removed == removedFrom.rows[n..]
      requires Aligned(state.table) && ChainInvariant(Reattach(state.table, removedFrom, n).rows)
      modifies `rows, `state
      ensures Valid()
      ensures state == old(state).(table := Reattach(old(state).table, removedFrom, n))
    {
      ghost var before := rows;
      assert before + removed[..0] == before;
      for i := 0 to |removed|
        invariant rows == before + removed[..i] && state == old(state)
      {
        RemovedKeyIsNew(before, removed, i);
        assert before + removed[..i + 1] == (before + removed[..i]) + [removed[i]];
        rows := InsertRow(rows, removed[i]);
      }
      assert removed[..|removed|] == removed;
      state := state.(table := Reattach(state.table, removedFrom, n));
    }

    method LastConfirmedBlock() returns (row: Row)
      requires Valid()
      ensures ConfirmedCount(state.table.rows) >= 1
      ensures row == state.table.rows[ConfirmedCount(state.table.rows) - 1]
    {
      ConfirmedRowsAreAPrefix(rows);
      row := LastConfirmed(rows).value;
    }

    method LastBlockId() returns (id: ByteString)
      requires Valid()
      ensures |state.table.rows| >= 1 && id == state.table.rows[|state.table.rows| - 1].block.hash
    {
      id := FetchLast(rows).value.block.hash;
    }

    /** None is the case in which the program's `fetchone` has nothing to unpack. */
    method OldestUnconfirmedBlock() returns (row: Option<Row>)
      requires Valid()
      ensures row == OldestOf(state.table.rows)
    {
      ConfirmedRowsAreAPrefix(rows);
      row := OldestUnconfirmed(rows);
    }

    method ConfirmBlock(id: ByteString)
      requires Valid() && Aligned(state.table)
      requires OldestOf(state.table.rows).Some? && OldestOf(state.table.rows).value.block.hash == id
      modifies `rows, `state
      ensures Valid()
      ensures state == old(state).(table := ConfirmNext(old(state).table))
    {
      FirstUnconfirmedSplits(rows, 0);
      ghost var n := ConfirmedCount(rows);
      ConfirmingKeepsInvariant(state.table, n, n + 1);
      ConfirmChangesOneRow(rows, n);
      rows := Confirm(rows, id);
      state := state.(table := ConfirmNext(state.table));
    }

    /** `block_by_index`: a negative index counts from the end. */
    method BlockByIndex(index: int) returns (b: Option<Block>)
      requires Valid()
      requires -|rows| <= index < |rows|
      ensures b == ComposeBlock(cfg.sha, rows[if index < 0 then |rows| + index else index])
    {
      var i := if index < 0 then |rows| + index else index;
      AtIndexIsThere(rows, i);
      b := ComposeBlock(cfg.sha, AtIndex(rows, i).value);
    }

    // ---- insert ----

    method Insert(b: Block) returns (inserted: bool)
      requires Valid()
      modifies this
      ensures Valid() && Aligned(state.table)
      ensures state == old(state).(table := Chain.Insert(cfg, old(state).table, b))
      ensures inserted <==> Judge(cfg, old(state).table.rows, b).Inserted?
    {
      assert Aligned(state.table);
      hide Valid, Aligned;
      var known := BlockInBlockchain(b);
      if known {
        return false;
      }
      if b.index == 0 {
        return false;
      }
      var count := NumberOfBlocks();
      if b.index > count {
        return false;
      }
      var linked := HasCorrectParent(b);
      if !linked {
        return false;
      }
      var won := ValidateBlock(b);
      if won.None? {
        return false;
      }
      inserted := InsertValidated(b, won.value);
    }

    // The part of `insert` after the validation
    method InsertValidated(b: Block, won: nat) returns (inserted: bool)
      requires Valid() && Aligned(state.table) && Validate(cfg, b) == Some(won)
      requires Credits(Judge(cfg, state.table.rows, b))
      modifies this
      ensures Valid() && Aligned(state.table)
      ensures state == old(state).(table := Chain.Insert(cfg, old(state).table, b))
      ensures inserted <==> Judge(cfg, old(state).table.rows, b).Inserted?
    {
      CreditedOutcome(cfg, state.table, b, won);
      hide Valid, FindHash, Judge, Chain.Insert, CreditTable, Truncate, Append, CanFollow, Aligned;
      UpdateSuccessfulSortition(b.index, won);

      var count := NumberOfBlocks();
      if count > b.index {
        var proofHash := GetProofHashOfBlock(b.index);
        AtLeastMeansNotLess(b.proofHash, proofHash);
        if AtLeast(b.proofHash, proofHash) {
          return false;
        }
      }
      var parentRound := GetRoundOfBlock(b.index - 1);
      if b.round <= parentRound {
        return false;
      }
      DeleteBlocksSince(b.index);
      InsertBlock(b);
      return true;
    }

    // ---- merge ----

    /** Returns what is left of the caller's list, from which the head may have been popped. */
    method Merge(foreign: seq<Block>) returns (merged: bool, remaining: seq<Block>)
      requires Valid() && |foreign| >= 1
      modifies this
      ensures Valid()
      ensures var r := Chain.Merge(cfg, old(state).table, foreign);
              state == old(state).(table := r.table) && merged == r.merged && remaining == r.remaining
    {
      ghost var before := state.table;
      MergeKeepsInvariant(cfg, before, foreign);
      hide Valid, ChainInvariant, FindHash;
      var ancestor := BlockOfHash(foreign[0].parentHash);
      if ancestor.None? {
        return false, foreign;
      }
      var n := ancestor.value.1 + 1;
      var originalSubchain := BlocksSinceIndex(n);
      DeleteBlocksSince(n);

      remaining := foreign[1..];
      merged := Insert(foreign[0]);
      if !merged {
        ReintroduceBlocks(originalSubchain, before, n);
      } else {
        InsertWhileAccepted(remaining);
      }
    }

    // The loop at the end of `merge`
    method InsertWhileAccepted(bs: seq<Block>)
      requires Valid() && Aligned(state.table)
      modifies this
      ensures Valid()
      ensures state == old(state).(table := InsertAll(cfg, old(state).table, bs))
    {
      hide Valid;
      ghost var goal := InsertAll(cfg, state.table, bs);
      var i := 0;
      assert bs[0..] == bs;
      while i < |bs|
        invariant 0 <= i <= |bs|
        invariant Valid() && Aligned(state.table) && state == old(state).(table := state.table)
        invariant InsertAll(cfg, state.table, bs[i..]) == goal
      {
        assert bs[i..][1..] == bs[i + 1..];
        var inserted := Insert(bs[i]);
        if !inserted {
          break;
        }
        i := i + 1;
      }
    }

    // ---- update_round ----

    /** One turn of the loop of `update_round`; None for a row that is not there. */
    method TryConfirmOldest(lastConfirmedRound: int)
      returns (oldest: Option<Row>, confirmed: bool, deltaR: int, average: real)
      requires Valid()
      modifies this
      ensures Valid() && Aligned(state.table) && state.currentRound == old(state).currentRound
      ensures confirmed ==> |state.table.rows| - ConfirmedCount(state.table.rows)
                            < old(|state.table.rows| - ConfirmedCount(state.table.rows))
      ensures Aligned(old(state).table) && oldest == OldestOf(old(state).table.rows)
      ensures confirmed <==> oldest.Some? && Passes(cfg, oldest.value, old(state).currentRound)
      ensures oldest.Some? ==> Measured(oldest.value, old(state).currentRound, deltaR, average)
      ensures state == if confirmed then ConfirmOne(old(state), lastConfirmedRound) else old(state)
    {
      confirmed, deltaR, average := false, 0, 0.0;
      if OldestOf(state.table.rows).Some? {
        ConfirmingAdvances(state.table);
      }
      oldest := OldestUnconfirmedBlock();
      if oldest.None? {
        return;
      }
      deltaR := currentRound - oldest.value.block.round - 1;
      if deltaR > 0 && oldest.value.block.index > 0 {
        average := oldest.value.numSuc as real / deltaR as real;
        var bound := ConfirmationThreshold(cfg.totalStake, cfg.tau, deltaR, CONFIRMATION_RISK);
        if average > bound as real {
          confirmed := true;
          ConfirmBlock(oldest.value.block.hash);
          confirmationDelays := confirmationDelays +
            [Delay(oldest.value.block.hash, oldest.value.block.index, currentRound - oldest.value.block.round)];
          lastConfirmationDelay := currentRound - lastConfirmedRound;
          state := ConfirmOne(old(state), lastConfirmedRound);
        }
      }
    }

    /** The loop of `update_round`; it ends without a row when it asks for one that is not there. */
    method ConfirmPassing(lastConfirmedRound: int) returns (oldest: Option<Row>, deltaR: int, average: real)
      requires Valid() && ConfirmedCount(state.table.rows) >= 1
      requires lastConfirmedRound == state.table.rows[ConfirmedCount(state.table.rows) - 1].block.round
      modifies this
      ensures Valid()
      ensures Aligned(old(state).table) && state == ConfirmRun(cfg, old(state))
      ensures oldest == RowAfterRun(cfg, old(state))
      ensures oldest.Some? ==> Measured(oldest.value, old(state).currentRound, deltaR, average)
    {
      LoopConfirmsRun(cfg, state);
      ghost var goal := ConfirmOldest(cfg, state, lastConfirmedRound);
      hide Valid, Aligned, ConfirmedPrefix, ConfirmRun, RowAfterRun, Passes, ConfirmOne, Measured;
      var blockConfirmed := true;
      oldest, deltaR, average := None, 0, 0.0;
      while blockConfirmed
        invariant Valid() && Aligned(state.table)
        invariant ConfirmOldest(cfg, state, lastConfirmedRound) == goal
        invariant state.currentRound == old(state).currentRound
        invariant !blockConfirmed ==>
                    && state == goal && oldest == OldestOf(state.table.rows)
                    && (oldest.Some? ==> Measured(oldest.value, state.currentRound, deltaR, average))
        decreases |state.table.rows| - ConfirmedCount(state.table.rows), blockConfirmed
      {
        oldest, blockConfirmed, deltaR, average := TryConfirmOldest(lastConfirmedRound);
      }
    }

    /** `raised` says that the program fails on a missing row: every unconfirmed row has passed. */
    method UpdateRound(round: int) returns (raised: bool)
      requires Valid()
      modifies this
      ensures Valid()
      ensures RoundResult(state, raised) == Chain.UpdateRound(cfg, old(state), round)
    {
      if currentRound == round {
        return false;
      }
      LastIsConfirmedWhenAllAre(rows);
      hide ChainInvariant, ConfirmRun, RowAfterRun, ConfirmedCount, LookForFork;
      currentRound := round;
      state := state.(currentRound := round);
      var lastConfirmed := LastConfirmedBlock();
      var lastId := LastBlockId();
      if lastConfirmed.block.hash == lastId {
        return false;
      }
      var oldest, deltaR, average := ConfirmPassing(lastConfirmed.block.round);
      if oldest.None? {
        return true;
      }
      DetectFork(deltaR, average, oldest.value);
      return false;
    }

    // The end of `update_round`
    method DetectFork(deltaR: int, average: real, ghost row: Row)
      requires Valid() && Measured(row, currentRound, deltaR, average)
      modifies this
      ensures Valid()
      ensures state == LookForFork(cfg, old(state), row)
    {
      if deltaR > 0 {
        var bound := ForkThreshold(cfg.totalStake, cfg.tau, deltaR, FORK_CONFIDENCE);
        if average < bound as real {
          forkDetected := true;
          forksDetected := forksDetected + 1;
          state := state.(forkDetected := true, forksDetected := forksDetected);
        }
      }
    }
  }
}
