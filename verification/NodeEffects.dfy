/**
 What the handlers of a turn do, told from the outside: who is asked, what is dropped or kept, what is
 sent, and when.
 */
module NodeEffects {
  import opened Wrappers
  import opened Bytes
  import opened Blocks
  import opened Chain
  import opened Protocol
  import opened NodeInvariant

  // ---- Starting to resync ----

  /** `picked` came out of `before` one by one, and `after` is what is left, in its old order. */
  ghost predicate TakenOut(before: seq<Missed>, picked: seq<Missed>, after: seq<Missed>)
    decreases |picked|
  {
    if picked == [] then after == before
    else exists i :: 0 <= i < |before| && before[i] == picked[0] && TakenOut(RemoveAt(before, i), picked[1..], after)
  }

  /** The missed blocks that a search from the k-th request on takes out. */
  function Picked(missed: seq<Missed>, input: Input, k: nat): seq<Missed>
    decreases |missed|
  {
    if missed == [] then []
    else
      var i := input.choose(k) % |missed|;
      [missed[i]] + if input.canSend(k) then [] else Picked(RemoveAt(missed, i), input, k + 1)
  }

  lemma {:induction false} PickTakesOut(missed: seq<Missed>, input: Input, k: nat)
    ensures TakenOut(missed, Picked(missed, input, k), PickTarget(missed, input, k).missed)
    decreases |missed|
  {
    if missed != [] {
      var i := input.choose(k) % |missed|;
      var picked := Picked(missed, input, k);
      if input.canSend(k) {
        assert picked[1..] == [];
      } else {
        assert picked[1..] == Picked(RemoveAt(missed, i), input, k + 1);
        PickTakesOut(RemoveAt(missed, i), input, k + 1);
      }
      assert missed[i] == picked[0] && TakenOut(RemoveAt(missed, i), picked[1..], PickTarget(missed, input, k).missed);
    }
  }

  /** One of the n requests from number k on goes out. */
  predicate AnyGoesOut(input: Input, k: nat, n: nat) {
    exists j :: k <= j < k + n && input.canSend(j)
  }

  /** The search ends with the first request that goes out, and its target is the sender of the last block taken out. */
  lemma {:induction false} PickEndsWithTheFirstSent(missed: seq<Missed>, input: Input, k: nat)
    ensures var pick, picked := PickTarget(missed, input, k), Picked(missed, input, k);
            && (pick.target.Some? <==> AnyGoesOut(input, k, |missed|))
            && (pick.target.Some? ==>
                  && |picked| >= 1 && pick.target.value == picked[|picked| - 1].from
                  && input.canSend(k + |picked| - 1) && !AnyGoesOut(input, k, |picked| - 1))
            && (pick.target.None? ==> pick.missed == [] && |picked| == |missed|)
    decreases |missed|
  {
    hide AnyGoesOut, RemoveAt;
    NoRequests(input, k);
    if missed != [] {
      var i := input.choose(k) % |missed|;
      FirstRequest(input, k, |missed|);
      if !input.canSend(k) {
        var rest := RemoveAt(missed, i);
        RemovalLeavesOneLess(missed, i);
        PickEndsWithTheFirstSent(rest, input, k + 1);
        OneMoreRequest(input, k, |rest|);
        var picked := Picked(rest, input, k + 1);
        if |picked| >= 1 {
          OneMoreRequest(input, k, |picked| - 1);
        }
      }
    }
  }

  lemma NoRequests(input: Input, k: nat)
    ensures !AnyGoesOut(input, k, 0)
  {
  }

  lemma FirstRequest(input: Input, k: nat, n: nat)
    ensures n >= 1 && input.canSend(k) ==> AnyGoesOut(input, k, n)
  {
  }

  lemma RemovalLeavesOneLess(missed: seq<Missed>, i: nat)
    requires i < |missed|
    ensures |RemoveAt(missed, i)| == |missed| - 1
  {
  }

  lemma OneMoreRequest(input: Input, k: nat, n: nat)
    requires !input.canSend(k)
    ensures AnyGoesOut(input, k, n + 1) <==> AnyGoesOut(input, k + 1, n)
  {
  }

  /**
   A listening node that has detected a fork and missed a block asks the sender of the last of the
   blocks it takes out, and becomes resyncing; it takes out one for each request until one goes out.
   When none does, nothing is left, it goes on listening, and the turn is over. Any other node does nothing.
   */
  lemma StartIsExact(cfg: NodeConfig, s: NodeState, input: Input)
    ensures var p, picked := StartPhase(cfg, s, input), Picked(s.missed, input, 0);
            if !(s.mode.Listening? && s.chain.forkDetected && s.missed != []) then p == Go(s)
            else if !AnyGoesOut(input, 0, |s.missed|) then p == Skip(s.(missed := [], requestIndex := -1))
            else
              && p.Go? && |picked| >= 1 && TakenOut(s.missed, picked, p.state.missed)
              && input.canSend(|picked| - 1) && !AnyGoesOut(input, 0, |picked| - 1)
              && p.state == s.(missed := p.state.missed, target := picked[|picked| - 1].from, requestIndex := -1,
                               mode := Resyncing, resyncs := s.resyncs + 1)
  {
    PickTakesOut(s.missed, input, 0);
    PickEndsWithTheFirstSent(s.missed, input, 0);
    hide PickTarget, Picked, TakenOut, AnyGoesOut;
  }

  // ---- A new round ----

  lemma StakeIsOne(id: ByteString)
    ensures LookupNodeStake(id) == 1
  {
  }

  lemma RoundIsTaken(cfg: Config, s: ChainState, round: int)
    requires Aligned(s.table) && |s.table.rows| >= 1
    ensures UpdateRound(cfg, s, round).state.currentRound == round
  {
  }

  /** What the node does about a new round, given what `update_round` made of its chain. */
  lemma RoundIsExact(cfg: NodeConfig, s: NodeState, input: Input)
    requires ChainIsSound(s)
    ensures ChainIsSound(s.(chain := UpdateRound(cfg.chain, s.chain, input.round).state))
    ensures var p, updated := RoundPhase(cfg, s, input), UpdateRound(cfg.chain, s.chain, input.round);
            var s1, due := s.(chain := updated.state),
                           cfg.period.Some? && cfg.period.value != 0 && input.round % cfg.period.value == 0;
            if updated.raised then p == Raise
            else if s.loopRound == input.round then p == Go(s1)
            else if !s.onConsensus && cfg.period == Some(0) then p == Raise
            else if !s.onConsensus && !due then p == Skip(s1.(loopRound := input.round))
            else if !(0 <= input.round < 0x1_0000_0000) then p == Raise
            else
              var own := GenerateBlock(cfg, updated.state.table.rows, input.round, input);
              p == Go(s1.(loopRound := input.round, onConsensus := true,
                          chain := if own.None? || !cfg.broadcastCreatedBlock then updated.state
                                   else updated.state.(table := Insert(cfg.chain, updated.state.table, own.value))))
  {
    UpdateRoundKeepsInvariant(cfg.chain, s.chain, input.round);
    StakeIsOne(cfg.publicKey);
    SoundIsNonempty(s);
    RoundIsTaken(cfg.chain, s.chain, input.round);
    hide UpdateRound, ChainInvariant, Insert, BestCandidate, BlocksOf, LookupNodeStake;
  }

  // ---- Broadcasts ----

  ghost predicate HasHash(rows: seq<Row>, hash: ByteString) {
    exists i :: 0 <= i < |rows| && rows[i].block.hash == hash
  }

  lemma HashArrivesWhenInserted(cfg: Config, t: Table, b: Block)
    requires Aligned(t)
    ensures FindHash(t.rows, b.hash).Some? <==> HasHash(t.rows, b.hash)
    ensures FindHash(t.rows, b.hash).None? ==>
              (HasHash(Insert(cfg, t, b).rows, b.hash) <==> Judge(cfg, t.rows, b).Inserted?)
  {
    FoundFirst(t.rows, b.hash);
    FoundFirst(Insert(cfg, t, b).rows, b.hash);
    if FindHash(t.rows, b.hash).None? {
      if Judge(cfg, t.rows, b).Inserted? {
        InsertedIsFound(cfg, t, b);
      } else {
        UnknownUnlessInserted(cfg, t, b, b.hash);
      }
    }
    hide Judge, Insert, FindHash;
  }

  /**
   A listening node tries a block that is at most `tolerance` rounds ahead, not its own, and neither in
   the chain nor missed; it keeps the block with its sender exactly when it is refused. It drops any other.
   */
  lemma BroadcastIsExact(cfg: NodeConfig, s: NodeState, input: Input, b: Block, peer: ByteString)
    requires ChainIsSound(s) && input.message == Some(BlockBroadcast(b, peer))
    ensures var tried := s.mode.Listening? && s.chain.currentRound <= b.round <= s.chain.currentRound + cfg.tolerance
                         && b.owner != cfg.publicKey && !HasHash(s.chain.table.rows, b.hash)
                         && forall i :: 0 <= i < |s.missed| ==> s.missed[i].block.hash != b.hash;
            ReceivePhase(cfg, s, input) ==
              if !tried then s
              else s.(chain := s.chain.(table := Insert(cfg.chain, s.chain.table, b)),
                      missed := if Judge(cfg.chain, s.chain.table.rows, b).Inserted? then s.missed
                                else s.missed + [Missed(b, peer)])
  {
    FoundFirst(s.chain.table.rows, b.hash);
    hide ChainInvariant, FindHash, Insert, Judge;
  }

  // ---- Answers ----

  /** Without the missed block at one index, and asking its sender. */
  ghost predicate AsksSenderOf(before: NodeState, after: NodeState, i: nat) {
    && i < |before.missed| && after.target == before.missed[i].from
    && after.missed == before.missed[..i] + before.missed[i + 1..]
  }

  /**
   An empty answer drops what was received. The sender of some missed block is asked next, for its
   last block, and that block is missed no more; without one the resync is over and the fork forgotten.
   */
  lemma EmptyAnswerIsExact(cfg: NodeConfig, s: NodeState, input: Input)
    requires ChainIsSound(s) && s.mode.Resyncing? && input.message == Some(ResyncResponse(None))
    ensures var s' := ReceivePhase(cfg, s, input);
            if s.missed == [] then
              s' == s.(received := [], mode := Listening, chain := s.chain.(forkDetected := false))
            else
              && (exists i :: AsksSenderOf(s, s', i))
              && s' == s.(received := [], requestIndex := -1, target := s'.target, missed := s'.missed)
  {
    hide ChainInvariant;
    if s.missed != [] {
      assert AsksSenderOf(s, ReceivePhase(cfg, s, input), input.choose(0) % |s.missed|);
    }
  }

  /**
   A block that goes right above a known one ends the resync. One that is refused above a known parent
   is dropped again, so what was received before stays; one whose parent is unknown is put in front of
   it. In both cases the next request goes one block further back, to the same peer.
   */
  lemma BlockAnswerIsExact(cfg: NodeConfig, s: NodeState, input: Input, b: Block)
    requires ChainIsSound(s) && s.mode.Resyncing? && input.message == Some(ResyncResponse(Some(b)))
    ensures var s', rows := ReceivePhase(cfg, s, input), s.chain.table.rows;
            if exists i :: 0 <= i < |rows| && GoesAbove(cfg.chain, rows, i, b) then
              s' == s.(mode := Listening, received := [], missed := [], successfulResyncs := s.successfulResyncs + 1,
                       chain := s.chain.(table := s'.chain.table, forkDetected := false))
            else
              && s' == s.(received := s'.received, requestIndex := s.requestIndex - 1,
                          chain := s.chain.(table := s'.chain.table))
              && s'.received == if HasHash(rows, b.parentHash) then s.received else [b] + s.received
  {
    var foreign := [b] + s.received;
    MergeSucceedsExactlyWhen(cfg.chain, s.chain.table, foreign);
    HeadIsPoppedWhenItsParentIsKnown(cfg.chain, s.chain.table, foreign);
    assert foreign[1..] == s.received;
    hide ChainInvariant, Merge, GoesAbove;
  }

  /** Broadcasts are for listening nodes only and answers for resyncing ones; nothing else changes the node. */
  lemma OtherMessagesAreIgnored(cfg: NodeConfig, s: NodeState, input: Input)
    requires ChainIsSound(s)
    requires match input.message
             case Some(BlockBroadcast(_, _)) => s.mode.Resyncing?
             case Some(ResyncResponse(_)) => s.mode.Listening?
             case _ => true
    ensures ReceivePhase(cfg, s, input) == s
  {
    hide ChainInvariant, HandleNewBlock, HandleResponse;
  }

  // ---- Requests ----

  /**
   A request is answered with the block at the index, counted from the end when it is negative, without
   its transaction hash; there is none from the length of the chain on in either direction.
   */
  lemma AnswerIsExact(sha: Hash, rows: seq<Row>, index: int)
    requires Indexed(rows)
    ensures var answer := Answer(sha, rows, index);
            var i := if index < 0 then |rows| + index else index;
            if !(-|rows| < index < |rows|) then answer == Success(None)
            else if !(0 <= rows[i].block.round < 0x1_0000_0000 && 0 <= rows[i].block.ticket < 0x1_0000_0000) then
              answer.Failure?
            else
              && answer.Success? && answer.value.Some? && WellFormed(sha, answer.value.value)
              && Given(answer.value.value, rows[i].block) && answer.value.value.index == i
              && answer.value.value.transactionHash == []
  {
  }

  /** The same in every field that the table keeps and the constructor is given. */
  predicate Given(a: Block, b: Block) {
    && a.parentHash == b.parentHash && a.owner == b.owner && a.signedNodeHash == b.signedNodeHash
    && a.round == b.round && a.ticket == b.ticket && a.transactions == b.transactions
  }

  /** A reply goes to whoever sent the request that is read, and holds the answer to it. */
  lemma RepliesGoToTheAsker(sha: Hash, rows: seq<Row>, input: Input, reply: Reply)
    ensures ReplyTo(sha, rows, input) == Success(Some(reply)) <==>
            && input.message.Some? && input.message.value.ResyncRequest? && input.message.value.peer == reply.to
            && Answer(sha, rows, input.message.value.index) == Success(reply.block)
  {
    hide Answer;
  }
}
