/**
 The liveness bookkeeping of the discovery beacon (cpos/p2p/discovery/beacon.py): registration,
 notification and the sweep that forgets silent peers.
 */
module Beacon {
  import opened Bytes

  type Id = ByteString

  // Two peers are the same when their ids are
  datatype Peer = Peer(ip: string, port: int, id: Id)

  datatype Message =
    | Hello(peer: Peer)
    | Notify(peer: Peer)
    | Other  // a peer list request changes nothing here

  datatype State = State(peers: seq<Peer>, flags: map<Id, int>)

  const EMPTY := State([], map[])

  predicate Knows(peers: seq<Peer>, id: Id) {
    exists i :: 0 <= i < |peers| && peers[i].id == id
  }

  function IdsOf(peers: seq<Peer>): set<Id> {
    set i | 0 <= i < |peers| :: peers[i].id
  }

  ghost predicate DistinctIds(peers: seq<Peer>) {
    forall i, j :: 0 <= i < j < |peers| ==> peers[i].id != peers[j].id
  }

  /** Ids are distinct and every peer, and nobody else, has a flag that is 0 or 1. */
  ghost predicate Consistent(s: State) {
    && DistinctIds(s.peers)
    && s.flags.Keys == IdsOf(s.peers)
    && forall id :: id in s.flags ==> s.flags[id] == 0 || s.flags[id] == 1
  }

  // ---- The steps ----

  function Handle(s: State, msg: Message): State {
    match msg
    case Hello(peer) =>
      // a peer that is already known is not marked alive by a Hello
      if Knows(s.peers, peer.id) then s else State(s.peers + [peer], s.flags[peer.id := 1])
    case Notify(peer) =>
      State(if Knows(s.peers, peer.id) then s.peers else s.peers + [peer], s.flags[peer.id := 1])
    case Other => s
  }

  function HandleAll(s: State, msgs: seq<Message>): State {
    if msgs == [] then s else Handle(HandleAll(s, msgs[..|msgs| - 1]), msgs[|msgs| - 1])
  }

  function Filter(peers: seq<Peer>, keep: set<Id>): seq<Peer> {
    if peers == [] then []
    else Filter(peers[..|peers| - 1], keep) + if peers[|peers| - 1].id in keep then [peers[|peers| - 1]] else []
  }

  function Alive(s: State): set<Id> {
    set id | id in s.flags && s.flags[id] != 0
  }

  function Sweep(s: State): State {
    State(Filter(s.peers, Alive(s)), map id | id in Alive(s) :: 0)
  }

  // ---- What the steps keep ----

  lemma HandleKeepsConsistent(s: State, msg: Message)
    requires Consistent(s)
    ensures Consistent(Handle(s, msg))
  {
    if !msg.Other? && !Knows(s.peers, msg.peer.id) {
      var peers := s.peers + [msg.peer];
      assert peers[|s.peers|] == msg.peer;
      forall id
        ensures id in IdsOf(peers) <==> id in IdsOf(s.peers) || id == msg.peer.id
      {
        if id in IdsOf(s.peers) {
          var i :| 0 <= i < |s.peers| && s.peers[i].id == id;
          assert peers[i].id == id;
        }
      }
    } else if msg.Notify? {
      assert msg.peer.id in IdsOf(s.peers);
    }
  }

  lemma {:induction false} FilterIsASubsequence(peers: seq<Peer>, keep: set<Id>)
    requires DistinctIds(peers)
    ensures DistinctIds(Filter(peers, keep))
    ensures IdsOf(Filter(peers, keep)) == IdsOf(peers) * keep
    decreases |peers|
  {
    if peers != [] {
      var n := |peers| - 1;
      FilterIsASubsequence(peers[..n], keep);
      IdsOfLast(peers);
      var kept := Filter(peers[..n], keep);
      if peers[n].id in keep {
        var all := kept + [peers[n]];
        assert all[..|all| - 1] == kept && all[|all| - 1] == peers[n];
        IdsOfLast(all);
        assert IdsOf(all) == IdsOf(kept) + {peers[n].id};
        LastIsNew(peers);
        forall i | 0 <= i < |kept|
          ensures kept[i].id != peers[n].id
        {
          assert kept[i].id in IdsOf(kept);
        }
        assert Filter(peers, keep) == all;
        assert IdsOf(peers) * keep == IdsOf(peers[..n]) * keep + {peers[n].id};
      } else {
        assert Filter(peers, keep) == kept;
        assert IdsOf(peers) * keep == IdsOf(peers[..n]) * keep;
      }
    }
  }

  /** `some` is `all` with entries left out. */
  ghost predicate IsSubsequence(some: seq<Peer>, all: seq<Peer>)
    decreases |all|
  {
    || some == []
    || (all != [] && var before := all[..|all| - 1];
        || IsSubsequence(some, before)
        || (some[|some| - 1] == all[|all| - 1] && IsSubsequence(some[..|some| - 1], before)))
  }

  lemma {:induction false} FilterKeepsOrder(peers: seq<Peer>, keep: set<Id>)
    ensures IsSubsequence(Filter(peers, keep), peers)
    decreases |peers|
  {
    if peers != [] {
      var n := |peers| - 1;
      FilterKeepsOrder(peers[..n], keep);
      var kept, all := Filter(peers[..n], keep), Filter(peers, keep);
      if peers[n].id in keep {
        assert all[..|all| - 1] == kept && all[|all| - 1] == peers[n];
      } else {
        assert all == kept;
      }
    }
  }

  lemma IdsOfLast(peers: seq<Peer>)
    requires peers != []
    ensures IdsOf(peers) == IdsOf(peers[..|peers| - 1]) + {peers[|peers| - 1].id}
  {
  }

  lemma LastIsNew(peers: seq<Peer>)
    requires peers != [] && DistinctIds(peers)
    ensures peers[|peers| - 1].id !in IdsOf(peers[..|peers| - 1])
  {
  }

  lemma SweepKeepsConsistent(s: State)
    requires Consistent(s)
    ensures Consistent(Sweep(s))
  {
    FilterIsASubsequence(s.peers, Alive(s));
  }

  // ---- What a sweep keeps ----

  // The peers in the order in which they first appeared: the known ones, then the newcomers
  function Arrivals(known: seq<Peer>, msgs: seq<Message>): seq<Peer> {
    if msgs == [] then known
    else
      var before := Arrivals(known, msgs[..|msgs| - 1]);
      var last := msgs[|msgs| - 1];
      if last.Other? || Knows(before, last.peer.id) then before else before + [last.peer]
  }

  // Whoever notified, or said hello without being known
  function Active(known: seq<Peer>, msgs: seq<Message>): set<Id> {
    if msgs == [] then {}
    else
      var last := msgs[|msgs| - 1];
      var before := msgs[..|msgs| - 1];
      Active(known, before) +
      if last.Notify? || (last.Hello? && !Knows(Arrivals(known, before), last.peer.id)) then {last.peer.id} else {}
  }

  ghost predicate AllSilent(s: State) {
    forall id :: id in s.flags ==> s.flags[id] == 0
  }

  lemma {:induction false} FlagsRecordActivity(s: State, msgs: seq<Message>)
    requires Consistent(s) && AllSilent(s)
    ensures Consistent(HandleAll(s, msgs))
    ensures HandleAll(s, msgs).peers == Arrivals(s.peers, msgs)
    ensures Alive(HandleAll(s, msgs)) == Active(s.peers, msgs)
    decreases |msgs|
  {
    if msgs != [] {
      FlagsRecordActivity(s, msgs[..|msgs| - 1]);
      HandleKeepsConsistent(HandleAll(s, msgs[..|msgs| - 1]), msgs[|msgs| - 1]);
    }
  }

  /**
   After a sweep, and any messages since, the next sweep leaves exactly the peers that registered
   or notified in between, in the order in which they had arrived.
   */
  lemma SweepKeepsTheActive(s: State, msgs: seq<Message>)
    requires Consistent(s) && AllSilent(s)
    ensures var s' := Sweep(HandleAll(s, msgs));
            && Consistent(s') && AllSilent(s')
            && s'.peers == Filter(Arrivals(s.peers, msgs), Active(s.peers, msgs))
            && IdsOf(s'.peers) == Active(s.peers, msgs) && IsSubsequence(s'.peers, Arrivals(s.peers, msgs))
  {
    FlagsRecordActivity(s, msgs);
    var before := HandleAll(s, msgs);
    SweepKeepsConsistent(before);
    FilterIsASubsequence(before.peers, Alive(before));
    FilterKeepsOrder(before.peers, Alive(before));
    assert Active(s.peers, msgs) <= IdsOf(before.peers);
  }

  /** Any run: sweeps at the end of each of a list of message batches, from an empty beacon. */
  function AfterBatches(batches: seq<seq<Message>>): State {
    if batches == [] then EMPTY
    else Sweep(HandleAll(AfterBatches(batches[..|batches| - 1]), batches[|batches| - 1]))
  }

  /** In every run the bookkeeping is consistent, and the list is who was active in the last batch. */
  lemma {:induction false} EveryRunIsConsistent(batches: seq<seq<Message>>)
    ensures Consistent(AfterBatches(batches)) && AllSilent(AfterBatches(batches))
    ensures batches != [] ==>
              var before := AfterBatches(batches[..|batches| - 1]).peers;
              var last := batches[|batches| - 1];
              AfterBatches(batches).peers == Filter(Arrivals(before, last), Active(before, last))
    decreases |batches|
  {
    if batches != [] {
      EveryRunIsConsistent(batches[..|batches| - 1]);
      SweepKeepsTheActive(AfterBatches(batches[..|batches| - 1]), batches[|batches| - 1]);
    }
  }

  // ---- The beacon object ----

  class BeaconNode {
    var peers: seq<Peer>
    var peersStillAliveFlags: map<Id, int>
    var currentRound: int

    ghost function Bookkeeping(): State
      reads this
    {
      State(peers, peersStillAliveFlags)
    }

    ghost predicate Valid()
      reads this
    {
      Consistent(Bookkeeping())
    }

    constructor ()
      ensures Valid() && Bookkeeping() == EMPTY && currentRound == 0
    {
      peers, peersStillAliveFlags, currentRound := [], map[], 0;
    }

    /** What `listen` does with a message, replies aside. */
    method HandleMessage(msg: Message)
      requires Valid()
      modifies `peers, `peersStillAliveFlags
      ensures Valid() && Bookkeeping() == Handle(old(Bookkeeping()), msg)
    {
      HandleKeepsConsistent(Bookkeeping(), msg);
      if msg.Hello? {
        if !Knows(peers, msg.peer.id) {
          peers := peers + [msg.peer];
          peersStillAliveFlags := peersStillAliveFlags[msg.peer.id := 1];
        }
      }
      if msg.Notify? {
        peersStillAliveFlags := peersStillAliveFlags[msg.peer.id := 1];
        if !Knows(peers, msg.peer.id) {
          peers := peers + [msg.peer];
        }
      }
    }

    /** The loop never misses a flag, and deletes or clears each one exactly once. */
    method ManagePeerForgetting()
      requires Valid()
      modifies `peers, `peersStillAliveFlags
      ensures Valid() && Bookkeeping() == Sweep(old(Bookkeeping()))
    {
      hide Swept, IdsOf, Filter, Alive, Consistent, DistinctIds;
      ghost var before := Bookkeeping();
      SweepKeepsConsistent(before);
      AllSwept(before);
      EveryPeerHasAFlag(before);
      var newPeerlist := [];
      NothingSweptYet(before);
      var i := 0;
      while i < |peers|
        invariant 0 <= i <= |peers| && peers == before.peers
        invariant newPeerlist == Filter(peers[..i], Alive(before))
        invariant peersStillAliveFlags == Swept(before.flags, IdsOf(peers[..i]))
      {
        var peer := peers[i];
        NextToSweep(peers, i);
        SweptOneMore(before.flags, IdsOf(peers[..i]), peer.id);
        FilterOneMore(before, i);
        if peersStillAliveFlags[peer.id] == 0 {
          peersStillAliveFlags := peersStillAliveFlags - {peer.id};
        } else {
          peersStillAliveFlags := peersStillAliveFlags[peer.id := 0];
          newPeerlist := newPeerlist + [peer];
        }
        i := i + 1;
      }
      assert peers[..i] == peers;
      peers := newPeerlist;
    }

    /** A new round sweeps when its number is a multiple of three. */
    method UpdateRound(round: int)
      requires Valid()
      modifies this
      ensures Valid() && currentRound == round
      ensures Bookkeeping() == if old(currentRound) != round && round % 3 == 0 then Sweep(old(Bookkeeping()))
                               else old(Bookkeeping())
    {
      if currentRound == round {
        return;
      }
      currentRound := round;
      if currentRound % 3 == 0 {
        ManagePeerForgetting();
      }
    }
  }

  // The flags when the peers in `done` have been looked at
  ghost function Swept(flags: map<Id, int>, done: set<Id>): map<Id, int> {
    map id | id in flags && (id !in done || flags[id] != 0) :: if id in done then 0 else flags[id]
  }

  lemma SweptOneMore(flags: map<Id, int>, done: set<Id>, id: Id)
    requires id in flags && id !in done
    ensures id in Swept(flags, done) && Swept(flags, done)[id] == flags[id]
    ensures Swept(flags, done + {id}) ==
              if flags[id] == 0 then Swept(flags, done) - {id} else Swept(flags, done)[id := 0]
  {
  }

  lemma EveryPeerHasAFlag(s: State)
    requires Consistent(s)
    ensures DistinctIds(s.peers) && forall j :: 0 <= j < |s.peers| ==> s.peers[j].id in s.flags
  {
    assert forall j :: 0 <= j < |s.peers| ==> s.peers[j].id in IdsOf(s.peers);
  }

  lemma NothingSweptYet(s: State)
    ensures Filter(s.peers[..0], Alive(s)) == [] && Swept(s.flags, IdsOf(s.peers[..0])) == s.flags
  {
  }

  lemma NextToSweep(peers: seq<Peer>, i: nat)
    requires DistinctIds(peers) && i < |peers|
    ensures peers[i].id in IdsOf(peers) && peers[i].id !in IdsOf(peers[..i])
    ensures IdsOf(peers[..i + 1]) == IdsOf(peers[..i]) + {peers[i].id}
  {
  }

  lemma FilterOneMore(s: State, i: nat)
    requires i < |s.peers| && s.peers[i].id in s.flags
    ensures Filter(s.peers[..i + 1], Alive(s)) ==
              if s.flags[s.peers[i].id] == 0 then Filter(s.peers[..i], Alive(s))
              else Filter(s.peers[..i], Alive(s)) + [s.peers[i]]
  {
    assert s.peers[..i + 1][..i] == s.peers[..i];
  }

  lemma AllSwept(s: State)
    requires Consistent(s)
    ensures Swept(s.flags, IdsOf(s.peers)) == Sweep(s).flags
  {
  }
}
