/** Fan-out of one threat event to the registry of connected clients
    (`connected_clients`). The fan-out iterates a copy of the registry; for
    each client the simulated network either loses the event (the client is
    skipped and stays registered), delivers it, or the send fails and the
    client is removed from the registry. The random loss and the send's
    success are inputs here: one `Outcome` per client of the copy. */
module Broadcast {
  import opened Seqs

  /** What happened when the event was sent to one client. */
  datatype Outcome = Lost | Delivered | SendFailed

  /** Outcomes after which a client stays registered. */
  const Kept: set<Outcome> := {Lost, Delivered}

  /** The clients whose outcome lies in `keep`, in registry order. */
  function Select<C>(clients: seq<C>, outs: seq<Outcome>, keep: set<Outcome>): (r: seq<C>)
    requires |outs| == |clients|
    ensures |r| <= |clients|
  {
    if clients == [] then []
    else
      var n := |clients| - 1;
      Select(clients[..n], outs[..n], keep) + (if outs[n] in keep then [clients[n]] else [])
  }

  /** The number of outcomes that lie in `keep`. */
  function CountIn(outs: seq<Outcome>, keep: set<Outcome>): (k: nat)
    ensures k <= |outs|
  {
    if outs == [] then 0
    else CountIn(outs[..|outs| - 1], keep) + (if outs[|outs| - 1] in keep then 1 else 0)
  }

  /** The selected clients are exactly those whose outcome lies in `keep`. */
  lemma {:induction false} SelectMembers<C>(clients: seq<C>, outs: seq<Outcome>, keep: set<Outcome>, c: C)
    requires |outs| == |clients|
    ensures c in Select(clients, outs, keep) <==>
            exists i :: 0 <= i < |clients| && clients[i] == c && outs[i] in keep
  {
    if clients != [] {
      var n := |clients| - 1;
      var pre, prefixOuts := clients[..n], outs[..n];
      SelectMembers(pre, prefixOuts, keep, c);
      if exists i :: 0 <= i < |clients| && clients[i] == c && outs[i] in keep {
        var i :| 0 <= i < |clients| && clients[i] == c && outs[i] in keep;
        if i < n {
          assert pre[i] == c && prefixOuts[i] in keep;
        }
      }
      if exists i :: 0 <= i < n && pre[i] == c && prefixOuts[i] in keep {
        var i :| 0 <= i < n && pre[i] == c && prefixOuts[i] in keep;
        assert clients[i] == c && outs[i] in keep;
      }
    }
  }

  /** One client is selected per outcome in `keep`. */
  lemma {:induction false} SelectLength<C>(clients: seq<C>, outs: seq<Outcome>, keep: set<Outcome>)
    requires |outs| == |clients|
    ensures |Select(clients, outs, keep)| == CountIn(outs, keep)
  {
    if clients != [] {
      var n := |clients| - 1;
      SelectLength(clients[..n], outs[..n], keep);
    }
  }

  /** The registry positions whose outcome lies in `keep`, ascending. */
  function Positions(outs: seq<Outcome>, keep: set<Outcome>): (p: seq<nat>)
    ensures forall j :: 0 <= j < |p| ==> p[j] < |outs| && outs[p[j]] in keep
    ensures forall j, k :: 0 <= j < k < |p| ==> p[j] < p[k]
    ensures forall i :: 0 <= i < |outs| && outs[i] in keep ==> i in p
  {
    if outs == [] then []
    else
      var n := |outs| - 1;
      Positions(outs[..n], keep) + (if outs[n] in keep then [n] else [])
  }

  /** Selection keeps the registry order: the `j`-th selected client is the
      client at the `j`-th position whose outcome lies in `keep`, and those
      positions ascend. */
  lemma {:induction false} SelectKeepsOrder<C>(clients: seq<C>, outs: seq<Outcome>, keep: set<Outcome>)
    requires |outs| == |clients|
    ensures |Select(clients, outs, keep)| == |Positions(outs, keep)|
    ensures forall j :: 0 <= j < |Positions(outs, keep)| ==>
              Select(clients, outs, keep)[j] == clients[Positions(outs, keep)[j]]
  {
    if clients != [] {
      var n := |clients| - 1;
      SelectKeepsOrder(clients[..n], outs[..n], keep);
    }
  }

  /** `list.remove`: delete the first occurrence of `c`. */
  function RemoveFirst<C(==)>(s: seq<C>, c: C): (r: seq<C>)
    requires c in s
    ensures |r| == |s| - 1
  {
    if s[0] == c then s[1..] else [s[0]] + RemoveFirst(s[1..], c)
  }

  /** Removing a client that occurs after `prefix` and not in it deletes that
      occurrence and nothing else. */
  lemma {:induction false} RemoveFirstAt<C>(prefix: seq<C>, c: C, suffix: seq<C>)
    requires c !in prefix
    ensures RemoveFirst(prefix + [c] + suffix, c) == prefix + suffix
  {
    if prefix != [] {
      var s := prefix + [c] + suffix;
      assert s[0] == prefix[0] != c;
      assert s[1..] == prefix[1..] + [c] + suffix;
      RemoveFirstAt(prefix[1..], c, suffix);
      assert prefix == [prefix[0]] + prefix[1..];
    }
  }

  /** Removing a present client from a registry without duplicates leaves
      no duplicates and drops exactly that client. */
  lemma RemoveFirstDistinct<C>(s: seq<C>, c: C)
    requires Distinct(s) && c in s
    ensures Distinct(RemoveFirst(s, c))
    ensures forall x :: x in RemoveFirst(s, c) ==> x in s && x != c
    ensures forall x :: x in s && x != c ==> x in RemoveFirst(s, c)
  {
    var i :| 0 <= i < |s| && s[i] == c;
    var pre, suf := s[..i], s[i + 1..];
    assert forall k :: 0 <= k < |pre| ==> pre[k] == s[k];
    assert s == pre + [c] + suf;
    RemoveFirstAt(pre, c, suf);
    DistinctWithout(s, i);
  }

  /** Every outcome is either kept or a failed send. */
  lemma {:induction false} CountPartition(outs: seq<Outcome>)
    ensures CountIn(outs, Kept) + CountIn(outs, {SendFailed}) == |outs|
  {
    if outs != [] {
      CountPartition(outs[..|outs| - 1]);
      var o := outs[|outs| - 1];
      assert o in Kept <==> o !in {SendFailed} by {
        match o { case Lost => case Delivered => case SendFailed => }
      }
    }
  }

  /** For a registry without duplicates, a fan-out removes exactly the
      clients whose send failed, one registry entry per failure, keeps the
      lost and delivered ones, and the event reaches exactly the delivered
      ones. */
  lemma FanOutEffect<C>(clients: seq<C>, outs: seq<Outcome>)
    requires Distinct(clients) && |outs| == |clients|
    ensures forall i :: 0 <= i < |clients| ==>
              (clients[i] in Select(clients, outs, Kept) <==> outs[i] != SendFailed)
    ensures forall i :: 0 <= i < |clients| ==>
              (clients[i] in Select(clients, outs, {Delivered}) <==> outs[i] == Delivered)
    ensures |Select(clients, outs, Kept)| == |clients| - CountIn(outs, {SendFailed})
  {
    forall i | 0 <= i < |clients|
      ensures clients[i] in Select(clients, outs, Kept) <==> outs[i] != SendFailed
      ensures clients[i] in Select(clients, outs, {Delivered}) <==> outs[i] == Delivered
    {
      SelectMembers(clients, outs, Kept, clients[i]);
      SelectMembers(clients, outs, {Delivered}, clients[i]);
    }
    SelectLength(clients, outs, Kept);
    CountPartition(outs);
  }

  /** Extending the handled prefix of the registry copy by one client. */
  lemma SelectStep<C>(clients: seq<C>, outs: seq<Outcome>, keep: set<Outcome>, i: nat)
    requires |outs| == |clients| && i < |clients|
    ensures Select(clients[..i + 1], outs[..i + 1], keep)
            == Select(clients[..i], outs[..i], keep) + (if outs[i] in keep then [clients[i]] else [])
  {
    assert clients[..i + 1][..i] == clients[..i] && outs[..i + 1][..i] == outs[..i];
  }

  /** The registry while the fan-out is at position `i` of its copy: the
      surviving clients of the handled prefix, then the unhandled clients. */
  ghost function Pending<C>(snapshot: seq<C>, outs: seq<Outcome>, i: nat): seq<C>
    requires |outs| == |snapshot| && i <= |snapshot|
  {
    Select(snapshot[..i], outs[..i], Kept) + snapshot[i..]
  }

  /** The clients the event has reached once the fan-out is at position `i`. */
  ghost function Reached<C>(snapshot: seq<C>, outs: seq<Outcome>, i: nat): seq<C>
    requires |outs| == |snapshot| && i <= |snapshot|
  {
    Select(snapshot[..i], outs[..i], {Delivered})
  }

  /** Before the first client the registry is the copy and nobody is
      reached; after the last one they are the two selections. */
  lemma FanOutEnds<C>(snapshot: seq<C>, outs: seq<Outcome>)
    requires |outs| == |snapshot|
    ensures Pending(snapshot, outs, 0) == snapshot && Reached(snapshot, outs, 0) == []
    ensures Pending(snapshot, outs, |snapshot|) == Select(snapshot, outs, Kept)
    ensures Reached(snapshot, outs, |snapshot|) == Select(snapshot, outs, {Delivered})
  {
    assert snapshot[..|snapshot|] == snapshot && outs[..|snapshot|] == outs;
  }

  /** Handling the `i`-th client of the copy reaches it iff it was delivered. */
  lemma ReachedStep<C>(snapshot: seq<C>, outs: seq<Outcome>, i: nat)
    requires |outs| == |snapshot| && i < |snapshot|
    ensures Reached(snapshot, outs, i + 1)
            == Reached(snapshot, outs, i) + (if outs[i] == Delivered then [snapshot[i]] else [])
  {
    SelectStep(snapshot, outs, {Delivered}, i);
  }

  /** Handling the `i`-th client of the copy when it stays registered: the
      registry is unchanged. */
  lemma KeptStep<C>(snapshot: seq<C>, outs: seq<Outcome>, i: nat)
    requires |outs| == |snapshot| && i < |snapshot| && outs[i] in Kept
    ensures Pending(snapshot, outs, i + 1) == Pending(snapshot, outs, i)
  {
    SelectStep(snapshot, outs, Kept, i);
    assert snapshot[i..] == [snapshot[i]] + snapshot[i + 1..];
  }

  /** Handling the `i`-th client of the copy when its send fails: that client
      is still registered, after the survivors of the handled prefix, and
      removing it leaves the survivors followed by the unhandled clients. */
  lemma FailedStep<C>(snapshot: seq<C>, outs: seq<Outcome>, i: nat)
    requires Distinct(snapshot) && |outs| == |snapshot| && i < |snapshot| && outs[i] == SendFailed
    ensures snapshot[i] in Pending(snapshot, outs, i)
    ensures RemoveFirst(Pending(snapshot, outs, i), snapshot[i]) == Pending(snapshot, outs, i + 1)
  {
    var done := Select(snapshot[..i], outs[..i], Kept);
    SelectStep(snapshot, outs, Kept, i);
    SelectMembers(snapshot[..i], outs[..i], Kept, snapshot[i]);
    assert snapshot[i..] == [snapshot[i]] + snapshot[i + 1..];
    assert done + snapshot[i..] == done + [snapshot[i]] + snapshot[i + 1..];
    RemoveFirstAt(done, snapshot[i], snapshot[i + 1..]);
  }

  /** Three registered clients, one event, no loss, one failing send: two
      clients stay registered and two received the event. */
  lemma ThreeClientsOneFailure<C>(a: C, b: C, c: C)
    ensures Select([a, b, c], [Delivered, SendFailed, Delivered], Kept) == [a, c]
    ensures Select([a, b, c], [Delivered, SendFailed, Delivered], {Delivered}) == [a, c]
  {
    var o := [Delivered, SendFailed, Delivered];
    assert [a, b, c][..2] == [a, b] && [a, b][..1] == [a] && [a][..0] == [];
    assert o[..2] == [Delivered, SendFailed] && o[..2][..1] == [Delivered] && o[..2][..1][..0] == [];
    assert Select([a], [Delivered], Kept) == [a];
    assert Select([a, b], o[..2], Kept) == [a];
    assert Select([a], [Delivered], {Delivered}) == [a];
    assert Select([a, b], o[..2], {Delivered}) == [a];
  }

  /** The registry of connected clients. */
  class Registry<C(==)> {
    var clients: seq<C>

    /** Each client session is registered at most once. */
    ghost predicate Valid()
      reads this
    {
      Distinct(clients)
    }

    constructor ()
      ensures Valid() && clients == []
    {
      clients := [];
    }

    /** A new client connects and is appended to the registry. */
    method Register(c: C)
      requires Valid() && c !in clients
      modifies this
      ensures Valid()
      ensures clients == old(clients) + [c]
    {
      clients := clients + [c];
    }

    /** Remove a registered client (a disconnect, or a failed send). */
    method Remove(c: C)
      requires Valid() && c in clients
      modifies this
      ensures Valid()
      ensures clients == RemoveFirst(old(clients), c)
      ensures c !in clients
    {
      RemoveFirstDistinct(clients, c);
      clients := RemoveFirst(clients, c);
    }

    /** Send the event to the `i`-th client of the copy: nothing on a lost
        event, a delivery on success, and removal from the registry when the
        send fails. */
    method SendToClient(snapshot: seq<C>, outcomes: seq<Outcome>, i: nat, ghost received: seq<C>)
      returns (ghost reached: seq<C>)
      requires Valid() && Distinct(snapshot) && |outcomes| == |snapshot| && i < |snapshot|
      requires clients == Pending(snapshot, outcomes, i) && received == Reached(snapshot, outcomes, i)
      modifies this
      ensures Valid()
      ensures clients == Pending(snapshot, outcomes, i + 1)
      ensures reached == Reached(snapshot, outcomes, i + 1)
    {
      var client := snapshot[i];
      ReachedStep(snapshot, outcomes, i);
      reached := received;
      if outcomes[i] == SendFailed {
        FailedStep(snapshot, outcomes, i);
        Remove(client);
      } else {
        KeptStep(snapshot, outcomes, i);
        if outcomes[i] == Delivered {
          reached := received + [client];
        }
      }
    }

    /** Send one event to every client of a copy of the registry;
        `outcomes[i]` is what happens for the `i`-th client of the copy.
        The ghost result records the clients that received the event. */
    method BroadcastThreat(outcomes: seq<Outcome>) returns (ghost received: seq<C>)
      requires Valid() && |outcomes| == |clients|
      modifies this
      ensures Valid()
      ensures clients == Select(old(clients), outcomes, Kept)
      ensures received == Select(old(clients), outcomes, {Delivered})
    {
      var snapshot := clients;
      FanOutEnds(snapshot, outcomes);
      received := [];
      var i := 0;
      while i < |snapshot|
        invariant 0 <= i <= |snapshot|
        invariant Valid() && Distinct(snapshot)
        invariant clients == Pending(snapshot, outcomes, i)
        invariant received == Reached(snapshot, outcomes, i)
      {
        received := SendToClient(snapshot, outcomes, i, received);
        i := i + 1;
      }
    }
  }
}
