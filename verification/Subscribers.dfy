/** The list of websocket subscribers and its removal by swapping in the last entry. */
module Subscribers {
  // ---- removal on sequences ----

  /** dropSubscriber: the last entry takes the place of entry i. */
  function SwapRemove<T>(s: seq<T>, i: nat): (r: seq<T>)
    requires i < |s|
    ensures |r| == |s| - 1
  {
    s[i := s[|s| - 1]][..|s| - 1]
  }

  /** Indices in strictly ascending order and in range. */
  predicate DropList(drops: seq<nat>, n: nat) {
    && (forall i, j :: 0 <= i < j < |drops| ==> drops[i] < drops[j])
    && (forall i :: 0 <= i < |drops| ==> drops[i] < n)
  }

  lemma DropPrefix(drops: seq<nat>, n: nat)
    requires DropList(drops, n) && drops != []
    ensures drops[|drops| - 1] < n && DropList(drops[..|drops| - 1], n - 1)
  {
    var m := |drops| - 1;
    assert forall i :: 0 <= i < m ==> drops[..m][i] == drops[i] < drops[m];
  }

  /** dropSubscribers: the listed indices from the last to the first. */
  function RemoveAll<T>(s: seq<T>, drops: seq<nat>): seq<T>
    requires DropList(drops, |s|)
    decreases |drops|
  {
    if drops == [] then s
    else
      DropPrefix(drops, |s|);
      RemoveAll(SwapRemove(s, drops[|drops| - 1]), drops[..|drops| - 1])
  }

  lemma RemoveAllStep<T>(s: seq<T>, drops: seq<nat>)
    requires DropList(drops, |s|) && drops != []
    ensures var n := |drops| - 1;
      && drops[n] < |s| && DropList(drops[..n], |s| - 1)
      && RemoveAll(s, drops) == RemoveAll(SwapRemove(s, drops[n]), drops[..n])
      && (forall k :: 0 <= k < n ==> drops[k] < |s| - 1 && SwapRemove(s, drops[n])[drops[k]] == s[drops[k]])
  {
    DropPrefix(drops, |s|);
  }

  lemma DropsInRange(drops: seq<nat>, n: nat)
    requires DropList(drops, n)
    ensures forall k :: 0 <= k < |drops| ==> drops[k] < n
  {}

  lemma NothingLeft<T>(s: seq<T>, drops: seq<nat>)
    requires drops == []
    ensures RemoveAll(s, drops) == s
  {}

  /** The entries at the listed indices. */
  function Listed<T>(s: seq<T>, drops: seq<nat>): (r: seq<T>)
    requires DropList(drops, |s|)
    ensures |r| == |drops| && forall k :: 0 <= k < |drops| ==> r[k] == s[drops[k]]
  {
    seq(|drops|, k requires 0 <= k < |drops| => s[drops[k]])
  }

  lemma SwapRemoveEntries<T>(s: seq<T>, i: nat)
    requires i < |s|
    ensures multiset(SwapRemove(s, i)) + multiset{s[i]} == multiset(s)
  {
    var n := |s| - 1;
    var u, r := s[i := s[n]], SwapRemove(s, i);
    assert u == r + [s[n]];
    assert multiset(u) == multiset(r) + multiset{s[n]};
    assert s[i] in multiset(s);
    assert multiset(u) == multiset(s) - multiset{s[i]} + multiset{s[n]};
    var m, x, y := multiset(s), multiset{s[i]}, multiset{s[n]};
    assert multiset(r) + y == m - x + y;
    forall z ensures (multiset(r) + x)[z] == m[z] {
      assert (multiset(r) + y)[z] == (m - x + y)[z];
    }
  }

  /** Removing backwards takes out exactly the entries listed, as they stood before the first removal. */
  lemma {:induction false} RemoveAllEntries<T>(s: seq<T>, drops: seq<nat>)
    requires DropList(drops, |s|)
    ensures multiset(RemoveAll(s, drops)) + multiset(Listed(s, drops)) == multiset(s)
    decreases |drops|
  {
    if drops == [] {
      assert Listed(s, drops) == [];
    } else {
      var n := |drops| - 1;
      var i := drops[n];
      var t := SwapRemove(s, i);
      DropPrefix(drops, |s|);
      RemoveAllEntries(t, drops[..n]);
      SwapRemoveEntries(s, i);
      assert Listed(t, drops[..n]) == Listed(s, drops)[..n];
      assert Listed(s, drops) == Listed(s, drops)[..n] + [s[i]];
    }
  }

  predicate Distinct<T(==)>(s: seq<T>) { forall i, j :: 0 <= i < j < |s| ==> s[i] != s[j] }

  /** Of distinct entries exactly the unlisted ones remain, still distinct. */
  lemma {:induction false} RemoveAllDistinct<T>(s: seq<T>, drops: seq<nat>)
    requires DropList(drops, |s|) && Distinct(s)
    ensures Distinct(RemoveAll(s, drops))
    ensures forall x :: x in RemoveAll(s, drops) <==> x in s && x !in Listed(s, drops)
    decreases |drops|
  {
    if drops != [] {
      var n := |drops| - 1;
      var i := drops[n];
      var t := SwapRemove(s, i);
      DropPrefix(drops, |s|);
      SwapRemoveDistinct(s, i);
      RemoveAllDistinct(t, drops[..n]);
      assert Listed(t, drops[..n]) == Listed(s, drops)[..n];
      assert Listed(s, drops) == Listed(s, drops)[..n] + [s[i]];
    }
  }

  lemma SwapRemoveDistinct<T>(s: seq<T>, i: nat)
    requires i < |s| && Distinct(s)
    ensures Distinct(SwapRemove(s, i))
    ensures forall x :: x in SwapRemove(s, i) <==> x in s && x != s[i]
  {
    var n, t := |s| - 1, SwapRemove(s, i);
    forall x ensures x in t <==> x in s && x != s[i] {
      if x in s && x != s[i] {
        var k :| 0 <= k < |s| && s[k] == x;
        assert t[if k == n then i else k] == x;
      }
    }
  }

  lemma CountOne<T>(s: seq<T>, i: nat)
    requires i < |s| && forall j :: 0 <= j < |s| && j != i ==> s[j] != s[i]
    ensures multiset(s)[s[i]] == 1
  {
    var x := s[i];
    assert s == s[..i] + [x] + s[i + 1..];
    assert x !in s[..i] && x !in s[i + 1..];
  }

  /** The members behind the counts. */
  lemma SameMembers<T>(s: seq<T>, was: seq<T>, gone: set<T>)
    requires forall x :: multiset(s)[x] == if x in gone then 0 else multiset(was)[x]
    ensures forall x :: x in s <==> x in was && x !in gone
  {
    forall x ensures x in s <==> x in was && x !in gone {
      assert x in s <==> multiset(s)[x] > 0;
      assert x in was <==> multiset(was)[x] > 0;
    }
  }

  /** What remains when the removed entries are those of some members. */
  lemma Remaining<T>(s: seq<T>, drops: seq<nat>, gone: set<T>)
    requires DropList(drops, |s|)
    requires forall x :: multiset(Listed(s, drops))[x] == if x in gone then multiset(s)[x] else 0
    ensures var t := RemoveAll(s, drops);
      && (forall x :: multiset(t)[x] == if x in gone then 0 else multiset(s)[x])
      && (forall x :: x in t <==> x in s && x !in gone)
      && (forall x :: x in Listed(s, drops) <==> x in s && x in gone)
  {
    hide RemoveAll, Listed, DropList;
    var t, listed := RemoveAll(s, drops), Listed(s, drops);
    RemoveAllEntries(s, drops);
    forall x ensures multiset(t)[x] == if x in gone then 0 else multiset(s)[x] {
      assert (multiset(t) + multiset(listed))[x] == multiset(s)[x];
    }
    SameMembers(t, s, gone);
    forall x ensures x in listed <==> x in s && x in gone {
      assert x in listed <==> multiset(listed)[x] > 0;
      assert x in s <==> multiset(s)[x] > 0;
    }
  }

  // ---- connections ----

  /** A connection: `open` until it is closed and its socket taken away. */
  class Conn {
    var open: bool
  }

  class Hub {
    var ws: seq<Conn?>

    constructor ()
      ensures ws == [] && Healthy()
    {
      ws := [];
    }

    /** Every slot holds an open connection, each another one. */
    ghost predicate Healthy()
      reads this, ws
    {
      && (forall i :: 0 <= i < |ws| ==> ws[i] != null && ws[i].open)
      && (forall i, j :: 0 <= i < j < |ws| ==> ws[i] != ws[j])
    }

    method RegisterWebsocket(c: Conn)
      modifies this
      ensures ws == old(ws) + [c]
      ensures old(Healthy()) && c.open && c !in old(ws) ==> Healthy()
    {
      ws := ws + [c];
    }

    /** The slot fails: it holds no connection, a closed one, or one whose write reports an error. */
    ghost predicate Fails(failing: set<Conn>, i: nat)
      requires i < |ws|
      reads this, ws
    {
      ws[i] == null || !ws[i].open || ws[i] in failing
    }

    /** The loop over the subscribers; `failing` are those whose write reports an error. */
    method Broadcast(failing: set<Conn>) returns (drops: seq<nat>)
      ensures DropList(drops, |ws|)
      ensures forall i :: 0 <= i < |ws| ==> (i in drops <==> Fails(failing, i))
    {
      drops := [];
      var i := 0;
      while i < |ws|
        invariant 0 <= i <= |ws|
        invariant DropList(drops, i)
        invariant forall k :: 0 <= k < |ws| ==> (k in drops <==> k < i && Fails(failing, k))
      {
        var c := ws[i];
        if c == null || !c.open || c in failing {
          drops := drops + [i];
        }
        i := i + 1;
      }
    }

    /** A nil slot and a connection without a socket make Close panic. */
    method DropSubscriber(i: nat) returns (panics: bool)
      requires i < |ws|
      modifies this, ws[i]
      ensures panics <==> old(ws[i] == null || !ws[i].open)
      ensures panics ==> ws == old(ws) && (ws[i] != null ==> !ws[i].open)
      ensures !panics ==> ws == SwapRemove(old(ws), i) && !old(ws[i]).open
    {
      if ws[i] == null || !ws[i].open { return true; }
      panics := false;
      ws[i].open := false;
      var n := |ws| - 1;
      ws := ws[i := ws[n]];
      ws := ws[n := null];
      ws := ws[..n];
      assert ws == SwapRemove(old(ws), i);
    }

    /** What makes the removal panic: a dropped slot that is nil or closed, or one connection dropped twice. */
    ghost predicate Panicking(drops: seq<nat>)
      requires DropList(drops, |ws|)
      reads this, ws
    {
      || (exists k :: 0 <= k < |drops| && (ws[drops[k]] == null || !ws[drops[k]].open))
      || (exists k, l :: 0 <= k < l < |drops| && ws[drops[k]] == ws[drops[l]])
    }

    /** The removal stands at entry n of the drop list: later ones are out and closed, all else is as it was. */
    ghost predicate Dropping(was: seq<Conn?>, live: set<Conn>, drops: seq<nat>, n: nat)
      requires DropList(drops, |was|) && n <= |drops|
      reads this, was
    {
      var listed := Listed(was, drops);
      && DropList(drops[..n], |ws|)
      && RemoveAll(ws, drops[..n]) == RemoveAll(was, drops)
      && (forall k :: 0 <= k < n ==> drops[k] < |ws| && ws[drops[k]] == listed[k])
      && (forall k :: n <= k < |drops| ==> listed[k] != null && listed[k] in live)
      && (forall k, l :: n <= k < l < |drops| ==> listed[k] != listed[l])
      && (forall c: Conn :: c in was ==> (c.open <==> c in live && c !in listed[n..]))
    }

    /** The drop list holds a nil slot, one that is not live, or one connection twice. */
    ghost predicate Broken(was: seq<Conn?>, live: set<Conn>, drops: seq<nat>)
      requires DropList(drops, |was|)
    {
      || (exists k :: 0 <= k < |drops| && (was[drops[k]] == null || was[drops[k]] !in live))
      || (exists k, l :: 0 <= k < l < |drops| && was[drops[k]] == was[drops[l]])
    }

    /** One turn of the backwards loop. */
    method DropNext(ghost was: seq<Conn?>, ghost live: set<Conn>, drops: seq<nat>, n: nat) returns (panics: bool)
      requires DropList(drops, |was|) && n < |drops| && Dropping(was, live, drops, n + 1)
      modifies this, was
      ensures panics ==> Broken(was, live, drops)
      ensures !panics ==> Dropping(was, live, drops, n)
    {
      hide RemoveAll, SwapRemove, DropList;
      ghost var listed := Listed(was, drops);
      ghost var e := listed[n];
      DropsInRange(drops, |was|);
      assert e == ws[drops[n]] && e in was;
      assert listed[n..] == [e] + listed[n + 1..];
      RemoveAllStep(ws, drops[..n + 1]);
      assert drops[..n + 1][..n] == drops[..n];
      panics := DropSubscriber(drops[n]);
      if panics && e != null && e in live {
        var l :| n < l < |drops| && listed[l] == e;
      }
    }

    method DropSubscribers(drops: seq<nat>) returns (panics: bool)
      requires DropList(drops, |ws|)
      modifies this, ws
      ensures panics <==> old(Panicking(drops))
      ensures !panics ==> ws == RemoveAll(old(ws), drops)
      ensures !panics ==> var listed := Listed(old(ws), drops);
        forall c: Conn :: c in old(ws) ==> (c.open <==> old(c.open) && c !in listed)
    {
      panics := false;
      ghost var was := ws;
      ghost var live := set c: Conn | c in ws && c.open;
      assert Broken(was, live, drops) <==> Panicking(drops) by { BrokenList(live, drops); }
      StartDropping(live, drops);
      var n := |drops|;
      while n > 0
        invariant 0 <= n <= |drops| && Dropping(was, live, drops, n)
      {
        hide Dropping, Broken;
        n := n - 1;
        panics := DropNext(was, live, drops, n);
        if panics { return; }
      }
      NothingLeft(ws, drops[..0]);
      assert Listed(was, drops)[0..] == Listed(was, drops);
    }

    lemma StartDropping(live: set<Conn>, drops: seq<nat>)
      requires DropList(drops, |ws|) && live == set c: Conn | c in ws && c.open
      ensures Dropping(ws, live, drops, |drops|)
    {
      assert drops[..|drops|] == drops;
    }

    lemma BrokenList(live: set<Conn>, drops: seq<nat>)
      requires DropList(drops, |ws|) && live == set c: Conn | c in ws && c.open
      ensures Broken(ws, live, drops) <==> Panicking(drops)
    {}

    /** A notification panics over a nil slot, a closed one, or a connection that is listed and fails twice. */
    ghost predicate Breaks(failing: set<Conn>)
      reads this, ws
    {
      || (exists i :: 0 <= i < |ws| && (ws[i] == null || !ws[i].open))
      || (exists i, j :: 0 <= i < j < |ws| && ws[i] == ws[j] && Fails(failing, i))
    }

    /**
     * Whatever the list: unless it panics, everything that fails is closed and dropped, and everything
     * else stays as it is and as often as it was listed.
     */
    method NotifySubscribers(failing: set<Conn>) returns (panics: bool)
      modifies this, ws
      ensures panics <==> old(Breaks(failing))
      ensures !panics ==> forall c: Conn? ::
        multiset(ws)[c] == if c in failing then 0 else multiset(old(ws))[c]
      ensures !panics ==> forall c: Conn? :: c in ws <==> c in old(ws) && c !in failing
      ensures !panics ==> forall c: Conn :: c in old(ws) ==> (c.open <==> c !in failing)
      ensures old(Healthy()) ==> !panics && Healthy()
    {
      hide RemoveAll, Listed, DropList;
      ghost var was := ws;
      var drops := Broadcast(failing);
      ListedBreaks(failing, drops);
      if !Breaks(failing) { ListedFailing(failing, drops); }
      panics := DropSubscribers(drops);
      if !panics {
        Remaining(was, drops, failing);
        if old(Healthy()) {
          assert Distinct(was);
          RemoveAllDistinct(was, drops);
          forall i | 0 <= i < |ws| ensures ws[i] != null && ws[i].open { assert ws[i] in ws; }
        }
      }
    }

    /** Unless the list is broken the drop list holds what fails, each once. */
    lemma ListedFailing(failing: set<Conn>, drops: seq<nat>)
      requires DropList(drops, |ws|) && !Breaks(failing)
      requires forall i :: 0 <= i < |ws| ==> (i in drops <==> Fails(failing, i))
      ensures forall c: Conn? ::
        multiset(Listed(ws, drops))[c] == if c in failing then multiset(ws)[c] else 0
    {
      hide DropList;
      var listed := Listed(ws, drops);
      DropsInRange(drops, |ws|);
      forall k | 0 <= k < |drops| ensures listed[k] in failing && listed[k] in ws {
        assert drops[k] in drops && Fails(failing, drops[k]);
      }
      forall c: Conn? ensures multiset(listed)[c] == if c in failing then multiset(ws)[c] else 0 {
        if c in failing && c in ws {
          ListedOnce(failing, drops, c);
        } else {
          assert c !in listed;
        }
      }
    }

    lemma ListedOnce(failing: set<Conn>, drops: seq<nat>, c: Conn)
      requires DropList(drops, |ws|) && !Breaks(failing) && c in failing && c in ws
      requires forall i :: 0 <= i < |ws| ==> (i in drops <==> Fails(failing, i))
      ensures multiset(ws)[c] == 1 == multiset(Listed(ws, drops))[c]
    {
      var listed := Listed(ws, drops);
      var i :| 0 <= i < |ws| && ws[i] == c;
      assert Fails(failing, i);
      CountOne(ws, i);
      assert i in drops;
      var k :| 0 <= k < |drops| && drops[k] == i;
      forall l | 0 <= l < |listed| && l != k ensures listed[l] != listed[k] {
        assert drops[l] != drops[k];
      }
      CountOne(listed, k);
    }

    /** The drop list of a broadcast makes the removal panic exactly when the list itself is broken. */
    lemma ListedBreaks(failing: set<Conn>, drops: seq<nat>)
      requires DropList(drops, |ws|)
      requires forall i :: 0 <= i < |ws| ==> (i in drops <==> Fails(failing, i))
      ensures Panicking(drops) <==> Breaks(failing)
    {
      if exists i :: 0 <= i < |ws| && (ws[i] == null || !ws[i].open) {
        var i :| 0 <= i < |ws| && (ws[i] == null || !ws[i].open);
        assert i in drops;
        var k :| 0 <= k < |drops| && drops[k] == i;
        assert ws[drops[k]] == ws[i];
      } else if exists i, j :: 0 <= i < j < |ws| && ws[i] == ws[j] && Fails(failing, i) {
        var i, j :| 0 <= i < j < |ws| && ws[i] == ws[j] && Fails(failing, i);
        assert i in drops && j in drops;
        var k :| 0 <= k < |drops| && drops[k] == i;
        var l :| 0 <= l < |drops| && drops[l] == j;
        assert k < l && ws[drops[k]] == ws[drops[l]];
      }
    }

    /** The list holds exactly the live ones of the connections accepted so far, and those are the open ones. */
    ghost predicate Serving(conns: seq<Conn>, requests: seq<Request>)
      reads this, ws, conns
    {
      && Healthy() && |conns| == Accepted(requests)
      && (forall k, l :: 0 <= k < l < |conns| ==> conns[k] != conns[l])
      && (forall k :: 0 <= k < |conns| ==> (conns[k] in ws <==> Live(requests, k)))
      && (forall k :: 0 <= k < |conns| ==> (conns[k].open <==> Live(requests, k)))
      && (forall i :: 0 <= i < |ws| ==> ws[i] in conns)
    }

    /** A connection is accepted: it is open, and registered once. */
    method Accept(ghost conns: seq<Conn>, ghost before: seq<Request>) returns (c: Conn)
      requires Serving(conns, before)
      modifies this
      ensures fresh(c) && Serving(conns + [c], before + [Connect])
    {
      OneMore(before, Connect);
      c := new Conn;
      c.open := true;
      RegisterWebsocket(c);
    }

    /** A message goes out to all. */
    method Send(conns: seq<Conn>, unreachable: set<nat>, ghost before: seq<Request>) returns (panics: bool)
      requires Serving(conns, before)
      modifies this, conns
      ensures !panics && Serving(conns, before + [Notify(unreachable)])
    {
      OneMore(before, Notify(unreachable));
      ghost var was := ws;
      var failing := set k | k in unreachable && k < |conns| :: conns[k];
      assert forall k :: 0 <= k < |conns| ==> (conns[k] in failing <==> k in unreachable);
      panics := NotifySubscribers(failing);
      forall i | 0 <= i < |ws| ensures ws[i] in conns {
        assert ws[i] in ws && ws[i] in was;
      }
      forall k | 0 <= k < |conns| && conns[k] !in was ensures conns[k].open == old(conns[k].open) {}
    }

    /**
     * The server: a connection is registered once, open, when it is accepted, and nothing but a
     * notification takes its socket away. No notification ever panics, and the list holds exactly
     * the connections that no notification failed to reach.
     */
    method Serve(requests: seq<Request>) returns (conns: seq<Conn>, panics: bool)
      requires ws == []
      modifies this
      ensures !panics && Serving(conns, requests)
    {
      conns, panics := [], false;
      var n := 0;
      while n < |requests|
        invariant 0 <= n <= |requests| && !panics
        invariant Serving(conns, requests[..n])
        invariant forall k :: 0 <= k < |conns| ==> fresh(conns[k])
      {
        hide Serving;
        assert requests[..n + 1] == requests[..n] + [requests[n]];
        match requests[n] {
          case Connect =>
            var c := Accept(conns, requests[..n]);
            conns := conns + [c];
          case Notify(unreachable) =>
            panics := Send(conns, unreachable, requests[..n]);
        }
        n := n + 1;
      }
      assert requests[..n] == requests;
    }
  }

  /** A connection is accepted, or a message goes out; connections are numbered as they come. */
  datatype Request = Connect | Notify(unreachable: set<nat>)

  function Accepted(requests: seq<Request>): nat {
    if requests == [] then 0
    else Accepted(requests[..|requests| - 1]) + (if requests[|requests| - 1].Connect? then 1 else 0)
  }

  /** Connection k was accepted, and every message since then reached it. */
  predicate Live(requests: seq<Request>, k: nat) {
    requests != [] &&
    var n := |requests| - 1;
    match requests[n]
    case Connect => k == Accepted(requests[..n]) || Live(requests[..n], k)
    case Notify(unreachable) => Live(requests[..n], k) && k !in unreachable
  }

  lemma OneMore(before: seq<Request>, r: Request)
    ensures Accepted(before + [r]) == Accepted(before) + (if r.Connect? then 1 else 0)
    ensures forall k: nat :: Live(before + [r], k) <==>
      if r.Connect? then k == Accepted(before) || Live(before, k) else Live(before, k) && k !in r.unreachable
    ensures forall k: nat :: Live(before, k) ==> k < Accepted(before)
  {
    assert (before + [r])[..|before|] == before;
    forall k: nat | Live(before, k) ensures k < Accepted(before) { LiveIsAccepted(before, k); }
  }

  lemma {:induction false} LiveIsAccepted(requests: seq<Request>, k: nat)
    requires Live(requests, k)
    ensures k < Accepted(requests)
  {
    var n := |requests| - 1;
    if Live(requests[..n], k) { LiveIsAccepted(requests[..n], k); }
  }
}
