/** The spool over many passes, with files arriving between them. */
module SpoolRuns {
  import opened Seqs
  import opened Listing
  import opened Receiver
  import opened Spool

  /** A pass of the monitor: the files that came to new since the last one, what the calls answer, and the walk of new. */
  datatype Pass = Pass(arrivals: Files, env: Env, items: seq<Item<Bytes>>)

  function Arrive(d: Disk, files: Files): Disk { d.(incoming := d.incoming + files) }

  /** The pass walks exactly the files there are. */
  ghost predicate Walks(d: Disk, pass: Pass) {
    var files := Arrive(d, pass.arrivals).incoming;
    && pass.env.Legal() && Rooted(pass.items) && DistinctPaths(pass.items)
    && Holds(files, pass.items) && forall p :: p in files ==> Among(p, pass.items)
  }

  ghost function AfterPass(d: Disk, pass: Pass): Disk
    requires Walks(d, pass)
  {
    Steps(pass.env, Arrive(d, pass.arrivals), pass.items)
  }

  ghost predicate Run(d: Disk, ps: seq<Pass>)
    decreases |ps|
  {
    ps != [] ==> Walks(d, ps[0]) && Run(AfterPass(d, ps[0]), ps[1..])
  }

  ghost function After(d: Disk, ps: seq<Pass>): Disk
    requires Run(d, ps)
    decreases |ps|
  {
    if ps == [] then d else After(AfterPass(d, ps[0]), ps[1..])
  }

  /** No file comes to new under this path. */
  predicate NoArrival(ps: seq<Pass>, p: Path) { forall i :: 0 <= i < |ps| ==> p !in ps[i].arrivals }

  /** What the calls answer in the first pass whose rename of the file works. */
  function FirstMove(ps: seq<Pass>, p: Path): Option<Env> {
    if ps == [] then None else if ps[0].env.moves(p) then Some(ps[0].env) else FirstMove(ps[1..], p)
  }

  /** How often a file of this path is transmitted. */
  function Sends(env: Env, items: seq<Item<Bytes>>, p: Path): nat {
    if items == [] then 0
    else (if items[0].path == p && Transmitted(env, items[0]) then 1 else 0) + Sends(env, items[1..], p)
  }

  function AllSends(ps: seq<Pass>, p: Path): nat {
    if ps == [] then 0 else Sends(ps[0].env, ps[0].items, p) + AllSends(ps[1..], p)
  }

  lemma {:induction false} SendsOfOthers(env: Env, items: seq<Item<Bytes>>, p: Path)
    requires !Among(p, items)
    ensures Sends(env, items, p) == 0
  {
    hide Transmitted;
    if items != [] {
      assert items[0].path != p;
      assert forall i :: 0 <= i < |items| - 1 ==> items[1..][i] == items[i + 1];
      SendsOfOthers(env, items[1..], p);
    }
  }

  lemma {:induction false} SendsOfOne(env: Env, items: seq<Item<Bytes>>, i: nat)
    requires DistinctPaths(items) && i < |items|
    ensures Sends(env, items, items[i].path) == if Transmitted(env, items[i]) then 1 else 0
  {
    hide Transmitted;
    assert forall j :: 0 <= j < |items| - 1 ==> items[1..][j] == items[j + 1];
    if i == 0 {
      SendsOfOthers(env, items[1..], items[0].path);
    } else {
      SendsOfOne(env, items[1..], i - 1);
    }
  }

  /** Arrivals elsewhere make no difference to a path. */
  lemma ArrivedElsewhere(d: Disk, files: Files, p: Path, env: Env, e: Disk)
    requires p !in files
    ensures p in Arrive(d, files).incoming <==> p in d.incoming
    ensures SameAt(Arrive(d, files), e, p) ==> SameAt(d, e, p)
    ensures p in d.incoming ==> Arrive(d, files).incoming[p] == d.incoming[p]
    ensures forall c :: Fate(env, Arrive(d, files), e, Item(p, c)) ==> Fate(env, d, e, Item(p, c))
  {
    hide Transmitted;
  }

  /** One pass, for one path: a file in new meets its fate and is sent accordingly; nothing happens elsewhere. */
  lemma PassAt(d: Disk, pass: Pass, p: Path)
    requires Walks(d, pass) && p !in pass.arrivals
    ensures p in d.incoming ==>
      var item := Item(p, d.incoming[p]);
      && Fate(pass.env, d, AfterPass(d, pass), item)
      && Sends(pass.env, pass.items, p) == if Transmitted(pass.env, item) then 1 else 0
    ensures p !in d.incoming ==> SameAt(d, AfterPass(d, pass), p) && Sends(pass.env, pass.items, p) == 0
  {
    hide Steps, Transmitted, Fate, SameAt, Arrive, Sends;
    var d1, items := Arrive(d, pass.arrivals), pass.items;
    StepsFates(pass.env, d1, items);
    ArrivedElsewhere(d, pass.arrivals, p, pass.env, AfterPass(d, pass));
    if p in d.incoming {
      assert p in d1.incoming && Among(p, items);
      var i :| 0 <= i < |items| && items[i].path == p;
      assert items[i] == Item(p, d.incoming[p]);
      assert Fate(pass.env, d1, AfterPass(d, pass), items[i]);
      SendsOfOne(pass.env, items, i);
    } else {
      assert p !in d1.incoming && !Among(p, items);
      SendsOfOthers(pass.env, items, p);
    }
  }

  /** A file that left new is never touched or sent again, whether it was finished or not. */
  lemma {:induction false} NeverTouchedAgain(d: Disk, ps: seq<Pass>, p: Path)
    requires Run(d, ps) && p !in d.incoming && NoArrival(ps, p)
    ensures SameAt(d, After(d, ps), p) && AllSends(ps, p) == 0
    decreases |ps|
  {
    hide Walks, AfterPass, Sends;
    if ps != [] {
      PassAt(d, ps[0], p);
      assert forall i :: 0 <= i < |ps| - 1 ==> ps[1..][i] == ps[i + 1];
      NeverTouchedAgain(AfterPass(d, ps[0]), ps[1..], p);
    }
  }

  /**
   * Over any number of passes, whatever fails and whatever else arrives: a file waits in new until a
   * rename of it works, and that pass alone decides. It is sent then or never, and what is not
   * finished then stays in processing for good.
   */
  lemma {:induction false} FirstMoveDecides(d: Disk, ps: seq<Pass>, p: Path)
    requires Run(d, ps) && p in d.incoming && NoArrival(ps, p)
    ensures var e, item, first := After(d, ps), Item(p, d.incoming[p]), FirstMove(ps, p);
      && (first.None? ==> SameAt(d, e, p) && AllSends(ps, p) == 0)
      && (first.Some? ==>
            && first.value.moves(p) && Fate(first.value, d, e, item)
            && AllSends(ps, p) == if Transmitted(first.value, item) then 1 else 0)
    decreases |ps|
  {
    hide Walks, AfterPass, Sends;
    if ps != [] {
      var d1, item := AfterPass(d, ps[0]), Item(p, d.incoming[p]);
      PassAt(d, ps[0], p);
      assert forall i :: 0 <= i < |ps| - 1 ==> ps[1..][i] == ps[i + 1];
      if ps[0].env.moves(p) {
        NeverTouchedAgain(d1, ps[1..], p);
      } else {
        FirstMoveDecides(d1, ps[1..], p);
      }
    }
  }

  // ---- the other side of the diode ----

  /** Passes by what they received: each one's share is the files it transmitted, in the order of its walk. */
  ghost predicate RunDelivered(received: seq<Received>, ps: seq<Pass>) {
    if ps == [] then received == []
    else
      var n := |TransmittedOf(ps[0].env, ps[0].items)|;
      && n <= |received|
      && AllDelivered(received[..n], TransmittedOf(ps[0].env, ps[0].items), ps[0].env.hash)
      && RunDelivered(received[n..], ps[1..])
  }

  ghost predicate AllSendable(ps: seq<Pass>) {
    forall i, k :: 0 <= i < |ps| && 0 <= k < |ps[i].items| && Transmitted(ps[i].env, ps[i].items[k]) ==>
      ps[i].items[k].path != [] && Sendable(ps[i].env, ps[i].items[k])
  }

  /** The receiver gets exactly the transmitted files of all passes, in the order of the passes and of their walks. */
  lemma {:induction false} RunDecodes(rx: Rx, d: Disk, ps: seq<Pass>)
    requires Run(d, ps) && AllSendable(ps)
    ensures forall i :: 0 <= i < |ps| ==> Rooted(ps[i].items)
    ensures d.wire <= After(d, ps).wire
    ensures RunDelivered(ReceiveAll(rx, After(d, ps).wire[|d.wire|..]).1, ps)
    decreases |ps|
  {
    hide Steps, Spool.WireOf, ReceiveAll, Expected, Sendable, Transmitted, TransmittedOf, Delivered, Holds, DistinctPaths, Among, Env.Legal;
    if ps == [] {
      NothingReceived(rx);
    } else {
      var pass, rest := ps[0], ps[1..];
      assert forall i :: 0 <= i < |rest| ==> rest[i] == ps[i + 1];
      var d1 := AfterPass(d, pass);
      var sent := Spool.WireOf(pass.env, pass.items);
      StepsWire(pass.env, Arrive(d, pass.arrivals), pass.items);
      var rx1 := ReceiveAll(rx, sent).0;
      RunDecodes(rx1, d1, rest);
      var e := After(d, ps);
      PassDecodes(rx, pass.env, pass.items);
      assert e.wire[|d.wire|..] == sent + e.wire[|d1.wire|..];
      ReceiveAppend(rx, sent, e.wire[|d1.wire|..]);
      var received, here := ReceiveAll(rx, sent + e.wire[|d1.wire|..]).1, ReceiveAll(rx, sent).1;
      assert received[..|here|] == here && received[|here|..] == ReceiveAll(rx1, e.wire[|d1.wire|..]).1;
    }
  }

  lemma NothingReceived(rx: Rx)
    ensures ReceiveAll(rx, []).1 == []
  {}
}
