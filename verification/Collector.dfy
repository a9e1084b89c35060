/** The sampling collector of a group: batches of ten points, numbered, sent and cached. */
module Collector {
  import opened Seqs
  import opened Integers

  const BATCH := 10

  /** A point read, and whether a proxy is found if the batch is full with it. */
  datatype Reading<P> = Reading(point: P, proxy: bool)

  /** A message: its sequence number and its points. */
  datatype Batch<P> = Batch(sequence: nat, points: seq<P>)

  /** What a collector does, without its slots: the points held back and the batches sent. */
  datatype Progress<P> = Progress(held: seq<P>, sent: seq<seq<P>>)

  /** One more point; the tenth of a full batch nobody took gives way. */
  function Hold<P>(held: seq<P>, p: P): seq<P> {
    (if |held| == BATCH then held[..BATCH - 1] else held) + [p]
  }

  function Step<P>(c: Progress<P>, r: Reading<P>): Progress<P> {
    var h := Hold(c.held, r.point);
    if |h| == BATCH && r.proxy then Progress([], c.sent + [h]) else Progress(h, c.sent)
  }

  function Steps<P>(c: Progress<P>, rs: seq<Reading<P>>): Progress<P> {
    if rs == [] then c else Step(Steps(c, rs[..|rs| - 1]), rs[|rs| - 1])
  }

  function Start<P>(): Progress<P> { Progress([], []) }

  function Points<P>(rs: seq<Reading<P>>): (ps: seq<P>)
    ensures |ps| == |rs|
    ensures forall i :: 0 <= i < |rs| ==> ps[i] == rs[i].point
  {
    seq(|rs|, i requires 0 <= i < |rs| => rs[i].point)
  }

  lemma {:induction false} StepsAppend<P>(c: Progress<P>, a: seq<Reading<P>>, b: seq<Reading<P>>)
    ensures Steps(c, a + b) == Steps(Steps(c, a), b)
  {
    hide Step;
    if b == [] {
      assert a + b == a;
    } else {
      var n := |b| - 1;
      assert (a + b)[..|a| + n] == a + b[..n];
      StepsAppend(c, a, b[..n]);
    }
  }

  /** Fewer than ten points are held, or exactly ten that no proxy took. */
  lemma {:induction false} HeldBounds<P>(rs: seq<Reading<P>>)
    ensures |Steps(Start(), rs).held| <= BATCH
    ensures |Steps(Start(), rs).held| == BATCH ==> rs != [] && !rs[|rs| - 1].proxy
    ensures rs != [] && |Steps(Start(), rs).held| > 0 ==>
      var h := Steps(Start(), rs).held; h[|h| - 1] == rs[|rs| - 1].point
    ensures forall k :: 0 <= k < |Steps(Start(), rs).sent| ==> |Steps(Start(), rs).sent[k]| == BATCH
  {
    if rs != [] { HeldBounds(rs[..|rs| - 1]); }
  }

  // ---- conservation ----

  /** Point j sits in the last slot unsent when the next point overwrites it. */
  predicate Lost<P>(rs: seq<Reading<P>>, j: nat)
    requires j < |rs|
  {
    j + 1 < |rs| && |Steps(Start(), rs[..j + 1]).held| == BATCH
  }

  /** Every point read by itself, the lost ones blanked. */
  function Kept<P>(rs: seq<Reading<P>>): (pieces: seq<seq<P>>)
    ensures |pieces| == |rs|
  {
    seq(|rs|, j requires 0 <= j < |rs| => if Lost(rs, j) then [] else [rs[j].point])
  }

  lemma KeptMore<P>(rs: seq<Reading<P>>)
    requires rs != []
    ensures var n := |rs| - 1;
      && Kept(rs)[n] == [rs[n].point]
      && (n > 0 ==> var full := |Steps(Start(), rs[..n]).held| == BATCH;
            Kept(rs)[..n] == Kept(rs[..n])[..n - 1] + [if full then [] else [rs[n - 1].point]])
  {
    hide Steps;
    var n := |rs| - 1;
    var before := rs[..n];
    forall j | 0 <= j < n - 1 ensures Lost(rs, j) == Lost(before, j) {
      assert rs[..j + 1] == before[..j + 1];
    }
  }

  /**
   * The batches sent and the points held are, in order, every point read except those overwritten
   * in the last slot.
   */
  lemma {:induction false} Conservation<P>(rs: seq<Reading<P>>)
    ensures Concat(Steps(Start(), rs).sent) + Steps(Start(), rs).held == Concat(Kept(rs))
  {
    hide Steps, Kept;
    if rs == [] {
      NothingYet<P>();
    } else {
      var n := |rs| - 1;
      var before := rs[..n];
      var c := Steps(Start(), before);
      StepsSnoc(rs);
      var h := Hold(c.held, rs[n].point);
      Conservation(before);
      HeldBounds(before);
      ConcatSnoc(c.sent, h);
      KeptMore(rs);
      assert Kept(rs) == Kept(rs)[..n] + [[rs[n].point]];
      ConcatSnoc(Kept(rs)[..n], [rs[n].point]);
      if |c.held| == BATCH {
        KeptMore(before);
        DropLast(c, before);
        assert Kept(rs)[..n] == Kept(before)[..n - 1] + [[]];
        ConcatSnoc(Kept(before)[..n - 1], []);
        assert Concat(Kept(rs)[..n]) == Concat(c.sent) + c.held[..BATCH - 1];
      } else {
        KeptSame(rs);
      }
      assert Concat(c.sent) + h == Concat(Kept(rs));
    }
  }

  lemma NothingYet<P>()
    ensures Steps<P>(Start(), []) == Start() && Kept<P>([]) == []
  {}

  lemma StepsSnoc<P>(rs: seq<Reading<P>>)
    requires rs != []
    ensures Steps(Start(), rs) == Step(Steps(Start(), rs[..|rs| - 1]), rs[|rs| - 1])
  {}

  /** Without the last point both sides of the conservation law lose the same one. */
  lemma DropLast<P>(c: Progress<P>, rs: seq<Reading<P>>)
    requires rs != [] && |c.held| == BATCH && Concat(c.sent) + c.held == Concat(Kept(rs))
    requires Kept(rs)[|rs| - 1] == [rs[|rs| - 1].point]
    ensures Concat(Kept(rs)[..|rs| - 1]) == Concat(c.sent) + c.held[..BATCH - 1]
  {
    hide Kept;
    var n := |rs| - 1;
    assert Kept(rs) == Kept(rs)[..n] + [Kept(rs)[n]];
    ConcatSnoc(Kept(rs)[..n], Kept(rs)[n]);
    var all := Concat(Kept(rs));
    assert all[..|all| - 1] == Concat(Kept(rs)[..n]);
    assert all[..|all| - 1] == Concat(c.sent) + c.held[..BATCH - 1];
  }

  lemma KeptSame<P>(rs: seq<Reading<P>>)
    requires rs != [] && |Steps(Start(), rs[..|rs| - 1]).held| != BATCH
    ensures Kept(rs)[..|rs| - 1] == Kept(rs[..|rs| - 1])
  {
    var n := |rs| - 1;
    KeptMore(rs);
    if n > 0 {
      KeptMore(rs[..n]);
      assert Kept(rs[..n]) == Kept(rs[..n])[..n - 1] + [Kept(rs[..n])[n - 1]];
    }
  }

  /** A lost point was refused by a missing proxy; with a proxy always present none is lost. */
  lemma LostNeedsNoProxy<P>(rs: seq<Reading<P>>, j: nat)
    requires j < |rs| && Lost(rs, j)
    ensures !rs[j].proxy
  {
    HeldBounds(rs[..j + 1]);
  }

  /** With a proxy always present the batches are the consecutive tens of the points read. */
  lemma {:induction false} AlwaysProxy<P>(rs: seq<Reading<P>>)
    requires forall i :: 0 <= i < |rs| ==> rs[i].proxy
    ensures var c := Steps(Start(), rs);
      && |c.sent| == |rs| / BATCH && |c.held| == |rs| % BATCH
      && (forall k :: 0 <= k < |c.sent| ==> c.sent[k] == Points(rs)[BATCH * k..BATCH * k + BATCH])
      && c.held == Points(rs)[BATCH * |c.sent|..]
  {
    hide Steps;
    if rs == [] {
      NothingYet<P>();
    } else {
      var n := |rs| - 1;
      var before := rs[..n];
      AlwaysProxy(before);
      StepsSnoc(rs);
      var c, d := Steps(Start(), before), Steps(Start(), rs);
      var ps, qs := Points(before), Points(rs);
      assert qs == ps + [rs[n].point];
      forall k | 0 <= k < |c.sent| ensures c.sent[k] == qs[BATCH * k..BATCH * k + BATCH] {
        assert ps[BATCH * k..BATCH * k + BATCH] == qs[BATCH * k..BATCH * k + BATCH];
      }
      assert c.held + [rs[n].point] == qs[BATCH * |c.sent|..];
    }
  }

  /** Without any proxy the first nine points and the newest are all that is kept. */
  lemma {:induction false} NeverProxy<P>(rs: seq<Reading<P>>)
    requires forall i :: 0 <= i < |rs| ==> !rs[i].proxy
    ensures var c := Steps(Start(), rs);
      && c.sent == []
      && c.held == if |rs| < BATCH then Points(rs) else Points(rs)[..BATCH - 1] + [Points(rs)[|rs| - 1]]
  {
    if rs != [] {
      var n := |rs| - 1;
      NeverProxy(rs[..n]);
      assert Points(rs) == Points(rs[..n]) + [rs[n].point];
    }
  }

  /** Points sent and held never outnumber those read, and are as many exactly if none was lost. */
  lemma {:induction false} CountedIff<P>(rs: seq<Reading<P>>)
    ensures var c := Steps(Start(), rs);
      var counted := BATCH * |c.sent| + |c.held|;
      && counted <= |rs|
      && (counted == |rs| <==> forall j :: 0 <= j < |rs| ==> !Lost(rs, j))
  {
    hide Steps;
    if rs == [] {
      NothingYet<P>();
    } else {
      var n := |rs| - 1;
      var before := rs[..n];
      CountedIff(before);
      HeldBounds(before);
      StepsSnoc(rs);
      forall j | 0 <= j < n - 1 ensures Lost(rs, j) == Lost(before, j) {
        assert rs[..j + 1] == before[..j + 1];
      }
      assert n > 0 ==> (Lost(rs, n - 1) <==> |Steps(Start(), before).held| == BATCH) && !Lost(before, n - 1);
    }
  }

  // ---- the collector's variables ----

  /** The points held lie in the first slots, and b is where the next one goes. */
  ghost predicate Slots<P>(slots: seq<P>, b: nat, held: seq<P>) {
    && |held| <= BATCH == |slots|
    && b == (if |held| == BATCH then BATCH - 1 else |held|)
    && slots[..|held|] == held
  }

  /** Writing slot b and advancing b, or starting over, follows what is held. */
  lemma Fill<P>(slots: seq<P>, b: nat, held: seq<P>, p: P)
    requires Slots(slots, b, held)
    ensures var h, after := Hold(held, p), slots[b := p];
      && |h| <= BATCH && Slots(after, if b == BATCH - 1 then b else b + 1, h) && Slots(after, 0, [])
      && (b == BATCH - 1 <==> |h| == BATCH) && (|h| == BATCH ==> after == h)
  {
    var h, after := Hold(held, p), slots[b := p];
    assert after[..|h|] == h;
  }


  class GroupCollector<P> {
    var points: array<P>
    var b: nat
    var i: int
    var sequence: nat
    var counter: nat
    var wire: seq<Batch<P>>
    var cache: seq<Batch<P>>
    ghost var taken: seq<Reading<P>>

    constructor (zero: P)
      ensures Valid() && taken == [] && counter == 0 && fresh(points)
    {
      points := new P[BATCH](_ => zero);
      b, i, sequence, counter, wire, cache, taken := 0, 0, 0, 0, [], [], [];
    }

    /** The slots and numbers agree with the progress made over everything taken so far. */
    ghost predicate Valid()
      reads this`points, this`b, this`i, this`sequence, this`wire, this`cache, this`taken, points
    {
      var c := Steps(Start(), taken);
      && points.Length == BATCH && b < BATCH
      && Slots(points[..], b, c.held)
      && i == ToInt32(|taken|)
      && Logged(c.sent)
    }

    /** The sequence number and both streams tell of these batches. */
    ghost predicate Logged(sent: seq<seq<P>>)
      reads this`sequence, this`wire, this`cache
    {
      sequence == |sent| % TWO64 && Numbered(wire, sent, 0) && Numbered(cache, sent, 1)
    }

    /**
     * While nothing wraps, ten times the sequence number plus b is the number of points taken, and
     * so i and the counter, exactly if no point was lost and no full batch is waiting.
     */
    lemma CountsAgreeIff()
      requires Valid() && |taken| < 0x8000_0000 && counter == |taken| % TWO32
      ensures i == counter == |taken|
      ensures BATCH * sequence + b == i <==>
        (|Steps(Start(), taken).held| < BATCH && forall j :: 0 <= j < |taken| ==> !Lost(taken, j))
      ensures (forall j :: 0 <= j < |taken| ==> taken[j].proxy) ==> BATCH * sequence + b == i
    {
      hide Steps, Lost, Numbered;
      CountedIff(taken);
      HeldBounds(taken);
      forall j | 0 <= j < |taken| && Lost(taken, j) ensures !taken[j].proxy { LostNeedsNoProxy(taken, j); }
    }

    /** A full batch goes to the proxy with its number, and to the cache with the next one. */
    method HandOver(ghost sent: seq<seq<P>>)
      requires Logged(sent)
      modifies this`b, this`sequence, this`wire, this`cache
      ensures Logged(sent + [points[..]]) && b == 0
    {
      hide Numbered;
      NumberedMore(wire, sent, 0, points[..]);
      NumberedMore(cache, sent, 1, points[..]);
      var data := Batch(sequence, points[..]);
      wire := wire + [data];
      b := 0;
      sequence := (sequence + 1) % TWO64;
      cache := cache + [Batch(sequence, points[..])];
    }

    /** One tick: the items of a read in whatever order the map gives them, then the counter. */
    method Tick(items: seq<Reading<P>>)
      requires Valid()
      modifies this, points
      ensures Valid() && points == old(points)
      ensures taken == old(taken) + items
      ensures counter == (old(counter) + |items|) % TWO32
      ensures old(counter) == |old(taken)| % TWO32 ==> counter == |taken| % TWO32
    {
      hide Valid;
      var k := 0;
      while k < |items|
        invariant 0 <= k <= |items|
        invariant Valid() && points == old(points) && counter == old(counter)
        invariant taken == old(taken) + items[..k]
      {
        Take(items[k]);
        k := k + 1;
      }
      assert taken == old(taken) + items;
      CounterAdds(|old(taken)|, |items|);
      counter := (counter + |items|) % TWO32;
    }

    /** The body of the loop over the items. */
    method Take(r: Reading<P>)
      requires Valid()
      modifies this`b, this`i, this`sequence, this`wire, this`cache, this`taken, points
      ensures Valid() && taken == old(taken) + [r]
    {
      hide Steps, Logged, ToInt32, Slots, Hold;
      ghost var c := Steps(Start(), taken);
      HeldBounds(taken);
      ghost var h := Hold(c.held, r.point);
      StepsAppend(Start(), taken, [r]);
      StepsOne(c, r);
      Fill(points[..], b, c.held, r.point);
      ghost var filled := points[..][b := r.point];
      points[b] := r.point;
      assert points[..] == filled;
      if b == points.Length - 1 {
        if r.proxy {
          HandOver(c.sent);
        }
      } else {
        b := b + 1;
      }
      ToInt32Add(|taken|, 1);
      i := ToInt32(i + 1);
      taken := taken + [r];
    }
  }

  lemma CounterAdds(a: nat, n: nat)
    ensures (a % TWO32 + n) % TWO32 == (a + n) % TWO32
  {}

  /** The k-th message bears number k plus an offset, and the k-th batch. */
  ghost predicate Numbered<P>(log: seq<Batch<P>>, sent: seq<seq<P>>, offset: nat) {
    |log| == |sent| && forall k :: 0 <= k < |log| ==> log[k] == Batch((k + offset) % TWO64, sent[k])
  }

  lemma NumberedMore<P>(log: seq<Batch<P>>, sent: seq<seq<P>>, offset: nat, h: seq<P>)
    requires Numbered(log, sent, offset)
    ensures Numbered(log + [Batch((|sent| + offset) % TWO64, h)], sent + [h], offset)
  {}

  lemma StepsOne<P>(c: Progress<P>, r: Reading<P>)
    ensures Steps(c, [r]) == Step(c, r)
  {
    assert Steps(c, [r][..0]) == c;
  }
}
