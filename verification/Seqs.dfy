/** Facts about sequences shared by the models. */
module Seqs {

  datatype Option<+T> = None | Some(value: T)

  /** All the pieces joined in order. */
  function Concat<T>(pieces: seq<seq<T>>): seq<T> {
    if pieces == [] then [] else pieces[0] + Concat(pieces[1..])
  }

  lemma {:induction false} ConcatAppend<T>(a: seq<seq<T>>, b: seq<seq<T>>)
    ensures Concat(a + b) == Concat(a) + Concat(b)
  {
    if a == [] {
      assert a + b == b;
    } else {
      assert (a + b)[1..] == a[1..] + b;
      ConcatAppend(a[1..], b);
    }
  }

  lemma ConcatSnoc<T>(a: seq<seq<T>>, x: seq<T>)
    ensures Concat(a + [x]) == Concat(a) + x
  {
    ConcatAppend(a, [x]);
    assert Concat([x]) == x + Concat([x][1..]);
  }

  function Map<A, B>(f: A -> B, s: seq<A>): (r: seq<B>)
    ensures |r| == |s| && forall i :: 0 <= i < |s| ==> r[i] == f(s[i])
  {
    seq(|s|, i requires 0 <= i < |s| => f(s[i]))
  }

  function Filter<A>(p: A -> bool, s: seq<A>): (r: seq<A>)
    ensures |r| <= |s|
  {
    if s == [] then [] else (if p(s[0]) then [s[0]] else []) + Filter(p, s[1..])
  }

  lemma {:induction false} FilterAppend<A>(p: A -> bool, s: seq<A>, t: seq<A>)
    ensures Filter(p, s + t) == Filter(p, s) + Filter(p, t)
  {
    if s == [] {
      assert s + t == t;
    } else {
      var u := s + t;
      assert u[0] == s[0] && u[1..] == s[1..] + t;
      FilterAppend(p, s[1..], t);
      var h := if p(s[0]) then [s[0]] else [];
      assert Filter(p, u) == h + Filter(p, u[1..]);
      assert h + (Filter(p, s[1..]) + Filter(p, t)) == (h + Filter(p, s[1..])) + Filter(p, t);
    }
  }

  /** The fields between separators; never empty, as in Go and JavaScript. */
  function Split<T(==)>(s: seq<T>, sep: T): (fields: seq<seq<T>>)
    ensures |fields| > 0
    ensures forall f :: f in fields ==> sep !in f && forall x :: x in f ==> x in s
    decreases |s|
  {
    if s == [] then [[]]
    else
      var rest := Split(s[1..], sep);
      if s[0] == sep then [[]] + rest else [[s[0]] + rest[0]] + rest[1..]
  }

  lemma {:induction false} SplitField<T>(a: seq<T>, sep: T, b: seq<T>)
    requires sep !in a
    ensures Split(a + [sep] + b, sep) == [a] + Split(b, sep)
  {
    var s := a + [sep] + b;
    if a == [] {
      assert s[1..] == b;
    } else {
      assert s[1..] == a[1..] + [sep] + b;
      SplitField(a[1..], sep, b);
      assert [a[0]] + a[1..] == a;
    }
  }

  lemma {:induction false} SplitLast<T>(a: seq<T>, sep: T)
    requires sep !in a
    ensures Split(a, sep) == [a]
  {
    if a != [] {
      SplitLast(a[1..], sep);
      assert [a[0]] + a[1..] == a;
    }
  }

  lemma {:induction false} SplitLength<T>(s: seq<T>, sep: T)
    ensures |Concat(Split(s, sep))| + |Split(s, sep)| == |s| + 1
    decreases |s|
  {
    if s != [] {
      SplitLength(s[1..], sep);
      var rest, fields := Split(s[1..], sep), Split(s, sep);
      if s[0] == sep {
        assert fields[1..] == rest;
      } else {
        assert fields[1..] == rest[1..];
      }
    }
  }

  lemma {:induction false} FilterTwice<A>(p: A -> bool, q: A -> bool, r: A -> bool, s: seq<A>)
    requires forall i :: 0 <= i < |s| ==> (r(s[i]) <==> p(s[i]) && q(s[i]))
    ensures Filter(p, Filter(q, s)) == Filter(r, s)
  {
    if s != [] {
      FilterTwice(p, q, r, s[1..]);
      FilterAppend(p, if q(s[0]) then [s[0]] else [], Filter(q, s[1..]));
      assert Filter(p, [s[0]]) == (if p(s[0]) then [s[0]] else []) + Filter(p, [s[0]][1..]);
    }
  }

  lemma {:induction false} FilterSame<A>(p: A -> bool, q: A -> bool, s: seq<A>)
    requires forall i :: 0 <= i < |s| ==> (p(s[i]) <==> q(s[i]))
    ensures Filter(p, s) == Filter(q, s)
  {
    if s != [] { FilterSame(p, q, s[1..]); }
  }

  lemma {:induction false} FilterIn<A>(p: A -> bool, s: seq<A>)
    ensures forall i :: 0 <= i < |Filter(p, s)| ==> p(Filter(p, s)[i]) && Filter(p, s)[i] in s
  {
    if s != [] {
      var f := Filter(p, s[1..]);
      FilterIn(p, s[1..]);
      forall i | 0 <= i < |f| ensures p(f[i]) && f[i] in s {
        var k :| 0 <= k < |s[1..]| && s[1..][k] == f[i];
        assert s[k + 1] == f[i];
      }
    }
  }

  lemma {:induction false} FilterAll<A>(p: A -> bool, s: seq<A>)
    requires forall i :: 0 <= i < |s| ==> p(s[i])
    ensures Filter(p, s) == s
  {
    if s != [] { FilterAll(p, s[1..]); }
  }

  lemma {:induction false} FilterNone<A>(p: A -> bool, s: seq<A>)
    requires forall i :: 0 <= i < |s| ==> !p(s[i])
    ensures Filter(p, s) == []
  {
    if s != [] { FilterNone(p, s[1..]); }
  }
}
