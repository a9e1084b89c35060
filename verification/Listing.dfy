/** Directory trees as sorted listings, and the order filepath.Walk and ReadDir visit them in. */
module Listing {
  import opened Seqs
  import opened Text

  type Name = seq<byte>
  type Path = seq<Name>

  /** The entries of one directory, each with what is below it. */
  datatype Listing<T> =
    | Empty
    | File(name: Name, content: T, rest: Listing<T>)
    | Dir(name: Name, kids: Listing<T>, rest: Listing<T>)

  datatype Item<T> = Item(path: Path, content: T)

  /** Component by component, the order of a walk that visits sorted directories. */
  predicate PathBefore(p: Path, q: Path) {
    q != [] && (p == [] || Before(p[0], q[0]) || (p[0] == q[0] && PathBefore(p[1..], q[1..])))
  }

  /** Directory listings are sorted by name, without repeats, at every level. */
  predicate Sorted<T>(l: Listing<T>) {
    match l
    case Empty => true
    case File(n, _, rest) => (rest.Empty? || Before(n, rest.name)) && Sorted(rest)
    case Dir(n, kids, rest) => (rest.Empty? || Before(n, rest.name)) && Sorted(kids) && Sorted(rest)
  }

  /** The files below `dir` in the order they are visited. */
  function Walk<T>(dir: Path, l: Listing<T>): seq<Item<T>>
    decreases l
  {
    match l
    case Empty => []
    case File(n, c, rest) => [Item(dir + [n], c)] + Walk(dir, rest)
    case Dir(n, kids, rest) => Walk(dir + [n], kids) + Walk(dir, rest)
  }

  predicate Ascending<T>(items: seq<Item<T>>) {
    forall i, j :: 0 <= i < j < |items| ==> PathBefore(items[i].path, items[j].path)
  }

  // ---- order of paths ----

  lemma {:induction false} PathBeforePrefix(d: Path, p: Path, q: Path)
    ensures PathBefore(d + p, d + q) <==> PathBefore(p, q)
  {
    if d == [] {
      assert d + p == p && d + q == q;
    } else {
      BeforeIrreflexive(d[0]);
      assert (d + p)[1..] == d[1..] + p && (d + q)[1..] == d[1..] + q;
      PathBeforePrefix(d[1..], p, q);
    }
  }

  lemma {:induction false} PathBeforeIrreflexive(p: Path)
    ensures !PathBefore(p, p)
  {
    if p != [] {
      BeforeIrreflexive(p[0]);
      PathBeforeIrreflexive(p[1..]);
    }
  }

  lemma {:induction false} PathBeforeTransitive(p: Path, q: Path, r: Path)
    requires PathBefore(p, q) && PathBefore(q, r)
    ensures PathBefore(p, r)
  {
    if p != [] {
      if Before(p[0], q[0]) && Before(q[0], r[0]) {
        BeforeTransitive(p[0], q[0], r[0]);
      } else if p[0] == q[0] == r[0] && !Before(p[0], r[0]) {
        PathBeforeTransitive(p[1..], q[1..], r[1..]);
      }
    }
  }

  // ---- walks ----

  /** Every path of a walk continues `dir` with a name not before the first name of the listing. */
  ghost predicate Below(dir: Path, n: Name, p: Path) {
    && |p| > |dir| && p[..|dir|] == dir
    && (p[|dir|] == n || Before(n, p[|dir|]))
  }

  lemma {:induction false} WalkBelow<T>(dir: Path, l: Listing<T>)
    requires Sorted(l)
    ensures l.Empty? ==> Walk(dir, l) == []
    ensures !l.Empty? ==> forall i :: 0 <= i < |Walk(dir, l)| ==> Below(dir, l.name, Walk(dir, l)[i].path)
    decreases l
  {
    if !l.Empty? {
      WalkBelow(dir, l.rest);
      if l.Dir? { WalkBelow(dir + [l.name], l.kids); }
      forall i | 0 <= i < |Walk(dir, l)| ensures Below(dir, l.name, Walk(dir, l)[i].path) {
        var p := Walk(dir, l)[i].path;
        var head := if l.Dir? then |Walk(dir + [l.name], l.kids)| else 1;
        if i >= head {
          assert p == Walk(dir, l.rest)[i - head].path;
          assert Below(dir, l.rest.name, p);
          if p[|dir|] != l.rest.name { BeforeTransitive(l.name, l.rest.name, p[|dir|]); }
        } else if l.Dir? {
          assert p == Walk(dir + [l.name], l.kids)[i].path;
          assert p[..|dir|] == p[..|dir| + 1][..|dir|] == dir && p[|dir|] == p[..|dir| + 1][|dir|];
        }
      }
    }
  }

  lemma BelowOrder(dir: Path, n: Name, p: Path, q: Path)
    requires |p| > |dir| && p[..|dir|] == dir && p[|dir|] == n
    requires |q| > |dir| && q[..|dir|] == dir && Before(n, q[|dir|])
    ensures PathBefore(p, q)
  {
    PathBeforePrefix(dir, p[|dir|..], q[|dir|..]);
    assert p == dir + p[|dir|..] && q == dir + q[|dir|..];
  }

  /** A walk of sorted directories visits files in strictly ascending path order. */
  lemma {:induction false} WalkAscending<T>(dir: Path, l: Listing<T>)
    requires Sorted(l)
    ensures Ascending(Walk(dir, l))
    decreases l
  {
    if !l.Empty? {
      WalkAscending(dir, l.rest);
      var head := if l.Dir? then Walk(dir + [l.name], l.kids) else [Item(dir + [l.name], l.content)];
      if l.Dir? {
        WalkAscending(dir + [l.name], l.kids);
        WalkBelow(dir + [l.name], l.kids);
      }
      var tail := Walk(dir, l.rest);
      WalkBelow(dir, l.rest);
      assert Walk(dir, l) == head + tail;
      forall i, j | 0 <= i < |head| && 0 <= j < |tail| ensures PathBefore(head[i].path, tail[j].path) {
        var p, q := head[i].path, tail[j].path;
        assert p[..|dir| + 1] == dir + [l.name];
        assert p[..|dir|] == p[..|dir| + 1][..|dir|] == dir && p[|dir|] == p[..|dir| + 1][|dir|] == l.name;
        if q[|dir|] != l.rest.name { BeforeTransitive(l.name, l.rest.name, q[|dir|]); }
        BelowOrder(dir, l.name, p, q);
      }
    }
  }

  lemma AscendingDistinct<T>(items: seq<Item<T>>)
    requires Ascending(items)
    ensures forall i, j :: 0 <= i < j < |items| ==> items[i].path != items[j].path
  {
    forall i, j | 0 <= i < j < |items| ensures items[i].path != items[j].path {
      PathBeforeIrreflexive(items[i].path);
    }
  }

  // ---- changes ----

  /** MkdirAll and open-or-create: a file at `path`, in its sorted place, holding what f makes of the old content. */
  function Put<T>(l: Listing<T>, path: Path, f: Option<T> -> T): Listing<T>
    requires path != []
    decreases |path|, l
  {
    if l.Empty? || Before(path[0], l.name) then
      if |path| == 1 then File(path[0], f(None), l) else Dir(path[0], Put(Empty, path[1..], f), l)
    else if path[0] != l.name then
      l.(rest := Put(l.rest, path, f))
    else if l.File? && |path| == 1 then l.(content := f(Some(l.content)))
    else if l.Dir? && |path| > 1 then l.(kids := Put(l.kids, path[1..], f))
    else l
  }

  /** Files lie exactly `d` levels down; directories may be empty. */
  predicate Depth<T>(l: Listing<T>, d: nat) {
    match l
    case Empty => true
    case File(_, _, rest) => d == 1 && Depth(rest, d)
    case Dir(_, kids, rest) => d > 1 && Depth(kids, d - 1) && Depth(rest, d)
  }

  lemma {:induction false} PutKeepsSorted<T>(l: Listing<T>, path: Path, f: Option<T> -> T)
    requires path != [] && Sorted(l) && Depth(l, |path|)
    ensures Sorted(Put(l, path, f)) && Depth(Put(l, path, f), |path|) && !Put(l, path, f).Empty?
    ensures Put(l, path, f).name == path[0] || (!l.Empty? && Put(l, path, f).name == l.name)
    decreases |path|, l
  {
    if l.Empty? || Before(path[0], l.name) {
      if |path| > 1 { PutKeepsSorted<T>(Empty, path[1..], f); }
    } else if path[0] != l.name {
      BeforeTotal(path[0], l.name);
      PutKeepsSorted(l.rest, path, f);
    } else if l.Dir? {
      PutKeepsSorted(l.kids, path[1..], f);
    }
  }

  function Get<T>(l: Listing<T>, path: Path): Option<T>
    decreases |path|, l
  {
    if l.Empty? || path == [] then None
    else if path[0] != l.name then Get(l.rest, path)
    else if l.File? && |path| == 1 then Some(l.content)
    else if l.Dir? && |path| > 1 then Get(l.kids, path[1..])
    else None
  }

  lemma {:induction false} GetAfterEarlier<T>(l: Listing<T>, path: Path)
    requires Sorted(l) && path != [] && (l.Empty? || Before(path[0], l.name))
    ensures Get(l, path) == None
    decreases l
  {
    if !l.Empty? {
      BeforeIrreflexive(path[0]);
      if !l.rest.Empty? { BeforeTransitive(path[0], l.name, l.rest.name); }
      GetAfterEarlier(l.rest, path);
    }
  }

  /** Putting a file changes what is found at its path and at no other path of that depth. */
  lemma {:induction false} GetPut<T>(l: Listing<T>, path: Path, f: Option<T> -> T, q: Path)
    requires path != [] && |q| == |path| && Sorted(l) && Depth(l, |path|)
    ensures Get(Put(l, path, f), q) == if q == path then Some(f(Get(l, path))) else Get(l, q)
    decreases |path|, l
  {
    hide Before;
    if l.Empty? || Before(path[0], l.name) {
      GetAfterEarlier(l, path);
      if q[0] == path[0] { GetAfterEarlier(l, q); }
      if |path| > 1 { GetPut<T>(Empty, path[1..], f, q[1..]); }
    } else if path[0] != l.name {
      GetPut(l.rest, path, f, q);
    } else if l.Dir? {
      GetPut(l.kids, path[1..], f, q[1..]);
    }
    assert q == [q[0]] + q[1..] && path == [path[0]] + path[1..];
  }

  /** What a walk sees after a file not before any other was put: the last file changed, or one more. */
  function Appended<T>(items: seq<Item<T>>, p: Path, f: Option<T> -> T): seq<Item<T>> {
    var n := |items| - 1;
    if items != [] && items[n].path == p then items[..n] + [Item(p, f(Some(items[n].content)))]
    else items + [Item(p, f(None))]
  }

  ghost predicate NoneAfter<T>(items: seq<Item<T>>, p: Path) {
    forall i :: 0 <= i < |items| ==> items[i].path == p || PathBefore(items[i].path, p)
  }

  lemma {:induction false} PutAtEnd<T>(dir: Path, l: Listing<T>, path: Path, f: Option<T> -> T)
    requires path != [] && Sorted(l) && Depth(l, |path|) && NoneAfter(Walk(dir, l), dir + path)
    ensures Walk(dir, Put(l, path, f)) == Appended(Walk(dir, l), dir + path, f)
    decreases |path|, l
  {
    hide PathBefore, Before;
    var p, here := dir + path, dir + [path[0]];
    assert here + path[1..] == p;
    if l.Empty? || Before(path[0], l.name) {
      NothingBelowLater(dir, l, path);
      if |path| > 1 {
        PutAtEnd<T>(here, Empty, path[1..], f);
      } else {
        assert p == here;
      }
      assert Walk(dir, Put(l, path, f)) == [Item(p, f(None))] + Walk(dir, l);
    } else {
      var head, tail := HeadWalk(dir, l), Walk(dir, l.rest);
      NoneAfterParts(head, tail, p);
      if path[0] != l.name {
        PutAtEnd(dir, l.rest, path, f);
        HeadElsewhere(dir, l, p);
        AppendedAfter(head, tail, p, f);
      } else {
        NothingBelowLater(dir, l.rest, path);
        assert tail == [] && head + tail == head;
        if l.Dir? {
          PutAtEnd(here, l.kids, path[1..], f);
        }
      }
    }
  }

  /** The files of the first entry. */
  function HeadWalk<T>(dir: Path, l: Listing<T>): (head: seq<Item<T>>)
    requires !l.Empty?
    ensures Walk(dir, l) == head + Walk(dir, l.rest)
  {
    if l.Dir? then Walk(dir + [l.name], l.kids) else [Item(dir + [l.name], l.content)]
  }

  lemma NoneAfterParts<T>(head: seq<Item<T>>, tail: seq<Item<T>>, p: Path)
    requires NoneAfter(head + tail, p)
    ensures NoneAfter(head, p) && NoneAfter(tail, p)
  {
    var w := head + tail;
    forall i | 0 <= i < |head| ensures head[i].path == p || PathBefore(head[i].path, p) { assert w[i] == head[i]; }
    forall i | 0 <= i < |tail| ensures tail[i].path == p || PathBefore(tail[i].path, p) {
      assert w[|head| + i] == tail[i];
    }
  }

  /** The first entry holds nothing at a path that continues `dir` with another name. */
  lemma HeadElsewhere<T>(dir: Path, l: Listing<T>, p: Path)
    requires Sorted(l) && !l.Empty? && |p| > |dir| && p[|dir|] != l.name
    ensures forall i :: 0 <= i < |HeadWalk(dir, l)| ==> HeadWalk(dir, l)[i].path != p
  {
    if l.Dir? {
      WalkBelow(dir + [l.name], l.kids);
      forall i | 0 <= i < |HeadWalk(dir, l)| ensures HeadWalk(dir, l)[i].path != p {
        assert HeadWalk(dir, l)[i].path[..|dir| + 1][|dir|] == l.name;
      }
    }
  }

  lemma AppendedAfter<T>(head: seq<Item<T>>, tail: seq<Item<T>>, p: Path, f: Option<T> -> T)
    requires forall i :: 0 <= i < |head| ==> head[i].path != p
    ensures Appended(head + tail, p, f) == head + Appended(tail, p, f)
  {
    hide PathBefore;
    if tail == [] {
      assert head + tail == head;
    } else {
      var all, n := head + tail, |tail| - 1;
      assert all[|all| - 1] == tail[n] && all[..|all| - 1] == head + tail[..n];
    }
  }

  /** No files lie below a listing of later names when none come after the path. */
  lemma NothingBelowLater<T>(dir: Path, l: Listing<T>, path: Path)
    requires path != [] && Sorted(l) && (l.Empty? || Before(path[0], l.name))
    requires NoneAfter(Walk(dir, l), dir + path)
    ensures Walk(dir, l) == []
  {
    WalkBelow(dir, l);
    if Walk(dir, l) != [] {
      NotBeforeBelow(dir, l.name, Walk(dir, l)[0].path, path);
      assert false;
    }
  }

  /** A path below a later name is neither the path nor before it. */
  lemma NotBeforeBelow(dir: Path, n: Name, q: Path, path: Path)
    requires path != [] && Before(path[0], n) && Below(dir, n, q)
    ensures q != dir + path && !PathBefore(q, dir + path)
  {
    var p := dir + path;
    if q[|dir|] != n { BeforeTransitive(path[0], n, q[|dir|]); }
    BeforeIrreflexive(path[0]);
    assert p[|dir|] == path[0] && p[..|dir|] == dir;
    BelowOrder(dir, path[0], p, q);
    if PathBefore(q, p) {
      PathBeforeTransitive(q, p, q);
      PathBeforeIrreflexive(q);
    }
  }

  /** os.Remove of the file at `path`; directories stay. */
  function Remove<T>(l: Listing<T>, path: Path): Listing<T> {
    match l
    case Empty => Empty
    case File(n, c, rest) => if path == [n] then Remove(rest, path) else File(n, c, Remove(rest, path))
    case Dir(n, kids, rest) =>
      Dir(n, if path != [] && path[0] == n then Remove(kids, path[1..]) else kids, Remove(rest, path))
  }

  lemma {:induction false} RemoveKeepsSorted<T>(l: Listing<T>, path: Path, d: nat)
    requires Sorted(l) && Depth(l, d)
    ensures Sorted(Remove(l, path)) && Depth(Remove(l, path), d)
    ensures var u := Remove(l, path); u.Empty? || (!l.Empty? && (u.name == l.name || Before(l.name, u.name)))
    decreases l
  {
    hide Before;
    if !l.Empty? {
      RemoveKeepsSorted(l.rest, path, d);
      var u := Remove(l.rest, path);
      if !u.Empty? && u.name != l.rest.name { BeforeTransitive(l.name, l.rest.name, u.name); }
      if l.Dir? && path != [] && path[0] == l.name { RemoveKeepsSorted(l.kids, path[1..], d - 1); }
    }
  }

  /** Removing a file takes what is found at its path, and nothing else. */
  lemma {:induction false} GetRemove<T>(l: Listing<T>, path: Path, d: nat, q: Path)
    requires Sorted(l) && Depth(l, d)
    ensures Get(Remove(l, path), q) == if q == path then None else Get(l, q)
    decreases l
  {
    hide Before;
    if !l.Empty? && q != [] {
      GetRemove(l.rest, path, d, q);
      if l.Dir? && path != [] && path[0] == l.name == q[0] {
        GetRemove(l.kids, path[1..], d - 1, q[1..]);
        assert q == [q[0]] + q[1..] && path == [path[0]] + path[1..];
      }
      if l.File? && path == [l.name] && q[0] == l.name { GetAfterEarlier(l.rest, q); }
    }
  }

  function Without<T>(p: Path): Item<T> -> bool { (x: Item<T>) => x.path != p }

  /** Removing a file takes it out of the walk and leaves the others in their order. */
  lemma {:induction false} WalkRemove<T>(dir: Path, l: Listing<T>, path: Path)
    ensures Walk(dir, Remove(l, path)) == Filter(Without(dir + path), Walk(dir, l))
    decreases l
  {
    hide Filter;
    if l.Empty? {
      FilterAll(Without<T>(dir + path), []);
    } else {
      WalkRemove(dir, l.rest, path);
      FilterAppend(Without<T>(dir + path), HeadWalk(dir, l), Walk(dir, l.rest));
      if l.File? {
        FilterFile(dir, l, path);
      } else if path != [] && path[0] == l.name {
        WalkRemove(dir + [l.name], l.kids, path[1..]);
        assert dir + [l.name] + path[1..] == dir + path;
      } else {
        FilterDir(dir, l, path);
      }
    }
  }

  lemma FilterFile<T>(dir: Path, l: Listing<T>, path: Path)
    requires l.File?
    ensures Filter(Without(dir + path), HeadWalk(dir, l)) == if path == [l.name] then [] else HeadWalk(dir, l)
  {
    var head := HeadWalk(dir, l);
    assert (dir + path)[|dir|..] == path && (dir + [l.name])[|dir|..] == [l.name];
    if path == [l.name] { FilterNone(Without(dir + path), head); } else { FilterAll(Without(dir + path), head); }
  }

  lemma FilterDir<T>(dir: Path, l: Listing<T>, path: Path)
    requires l.Dir? && (path == [] || path[0] != l.name)
    ensures Filter(Without(dir + path), HeadWalk(dir, l)) == HeadWalk(dir, l)
  {
    var head := HeadWalk(dir, l);
    WalkPrefix(dir + [l.name], l.kids);
    forall i | 0 <= i < |head| ensures head[i].path != dir + path {
      assert head[i].path[..|dir| + 1][|dir|] == l.name;
    }
    FilterAll(Without(dir + path), head);
  }

  lemma {:induction false} WalkPrefix<T>(dir: Path, l: Listing<T>)
    ensures forall i :: 0 <= i < |Walk(dir, l)| ==> |Walk(dir, l)[i].path| > |dir| && Walk(dir, l)[i].path[..|dir|] == dir
    decreases l
  {
    if !l.Empty? { WalkPrefix(dir, l.rest); }
    if l.Dir? {
      WalkPrefix(dir + [l.name], l.kids);
      forall i | 0 <= i < |Walk(dir + [l.name], l.kids)| ensures Walk(dir + [l.name], l.kids)[i].path[..|dir|] == dir {
        var p := Walk(dir + [l.name], l.kids)[i].path;
        assert p[..|dir|] == p[..|dir| + 1][..|dir|];
      }
    }
  }
}
