/** The writer and the pruner on one tree, in every interleaving of messages and removals. */
module CachePruning {
  import opened Seqs
  import opened Listing
  import opened Stamps
  import opened CacheWriter
  import CacheIndex

  /**
   * The writer takes a message, or the pruner removes a file; a removal that fails is no action.
   * The pruner read its index at some time before, so a removal may name any path.
   */
  datatype Action<M> = Message(e: Event<M>) | Removal(p: Path)

  /** The writer on the shared tree, and the paths of the files removed so far. */
  datatype Shared<M> = Shared(w: Writer<M>, gone: set<Path>)

  ghost predicate HasFile<T>(items: seq<Item<T>>, p: Path) { exists i :: 0 <= i < |items| && items[i].path == p }

  /** The file that is open cannot be removed. */
  ghost function Act<M>(s: Shared<M>, a: Action<M>): Shared<M> {
    match a
    case Message(e) => s.(w := Process(s.w, e))
    case Removal(p) =>
      if s.w.current == Some(p) then s
      else Shared(s.w.(tree := Remove(s.w.tree, p)), if HasFile(Walk([], s.w.tree), p) then s.gone + {p} else s.gone)
  }

  ghost function Together<M>(tree: Listing<Content<M>>, start: Stamp, actions: seq<Action<M>>): Shared<M> {
    if actions == [] then Shared(Init(tree, start), {})
    else Act(Together(tree, start, actions[..|actions| - 1]), actions[|actions| - 1])
  }

  /** The messages alone. */
  function EventsOf<M>(actions: seq<Action<M>>): seq<Event<M>> {
    if actions == [] then []
    else
      var n := |actions| - 1;
      EventsOf(actions[..n]) + (if actions[n].Message? then [actions[n].e] else [])
  }

  function Kept<T>(gone: set<Path>): Item<T> -> bool { (x: Item<T>) => x.path !in gone }

  // ---- a put on a walk that lacks some files ----

  lemma OnlyLast<T>(items: seq<Item<T>>, p: Path)
    requires Ascending(items) && NoneAfter(items, p) && items != [] && items[|items| - 1].path != p
    ensures forall i :: 0 <= i < |items| ==> items[i].path != p
  {
    hide PathBefore;
    var last := items[|items| - 1].path;
    forall i | 0 <= i < |items| ensures items[i].path != p {
      if items[i].path == p {
        PathBeforeTransitive(p, last, p);
        PathBeforeIrreflexive(p);
      }
    }
  }

  lemma AppendedFilter<T>(items: seq<Item<T>>, p: Path, f: Option<T> -> T, gone: set<Path>)
    requires Ascending(items) && NoneAfter(items, p) && p !in gone
    ensures Filter(Kept(gone), Appended(items, p, f)) == Appended(Filter(Kept(gone), items), p, f)
  {
    hide PathBefore, Filter;
    var keep := Kept<T>(gone);
    var n := |items| - 1;
    if items != [] && items[n].path == p {
      var x := Item(p, f(Some(items[n].content)));
      assert items == items[..n] + [items[n]];
      FilterAppend(keep, items[..n], [items[n]]);
      FilterAppend(keep, items[..n], [x]);
      FilterAll(keep, [items[n]]);
      FilterAll(keep, [x]);
      var before := Filter(keep, items[..n]);
      assert (before + [items[n]])[..|before|] == before;
    } else {
      var x := Item(p, f(None));
      FilterAppend(keep, items, [x]);
      FilterAll(keep, [x]);
      FilterIn(keep, items);
      if items != [] { OnlyLast(items, p); }
    }
  }

  lemma NoneAfterFilter<T>(items: seq<Item<T>>, p: Path, keep: Item<T> -> bool)
    requires NoneAfter(items, p)
    ensures NoneAfter(Filter(keep, items), p)
  {
    hide PathBefore;
    FilterIn(keep, items);
  }

  /** Putting a file not before any other, with and without the removed files. */
  lemma PutFollows<M>(u: Listing<Content<M>>, v: Listing<Content<M>>, gone: set<Path>, at: Stamp, toks: Content<M>)
    requires Sorted(u) && Depth(u, 4) && Sorted(v) && Depth(v, 4)
    requires Walk([], u) == Filter(Kept(gone), Walk([], v)) && NoneAfter(Walk([], v), PathOf(at)) && PathOf(at) !in gone
    ensures var p := PathOf(at);
      var u', v' := Put(u, p, Adding(toks)), Put(v, p, Adding(toks));
      && Sorted(u') && Depth(u', 4)
      && Walk([], u') == Filter(Kept(gone), Walk([], v'))
  {
    hide Sorted, Depth, Put, Walk, Filter, Appended, PathOf, NoneAfter, Ascending;
    var p := PathOf(at);
    PathLength(at);
    assert [] + p == p;
    PutKeepsSorted(u, p, Adding(toks));
    NoneAfterFilter(Walk([], v), p, Kept(gone));
    PutAtEnd([], u, p, Adding(toks));
    PutAtEnd([], v, p, Adding(toks));
    WalkAscending([], v);
    AppendedFilter(Walk([], v), p, Adding(toks), gone);
  }

  // ---- the shared tree against the writer alone ----

  /** The same writer, with the removed files missing; those lie in front of the open one. */
  ghost predicate Follows<M>(s: Shared<M>, v: Writer<M>, at: Stamp) {
    && s.w == v.(tree := s.w.tree)
    && Sorted(s.w.tree) && Depth(s.w.tree, 4)
    && Walk([], s.w.tree) == Filter(Kept(s.gone), Walk([], v.tree))
    && AllBefore(s.gone, PathOf(at))
  }

  ghost predicate AllBefore(gone: set<Path>, p: Path) { forall q :: q in gone ==> PathBefore(q, p) }

  lemma NotGone(gone: set<Path>, p: Path)
    requires AllBefore(gone, p)
    ensures p !in gone
  {
    PathBeforeIrreflexive(p);
  }

  lemma WriteFollows<M>(s: Shared<M>, v: Writer<M>, at: Stamp, text: Content<M>, first: bool, toks: Content<M>)
    requires Writing(v, at, text, first) && Follows(s, v, at)
    ensures Writing(Write(v, toks), at, text + toks, first)
    ensures Follows(s.(w := Write(s.w, toks)), Write(v, toks), at)
  {
    hide Sorted, Depth, Put, Walk, Filter, PathOf, PathBefore, AllBefore, Contents, Kept;
    WriteKeeps(v, at, text, first, toks);
    NotGone(s.gone, PathOf(at));
    PathLength(at);
    PutFollows(s.w.tree, v.tree, s.gone, at, toks);
  }

  lemma LaterAllBefore(gone: set<Path>, at: Stamp, now: Stamp)
    requires AllBefore(gone, PathOf(at)) && Usable(at) && Usable(now) && at.Time() <= now.Time()
    ensures AllBefore(gone, PathOf(now))
  {
    hide PathBefore, PathOf, Date;
    WalkOrderIsTimeOrder(at, now);
    TimeOrder(at, now);
    forall q | q in gone ensures PathBefore(q, PathOf(now)) {
      if at != now { PathBeforeTransitive(q, PathOf(at), PathOf(now)); }
    }
  }

  lemma CreateFollows<M>(s: Shared<M>, v: Writer<M>, at: Stamp, text: Content<M>, first: bool, now: Stamp)
    requires Writing(v, at, text, first) && Follows(s, v, at)
    requires Usable(at) && Usable(now) && at.Time() <= now.Time()
    ensures Writing(CreateFile(v, now), now, text + [Close], true)
    ensures Follows(s.(w := CreateFile(s.w, now)), CreateFile(v, now), now)
  {
    hide Sorted, Depth, Put, Walk, Filter, PathOf, PathBefore, AllBefore, Contents, Kept, Write, Date, Usable;
    CreateKeeps(v, at, text, first, now);
    WriteFollows(s, v, at, text, first, [Close]);
    LaterThanAll(Walk([], CloseFile(v).tree), at, now);
    LaterAllBefore(s.gone, at, now);
    NotGone(s.gone, PathOf(now));
    PutFollows(CloseFile(s.w).tree, CloseFile(v).tree, s.gone, now, []);
    WriteOnlyTree(s.w, [Close]);
    WriteOnlyTree(v, [Close]);
  }

  lemma WriteOnlyTree<M>(w: Writer<M>, toks: Content<M>)
    ensures Write(w, toks) == w.(tree := Write(w, toks).tree)
  {}

  /** The writer's step, on the tree with and without the removed files. */
  lemma MessageFollows<M>(s: Shared<M>, v: Writer<M>, at: Stamp, text: Content<M>, first: bool, e: Event<M>)
    requires Writing(v, at, text, first) && Follows(s, v, at)
    requires Usable(at) && Usable(e.again) && at.Time() <= e.again.Time()
    ensures Follows(Act(s, Message(e)), Process(v, e), if Rotates(v.prevRemainder, e.now) then e.again else at)
  {
    hide Sorted, Depth, Put, Walk, Filter, PathOf, PathBefore, AllBefore, Contents, Kept, Write, Date, Usable, CreateFile;
    hide Rotates, LastIs, Stamped;
    var rotates := Rotates(v.prevRemainder, e.now);
    if rotates { CreateFollows(s, v, at, text, first, e.again); }
    var at' := if rotates then e.again else at;
    var text' := if rotates then text + [Close] else text;
    var first' := rotates || first;
    var u := (if rotates then CreateFile(v, e.again) else v).(prevRemainder := e.now.minute % 5);
    var t := (if rotates then CreateFile(s.w, e.again) else s.w).(prevRemainder := e.now.minute % 5);
    WriteFollows(s.(w := t), u, at', text', first', [if first' then Open else Comma, Msg(e.msg)]);
    WriteOnlyTree(t, [if first' then Open else Comma, Msg(e.msg)]);
    WriteOnlyTree(u, [if first' then Open else Comma, Msg(e.msg)]);
  }

  /** The pruner's step. */
  lemma RemovalFollows<M>(s: Shared<M>, v: Writer<M>, at: Stamp, p: Path)
    requires Follows(s, v, at) && v.current == Some(PathOf(at)) && NoneAfter(Walk([], v.tree), PathOf(at))
    ensures Follows(Act(s, Removal(p)), v, at)
  {
    hide Sorted, Depth, Walk, Filter, PathOf, PathBefore, Remove;
    if p != PathOf(at) {
      var before, all := Walk([], s.w.tree), Walk([], v.tree);
      var gone := Act(s, Removal(p)).gone;
      assert [] + p == p;
      RemoveKeepsSorted(s.w.tree, p, 4);
      WalkRemove([], s.w.tree, p);
      FilterIn(Kept<Content<M>>(s.gone), all);
      if HasFile(before, p) {
        FilterTwice(Without<Content<M>>(p), Kept<Content<M>>(s.gone), Kept<Content<M>>(gone), all);
      } else {
        FilterAll(Without<Content<M>>(p), before);
      }
    }
  }

  lemma OneAction<M>(tree: Listing<Content<M>>, start: Stamp, actions: seq<Action<M>>)
    requires actions != []
    ensures var n := |actions| - 1;
      && Together(tree, start, actions) == Act(Together(tree, start, actions[..n]), actions[n])
      && EventsOf(actions) ==
           if actions[n].Message? then EventsOf(actions[..n]) + [actions[n].e] else EventsOf(actions[..n])
  {
    hide Act;
  }

  /** Whatever the pruner removes meanwhile, the writer's tree is its own without the removed files. */
  lemma {:induction false} TogetherFollows<M>(tree: Listing<Content<M>>, start: Stamp, actions: seq<Action<M>>)
    requires Earlier(tree, start) && Clock(start, EventsOf(actions))
    ensures var events := EventsOf(actions);
      Follows(Together(tree, start, actions), Run(Init(tree, start), events), LastCreated(start, events))
    ensures forall p :: p in Together(tree, start, actions).gone ==> Removal(p) in actions
  {
    hide Follows, Clock, Earlier, Together, EventsOf, Run, Init, LastCreated, Process, Walk, Remove, Usable, Date;
    if actions == [] {
      StartFollows(tree, start);
    } else {
      var n := |actions| - 1;
      var s, was, events := Together(tree, start, actions[..n]), EventsOf(actions[..n]), EventsOf(actions);
      assert actions == actions[..n] + [actions[n]];
      OneAction(tree, start, actions);
      if actions[n].Message? {
        assert events[..|was|] == was && events[|was|] == actions[n].e;
        NextIsLater(start, events);
        TogetherFollows(tree, start, actions[..n]);
        RunFollows(tree, start, events, s);
      } else {
        TogetherFollows(tree, start, actions[..n]);
        RunWrites(tree, start, was);
        var g := Segments(-1, was);
        WritingAt(Run(Init(tree, start), was), LastCreated(start, was), Contents(Walk([], tree)) + g.Text(), g.last == []);
        RemovalFollows(s, Run(Init(tree, start), was), LastCreated(start, was), actions[n].p);
      }
    }
  }

  lemma RunFollows<M>(tree: Listing<Content<M>>, start: Stamp, events: seq<Event<M>>, s: Shared<M>)
    requires Earlier(tree, start) && Clock(start, events) && events != []
    requires var was := events[..|events| - 1];
      Follows(s, Run(Init(tree, start), was), LastCreated(start, was))
    ensures Follows(Act(s, Message(events[|events| - 1])), Run(Init(tree, start), events), LastCreated(start, events))
  {
    hide Follows, Clock, Earlier, Init, Process, Walk, Rotates, Usable, Date, Writing, Contents, Segments, Act;
    var n := |events| - 1;
    var was := events[..n];
    NextIsLater(start, events);
    RunWrites(tree, start, was);
    var g := Segments(-1, was);
    MessageFollows(s, Run(Init(tree, start), was), LastCreated(start, was),
                   Contents(Walk([], tree)) + g.Text(), g.last == [], events[n]);
  }

  lemma WritingAt<M>(v: Writer<M>, at: Stamp, text: Content<M>, first: bool)
    requires Writing(v, at, text, first)
    ensures v.current == Some(PathOf(at)) && NoneAfter(Walk([], v.tree), PathOf(at))
  {}

  lemma StartFollows<M>(tree: Listing<Content<M>>, start: Stamp)
    requires Earlier(tree, start) && Clock<M>(start, EventsOf([]))
    ensures Follows(Together(tree, start, []), Run(Init(tree, start), EventsOf([])), LastCreated<M>(start, EventsOf([])))
    ensures Together(tree, start, []).gone == {}
  {
    hide Sorted, Depth, Walk, PathOf, PathBefore, Contents, Init;
    InitWrites(tree, start);
    FilterAll(Kept<Content<M>>({}), Walk([], Init(tree, start).tree));
  }

  /**
   * A run with the pruner beside it and its close: the walk of the files is that of the same run
   * alone without the files removed, each of which lies in front of the one open last.
   */
  lemma PrunedRun<M>(tree: Listing<Content<M>>, start: Stamp, actions: seq<Action<M>>)
    requires Earlier(tree, start) && Clock(start, EventsOf(actions))
    ensures var s, v := Together(tree, start, actions), Run(Init(tree, start), EventsOf(actions));
      && Walk([], CloseFile(s.w).tree) == Filter(Kept(s.gone), Walk([], CloseFile(v).tree))
      && s.w.current == v.current == Some(PathOf(LastCreated(start, EventsOf(actions))))
      && forall p :: p in s.gone ==> Removal(p) in actions && PathBefore(p, v.current.value)
  {
    hide Sorted, Depth, Walk, Filter, PathOf, PathBefore, Contents, Segments, Run, Init, Clock, LastCreated, Write;
    hide Together, EventsOf, Kept, Earlier;
    var events := EventsOf(actions);
    var s, v, at, g := Together(tree, start, actions), Run(Init(tree, start), events), LastCreated(start, events), Segments(-1, events);
    TogetherFollows(tree, start, actions);
    RunWrites(tree, start, events);
    WriteFollows(s, v, at, Contents(Walk([], tree)) + g.Text(), g.last == [], [Close]);
  }

  lemma StampedFilter<T>(items: seq<Item<T>>, keep: Item<T> -> bool)
    requires Stamped(items)
    ensures Stamped(Filter(keep, items))
  {
    hide StampPath;
    FilterIn(keep, items);
  }

  /** And the tree is fit for the next start, so the results hold over restarts with pruning too. */
  lemma PrunedReadyForRestart<M>(tree: Listing<Content<M>>, start: Stamp, actions: seq<Action<M>>, next: Stamp)
    requires Earlier(tree, start) && Clock(start, EventsOf(actions))
    requires Usable(next) && Reading(start, EventsOf(actions), |EventsOf(actions)|) <= next.Time()
    ensures Earlier(CloseFile(Together(tree, start, actions).w).tree, next)
  {
    hide Sorted, Depth, Walk, Filter, PathOf, PathBefore, Contents, Segments, Run, Init, Clock, LastCreated, Write;
    hide Together, EventsOf, Kept, Reading, Stamped, NoneAfter, Date, Usable;
    var events := EventsOf(actions);
    var s, v, at, g := Together(tree, start, actions), Run(Init(tree, start), events), LastCreated(start, events), Segments(-1, events);
    TogetherFollows(tree, start, actions);
    RunWrites(tree, start, events);
    WriteFollows(s, v, at, Contents(Walk([], tree)) + g.Text(), g.last == [], [Close]);
    ReadyForRestart(tree, start, events, next);
    var all := Walk([], CloseFile(v).tree);
    NoneAfterFilter(all, PathOf(next), Kept(s.gone));
    StampedFilter(all, Kept(s.gone));
  }

  // ---- a pass of the pruner ----

  /** The removals of one pass over an index. */
  function Removals<M>(entries: seq<CacheIndex.CacheItem>, goes: CacheIndex.CacheItem -> bool): seq<Action<M>> {
    if entries == [] then []
    else
      var n := |entries| - 1;
      Removals(entries[..n], goes) + (if goes(entries[n]) then [Removal(entries[n].filename)] else [])
  }

  /** A pass that cannot remove the open file is a row of such removals, so any of its steps may be interleaved. */
  lemma {:induction false} PassIsRemovals<M>(tree: Listing<Content<M>>, start: Stamp, actions: seq<Action<M>>,
                                             entries: seq<CacheIndex.CacheItem>, goes: CacheIndex.CacheItem -> bool)
    requires forall i :: 0 <= i < |entries| && goes(entries[i]) ==>
      Together(tree, start, actions).w.current != Some(entries[i].filename)
    ensures var s, t := Together(tree, start, actions), Together(tree, start, actions + Removals(entries, goes));
      && t.w == s.w.(tree := CacheIndex.Pruned(s.w.tree, entries, goes))
      && EventsOf(actions + Removals(entries, goes)) == EventsOf(actions)
  {
    hide Together, EventsOf, Remove;
    if entries == [] {
      assert actions + [] == actions;
    } else {
      var n := |entries| - 1;
      PassIsRemovals(tree, start, actions, entries[..n], goes);
      var before := actions + Removals(entries[..n], goes);
      if goes(entries[n]) {
        assert actions + Removals(entries, goes) == before + [Removal(entries[n].filename)];
        OneRemoval(tree, start, before, entries[n].filename);
      } else {
        assert Removals<M>(entries, goes) == Removals(entries[..n], goes);
      }
    }
  }

  lemma OneRemoval<M>(tree: Listing<Content<M>>, start: Stamp, before: seq<Action<M>>, p: Path)
    requires Together(tree, start, before).w.current != Some(p)
    ensures var s, all := Together(tree, start, before), before + [Removal(p)];
      && Together(tree, start, all).w == s.w.(tree := Remove(s.w.tree, p))
      && EventsOf(all) == EventsOf(before)
  {
    hide Remove, Walk;
    assert (before + [Removal(p)])[..|before|] == before;
    assert EventsOf(before) + [] == EventsOf(before);
  }

  // ---- any clock ----

  lemma WritePath<M>(u: Writer<M>, v: Writer<M>, toks: Content<M>, p: Path)
    requires SamePath(u, v, p)
    ensures SamePath(Write(u, toks), Write(v, toks), p)
  {
    hide Put, ContentAt, Sorted, Depth;
    if u.current.Some? {
      PutAt(u.tree, u.current.value, toks, p);
      PutAt(v.tree, v.current.value, toks, p);
    }
  }

  /** Two writers alike in their variables and in what they have at p. */
  ghost predicate SamePath<M>(u: Writer<M>, v: Writer<M>, p: Path) {
    && |p| == 4 && u == v.(tree := u.tree) && (u.current.Some? ==> |u.current.value| == 4)
    && Sorted(u.tree) && Depth(u.tree, 4) && Sorted(v.tree) && Depth(v.tree, 4)
    && ContentAt(u.tree, p) == ContentAt(v.tree, p)
  }

  lemma CreatePath<M>(u: Writer<M>, v: Writer<M>, now: Stamp, p: Path)
    requires SamePath(u, v, p)
    ensures SamePath(CreateFile(u, now), CreateFile(v, now), p)
  {
    hide Put, ContentAt, Sorted, Depth, PathOf, Write;
    WritePath(u, v, [Close], p);
    WriteOnlyTree(u, [Close]);
    WriteOnlyTree(v, [Close]);
    PathLength(now);
    PutAt(CloseFile(u).tree, PathOf(now), [], p);
    PutAt(CloseFile(v).tree, PathOf(now), [], p);
  }

  lemma MessagePath<M>(u: Writer<M>, v: Writer<M>, e: Event<M>, p: Path)
    requires SamePath(u, v, p)
    ensures SamePath(Process(u, e), Process(v, e), p)
  {
    hide Put, ContentAt, Sorted, Depth, PathOf, Write, CreateFile, Rotates;
    var r := e.now.minute % 5;
    if Rotates(u.prevRemainder, e.now) { CreatePath(u, v, e.again, p); }
    var u' := (if Rotates(u.prevRemainder, e.now) then CreateFile(u, e.again) else u).(prevRemainder := r);
    var v' := (if Rotates(v.prevRemainder, e.now) then CreateFile(v, e.again) else v).(prevRemainder := r);
    WritePath(u', v', [if u'.firstWrite then Open else Comma, Msg(e.msg)], p);
    WriteOnlyTree(u', [if u'.firstWrite then Open else Comma, Msg(e.msg)]);
    WriteOnlyTree(v', [if u'.firstWrite then Open else Comma, Msg(e.msg)]);
  }

  /** For any clock: a file nobody removes holds what it would hold without the pruner. */
  lemma {:induction false} UnprunedFileSame<M>(tree: Listing<Content<M>>, start: Stamp, actions: seq<Action<M>>, p: Path)
    requires Sorted(tree) && Depth(tree, 4) && |p| == 4
    requires forall i :: 0 <= i < |actions| ==> actions[i] != Removal(p)
    ensures SamePath(Together(tree, start, actions).w, Run(Init(tree, start), EventsOf(actions)), p)
  {
    hide SamePath, Process, Init, Remove, Walk;
    if actions == [] {
      StartPath(tree, start, p);
    } else {
      var n := |actions| - 1;
      var before, a := actions[..n], actions[n];
      UnprunedFileSame(tree, start, before, p);
      var s, v := Together(tree, start, before), Run(Init(tree, start), EventsOf(before));
      if a.Message? {
        var events, was := EventsOf(actions), EventsOf(before);
        assert events[..|was|] == was && events[|was|] == a.e;
        MessagePath(s.w, v, a.e, p);
      } else {
        assert EventsOf(actions) == EventsOf(before);
        if s.w.current != Some(a.p) { RemovalPath(s.w, v, a.p, p); }
      }
    }
  }

  lemma StartPath<M>(tree: Listing<Content<M>>, start: Stamp, p: Path)
    requires Sorted(tree) && Depth(tree, 4) && |p| == 4
    ensures SamePath(Init(tree, start), Init(tree, start), p)
  {
    hide Put, ContentAt, Sorted, Depth, PathOf;
    PathLength(start);
    PutAt(tree, PathOf(start), [], p);
  }

  lemma RemovalPath<M>(u: Writer<M>, v: Writer<M>, q: Path, p: Path)
    requires SamePath(u, v, p) && p != q
    ensures SamePath(u.(tree := Remove(u.tree, q)), v, p)
  {
    hide Sorted, Depth, Remove, Get;
    RemoveKeepsSorted(u.tree, q, 4);
    GetRemove(u.tree, q, 4, p);
  }
}
