/** What each file of the cache holds after a run, whatever the clock did. */
module CacheFiles {
  import opened Seqs
  import opened Listing
  import opened Stamps
  import opened CacheWriter
  import opened CacheWindows

  /** The file of each segment, in the order the segments were begun. */
  function FilesOf<M>(start: Stamp, events: seq<Event<M>>): (files: seq<Path>)
    ensures files != []
  {
    if events == [] then [PathOf(start)]
    else
      var n := |events| - 1;
      var before := FilesOf(start, events[..n]);
      if Rotates(if n == 0 then -1 else events[n - 1].now.minute % 5, events[n].now)
      then before + [PathOf(events[n].again)] else before
  }

  /** The segments that went to one file, in order. */
  function SegmentsIn<M>(segments: seq<seq<M>>, files: seq<Path>, p: Path): seq<seq<M>>
    requires |segments| == |files|
  {
    if segments == [] then []
    else
      var n := |segments| - 1;
      SegmentsIn(segments[..n], files[..n], p) + (if files[n] == p then [segments[n]] else [])
  }

  lemma SegmentsInSnoc<M>(segments: seq<seq<M>>, files: seq<Path>, s: seq<M>, file: Path, p: Path)
    requires |segments| == |files|
    ensures SegmentsIn(segments + [s], files + [file], p)
      == SegmentsIn(segments, files, p) + (if file == p then [s] else [])
  {
    assert (segments + [s])[..|segments|] == segments && (files + [file])[..|files|] == files;
  }

  /** The writer has file `at` open, and `text` is at p. */
  ghost predicate Holding<M>(w: Writer<M>, at: Path, first: bool, p: Path, text: Content<M>) {
    && Sorted(w.tree) && Depth(w.tree, 4) && |at| == 4 && |p| == 4
    && w.current == Some(at) && w.firstWrite == first && ContentAt(w.tree, p) == text
  }

  lemma WriteAt<M>(w: Writer<M>, at: Path, first: bool, p: Path, text: Content<M>, toks: Content<M>)
    requires Holding(w, at, first, p, text)
    ensures Holding(Write(w, toks), at, first, p, text + (if p == at then toks else []))
  {
    hide Put, Get, Sorted, Depth, ContentAt;
    PutAt(w.tree, at, toks, p);
  }

  lemma CreateAt<M>(w: Writer<M>, at: Path, first: bool, p: Path, text: Content<M>, now: Stamp)
    requires Holding(w, at, first, p, text)
    ensures Holding(CreateFile(w, now), PathOf(now), true, p, text + (if p == at then [Close] else []))
  {
    hide Put, Get, Sorted, Depth, ContentAt, Write, PathOf;
    WriteAt(w, at, first, p, text, [Close]);
    PathLength(now);
    PutAt(CloseFile(w).tree, PathOf(now), [], p);
    var closed := text + (if p == at then [Close] else []);
    assert closed + [] == closed;
  }

  /** The text of a run at one path: its closed segments there and the open one. */
  function TextAt<M>(s: Segmented<M>, files: seq<Path>, p: Path): Content<M>
    requires |files| == |s.closed| + 1
  {
    var n := |s.closed|;
    RenderAll(SegmentsIn(s.closed, files[..n], p)) + (if p == files[n] then Unclosed(s.last) else [])
  }

  /** For any clock: each file holds what it held and its own segments, in the order they were begun. */
  lemma {:induction false} FilesHoldSegments<M>(tree: Listing<Content<M>>, start: Stamp, events: seq<Event<M>>, p: Path)
    requires Sorted(tree) && Depth(tree, 4) && |p| == 4
    ensures var w := Run(Init(tree, start), events);
      var s := Segments(-1, events);
      var files := FilesOf(start, events);
      && |files| == |s.closed| + 1
      && Holding(w, files[|s.closed|], s.last == [], p, ContentAt(tree, p) + TextAt(s, files, p))
      && w.prevRemainder == (if events == [] then -1 else events[|events| - 1].now.minute % 5)
  {
    hide Holding, Rotates, Process, ContentAt, TextAt, Init;
    var base := ContentAt(tree, p);
    if events == [] {
      InitAt(tree, start, p);
    } else {
      var n := |events| - 1;
      var before, e := events[..n], events[n];
      FilesHoldSegments(tree, start, before, p);
      var s, files := Segments(-1, before), FilesOf(start, before);
      StepAt(Run(Init(tree, start), before), s, files, p, base, e);
    }
  }

  lemma InitAt<M>(tree: Listing<Content<M>>, start: Stamp, p: Path)
    requires Sorted(tree) && Depth(tree, 4) && |p| == 4
    ensures var s: Segmented<M> := Segments(-1, []);
      Holding(Init(tree, start), PathOf(start), true, p, ContentAt(tree, p) + TextAt(s, [PathOf(start)], p))
    ensures Init(tree, start).prevRemainder == -1
  {
    hide Put, Get, Sorted, Depth, ContentAt, PathOf;
    PathLength(start);
    PutAt(tree, PathOf(start), [], p);
  }

  /** One message: the segments at p before and after it. */
  lemma StepAt<M>(w: Writer<M>, s: Segmented<M>, files: seq<Path>, p: Path, base: Content<M>, e: Event<M>)
    requires |files| == |s.closed| + 1
    requires Holding(w, files[|s.closed|], s.last == [], p, base + TextAt(s, files, p))
    ensures var v := Process(w, e);
      && v.prevRemainder == e.now.minute % 5
      && (Rotates(w.prevRemainder, e.now) ==>
            Holding(v, PathOf(e.again), false, p,
                 base + TextAt(Segmented(s.closed + [s.last], [e.msg]), files + [PathOf(e.again)], p)))
      && (!Rotates(w.prevRemainder, e.now) ==>
            Holding(v, files[|s.closed|], false, p, base + TextAt(s.(last := s.last + [e.msg]), files, p)))
  {
    hide Rotates, Put, Get, ContentAt, PathOf, TextAt, Sorted, Depth;
    var at, text := files[|s.closed|], base + TextAt(s, files, p);
    if Rotates(w.prevRemainder, e.now) {
      var next := PathOf(e.again);
      CreateAt(w, at, s.last == [], p, text, e.again);
      var u := CreateFile(w, e.again).(prevRemainder := e.now.minute % 5);
      var closed := text + (if p == at then [Close] else []);
      WriteAt(u, next, true, p, closed, [Open, Msg(e.msg)]);
      TextRotated(s, files, p, next, e.msg);
      assert closed + (if p == next then [Open, Msg(e.msg)] else [])
        == base + (TextAt(s, files, p) + (if p == at then [Close] else []) + (if p == next then [Open, Msg(e.msg)] else []));
    } else {
      var u := w.(prevRemainder := e.now.minute % 5);
      var toks := [if s.last == [] then Open else Comma, Msg(e.msg)];
      WriteAt(u, at, s.last == [], p, text, toks);
      TextContinued(s, files, p, e.msg);
      assert text + (if p == at then toks else []) == base + (TextAt(s, files, p) + (if p == at then toks else []));
    }
  }

  lemma TextContinued<M>(s: Segmented<M>, files: seq<Path>, p: Path, m: M)
    requires |files| == |s.closed| + 1
    ensures TextAt(s.(last := s.last + [m]), files, p) == TextAt(s, files, p)
      + (if p == files[|s.closed|] then [if s.last == [] then Open else Comma, Msg(m)] else [])
  {
    hide Unclosed, RenderAll;
    UnclosedMore(s.last, m);
  }

  lemma TextRotated<M>(s: Segmented<M>, files: seq<Path>, p: Path, next: Path, m: M)
    requires |files| == |s.closed| + 1
    ensures TextAt(Segmented(s.closed + [s.last], [m]), files + [next], p) == TextAt(s, files, p)
      + (if p == files[|s.closed|] then [Close] else []) + (if p == next then [Open, Msg(m)] else [])
  {
    hide Unclosed, RenderAll, SegmentsIn;
    var n := |s.closed|;
    var here := SegmentsIn(s.closed, files[..n], p);
    assert files == files[..n] + [files[n]] && (files + [next])[..n + 1] == files;
    SegmentsInSnoc(s.closed, files[..n], s.last, files[n], p);
    UnclosedMore([], m);
    assert [] + [m] == [m];
    if p == files[n] { RenderSnoc(here, s.last); } else { assert here + [] == here; }
  }

  /**
   * After a run and its close every file holds its earlier bytes and the rendering of exactly the
   * segments begun in it, which decode to their messages; together the segments hold every message
   * of the run once and in order.
   */
  lemma FilesHoldEveryMessage<M>(tree: Listing<Content<M>>, start: Stamp, events: seq<Event<M>>, p: Path)
    requires Sorted(tree) && Depth(tree, 4) && |p| == 4
    ensures var s, files := Segments(-1, events), FilesOf(start, events);
      var segments := s.closed + [s.last];
      && |files| == |segments|
      && ContentAt(CloseFile(Run(Init(tree, start), events)).tree, p)
           == ContentAt(tree, p) + RenderAll(SegmentsIn(segments, files, p))
      && Decode(RenderAll(SegmentsIn(segments, files, p))) == Some((AtStart, Concat(SegmentsIn(segments, files, p))))
      && Concat(segments) == Messages(events)
  {
    hide Sorted, Depth, ContentAt, Write, Run, Init, Segments, FilesOf, SegmentsIn, RenderAll, Unclosed;
    var s, files := Segments(-1, events), FilesOf(start, events);
    var n, w, base := |s.closed|, Run(Init(tree, start), events), ContentAt(tree, p);
    FilesHoldSegments(tree, start, events, p);
    var text := TextAt(s, files, p);
    WriteAt(w, files[n], s.last == [], p, base + text, [Close]);
    var here := SegmentsIn(s.closed, files[..n], p);
    assert files == files[..n] + [files[n]];
    SegmentsInSnoc(s.closed, files[..n], s.last, files[n], p);
    if p == files[n] { RenderSnoc(here, s.last); } else { assert here + [] == here; }
    var all := SegmentsIn(s.closed + [s.last], files, p);
    assert text + (if p == files[n] then [Close] else []) == RenderAll(all);
    assert base + text + (if p == files[n] then [Close] else []) == base + RenderAll(all);
    SegmentsHoldAll(-1, events);
    ConcatSnoc(s.closed, s.last);
    DecodeNothing<M>();
    DecodeRenderAll([], [], all);
    assert [] + RenderAll(all) == RenderAll(all) && [] + Concat(all) == Concat(all);
  }

  // ---- which files are JSON ----

  /** File k is the only one of that path. */
  predicate OnlyAt(files: seq<Path>, p: Path, k: nat) {
    k < |files| && files[k] == p && forall j :: 0 <= j < |files| && j != k ==> files[j] != p
  }

  lemma {:induction false} SegmentsInNone<M>(segments: seq<seq<M>>, files: seq<Path>, p: Path)
    requires |segments| == |files|
    ensures SegmentsIn(segments, files, p) == [] <==> forall j :: 0 <= j < |files| ==> files[j] != p
  {
    if segments != [] {
      var n := |segments| - 1;
      SegmentsInNone(segments[..n], files[..n], p);
      assert forall j :: 0 <= j < n ==> files[..n][j] == files[j];
    }
  }

  lemma {:induction false} SegmentsInOnly<M>(segments: seq<seq<M>>, files: seq<Path>, p: Path, k: nat)
    requires |segments| == |files| && OnlyAt(files, p, k)
    ensures SegmentsIn(segments, files, p) == [segments[k]]
  {
    var n := |segments| - 1;
    if k == n {
      SegmentsInNone(segments[..n], files[..n], p);
    } else {
      SegmentsInOnly(segments[..n], files[..n], p, k);
    }
  }

  lemma {:induction false} OnlyOne<M>(segments: seq<seq<M>>, files: seq<Path>, p: Path) returns (k: nat)
    requires |segments| == |files| && |SegmentsIn(segments, files, p)| == 1
    ensures OnlyAt(files, p, k)
  {
    var n := |segments| - 1;
    if files[n] == p {
      SegmentsInNone(segments[..n], files[..n], p);
      assert forall j :: 0 <= j < n ==> files[..n][j] == files[j];
      k := n;
    } else {
      k := OnlyOne(segments[..n], files[..n], p);
      assert forall j :: 0 <= j < n ==> files[..n][j] == files[j];
    }
  }

  /**
   * For any clock: what a run and its close add to a file is one JSON array if and only if the run
   * opened the file once, and not as its first one with the first message due in another file.
   */
  lemma FileIsArrayIff<M>(tree: Listing<Content<M>>, start: Stamp, events: seq<Event<M>>, p: Path)
    requires Sorted(tree) && Depth(tree, 4) && |p| == 4
    ensures var files := FilesOf(start, events);
      var before, after := ContentAt(tree, p), ContentAt(CloseFile(Run(Init(tree, start), events)).tree, p);
      && before <= after
      && (IsArray(after[|before|..]) <==>
            exists k :: OnlyAt(files, p, k) && (k > 0 || (events != [] && !Rotates(-1, events[0].now))))
  {
    hide ContentAt, Write, Run, Init, Segments, FilesOf, SegmentsIn, RenderAll, IsArray, OnlyAt, Rotates, Sorted, Depth;
    var s, files := Segments(-1, events), FilesOf(start, events);
    var segments := s.closed + [s.last];
    FilesHoldEveryMessage(tree, start, events, p);
    EmptySegmentIff(-1, events);
    var mine := SegmentsIn(segments, files, p);
    SegmentsAreArrayIff(mine);
    if |mine| == 1 {
      var k := OnlyOne(segments, files, p);
      SegmentsInOnly(segments, files, p, k);
    }
    forall k: nat | OnlyAt(files, p, k) ensures k < |segments| && mine == [segments[k]] {
      OnlyInside(files, p, k);
      SegmentsInOnly(segments, files, p, k);
    }
  }

  lemma OnlyInside(files: seq<Path>, p: Path, k: nat)
    requires OnlyAt(files, p, k)
    ensures k < |files|
  {}

  // ---- with a clock that does not go back ----

  /** The minute each file is named for. */
  function CreationsOf<M>(start: Stamp, events: seq<Event<M>>): (creations: seq<Stamp>)
    ensures creations != [] && creations[0] == start
  {
    if events == [] then [start]
    else
      var n := |events| - 1;
      var before := CreationsOf(start, events[..n]);
      if Rotates(if n == 0 then -1 else events[n - 1].now.minute % 5, events[n].now)
      then before + [events[n].again] else before
  }

  lemma {:induction false} FilesOfCreations<M>(start: Stamp, events: seq<Event<M>>)
    ensures var files, creations := FilesOf(start, events), CreationsOf(start, events);
      && |creations| == |files|
      && (forall j :: 0 <= j < |creations| ==> files[j] == PathOf(creations[j]))
      && creations[|creations| - 1] == LastCreated(start, events)
  {
    hide PathOf, Rotates;
    if events != [] {
      FilesOfCreations(start, events[..|events| - 1]);
    }
  }

  /** Each file is named for a later minute than the ones before it, but perhaps not the first one of the messages. */
  ghost predicate InOrder(creations: seq<Stamp>, second: bool) {
    && (forall j :: 0 <= j < |creations| ==> creations[j].Valid())
    && (forall j, l :: 0 <= j < l < |creations| ==>
          creations[j].Time() <= creations[l].Time() && (l > 1 || second ==> creations[j].Time() < creations[l].Time()))
  }

  predicate FirstRotates<M>(events: seq<Event<M>>) { events != [] && Rotates(-1, events[0].now) }

  lemma InOrderMore(creations: seq<Stamp>, second: bool, now: Stamp)
    requires creations != [] && InOrder(creations, second) && now.Valid()
    requires var last := creations[|creations| - 1].Time();
      last <= now.Time() && (|creations| > 1 || second ==> last < now.Time())
    ensures InOrder(creations + [now], second)
  {
    hide Date, Stamp.Valid;
  }

  lemma {:induction false} CreationsInOrder<M>(start: Stamp, events: seq<Event<M>>)
    requires Ticking(start, events)
    ensures InOrder(CreationsOf(start, events), !FirstRotates(events))
  {
    hide InOrder, Rotates, Date, Stamp.Valid, LastCreated, Ticking;
    if |events| <= 1 {
      FewInOrder(start, events);
    } else {
      var n := |events| - 1;
      var before := events[..n];
      TickingPrefix(start, events);
      CreationsInOrder(start, before);
      assert before[0] == events[0];
      if Rotates(events[n - 1].now.minute % 5, events[n].now) {
        LaterThanLast(start, events);
        FilesOfCreations(start, before);
        InOrderMore(CreationsOf(start, before), !FirstRotates(events), events[n].again);
      }
    }
  }

  lemma FewInOrder<M>(start: Stamp, events: seq<Event<M>>)
    requires Ticking(start, events) && |events| <= 1
    ensures InOrder(CreationsOf(start, events), !FirstRotates(events))
  {
    hide Rotates, Date, Stamp.Valid;
    if events != [] {
      assert Reading(start, events, 0) <= events[0].now.Time();
      assert CreationsOf(start, events[..0]) == [start];
    }
  }

  /** A rotation names its file for a later minute than the file before. */
  lemma LaterThanLast<M>(start: Stamp, events: seq<Event<M>>)
    requires Ticking(start, events) && |events| > 1
    requires Rotates(events[|events| - 2].now.minute % 5, events[|events| - 1].now)
    ensures events[|events| - 1].again.Valid()
    ensures LastCreated(start, events[..|events| - 1]).Time() < events[|events| - 1].again.Time()
  {
    hide Date, LastCreated;
    var n := |events| - 1;
    MinuteOfTime(events[n].now);
    MinuteOfTime(events[n - 1].now);
    RotationIsLater(start, events, n - 1, n);
  }

  lemma Apart(creations: seq<Stamp>, second: bool, j: nat, l: nat)
    requires InOrder(creations, second) && j < l < |creations| && (l > 1 || second)
    ensures PathOf(creations[j]) != PathOf(creations[l])
  {
    hide Date, PathOf, Stamp.Valid;
    PathsDistinct(creations[j], creations[l]);
  }

  /** Only the startup file can be opened again, by a first message due in another file. */
  lemma OpenedOnce<M>(start: Stamp, events: seq<Event<M>>, k: nat)
    requires Ticking(start, events) && k < |FilesOf(start, events)|
    requires FilesOf(start, events)[k] != PathOf(start) || !FirstRotates(events)
    ensures OnlyAt(FilesOf(start, events), FilesOf(start, events)[k], k)
  {
    hide InOrder, PathOf, Date, Ticking, FirstRotates;
    var files, creations := FilesOf(start, events), CreationsOf(start, events);
    CreationsInOrder(start, events);
    FilesOfCreations(start, events);
    forall j | 0 <= j < |files| && j != k ensures files[j] != files[k] {
      if j > 1 || k > 1 || !FirstRotates(events) {
        Apart(creations, !FirstRotates(events), if j < k then j else k, if j < k then k else j);
      }
    }
  }

  /**
   * For a clock that does not go back: of the files of a run each gains one JSON array, but for the
   * startup file when there is no message or the first one is already due in another file.
   */
  lemma TickingFileIsArrayIff<M>(tree: Listing<Content<M>>, start: Stamp, events: seq<Event<M>>, p: Path)
    requires Sorted(tree) && Depth(tree, 4) && Ticking(start, events) && p in FilesOf(start, events)
    ensures var before, after := ContentAt(tree, p), ContentAt(CloseFile(Run(Init(tree, start), events)).tree, p);
      && before <= after
      && (IsArray(after[|before|..]) <==> !(p == PathOf(start) && (events == [] || Rotates(-1, events[0].now))))
  {
    hide ContentAt, Write, Run, Init, FilesOf, IsArray, Rotates, Sorted, Depth, PathOf, Ticking;
    var files := FilesOf(start, events);
    var k: nat :| k < |files| && files[k] == p;
    var creations := CreationsOf(start, events);
    FilesOfCreations(start, events);
    PathLength(creations[k]);
    FileIsArrayIff(tree, start, events, p);
    if p != PathOf(start) {
      OpenedOnce(start, events, k);
    } else if events != [] && !Rotates(-1, events[0].now) {
      OpenedOnce(start, events, 0);
    }
  }

  /** Where it fails: the first message is due in another file that is the same one; it gains "]" and then an array. */
  lemma ReopenedAtOnce<M>(tree: Listing<Content<M>>, s: Stamp, m: M)
    requires Sorted(tree) && Depth(tree, 4) && s.Valid() && s.minute % 5 == 0
    ensures var events := [Event(m, s, s)];
      && Ticking(s, events) && FilesOf(s, events) == [PathOf(s), PathOf(s)]
      && ContentAt(CloseFile(Run(Init(tree, s), events)).tree, PathOf(s))
           == ContentAt(tree, PathOf(s)) + [Close, Open, Msg(m), Close]
  {
    hide ContentAt, Write, Run, Init, Sorted, Depth, PathOf, Date, Decode, Segments, FilesOf, SegmentsIn, RenderAll;
    hide Ticking, Stamp.Valid, Messages, Concat;
    var events := [Event(m, s, s)];
    var p := PathOf(s);
    PathLength(s);
    OneDueAtOnce(s, m);
    FilesHoldEveryMessage(tree, s, events, p);
    assert [[]] + [[m]] == [[], [m]];
    TwoSegments(p, m);
  }

  lemma OneDueAtOnce<M>(s: Stamp, m: M)
    requires s.Valid() && s.minute % 5 == 0
    ensures var events := [Event(m, s, s)];
      && Ticking(s, events) && FilesOf(s, events) == [PathOf(s), PathOf(s)]
      && Segments(-1, events) == Segmented([[]], [m])
  {
    hide PathOf, Date;
    var events := [Event(m, s, s)];
    assert FilesOf(s, events[..0]) == [PathOf(s)];
    assert Segments(-1, events[..0]) == Segmented([], []);
  }

  lemma TwoSegments<M>(p: Path, m: M)
    ensures RenderAll(SegmentsIn([[], [m]], [p, p], p)) == [Close, Open, Msg(m), Close]
  {
    var none: seq<seq<M>> := [[]];
    assert [[], [m]] == none + [[m]] && [p, p] == [p] + [p];
    SegmentsInOnly(none, [p], p, 0);
    SegmentsInSnoc(none, [p], [m], p, p);
    assert SegmentsIn([[], [m]], [p, p], p) == [[], [m]];
    RenderSnoc(none, [m]);
    RenderSnoc<M>([], []);
    UnclosedMore([], m);
    assert [] + [m] == [m] && [] + none == none;
    assert RenderAll<M>([]) == [];
  }
}
