/** The history cache: JSON arrays appended to files that rotate with the clock. */
module CacheWriter {
  import opened Seqs
  import opened Listing
  import opened Stamps

  /** What is written, one token a Write; a marshalled message is one token. */
  datatype Tok<M> = Open | Comma | Close | Msg(m: M)

  type Content<M> = seq<Tok<M>>

  /** The globals of the writer; `current` is the open file, none before the first is created. */
  datatype Writer<M> = Writer(tree: Listing<Content<M>>, current: Option<Path>, firstWrite: bool, prevRemainder: int)

  /** A message and the clock: read when it arrives, and read again if a file is created for it. */
  datatype Event<M> = Event(msg: M, now: Stamp, again: Stamp)

  function Adding<M>(toks: Content<M>): Option<Content<M>> -> Content<M> {
    (c: Option<Content<M>>) => (if c.Some? then c.value else []) + toks
  }

  function Write<M>(w: Writer<M>, toks: Content<M>): Writer<M> {
    if w.current.Some? && w.current.value != [] then w.(tree := Put(w.tree, w.current.value, Adding(toks))) else w
  }

  function CloseFile<M>(w: Writer<M>): Writer<M> { Write(w, [Close]) }

  function CreateFile<M>(w: Writer<M>, now: Stamp): Writer<M> {
    Writer(Put(CloseFile(w).tree, PathOf(now), Adding([])), Some(PathOf(now)), true, w.prevRemainder)
  }

  function Init<M>(tree: Listing<Content<M>>, now: Stamp): Writer<M> {
    CreateFile(Writer(tree, None, false, 0), now).(prevRemainder := -1)
  }

  predicate Rotates(prevRemainder: int, now: Stamp) {
    now.minute % 5 == 0 && now.minute % 5 != prevRemainder
  }

  function Process<M>(w: Writer<M>, e: Event<M>): Writer<M> {
    var v := (if Rotates(w.prevRemainder, e.now) then CreateFile(w, e.again) else w)
      .(prevRemainder := e.now.minute % 5);
    if v.current.None? then v
    else Write(v, [if v.firstWrite then Open else Comma, Msg(e.msg)]).(firstWrite := false)
  }

  function Run<M>(w: Writer<M>, events: seq<Event<M>>): Writer<M> {
    if events == [] then w else Process(Run(w, events[..|events| - 1]), events[|events| - 1])
  }

  // ---- what is at a path ----

  /** The bytes at a path; none where no file is. */
  function ContentAt<M>(tree: Listing<Content<M>>, p: Path): Content<M> {
    var c := Get(tree, p);
    if c.Some? then c.value else []
  }

  lemma PutAt<M>(tree: Listing<Content<M>>, q: Path, toks: Content<M>, p: Path)
    requires Sorted(tree) && Depth(tree, 4) && |p| == 4 && |q| == 4
    ensures var after := Put(tree, q, Adding(toks));
      && Sorted(after) && Depth(after, 4) && (p == q ==> Get(after, q).Some?)
      && ContentAt(after, p) == ContentAt(tree, p) + (if p == q then toks else [])
  {
    hide Put, Get, Sorted, Depth;
    GetPut(tree, q, Adding(toks), p);
    PutKeepsSorted(tree, q, Adding(toks));
    assert ContentAt(tree, p) + [] == ContentAt(tree, p);
  }

  // ---- what ends up in the files ----

  /** The bytes of all files, in the order of the walk. */
  function Contents<M>(items: seq<Item<Content<M>>>): Content<M> {
    if items == [] then [] else items[0].content + Contents(items[1..])
  }

  lemma {:induction false} ContentsAppend<M>(a: seq<Item<Content<M>>>, b: seq<Item<Content<M>>>)
    ensures Contents(a + b) == Contents(a) + Contents(b)
  {
    if a == [] {
      assert a + b == b;
    } else {
      assert (a + b)[1..] == a[1..] + b;
      ContentsAppend(a[1..], b);
    }
  }

  /** A segment that still lacks its closing bracket. */
  function Unclosed<M>(ms: seq<M>): Content<M> {
    if ms == [] then [] else Unclosed(ms[..|ms| - 1]) + [if |ms| == 1 then Open else Comma, Msg(ms[|ms| - 1])]
  }

  /** A closed segment: a lone "]" when it has no message, else "[" m ("," m)* "]". */
  function Render<M>(ms: seq<M>): Content<M> { Unclosed(ms) + [Close] }

  function RenderAll<M>(segments: seq<seq<M>>): Content<M> {
    if segments == [] then [] else RenderAll(segments[..|segments| - 1]) + Render(segments[|segments| - 1])
  }

  /** The messages of a run by segment: the closed ones and the one being written. */
  datatype Segmented<M> = Segmented(closed: seq<seq<M>>, last: seq<M>) {
    function All(): seq<M> { Concat(closed) + last }
    function Text(): Content<M> { RenderAll(closed) + Unclosed(last) }
  }

  function Segments<M>(prevRemainder: int, events: seq<Event<M>>): Segmented<M> {
    if events == [] then Segmented([], [])
    else
      var n := |events| - 1;
      var s := Segments(prevRemainder, events[..n]);
      var prev := if n == 0 then prevRemainder else events[n - 1].now.minute % 5;
      if Rotates(prev, events[n].now) then Segmented(s.closed + [s.last], [events[n].msg])
      else s.(last := s.last + [events[n].msg])
  }

  function Messages<M>(events: seq<Event<M>>): (ms: seq<M>)
    ensures |ms| == |events|
  {
    seq(|events|, i requires 0 <= i < |events| => events[i].msg)
  }

  /** Segments hold every message once, in order. */
  lemma {:induction false} SegmentsHoldAll<M>(prev: int, events: seq<Event<M>>)
    ensures Segments(prev, events).All() == Messages(events)
  {
    hide Rotates;
    if events != [] {
      var n := |events| - 1;
      SegmentsHoldAll(prev, events[..n]);
      var s, m := Segments(prev, events[..n]), events[n].msg;
      ConcatSnoc(s.closed, s.last);
      assert Concat(s.closed) + (s.last + [m]) == s.All() + [m];
      assert Messages(events) == Messages(events[..n]) + [events[n].msg];
    }
  }

  // ---- decoding ----

  datatype Phase = AtStart | WantMsg | AfterMsg

  /** A reader of segments one after the other: the phase it ends in and the messages. */
  function Decode<M>(s: Content<M>): Option<(Phase, seq<M>)> {
    if s == [] then Some((AtStart, []))
    else
      var n := |s| - 1;
      var before := Decode(s[..n]);
      if before.None? then None else Next(before.value, s[n])
  }

  /** One JSON array of messages and nothing more: the only closing bracket is the last token. */
  predicate IsArray<M>(s: Content<M>) {
    && s != [] && s[0] == Open && s[|s| - 1] == Close
    && (forall i :: 0 <= i < |s| - 1 ==> s[i] != Close)
    && Decode(s).Some? && Decode(s).value.0 == AtStart
  }

  /** One token more. */
  function Next<M>(r: (Phase, seq<M>), t: Tok<M>): Option<(Phase, seq<M>)> {
    match (r.0, t)
    case (AtStart, Close) => Some((AtStart, r.1))
    case (AtStart, Open) => Some((WantMsg, r.1))
    case (WantMsg, Msg(m)) => Some((AfterMsg, r.1 + [m]))
    case (AfterMsg, Comma) => Some((WantMsg, r.1))
    case (AfterMsg, Close) => Some((AtStart, r.1))
    case _ => None
  }

  lemma DecodeSnoc<M>(s: Content<M>, t: Tok<M>)
    requires Decode(s).Some?
    ensures Decode(s + [t]) == Next(Decode(s).value, t)
  {
    hide Next;
    assert (s + [t])[..|s|] == s;
  }

  lemma {:induction false} DecodeUnclosed<M>(s: Content<M>, before: seq<M>, ms: seq<M>)
    requires Decode(s) == Some((AtStart, before))
    ensures Decode(s + Unclosed(ms)) == Some((if ms == [] then AtStart else AfterMsg, before + ms))
  {
    hide Decode;
    if ms == [] {
      assert s + Unclosed(ms) == s && before + ms == before;
    } else {
      var n := |ms| - 1;
      DecodeUnclosed(s, before, ms[..n]);
      var u := s + Unclosed(ms[..n]);
      var sep := if |ms| == 1 then Open else Comma;
      assert s + Unclosed(ms) == u + [sep] + [Msg(ms[n])];
      DecodeSnoc(u, sep);
      DecodeSnoc(u + [sep], Msg(ms[n]));
      assert before + ms == before + ms[..n] + [ms[n]];
    }
  }

  lemma DecodeRender<M>(s: Content<M>, before: seq<M>, ms: seq<M>)
    requires Decode(s) == Some((AtStart, before))
    ensures Decode(s + Render(ms)) == Some((AtStart, before + ms))
  {
    hide Decode, Unclosed;
    DecodeUnclosed(s, before, ms);
    assert s + Render(ms) == s + Unclosed(ms) + [Close];
    DecodeSnoc(s + Unclosed(ms), Close);
  }

  lemma {:induction false} DecodeRenderAll<M>(s: Content<M>, before: seq<M>, segments: seq<seq<M>>)
    requires Decode(s) == Some((AtStart, before))
    ensures Decode(s + RenderAll(segments)) == Some((AtStart, before + Concat(segments)))
  {
    hide Decode, Render;
    if segments == [] {
      assert s + RenderAll(segments) == s && before + Concat(segments) == before;
    } else {
      var n := |segments| - 1;
      DecodeRenderAll(s, before, segments[..n]);
      DecodeRender(s + RenderAll(segments[..n]), before + Concat(segments[..n]), segments[n]);
      ConcatSnoc(segments[..n], segments[n]);
      assert segments == segments[..n] + [segments[n]];
      assert s + RenderAll(segments) == s + RenderAll(segments[..n]) + Render(segments[n]);
      assert before + Concat(segments) == before + Concat(segments[..n]) + segments[n];
    }
  }

  lemma {:induction false} UnclosedIsOpen<M>(ms: seq<M>)
    ensures ms != [] ==> Unclosed(ms) != [] && Unclosed(ms)[0] == Open
    ensures forall i :: 0 <= i < |Unclosed(ms)| ==> Unclosed(ms)[i] != Close
  {
    if ms != [] {
      UnclosedIsOpen(ms[..|ms| - 1]);
      assert |ms| == 1 ==> Unclosed(ms[..0]) == [];
    }
  }

  /** A segment is a JSON array exactly when a message was written between its file's opening and closing. */
  lemma SegmentIsArrayIff<M>(ms: seq<M>)
    ensures IsArray(Render(ms)) <==> ms != []
  {
    hide Unclosed, Decode;
    DecodeNothing<M>();
    DecodeRender([], [], ms);
    assert [] + Render(ms) == Render(ms);
    UnclosedIsOpen(ms);
    if ms == [] { assert Render(ms) == [Close] by { UnclosedNothing<M>(); } }
  }

  lemma UnclosedNothing<M>()
    ensures Unclosed<M>([]) == []
  {}

  lemma DecodeNothing<M>()
    ensures Decode<M>([]) == Some((AtStart, []))
  {}

  /** Several segments in one file are no JSON array: what is written to a file is one exactly if it is one segment with a message. */
  lemma SegmentsAreArrayIff<M>(segments: seq<seq<M>>)
    ensures IsArray(RenderAll(segments)) <==> |segments| == 1 && segments[0] != []
  {
    hide Render, Decode;
    if |segments| == 1 {
      SegmentIsArrayIff(segments[0]);
      assert RenderAll(segments[..0]) == [];
      assert RenderAll(segments) == Render(segments[0]);
    } else if |segments| > 1 {
      var n := |segments| - 1;
      var before := RenderAll(segments[..n]);
      EndsClosed(segments[..n]);
      EndsClosed(segments);
      assert RenderAll(segments)[|before| - 1] == Close;
    }
  }

  lemma EndsClosed<M>(segments: seq<seq<M>>)
    requires segments != []
    ensures var n := |segments| - 1;
      && |RenderAll(segments[..n])| < |RenderAll(segments)|
      && RenderAll(segments)[|RenderAll(segments)| - 1] == Close
  {
    hide Unclosed;
  }

  /** Over a run only the first segment can be empty: when the first message is already due in another file. */
  lemma {:induction false} EmptySegmentIff<M>(prev: int, events: seq<Event<M>>)
    ensures var s := Segments(prev, events);
      var segments := s.closed + [s.last];
      && (forall k :: 0 < k < |segments| ==> segments[k] != [])
      && (segments[0] == [] <==> events == [] || Rotates(prev, events[0].now))
  {
    hide Rotates;
    if events != [] {
      var n := |events| - 1;
      EmptySegmentIff(prev, events[..n]);
      var s, t := Segments(prev, events[..n]), Segments(prev, events);
      var before, after := s.closed + [s.last], t.closed + [t.last];
      assert t.last != [];
      if |after| > |before| {
        assert after == before + [t.last];
      } else {
        assert forall k :: 0 <= k < |s.closed| ==> after[k] == before[k];
      }
    }
  }

  // ---- conservation over runs ----

  predicate Usable(s: Stamp) { s.Valid() && FourDigitYear(s) }

  /** A clock that never goes back, also not between its two readings. */
  ghost predicate Ticking<M>(start: Stamp, events: seq<Event<M>>) {
    && start.Valid()
    && (forall i :: 0 <= i < |events| ==>
          (events[i].now.Valid() && events[i].again.Valid() && events[i].now.Time() <= events[i].again.Time()))
    && (forall i {:trigger Reading(start, events, i)} :: 0 <= i < |events| ==>
          Reading(start, events, i) <= events[i].now.Time())
  }

  /** All its readings have four-digit years. */
  ghost predicate Clock<M>(start: Stamp, events: seq<Event<M>>) {
    && Ticking(start, events) && Usable(start)
    && (forall i :: 0 <= i < |events| ==> Usable(events[i].now) && Usable(events[i].again))
  }

  /** The last reading of the clock in front of event i. */
  function Reading<M>(start: Stamp, events: seq<Event<M>>, i: nat): int
    requires i <= |events|
  {
    if i == 0 then start.Time() else events[i - 1].again.Time()
  }

  /** The tree before the start: sorted, and nothing in it is later than the start. */
  ghost predicate Earlier<M>(tree: Listing<Content<M>>, start: Stamp) {
    Sorted(tree) && Depth(tree, 4) && Stamped(Walk([], tree)) && NoneAfter(Walk([], tree), PathOf(start))
  }

  ghost predicate StampPath(p: Path) { exists s: Stamp :: Usable(s) && PathOf(s) == p }

  /** Every file of the walk was created for some minute. */
  ghost predicate Stamped<T>(items: seq<Item<T>>) {
    forall i :: 0 <= i < |items| ==> StampPath(items[i].path)
  }

  /** The open file is the last of the walk, and the bytes so far are `text`. */
  ghost predicate Writing<M>(w: Writer<M>, at: Stamp, text: Content<M>, first: bool) {
    && Usable(at) && Sorted(w.tree) && Depth(w.tree, 4)
    && w.current == Some(PathOf(at)) && w.firstWrite == first
    && LastIs(Walk([], w.tree), PathOf(at)) && Stamped(Walk([], w.tree))
    && Contents(Walk([], w.tree)) == text
  }

  ghost predicate LastIs<M>(items: seq<Item<Content<M>>>, p: Path) {
    items != [] && items[|items| - 1].path == p && NoneAfter(items, p)
  }

  lemma AppendedPaths<M>(items: seq<Item<Content<M>>>, p: Path, f: Option<Content<M>> -> Content<M>)
    requires NoneAfter(items, p) && Stamped(items) && StampPath(p)
    ensures LastIs(Appended(items, p, f), p) && Stamped(Appended(items, p, f))
  {
    hide StampPath, PathBefore;
    var after := Appended(items, p, f);
    forall i | 0 <= i < |after| ensures StampPath(after[i].path) && (after[i].path == p || PathBefore(after[i].path, p)) {
      assert i < |items| ==> after[i].path == items[i].path;
    }
  }

  lemma AppendedContents<M>(items: seq<Item<Content<M>>>, p: Path, toks: Content<M>)
    ensures Contents(Appended(items, p, Adding(toks))) == Contents(items) + toks
  {
    var after, n := Appended(items, p, Adding(toks)), |items| - 1;
    if items != [] && items[n].path == p {
      var last := Item(p, items[n].content + toks);
      assert after == items[..n] + [last] && items == items[..n] + [items[n]];
      ContentsAppend(items[..n], [last]);
      ContentsAppend(items[..n], [items[n]]);
      ContentsOfOne(last);
      ContentsOfOne(items[n]);
    } else {
      ContentsAppend(items, [Item(p, [] + toks)]);
      ContentsOfOne(Item(p, [] + toks));
    }
  }

  lemma ContentsOfOne<M>(item: Item<Content<M>>)
    ensures Contents([item]) == item.content
  {
    assert Contents([item]) == item.content + Contents([item][1..]);
  }

  lemma PutContents<M>(tree: Listing<Content<M>>, at: Stamp, toks: Content<M>)
    requires Sorted(tree) && Depth(tree, 4) && NoneAfter(Walk([], tree), PathOf(at))
    requires Stamped(Walk([], tree)) && Usable(at)
    ensures var after := Put(tree, PathOf(at), Adding(toks));
      && Sorted(after) && Depth(after, 4)
      && LastIs(Walk([], after), PathOf(at)) && Stamped(Walk([], after))
      && Contents(Walk([], after)) == Contents(Walk([], tree)) + toks
  {
    hide Sorted, Depth, PathOf, Contents, LastIs, Appended, Put, Walk, Stamped, StampPath, Usable;
    assert StampPath(PathOf(at)) by { StampPathOf(at); }
    var p := PathOf(at);
    assert [] + p == p;
    assert |p| == 4 by { PathLength(at); }
    PutKeepsSorted(tree, p, Adding(toks));
    PutAtEnd([], tree, p, Adding(toks));
    AppendedPaths(Walk([], tree), p, Adding(toks));
    AppendedContents(Walk([], tree), p, toks);
  }

  lemma StampPathOf(s: Stamp)
    requires Usable(s)
    ensures StampPath(PathOf(s))
  {}

  lemma PathLength(s: Stamp)
    ensures |PathOf(s)| == 4
  {}

  lemma WriteKeeps<M>(w: Writer<M>, at: Stamp, text: Content<M>, first: bool, toks: Content<M>)
    requires Writing(w, at, text, first)
    ensures Writing(Write(w, toks), at, text + toks, first)
  {
    hide Sorted, Depth, PathOf, Contents, Put, Walk;
    PathLength(at);
    PutContents(w.tree, at, toks);
  }

  lemma CreateKeeps<M>(w: Writer<M>, at: Stamp, text: Content<M>, first: bool, now: Stamp)
    requires Writing(w, at, text, first) && Usable(at) && Usable(now) && at.Time() <= now.Time()
    ensures Writing(CreateFile(w, now), now, text + [Close], true)
  {
    hide Sorted, Depth, PathOf, Contents, Put, Walk, Write, PathBefore, Usable, Date;
    WriteKeeps(w, at, text, first, [Close]);
    var tree := CloseFile(w).tree;
    var items := Walk([], tree);
    LaterThanAll(items, at, now);
    PutContents(tree, now, []);
    assert text + [Close] + [] == text + [Close];
  }

  lemma LaterThanAll<M>(items: seq<Item<Content<M>>>, at: Stamp, now: Stamp)
    requires NoneAfter(items, PathOf(at)) && Usable(at) && Usable(now) && at.Time() <= now.Time()
    ensures NoneAfter(items, PathOf(now))
  {
    hide PathBefore, PathOf, Date;
    WalkOrderIsTimeOrder(at, now);
    TimeOrder(at, now);
    forall i | 0 <= i < |items| ensures items[i].path == PathOf(now) || PathBefore(items[i].path, PathOf(now)) {
      if items[i].path != PathOf(at) && at != now {
        PathBeforeTransitive(items[i].path, PathOf(at), PathOf(now));
      }
    }
  }

  lemma InitWrites<M>(tree: Listing<Content<M>>, start: Stamp)
    requires Earlier(tree, start) && Usable(start)
    ensures Writing(Init(tree, start), start, Contents(Walk([], tree)), true) && Init(tree, start).prevRemainder == -1
  {
    hide Sorted, Depth, PathOf, Contents, Put, Walk;
    PutContents(tree, start, []);
    assert Contents(Walk([], tree)) + [] == Contents(Walk([], tree));
  }

  /** The time of the last file creation. */
  function LastCreated<M>(start: Stamp, events: seq<Event<M>>): Stamp {
    if events == [] then start
    else
      var n := |events| - 1;
      if Rotates(if n == 0 then -1 else events[n - 1].now.minute % 5, events[n].now) then events[n].again
      else LastCreated(start, events[..n])
  }

  lemma TickingPrefix<M>(start: Stamp, events: seq<Event<M>>)
    requires Ticking(start, events) && events != []
    ensures Ticking(start, events[..|events| - 1])
  {
    hide Stamp.Valid, Date;
    var before := events[..|events| - 1];
    forall i | 0 <= i < |before| ensures Reading(start, before, i) <= before[i].now.Time() {
      assert Reading(start, before, i) == Reading(start, events, i);
    }
  }

  lemma ClockPrefix<M>(start: Stamp, events: seq<Event<M>>)
    requires Clock(start, events) && events != []
    ensures Clock(start, events[..|events| - 1])
  {
    hide Usable, Ticking;
    TickingPrefix(start, events);
  }

  lemma {:induction false} LastCreatedTime<M>(start: Stamp, events: seq<Event<M>>)
    requires Clock(start, events)
    ensures Usable(LastCreated(start, events))
    ensures LastCreated(start, events).Time() <= Reading(start, events, |events|)
  {
    hide Rotates, Usable, Date;
    if events != [] {
      var n := |events| - 1;
      ClockPrefix(start, events);
      LastCreatedTime(start, events[..n]);
      assert Usable(events[n].again) && events[n].now.Time() <= events[n].again.Time();
      assert Reading(start, events[..n], n) == Reading(start, events, n) <= events[n].now.Time();
    }
  }

  lemma StartUsable<M>(start: Stamp, events: seq<Event<M>>)
    requires Clock(start, events)
    ensures Usable(start)
  {}

  /** The next message comes after the last file creation. */
  lemma NextIsLater<M>(start: Stamp, events: seq<Event<M>>)
    requires Clock(start, events) && events != []
    ensures var n := |events| - 1;
      && Clock(start, events[..n]) && Usable(LastCreated(start, events[..n])) && Usable(events[n].again)
      && LastCreated(start, events[..n]).Time() <= events[n].again.Time()
  {
    hide Usable, Date, LastCreated;
    var n := |events| - 1;
    ClockPrefix(start, events);
    LastCreatedTime(start, events[..n]);
    assert Reading(start, events[..n], n) == Reading(start, events, n) <= events[n].now.Time();
    assert Usable(events[n].again) && events[n].now.Time() <= events[n].again.Time();
  }

  lemma UnclosedMore<M>(ms: seq<M>, m: M)
    ensures Unclosed(ms + [m]) == Unclosed(ms) + [if ms == [] then Open else Comma, Msg(m)]
    ensures ms == [] ==> Unclosed(ms + [m]) == [Open, Msg(m)]
  {
    assert (ms + [m])[..|ms|] == ms;
  }

  lemma RenderSnoc<M>(closed: seq<seq<M>>, last: seq<M>)
    ensures RenderAll(closed + [last]) == RenderAll(closed) + Unclosed(last) + [Close]
  {
    hide Unclosed;
    assert (closed + [last])[..|closed|] == closed;
    assert RenderAll(closed) + (Unclosed(last) + [Close]) == RenderAll(closed) + Unclosed(last) + [Close];
  }

  lemma RenderMore<M>(closed: seq<seq<M>>, last: seq<M>, text: Content<M>)
    ensures RenderAll(closed + [last]) + text == RenderAll(closed) + Unclosed(last) + [Close] + text
  {
    hide Unclosed, RenderAll;
    RenderSnoc(closed, last);
  }

  /** One message appended to the text so far. */
  lemma TextOfOneMore<M>(prev: int, events: seq<Event<M>>)
    requires events != []
    ensures var n := |events| - 1;
      var s, t := Segments(prev, events[..n]), Segments(prev, events);
      var rotates := Rotates(if n == 0 then prev else events[n - 1].now.minute % 5, events[n].now);
      && t.last != []
      && t.Text() == if rotates then s.Text() + [Close] + [Open, Msg(events[n].msg)]
                     else s.Text() + [if s.last == [] then Open else Comma, Msg(events[n].msg)]
  {
    hide Rotates, Unclosed, RenderAll, Render;
    var n := |events| - 1;
    var s := Segments(prev, events[..n]);
    UnclosedMore(s.last, events[n].msg);
    UnclosedMore([], events[n].msg);
    RenderMore(s.closed, s.last, Unclosed([events[n].msg]));
    assert [] + [events[n].msg] == [events[n].msg];
  }

  /** After any run the files hold what was there, the closed segments, and the segment being written. */
  lemma {:induction false} RunWrites<M>(tree: Listing<Content<M>>, start: Stamp, events: seq<Event<M>>)
    requires Earlier(tree, start) && Clock(start, events)
    ensures var w := Run(Init(tree, start), events);
      var s := Segments(-1, events);
      && Writing(w, LastCreated(start, events), Contents(Walk([], tree)) + s.Text(), s.last == [])
      && w.prevRemainder == if events == [] then -1 else events[|events| - 1].now.minute % 5
  {
    hide Writing, Rotates, Usable, Date, Contents, Process, Segments, Init, Clock, Segmented.Text;
    var base := Contents(Walk([], tree));
    if events == [] {
      StartUsable(start, events);
      InitWrites(tree, start);
      NoText<M>(base);
    } else {
      var n := |events| - 1;
      NextIsLater(start, events);
      RunWrites(tree, start, events[..n]);
      TextOfOneMore(-1, events);
      var w, s, e := Run(Init(tree, start), events[..n]), Segments(-1, events[..n]), events[n];
      StepWrites(w, LastCreated(start, events[..n]), base + s.Text(), s.last == [], e);
      assert base + s.Text() + [Close] + [Open, Msg(e.msg)] == base + (s.Text() + [Close] + [Open, Msg(e.msg)]);
      var sep := if s.last == [] then Open else Comma;
      assert base + s.Text() + [sep, Msg(e.msg)] == base + (s.Text() + [sep, Msg(e.msg)]);
    }
  }

  lemma NoText<M>(base: Content<M>)
    ensures var s: Segmented<M> := Segments(-1, []); s.last == [] && base + s.Text() == base
  {}

  lemma StepWrites<M>(w: Writer<M>, at: Stamp, text: Content<M>, first: bool, e: Event<M>)
    requires Writing(w, at, text, first) && Usable(at) && Usable(e.again) && at.Time() <= e.again.Time()
    ensures var v := Process(w, e);
      && v.prevRemainder == e.now.minute % 5
      && (Rotates(w.prevRemainder, e.now) ==> Writing(v, e.again, text + [Close] + [Open, Msg(e.msg)], false))
      && (!Rotates(w.prevRemainder, e.now) ==>
            Writing(v, at, text + [if first then Open else Comma, Msg(e.msg)], false))
  {
    hide Sorted, Depth, PathOf, Contents, Put, Walk, PathBefore, Usable, Date, Rotates, CreateFile, LastIs;
    var u := (if Rotates(w.prevRemainder, e.now) then CreateFile(w, e.again) else w)
      .(prevRemainder := e.now.minute % 5);
    if Rotates(w.prevRemainder, e.now) {
      CreateKeeps(w, at, text, first, e.again);
      WriteKeeps(u, e.again, text + [Close], true, [Open, Msg(e.msg)]);
    } else {
      WriteKeeps(u, at, text, first, [if first then Open else Comma, Msg(e.msg)]);
    }
  }

  /**
   * Start, any run, one close: the walk of the files reads as what was there before followed by
   * the run's segments, and those decode to exactly the processed messages in order.
   */
  lemma CacheConservation<M>(tree: Listing<Content<M>>, start: Stamp, events: seq<Event<M>>)
    requires Earlier(tree, start) && Clock(start, events)
    ensures var s := Segments(-1, events);
      var segments := s.closed + [s.last];
      && Contents(Walk([], CloseFile(Run(Init(tree, start), events)).tree))
           == Contents(Walk([], tree)) + RenderAll(segments)
      && Concat(segments) == Messages(events)
      && Decode(RenderAll(segments)) == Some((AtStart, Messages(events)))
  {
    hide Sorted, Depth, PathOf, Contents, Put, Walk, Write, Run, Init, Segments, LastIs;
    var s := Segments(-1, events);
    var segments := s.closed + [s.last];
    var w, base := Run(Init(tree, start), events), Contents(Walk([], tree));
    RunWrites(tree, start, events);
    WriteKeeps(w, LastCreated(start, events), base + s.Text(), s.last == [], [Close]);
    assert segments[..|s.closed|] == s.closed;
    assert base + s.Text() + [Close] == base + RenderAll(segments);
    SegmentsHoldAll(-1, events);
    ConcatSnoc(s.closed, s.last);
    DecodeRenderAll([], [], segments);
    assert [] + RenderAll(segments) == RenderAll(segments) && [] + Concat(segments) == Concat(segments);
  }

  /** After a run and its close the tree is fit for the next start, if that is not earlier. */
  lemma ReadyForRestart<M>(tree: Listing<Content<M>>, start: Stamp, events: seq<Event<M>>, next: Stamp)
    requires Earlier(tree, start) && Clock(start, events)
    requires Usable(next) && Reading(start, events, |events|) <= next.Time()
    ensures Earlier(CloseFile(Run(Init(tree, start), events)).tree, next)
  {
    hide Sorted, Depth, PathOf, Contents, Put, Walk, Write, Run, Init, Segments, PathBefore, StampPath, Date, Usable;
    var w, at := Run(Init(tree, start), events), LastCreated(start, events);
    RunWrites(tree, start, events);
    WriteKeeps(w, at, Contents(Walk([], tree)) + Segments(-1, events).Text(), Segments(-1, events).last == [], [Close]);
    LastCreatedTime(start, events);
    LaterThanAll(Walk([], CloseFile(w).tree), at, next);
  }

  /** PutAt for all paths, where a file may or may not be open. */
  lemma GrowsAt<M>(tree: Listing<Content<M>>, at: Option<Path>, toks: Content<M>)
    requires Sorted(tree) && Depth(tree, 4) && (at.Some? ==> |at.value| == 4)
    ensures var after := if at.Some? then Put(tree, at.value, Adding(toks)) else tree;
      && Sorted(after) && Depth(after, 4) && (at.Some? ==> Get(after, at.value).Some?)
      && forall p: Path :: |p| == 4 ==>
           ContentAt(after, p) == ContentAt(tree, p) + (if at == Some(p) then toks else [])
  {
    hide Put, Get, ContentAt, Sorted, Depth;
    if at.Some? {
      PutAt(tree, at.value, toks, at.value);
      forall p: Path | |p| == 4
        ensures ContentAt(Put(tree, at.value, Adding(toks)), p)
          == ContentAt(tree, p) + (if at == Some(p) then toks else [])
      {
        PutAt(tree, at.value, toks, p);
      }
    }
  }

  // ---- the writer's globals ----

  class History<M> {
    var tree: Listing<Content<M>>
    var fw: Option<Path>
    var firstWrite: bool
    var prevRemainder: int

    constructor (files: Listing<Content<M>>)
      ensures tree == files && fw == None
    {
      tree, fw, firstWrite, prevRemainder := files, None, false, 0;
    }

    function State(): Writer<M>
      reads this
    {
      Writer(tree, fw, firstWrite, prevRemainder)
    }

    /** Files lie where the cache puts them, below a year, a month and a day. */
    ghost predicate Ready()
      reads this`tree, this`fw
    {
      Sorted(tree) && Depth(tree, 4) && (fw.Some? ==> |fw.value| == 4)
    }

    /** fw.Write: the open file grows and no other; nothing happens while none is open. */
    method Emit(toks: Content<M>)
      modifies this`tree
      ensures State() == Write(old(State()), toks)
      ensures old(Ready()) ==> Ready() && forall p: Path :: |p| == 4 ==>
        ContentAt(tree, p) == old(ContentAt(tree, p)) + (if fw == Some(p) then toks else [])
    {
      hide Put, ContentAt, Sorted, Depth;
      if old(Ready()) { GrowsAt(old(tree), fw, toks); }
      if fw.Some? && fw.value != [] {
        tree := Put(tree, fw.value, Adding(toks));
      }
    }

    method CloseCache()
      modifies this`tree
      ensures State() == CloseFile(old(State()))
      ensures old(Ready()) ==> Ready() && forall p: Path :: |p| == 4 ==>
        ContentAt(tree, p) == old(ContentAt(tree, p)) + (if fw == Some(p) then [Close] else [])
    {
      Emit([Close]);
    }

    /** The new file is there and open, with whatever it held; the one open before got its bracket. */
    method NewFile(now: Stamp)
      modifies this
      ensures State() == CreateFile(old(State()), now)
      ensures fw == Some(PathOf(now)) && firstWrite && prevRemainder == old(prevRemainder)
      ensures old(Ready()) ==> Ready() && Get(tree, PathOf(now)).Some?
      ensures old(Ready()) ==> forall p: Path :: |p| == 4 ==>
        ContentAt(tree, p) == old(ContentAt(tree, p)) + (if old(fw) == Some(p) then [Close] else [])
    {
      hide Put, Get, ContentAt, Sorted, Depth, PathOf;
      CloseCache();
      PathLength(now);
      if old(Ready()) { GrowsAt(tree, Some(PathOf(now)), []); }
      tree := Put(tree, PathOf(now), Adding([]));
      fw := Some(PathOf(now));
      firstWrite := true;
    }

    method InitCache(now: Stamp)
      requires fw == None
      modifies this
      ensures State() == Init(old(tree), now)
      ensures fw == Some(PathOf(now)) && firstWrite && prevRemainder == -1
      ensures old(Ready()) ==> Ready() && Get(tree, PathOf(now)).Some? && forall p: Path :: |p| == 4 ==>
        ContentAt(tree, p) == old(ContentAt(tree, p))
    {
      hide Get, ContentAt, Sorted, Depth, PathOf;
      NewFile(now);
      prevRemainder := -1;
    }

    /** One message: it ends in the open file, which is a new one in the first minute of a window. */
    method ProcessMessage(e: Event<M>)
      modifies this
      ensures State() == Process(old(State()), e)
      ensures prevRemainder == e.now.minute % 5
      ensures fw == if Rotates(old(prevRemainder), e.now) then Some(PathOf(e.again)) else old(fw)
      ensures fw.Some? ==> !firstWrite
      ensures old(Ready()) ==> Ready() && forall p: Path :: |p| == 4 ==>
        ContentAt(tree, p) == old(ContentAt(tree, p))
          + (if Rotates(old(prevRemainder), e.now) && old(fw) == Some(p) then [Close] else [])
          + (if fw == Some(p) then
               [if Rotates(old(prevRemainder), e.now) || old(firstWrite) then Open else Comma, Msg(e.msg)] else [])
    {
      hide CreateFile, Write, Get, ContentAt, Sorted, Depth, PathOf;
      var remainder := e.now.minute % 5;
      if remainder == 0 && remainder != prevRemainder {
        NewFile(e.again);
      }
      prevRemainder := remainder;
      if fw.Some? {
        Emit([if firstWrite then Open else Comma, Msg(e.msg)]);
        firstWrite := false;
      }
    }

    /** The loop over the channel, as far as the messages received go. */
    method ProcessMessages(events: seq<Event<M>>)
      modifies this
      ensures State() == Run(old(State()), events)
    {
      var i := 0;
      while i < |events|
        invariant 0 <= i <= |events|
        invariant State() == Run(old(State()), events[..i])
      {
        hide Process;
        assert events[..i + 1][..i] == events[..i] && events[..i + 1][i] == events[i];
        ProcessMessage(events[i]);
        i := i + 1;
      }
      assert events[..i] == events;
    }
  }
}
