/** The outgoing spool: a tree of files moved from new through processing to done as they are sent. */
module Spool {
  import opened Seqs
  import opened Text
  import opened Integers
  import opened Listing
  import opened Wire
  import opened Receiver

  type Bytes = seq<byte>
  type Files = map<Path, Bytes>

  /**
   * How the file system and the network answer for each file: whether the move to processing, the
   * dial, the open and the move to done succeed, the hash, and what the reads return.
   */
  datatype Env = Env(moves: Path -> bool, dials: Path -> bool, opens: Path -> bool, stores: Path -> bool,
                     hash: Bytes -> Bytes, fetch: (Path, Bytes) -> seq<Bytes>)
  {
    ghost predicate Legal() {
      forall p, c :: LegalReads(fetch(p, c), c)
    }

    /** No call fails. */
    ghost predicate Smooth() {
      forall p :: moves(p) && dials(p) && opens(p) && stores(p)
    }
  }

  datatype Disk = Disk(incoming: Files, processing: Files, done: Files, wire: seq<Datagram>)

  // ---- names on the wire ----

  /** path.Join of directory names: "." for the root of the spool. */
  function DirText(dir: Path): Bytes {
    if dir == [] then "." else Joined(dir)
  }

  function Joined(dir: Path): Bytes
    requires dir != []
  {
    if |dir| == 1 then dir[0] else dir[0] + ['/'] + Joined(dir[1..])
  }

  predicate LegalName(n: Name) { n != [] && n != "." && n != ".." && '/' !in n }

  lemma {:induction false} SplitOfJoined(dir: Path)
    requires dir != [] && forall i :: 0 <= i < |dir| ==> LegalName(dir[i])
    ensures Split<byte>(Joined(dir), '/') == dir
  {
    if |dir| == 1 {
      SplitLast<byte>(dir[0], '/');
    } else {
      SplitField<byte>(dir[0], '/', Joined(dir[1..]));
      SplitOfJoined(dir[1..]);
    }
  }

  /** The directory text of a header names one directory only. */
  lemma DirTextInjective(p: Path, q: Path)
    requires forall i :: 0 <= i < |p| ==> LegalName(p[i])
    requires forall i :: 0 <= i < |q| ==> LegalName(q[i])
    requires DirText(p) == DirText(q)
    ensures p == q
  {
    SplitLast<byte>(".", '/');
    if p != [] { SplitOfJoined(p); }
    if q != [] { SplitOfJoined(q); }
  }

  /** What the sender announces for a file; the size is a 32-bit int on the 386 build. */
  function HeaderOf(env: Env, item: Item<Bytes>): Header
    requires item.path != []
  {
    var n := |item.path| - 1;
    Header(item.path[n], DirText(item.path[..n]), ToInt32(|item.content|), env.hash(item.content))
  }

  /** The path below the spool that a receiver reads off a header. */
  function PathIn(h: Header): Path {
    (if h.dir == "." then [] else Split<byte>(h.dir, '/')) + [h.name]
  }

  predicate LegalPath(p: Path) { forall i :: 0 <= i < |p| ==> LegalName(p[i]) }

  /** The received file is this one: its path, its bytes, their hash, and their number as an int of the 386 build. */
  ghost predicate Delivered(r: Received, item: Item<Bytes>, hash: Bytes -> Bytes) {
    && r.content == item.content
    && (LegalPath(item.path) ==> PathIn(r.header) == item.path)
    && r.header.hash == hash(item.content)
    && -0x8000_0000 <= r.header.size < 0x8000_0000 && (r.header.size - |item.content|) % TWO32 == 0
  }

  lemma PathOfParts(dir: Path, name: Name, size: int, hash: Bytes)
    requires LegalPath(dir)
    ensures PathIn(Header(name, DirText(dir), size, hash)) == dir + [name]
  {
    SplitLast<byte>(".", '/');
    if dir != [] {
      SplitOfJoined(dir);
    }
  }

  lemma SizeIsInt32(n: nat)
    ensures -0x8000_0000 <= ToInt32(n) < 0x8000_0000 && (ToInt32(n) - n) % TWO32 == 0
  {}

  /** What is announced for a file tells its path, its size and its hash. */
  lemma HeaderNamesFile(env: Env, item: Item<Bytes>)
    requires item.path != []
    ensures Delivered(Received(HeaderOf(env, item), item.content), item, env.hash)
  {
    hide PathIn, DirText, ToInt32, LegalName;
    var n := |item.path| - 1;
    var dir, size := item.path[..n], ToInt32(|item.content|);
    SizeIsInt32(|item.content|);
    if LegalPath(item.path) { PathOfParts(dir, item.path[n], size, env.hash(item.content)); }
    assert item.path == dir + [item.path[n]];
  }

  // ---- one pass, file by file ----

  /** The file passes the checks in front of the first datagram. */
  predicate Transmitted(env: Env, item: Item<Bytes>) {
    env.moves(item.path) && item.content != [] && env.dials(item.path) && env.opens(item.path)
  }

  ghost function SessionOf(env: Env, item: Item<Bytes>): seq<Datagram>
    requires env.Legal() && item.path != []
  {
    Session(HeaderOf(env, item), env.fetch(item.path, item.content))
  }

  ghost function Step(env: Env, d: Disk, item: Item<Bytes>): Disk
    requires env.Legal() && item.path != []
  {
    var p := item.path;
    if !env.moves(p) then d
    else if !Transmitted(env, item) then
      Disk(d.incoming - {p}, d.processing[p := item.content], d.done, d.wire)
    else if !env.stores(p) then
      Disk(d.incoming - {p}, d.processing[p := item.content], d.done, d.wire + SessionOf(env, item))
    else
      Disk(d.incoming - {p}, d.processing - {p}, d.done[p := item.content], d.wire + SessionOf(env, item))
  }

  ghost predicate Rooted(items: seq<Item<Bytes>>) {
    forall i :: 0 <= i < |items| ==> items[i].path != []
  }

  ghost function Steps(env: Env, d: Disk, items: seq<Item<Bytes>>): Disk
    requires env.Legal() && Rooted(items)
    decreases |items|
  {
    if items == [] then d else Steps(env, Step(env, d, items[0]), items[1..])
  }

  lemma {:induction false} StepsAppend(env: Env, d: Disk, a: seq<Item<Bytes>>, b: seq<Item<Bytes>>)
    requires env.Legal() && Rooted(a) && Rooted(b)
    ensures Rooted(a + b) && Steps(env, d, a + b) == Steps(env, Steps(env, d, a), b)
    decreases |a|
  {
    if a == [] {
      assert a + b == b;
    } else {
      assert (a + b)[1..] == a[1..] + b;
      StepsAppend(env, Step(env, d, a[0]), a[1..], b);
    }
  }

  /** The directory being read holds these files. */
  ghost predicate Holds(files: Files, items: seq<Item<Bytes>>) {
    forall i :: 0 <= i < |items| ==> items[i].path in files && files[items[i].path] == items[i].content
  }

  ghost predicate DistinctPaths(items: seq<Item<Bytes>>) {
    forall i, j :: 0 <= i < j < |items| ==> items[i].path != items[j].path
  }

  ghost predicate Among(p: Path, items: seq<Item<Bytes>>) {
    exists i :: 0 <= i < |items| && items[i].path == p
  }

  ghost predicate SameAt(d: Disk, e: Disk, p: Path) {
    && (p in d.incoming <==> p in e.incoming) && (p in d.incoming ==> d.incoming[p] == e.incoming[p])
    && (p in d.processing <==> p in e.processing) && (p in d.processing ==> d.processing[p] == e.processing[p])
    && (p in d.done <==> p in e.done) && (p in d.done ==> d.done[p] == e.done[p])
  }

  /** Where one file ends up, and that its bytes are the ones it had. */
  ghost predicate Fate(env: Env, before: Disk, after: Disk, item: Item<Bytes>) {
    var p := item.path;
    if !env.moves(p) then SameAt(before, after, p)
    else if Transmitted(env, item) && env.stores(p) then
      p !in after.incoming && p !in after.processing && p in after.done && after.done[p] == item.content
    else
      && p !in after.incoming && p in after.processing && after.processing[p] == item.content
      && (p in after.done <==> p in before.done) && (p in before.done ==> after.done[p] == before.done[p])
  }

  lemma StepFate(env: Env, d: Disk, item: Item<Bytes>)
    requires env.Legal() && item.path != []
    ensures Fate(env, d, Step(env, d, item), item)
    ensures forall p :: p != item.path ==> SameAt(d, Step(env, d, item), p)
  {
    hide SessionOf, Transmitted;
  }

  lemma FateCarries(env: Env, d: Disk, d1: Disk, e: Disk, item: Item<Bytes>)
    requires (Fate(env, d, d1, item) && SameAt(d1, e, item.path)) || (SameAt(d, d1, item.path) && Fate(env, d1, e, item))
    ensures Fate(env, d, e, item)
  {
    hide Transmitted;
  }

  /** Every file meets its own fate, and no other path changes. */
  lemma {:induction false} StepsFates(env: Env, d: Disk, items: seq<Item<Bytes>>)
    requires env.Legal() && Rooted(items) && DistinctPaths(items)
    ensures forall i :: 0 <= i < |items| ==> Fate(env, d, Steps(env, d, items), items[i])
    ensures forall p :: !Among(p, items) ==> SameAt(d, Steps(env, d, items), p)
    decreases |items|
  {
    hide Step, Fate;
    if items != [] {
      var d1, rest := Step(env, d, items[0]), items[1..];
      StepFate(env, d, items[0]);
      StepsFates(env, d1, rest);
      var e := Steps(env, d1, rest);
      forall i | 0 <= i < |items| ensures Fate(env, d, e, items[i]) {
        if i > 0 { assert items[i] == rest[i - 1]; }
        FateCarries(env, d, d1, e, items[i]);
      }
      forall p | !Among(p, items) ensures SameAt(d, e, p) {
        assert items[0].path != p;
        assert forall i :: 0 <= i < |rest| ==> rest[i] == items[i + 1];
        assert SameAt(d, d1, p) && SameAt(d1, e, p);
      }
    }
  }

  // ---- what goes on the wire ----

  ghost function WireOf(env: Env, items: seq<Item<Bytes>>): seq<Datagram>
    requires env.Legal() && Rooted(items)
  {
    if items == [] then []
    else (if Transmitted(env, items[0]) then SessionOf(env, items[0]) else []) + WireOf(env, items[1..])
  }

  lemma {:induction false} StepsWire(env: Env, d: Disk, items: seq<Item<Bytes>>)
    requires env.Legal() && Rooted(items)
    ensures Steps(env, d, items).wire == d.wire + WireOf(env, items)
    decreases |items|
  {
    hide SessionOf;
    if items != [] {
      StepsWire(env, Step(env, d, items[0]), items[1..]);
    }
  }

  // ---- the imperative pass ----

  function Nodes<T>(l: Listing<T>): nat {
    match l
    case Empty => 0
    case File(_, _, rest) => 1 + Nodes(rest)
    case Dir(_, kids, rest) => 1 + Nodes(kids) + Nodes(rest)
  }

  lemma {:induction false} WalkRooted(dir: Path, l: Listing<Bytes>)
    ensures Rooted(Walk(dir, l))
    decreases l
  {
    if !l.Empty? { WalkRooted(dir, l.rest); }
    if l.Dir? { WalkRooted(dir + [l.name], l.kids); }
  }

  lemma ReadsOf(env: Env, p: Path, content: Bytes)
    requires env.Legal()
    ensures |env.fetch(p, content)| > 0 && Chunked(env.fetch(p, content))
  {
    assert LegalReads(env.fetch(p, content), content);
  }

  class Outgoing {
    var incoming: Files
    var processing: Files
    var done: Files
    var wire: seq<Datagram>

    function State(): Disk
      reads this
    {
      Disk(incoming, processing, done, wire)
    }

    /** The branch of processDirectory for a file: rename, send, and the rename at the end of sendFile. */
    method ProcessFile(env: Env, modulus: int, dir: Path, name: Name)
      requires env.Legal() && modulus % TWO32 != 0 && dir + [name] in incoming
      modifies this
      ensures State() == Step(env, old(State()), Item(dir + [name], old(incoming[dir + [name]])))
    {
      hide SessionOf, Env.Legal;
      var p := dir + [name];
      if env.moves(p) {
        var content := incoming[p];
        incoming, processing := incoming - {p}, processing[p := content];
        var sent, frames := Send(env, modulus, dir, name, content);
        wire := wire + frames;
        if sent && env.stores(p) {
          done, processing := done[p := processing[p]], processing - {p};
        }
      }
    }

    /** The call of sendFile for a file that was moved to processing. */
    method Send(env: Env, modulus: int, dir: Path, name: Name, content: Bytes)
      returns (sent: bool, frames: seq<Datagram>)
      requires env.Legal() && modulus % TWO32 != 0
      ensures var p := dir + [name];
        && sent == (content != [] && env.dials(p) && env.opens(p))
        && frames == if sent then SessionOf(env, Item(p, content)) else []
    {
      hide Session, DirText, ToInt32, Env.Legal, Chunked;
      var p := dir + [name];
      assert p[..|p| - 1] == dir;
      var calls := Calls(Regular(|content|), env.dials(p), env.opens(p), env.hash(content), env.fetch(p, content));
      ReadsOf(env, p, content);
      var outcome, total, pauses;
      outcome, frames, total, pauses := SendFile(name, DirText(dir), ToInt32(|content|), calls, modulus);
      sent := outcome == Wire.Sent;
    }

    /** One directory: its entries in order, subdirectories in place. */
    method ProcessDirectory(env: Env, modulus: int, dir: Path, listing: Listing<Bytes>)
      requires env.Legal() && modulus % TWO32 != 0
      requires Sorted(listing) && Holds(incoming, Walk(dir, listing))
      modifies this
      ensures Rooted(Walk(dir, listing))
      ensures State() == Steps(env, old(State()), Walk(dir, listing))
      decreases Nodes(listing)
    {
      WalkRooted(dir, listing);
      var infos := listing;
      while !infos.Empty?
        invariant Nodes(infos) <= Nodes(listing) && Sorted(infos)
        invariant Holds(incoming, Walk(dir, infos)) && Rooted(Walk(dir, infos))
        invariant Steps(env, State(), Walk(dir, infos)) == Steps(env, old(State()), Walk(dir, listing))
        decreases Nodes(infos)
      {
        Advance(env, State(), dir, infos);
        if infos.File? {
          ProcessFile(env, modulus, dir, infos.name);
        } else {
          ProcessDirectory(env, modulus, dir + [infos.name], infos.kids);
        }
        infos := infos.rest;
      }
    }
  }

  /** The walk of a listing is its first entry's files, then the others, which that entry leaves alone. */
  lemma Advance(env: Env, d: Disk, dir: Path, l: Listing<Bytes>)
    requires env.Legal() && !l.Empty? && Sorted(l) && Holds(d.incoming, Walk(dir, l))
    ensures Rooted(Walk(dir, l)) && Rooted(HeadWalk(dir, l)) && Rooted(Walk(dir, l.rest))
    ensures Holds(d.incoming, HeadWalk(dir, l))
    ensures var e := Steps(env, d, HeadWalk(dir, l));
      Holds(e.incoming, Walk(dir, l.rest)) && Steps(env, d, Walk(dir, l)) == Steps(env, e, Walk(dir, l.rest))
    ensures l.File? ==> Steps(env, d, HeadWalk(dir, l)) == Step(env, d, Item(dir + [l.name], l.content))
  {
    hide Step, Fate, Steps, PathBefore, Sorted, Walk, HeadWalk, DistinctPaths, Among, Holds, SameAt;
    var head, tail := HeadWalk(dir, l), Walk(dir, l.rest);
    WalkRooted(dir, l);
    WalkRooted(dir, l.rest);
    RootedHead(head, tail);
    WalkAscending(dir, l);
    AscendingDistinct(head + tail);
    assert DistinctPaths(head + tail) by { DistinctOf(head + tail); }
    PartsApart(d.incoming, head, tail);
    StepsAppend(env, d, head, tail);
    if l.File? { assert head == [Item(dir + [l.name], l.content)] by { HeadOfFile(dir, l); } StepsOne(env, d, head[0]); }
    StepsFates(env, d, head);
    StillHeld(d, Steps(env, d, head), head, tail);
  }

  lemma HeadOfFile(dir: Path, l: Listing<Bytes>)
    requires l.File?
    ensures HeadWalk(dir, l) == [Item(dir + [l.name], l.content)]
  {}

  lemma RootedHead(head: seq<Item<Bytes>>, tail: seq<Item<Bytes>>)
    requires Rooted(head + tail)
    ensures Rooted(head)
  {
    assert forall i :: 0 <= i < |head| ==> (head + tail)[i] == head[i];
  }

  lemma DistinctOf(items: seq<Item<Bytes>>)
    requires forall i, j :: 0 <= i < j < |items| ==> items[i].path != items[j].path
    ensures DistinctPaths(items)
  {}

  lemma PartsApart(files: Files, head: seq<Item<Bytes>>, tail: seq<Item<Bytes>>)
    requires DistinctPaths(head + tail) && Holds(files, head + tail)
    ensures DistinctPaths(head) && Holds(files, head) && Holds(files, tail)
    ensures forall i :: 0 <= i < |tail| ==> !Among(tail[i].path, head)
  {
    var w := head + tail;
    assert forall i :: 0 <= i < |head| ==> w[i] == head[i];
    assert forall i :: 0 <= i < |tail| ==> w[|head| + i] == tail[i];
  }

  lemma StillHeld(d: Disk, e: Disk, head: seq<Item<Bytes>>, tail: seq<Item<Bytes>>)
    requires Holds(d.incoming, tail) && forall i :: 0 <= i < |tail| ==> !Among(tail[i].path, head)
    requires forall p :: !Among(p, head) ==> SameAt(d, e, p)
    ensures Holds(e.incoming, tail)
  {
    hide Among;
    forall i | 0 <= i < |tail| ensures tail[i].path in e.incoming && e.incoming[tail[i].path] == tail[i].content {
      assert SameAt(d, e, tail[i].path);
    }
  }

  lemma StepsOne(env: Env, d: Disk, item: Item<Bytes>)
    requires env.Legal() && item.path != []
    ensures Steps(env, d, [item]) == Step(env, d, item)
  {
    hide Step;
    assert Steps(env, Step(env, d, item), [item][1..]) == Step(env, d, item);
  }

  // ---- the pass as a whole ----

  /**
   * When nothing fails, a pass over everything in new empties new, leaves exactly the empty files
   * in processing, moves every other file to done under its own path, and touches nothing else.
   */
  lemma SpoolPass(env: Env, d: Disk, listing: Listing<Bytes>)
    requires env.Legal() && env.Smooth() && Sorted(listing)
    requires Holds(d.incoming, Walk([], listing)) && forall p :: p in d.incoming ==> Among(p, Walk([], listing))
    ensures Rooted(Walk([], listing))
    ensures var items := Walk([], listing);
      var e := Steps(env, d, items);
      && e.incoming == map[]
      && (forall i :: 0 <= i < |items| && items[i].content == [] ==>
            && items[i].path in e.processing && e.processing[items[i].path] == []
            && (items[i].path in e.done <==> items[i].path in d.done)
            && (items[i].path in d.done ==> e.done[items[i].path] == d.done[items[i].path]))
      && (forall i :: 0 <= i < |items| && items[i].content != [] ==>
            items[i].path !in e.processing && items[i].path in e.done && e.done[items[i].path] == items[i].content)
      && (forall p :: !Among(p, items) ==> SameAt(d, e, p))
  {
    hide Steps, Sorted, PathBefore, Holds;
    var items := Walk([], listing);
    WalkRooted([], listing);
    WalkAscending([], listing);
    AscendingDistinct(items);
    StepsFates(env, d, items);
    var e := Steps(env, d, items);
    assert forall i :: 0 <= i < |items| ==> Fate(env, d, e, items[i]);
    forall p ensures p !in e.incoming {
      assert Among(p, items) || SameAt(d, e, p);
    }
  }

  /** The transmitted files, as the receiver should get them. */
  ghost function Expected(env: Env, items: seq<Item<Bytes>>): seq<Received>
    requires Rooted(items)
  {
    if items == [] then []
    else (if Transmitted(env, items[0]) then [Received(HeaderOf(env, items[0]), items[0].content)] else [])
         + Expected(env, items[1..])
  }

  /** The name and directory can be written in a header, and the sequence numbers suffice. */
  ghost predicate Sendable(env: Env, item: Item<Bytes>)
    requires item.path != []
  {
    FitsHeader(HeaderOf(env, item)) && |env.fetch(item.path, item.content)| <= TWO32
  }

  /** The files of a list that are transmitted. */
  function TransmittedOf(env: Env, items: seq<Item<Bytes>>): seq<Item<Bytes>> {
    Filter((x: Item<Bytes>) => Transmitted(env, x), items)
  }

  /** The received files are these, one for one and in this order. */
  ghost predicate AllDelivered(received: seq<Received>, items: seq<Item<Bytes>>, hash: Bytes -> Bytes) {
    |received| == |items| && forall i :: 0 <= i < |items| ==> Delivered(received[i], items[i], hash)
  }

  lemma {:induction false} ExpectedDelivers(env: Env, items: seq<Item<Bytes>>)
    requires Rooted(items)
    ensures AllDelivered(Expected(env, items), TransmittedOf(env, items), env.hash)
  {
    hide Delivered, HeaderOf, Transmitted;
    if items != [] {
      var sent := (x: Item<Bytes>) => Transmitted(env, x);
      ExpectedDelivers(env, items[1..]);
      HeaderNamesFile(env, items[0]);
      assert TransmittedOf(env, items) == (if sent(items[0]) then [items[0]] else []) + TransmittedOf(env, items[1..]);
    }
  }

  /** Whatever fails, the receiver gets exactly the transmitted files, in the order of the walk. */
  lemma PassDecodes(rx: Rx, env: Env, items: seq<Item<Bytes>>)
    requires env.Legal() && Rooted(items)
    requires forall i :: 0 <= i < |items| && Transmitted(env, items[i]) ==> Sendable(env, items[i])
    ensures ReceiveAll(rx, WireOf(env, items)).1 == Expected(env, items)
    ensures AllDelivered(ReceiveAll(rx, WireOf(env, items)).1, TransmittedOf(env, items), env.hash)
  {
    hide WireOf, ReceiveAll, Expected;
    WireDecodes(rx, env, items);
    ExpectedDelivers(env, items);
  }

  lemma {:induction false} WireDecodes(rx: Rx, env: Env, items: seq<Item<Bytes>>)
    requires env.Legal() && Rooted(items)
    requires forall i :: 0 <= i < |items| && Transmitted(env, items[i]) ==> Sendable(env, items[i])
    ensures ReceiveAll(rx, WireOf(env, items)).1 == Expected(env, items)
    decreases |items|
  {
    hide Session, HeaderOf;
    if items != [] {
      var item, rest := items[0], items[1..];
      if Transmitted(env, item) {
        var f := Sending(HeaderOf(env, item), item.content, env.fetch(item.path, item.content));
        assert f.Valid();
        OneSession(rx, f);
        WireDecodes(Idle, env, rest);
        ReceiveAppend(rx, SessionOf(env, item), WireOf(env, rest));
      } else {
        WireDecodes(rx, env, rest);
        assert WireOf(env, items) == WireOf(env, rest);
      }
    }
  }

  /**
   * A pass with nothing failing, seen from the other side of the diode: what it adds to the wire
   * decodes to the non-empty files of new, in the order of the walk, under their names.
   */
  lemma PassDelivers(rx: Rx, env: Env, d: Disk, listing: Listing<Bytes>)
    requires env.Legal() && env.Smooth() && Sorted(listing)
    requires forall i :: 0 <= i < |Walk([], listing)| ==>
      var x := Walk([], listing)[i];
      x.path != [] && x.content != [] ==> Sendable(env, x)
    ensures Rooted(Walk([], listing))
    ensures var items := Walk([], listing);
      var e := Steps(env, d, items);
      var full := Filter((x: Item<Bytes>) => x.content != [], items);
      && d.wire <= e.wire
      && AllDelivered(ReceiveAll(rx, e.wire[|d.wire|..]).1, full, env.hash)
  {
    hide Steps, WireOf, ReceiveAll, Delivered, HeaderOf, Expected;
    var items := Walk([], listing);
    WalkRooted([], listing);
    StepsWire(env, d, items);
    PassDecodes(rx, env, items);
    SmoothTransmits(env, items);
    assert Steps(env, d, items).wire[|d.wire|..] == WireOf(env, items);
  }

  lemma SmoothTransmits(env: Env, items: seq<Item<Bytes>>)
    requires env.Smooth()
    ensures TransmittedOf(env, items) == Filter((x: Item<Bytes>) => x.content != [], items)
  {
    var full := (x: Item<Bytes>) => x.content != [];
    forall i | 0 <= i < |items| ensures Transmitted(env, items[i]) <==> full(items[i]) {
      assert env.moves(items[i].path) && env.dials(items[i].path) && env.opens(items[i].path);
    }
    FilterSame((x: Item<Bytes>) => Transmitted(env, x), full, items);
  }

  /** On the 386 build a received file passes the length check exactly when it is below 2 GiB. */
  lemma CompleteIff(env: Env, item: Item<Bytes>)
    requires item.path != []
    ensures Received(HeaderOf(env, item), item.content).Complete() <==> |item.content| < 0x8000_0000
  {}
}
