/**
 * A receiver for the datagrams of Wire, written from the header format and the frame layout the
 * sender documents, and what it recovers from any arrival order.
 */
module Receiver {
  import opened Seqs
  import opened Text
  import opened Integers
  import opened Wire

  datatype Received = Received(header: Header, content: seq<byte>) {
    /** The check an end point can make: as many bytes as were announced. */
    predicate Complete() { |content| == header.size }
  }

  /** Payloads by sequence number; a repeated number keeps the first payload. */
  type Pieces = map<nat, seq<byte>>

  datatype Rx = Idle | Receiving(header: Header, pieces: Pieces)

  predicate IsBegin(d: Datagram) { BEGIN() + [' '] <= d }
  predicate IsEnd(d: Datagram) { END() <= d }

  function Number(d: Datagram): nat { FromLE32(d[..4]) }
  function Length(d: Datagram): nat { FromLE32(d[4..8]) }

  /** The text in front of the first NUL. */
  function UpToNul(s: seq<byte>): (t: seq<byte>)
    ensures '\0' !in t && t <= s && (|t| < |s| ==> s[|t|] == '\0')
  {
    if s == [] || s[0] == '\0' then [] else [s[0]] + UpToNul(s[1..])
  }

  /** Name, directory, decimal size and hexadecimal hash, separated by single spaces. */
  function ParseFields(text: seq<byte>): (r: Option<Header>)
    ensures '\0' !in text && r.Some? ==> Writable(r.value.name) && Writable(r.value.dir)
  {
    var fields := Split<byte>(text, ' ');
    if |fields| != 4 then None
    else
      var size := ParseDecimalInt(fields[2]);
      var hash := ParseHex(fields[3]);
      if size.Some? && hash.Some? then Some(Header(fields[0], fields[1], size.value, hash.value)) else None
  }

  function ParseHeader(d: Datagram): (r: Option<Header>)
    ensures r.Some? ==> Writable(r.value.name) && Writable(r.value.dir)
  {
    var text := UpToNul(d);
    if BEGIN() + [' '] <= text then ParseFields(text[|BEGIN()| + 1..]) else None
  }

  function AddPiece(pieces: Pieces, d: Datagram): Pieces {
    if Length(d) > PAYLOAD || Number(d) in pieces then pieces
    else pieces[Number(d) := d[8..8 + Length(d)]]
  }

  /** The pieces below `n` in ascending order of their numbers. */
  function Assemble(pieces: Pieces, n: nat): seq<byte> {
    if n == 0 then []
    else Assemble(pieces, n - 1) + (if n - 1 in pieces then pieces[n - 1] else [])
  }

  /** One datagram: the next state and the files it completes. */
  function Receive(rx: Rx, d: Datagram): (Rx, seq<Received>) {
    if IsBegin(d) then
      var h := ParseHeader(d);
      (if h.Some? then Receiving(h.value, map[]) else Idle, [])
    else if rx.Idle? then (Idle, [])
    else if IsEnd(d) then (Idle, [Received(rx.header, Assemble(rx.pieces, TWO32))])
    else (rx.(pieces := AddPiece(rx.pieces, d)), [])
  }

  function ReceiveAll(rx: Rx, ds: seq<Datagram>): (Rx, seq<Received>)
    decreases |ds|
  {
    if ds == [] then (rx, [])
    else
      var (rx1, out1) := Receive(rx, ds[0]);
      var (rx2, out2) := ReceiveAll(rx1, ds[1..]);
      (rx2, out1 + out2)
  }

  lemma {:induction false} ReceiveAppend(rx: Rx, a: seq<Datagram>, b: seq<Datagram>)
    ensures var (rx1, out1) := ReceiveAll(rx, a);
      var (rx2, out2) := ReceiveAll(rx1, b);
      ReceiveAll(rx, a + b) == (rx2, out1 + out2)
    decreases |a|
  {
    hide Receive;
    if a == [] {
      assert a + b == b;
      var out2 := ReceiveAll(rx, b).1;
      assert [] + out2 == out2;
    } else {
      assert (a + b)[0] == a[0] && (a + b)[1..] == a[1..] + b;
      var (rx1, out1) := Receive(rx, a[0]);
      ReceiveAppend(rx1, a[1..], b);
      var (rx2, out2) := ReceiveAll(rx1, a[1..]);
      var (rx3, out3) := ReceiveAll(rx2, b);
      assert out1 + (out2 + out3) == (out1 + out2) + out3;
    }
  }

  // ---- headers ----

  /** A field the space-separated header can carry. */
  predicate Writable(s: seq<byte>) { ' ' !in s && '\0' !in s }

  predicate FitsHeader(h: Header) {
    Writable(h.name) && Writable(h.dir) && |HeaderText(h)| <= DATAGRAM
  }

  lemma {:induction false} UpToNulOfText(t: seq<byte>, z: seq<byte>)
    requires '\0' !in t && (z == [] || z[0] == '\0')
    ensures UpToNul(t + z) == t
  {
    if t == [] {
      assert t + z == z;
    } else {
      assert (t + z)[1..] == t[1..] + z;
      UpToNulOfText(t[1..], z);
      assert [t[0]] + t[1..] == t;
    }
  }

  lemma ParseOfFields(h: Header)
    requires Writable(h.name) && Writable(h.dir)
    ensures ParseFields(h.name + [' '] + h.dir + [' '] + DecimalInt(h.size) + [' '] + Hex(h.hash)) == Some(h)
  {
    hide DecimalInt, Hex, Split, ParseDecimalInt, ParseHex;
    var size, hash := DecimalInt(h.size), Hex(h.hash);
    var tail2 := size + [' '] + hash;
    var tail1 := h.dir + [' '] + tail2;
    var text := h.name + [' '] + h.dir + [' '] + size + [' '] + hash;
    assert text == h.name + [' '] + tail1;
    SplitField<byte>(h.name, ' ', tail1);
    SplitField<byte>(h.dir, ' ', tail2);
    SplitField<byte>(size, ' ', hash);
    SplitLast<byte>(hash, ' ');
    assert Split<byte>(text, ' ') == [h.name, h.dir, size, hash];
    ParseOfDecimalInt(h.size);
    ParseOfHex(h.hash);
  }

  /** A BEGIN frame decodes to the header it was printed from. */
  lemma ParseOfBegin(h: Header)
    requires FitsHeader(h)
    ensures ParseHeader(BeginFrame(h)) == Some(h)
  {
    hide DecimalInt, Hex, ParseFields;
    var t := HeaderText(h);
    var rest := h.name + [' '] + h.dir + [' '] + DecimalInt(h.size) + [' '] + Hex(h.hash);
    assert t == BEGIN() + [' '] + rest;
    UpToNulOfText(t, BeginFrame(h)[|t|..]);
    assert t + BeginFrame(h)[|t|..] == BeginFrame(h);
    assert t[|BEGIN()| + 1..] == rest;
    ParseOfFields(h);
  }

  /** The header survives its datagram exactly when it has no space or NUL in a name and fits. */
  lemma HeaderRoundTripIff(h: Header)
    ensures ParseHeader(BeginFrame(h)) == Some(h) <==> FitsHeader(h)
  {
    if FitsHeader(h) {
      ParseOfBegin(h);
    } else if ParseHeader(BeginFrame(h)) == Some(h) {
      ParsedLength(UpToNul(BeginFrame(h))[|BEGIN()| + 1..]);
      assert false;
    }
  }

  /** Fields that parse are at least as long as the text that would be printed for them. */
  lemma ParsedLength(text: seq<byte>)
    requires ParseFields(text).Some?
    ensures var h := ParseFields(text).value;
      |h.name| + |h.dir| + |DecimalInt(h.size)| + |Hex(h.hash)| + 3 <= |text|
  {
    hide DecimalInt, Hex, Split, ParseDecimalInt, ParseHex;
    var fields := Split<byte>(text, ' ');
    SplitLength<byte>(text, ' ');
    ConcatOfFour(fields);
    DecimalIntIsShortest(fields[2]);
  }

  lemma ConcatOfFour(f: seq<seq<byte>>)
    requires |f| == 4
    ensures |Concat(f)| == |f[0]| + |f[1]| + |f[2]| + |f[3]|
  {
    assert f == [f[0]] + ([f[1]] + ([f[2]] + [f[3]]));
    ConcatAppend([f[0]], [f[1]] + ([f[2]] + [f[3]]));
    ConcatAppend([f[1]], [f[2]] + [f[3]]);
    ConcatAppend([f[2]], [f[3]]);
  }

  /** With spaces in names, different headers give the same datagram, so no receiver can tell. */
  lemma SpacesAreAmbiguous(size: int, hash: seq<byte>)
    ensures BeginFrame(Header("a b", "c", size, hash)) == BeginFrame(Header("a", "b c", size, hash))
  {
    hide BEGIN, DecimalInt, Hex, Padded;
    var one, two := HeaderText(Header("a b", "c", size, hash)), HeaderText(Header("a", "b c", size, hash));
    var first, last := BEGIN() + [' '], [' '] + DecimalInt(size) + [' '] + Hex(hash);
    assert one == first + ("a b" + [' '] + "c") + last;
    assert two == first + ("a" + [' '] + "b c") + last;
    assert "a b" + [' '] + "c" == "a" + [' '] + "b c";
  }

  // ---- data frames ----

  /** A data frame says its number, length and payload, and is never taken for a text frame. */
  lemma FrameReads(buffer: Datagram, i: nat, chunk: seq<byte>)
    requires |chunk| <= PAYLOAD
    ensures var d := DataFrame(buffer, i, chunk);
      && Number(d) == i % TWO32 && Length(d) == |chunk| && d[8..8 + |chunk|] == chunk
      && !IsBegin(d) && !IsEnd(d)
  {
    hide FromLE32;
    var d := DataFrame(buffer, i, chunk);
    var head := LE32(i) + LE32(|chunk|);
    assert d == head + (chunk + buffer[8 + |chunk|..]);
    assert d[..4] == head[..4] == LE32(i) && d[4..8] == head[4..8] == LE32(|chunk|);
    LE32RoundTrip(i);
    LE32RoundTrip(|chunk|);
    // byte 6 is the third byte of a length below 65536; both texts have 'E' there
    assert d[6] == head[6] == LE32(|chunk|)[2] == '\0';
    assert BEGIN()[6] == 'E' && END()[6] == 'E';
  }

  /** The frames of a transfer bear different numbers exactly when there are at most 2^32 of them. */
  lemma NumbersDistinctIff(buffer: Datagram, chunks: seq<seq<byte>>)
    requires Chunked(chunks)
    ensures var frames := DataFrames(buffer, chunks);
      (forall i, j :: 0 <= i < j < |frames| ==> Number(frames[i]) != Number(frames[j])) <==> |chunks| <= TWO32
  {
    hide DataFrame, DataFrames, FrameAt, Number;
    var frames := DataFrames(buffer, chunks);
    forall i | 0 <= i < |frames| ensures Number(frames[i]) == i % TWO32 {
      FrameStep(buffer, chunks, i);
      FrameReads(if i == 0 then buffer else frames[i - 1], i, chunks[i]);
    }
    if |chunks| > TWO32 {
      assert Number(frames[0]) == Number(frames[TWO32]);
    }
  }

  // ---- transfers ----

  /** One file on its way: the chunks read by the sender and the data frames that arrive. */
  datatype Transfer = Transfer(header: Header, chunks: seq<seq<byte>>, arrivals: seq<Datagram>) {
    function Frames(): (frames: seq<Datagram>)
      requires Chunked(chunks)
      ensures |frames| == |chunks|
    {
      DataFrames(BeginFrame(header), chunks)
    }

    /** Arrivals are frames of this transfer in any order, repeated or lost at will. */
    ghost predicate Valid() {
      && FitsHeader(header) && Chunked(chunks) && |chunks| <= TWO32
      && forall d :: d in arrivals ==> d in Frames()
    }

    predicate Arrived(i: nat)
      requires Chunked(chunks) && i < |chunks|
    {
      Frames()[i] in arrivals
    }

    /** The chunks with the lost ones blanked. */
    function Survivors(): (s: seq<seq<byte>>)
      requires Chunked(chunks)
      ensures |s| == |chunks|
    {
      seq(|chunks|, i requires 0 <= i < |chunks| => if Arrived(i) then chunks[i] else [])
    }

    function Wire(): seq<Datagram> {
      [BeginFrame(header)] + arrivals + [EndFrame()]
    }
  }

  lemma TransferFrame(t: Transfer, i: nat)
    requires t.Valid() && i < |t.chunks|
    ensures var d := t.Frames()[i];
      && Number(d) == i && Length(d) == |t.chunks[i]| && d[8..8 + |t.chunks[i]|] == t.chunks[i]
      && !IsBegin(d) && !IsEnd(d)
  {
    hide DataFrame, DataFrames, FrameAt, Padded, HeaderText, IsBegin, IsEnd, Number, Length;
    var frames := t.Frames();
    FrameStep(BeginFrame(t.header), t.chunks, i);
    FrameReads(if i == 0 then BeginFrame(t.header) else frames[i - 1], i, t.chunks[i]);
  }

  /** The pieces are exactly the chunks whose frames are among `seen`. */
  ghost predicate Collected(t: Transfer, pieces: Pieces, seen: seq<Datagram>)
    requires t.Valid()
  {
    && (forall k :: k in pieces ==> k < |t.chunks| && pieces[k] == t.chunks[k] && t.Frames()[k] in seen)
    && (forall k :: 0 <= k < |t.chunks| && t.Frames()[k] in seen ==> k in pieces)
  }

  lemma CollectOne(t: Transfer, pieces: Pieces, seen: seq<Datagram>, d: Datagram)
    requires t.Valid() && d in t.Frames() && Collected(t, pieces, seen)
    ensures !IsBegin(d) && !IsEnd(d) && Collected(t, AddPiece(pieces, d), seen + [d])
  {
    hide DataFrame, DataFrames, FrameAt, Padded, HeaderText, IsBegin, IsEnd, Number, Length;
    var frames := t.Frames();
    var i :| 0 <= i < |frames| && frames[i] == d;
    TransferFrame(t, i);
    forall k | 0 <= k < |frames| && frames[k] == d ensures k == i { TransferFrame(t, k); }
    assert AddPiece(pieces, d) == pieces[i := t.chunks[i]];
  }

  lemma {:induction false} CollectAll(t: Transfer, pieces: Pieces, seen: seq<Datagram>, ds: seq<Datagram>)
    returns (all: Pieces)
    requires t.Valid() && Collected(t, pieces, seen) && forall d :: d in ds ==> d in t.Frames()
    ensures ReceiveAll(Receiving(t.header, pieces), ds) == (Receiving(t.header, all), [])
    ensures Collected(t, all, seen + ds)
    decreases |ds|
  {
    hide Collected, AddPiece, Transfer.Valid, Transfer.Frames, IsBegin, IsEnd;
    if ds == [] {
      all := pieces;
      assert seen + ds == seen;
    } else {
      CollectOne(t, pieces, seen, ds[0]);
      all := CollectAll(t, AddPiece(pieces, ds[0]), seen + [ds[0]], ds[1..]);
      assert seen + ds == seen + [ds[0]] + ds[1..];
      var rx := Receiving(t.header, pieces);
      assert Receive(rx, ds[0]) == (Receiving(t.header, AddPiece(pieces, ds[0])), []);
      assert ReceiveAll(rx, ds).1 == [];
    }
  }

  lemma {:induction false} AssembleCollected(t: Transfer, pieces: Pieces, n: nat)
    requires t.Valid() && Collected(t, pieces, t.arrivals)
    ensures Assemble(pieces, n) == Concat(t.Survivors()[..if n <= |t.chunks| then n else |t.chunks|])
  {
    hide DataFrames, HeaderText, Padded, Transfer.Survivors, Collected;
    if n > 0 {
      AssembleCollected(t, pieces, n - 1);
      var s := t.Survivors();
      CollectedPiece(t, pieces, n - 1);
      if n <= |t.chunks| {
        assert s[..n] == s[..n - 1] + [s[n - 1]];
        ConcatSnoc(s[..n - 1], s[n - 1]);
      }
    }
  }

  lemma CollectedPiece(t: Transfer, pieces: Pieces, k: nat)
    requires t.Valid() && Collected(t, pieces, t.arrivals)
    ensures k >= |t.chunks| ==> k !in pieces
    ensures k < |t.chunks| ==> t.Survivors()[k] == if k in pieces then pieces[k] else []
  {
    hide DataFrames, HeaderText, Padded;
  }

  /** Any arrival order gives one file: the chunks that arrived, in order of their numbers. */
  lemma OneTransfer(rx: Rx, t: Transfer)
    requires t.Valid()
    ensures ReceiveAll(rx, t.Wire()) == (Idle, [Received(t.header, Concat(t.Survivors()))])
  {
    hide HeaderText, Padded, IsBegin, IsEnd, ParseHeader, Assemble, Transfer.Frames, ReceiveAll;
    var b, e := [BeginFrame(t.header)], [EndFrame()];
    TextFrames(t.header);
    var all := CollectAll(t, map[], [], t.arrivals);
    assert [] + t.arrivals == t.arrivals;
    AssembleCollected(t, all, TWO32);
    assert t.Survivors()[..|t.chunks|] == t.Survivors();
    ReceiveAppend(rx, b + t.arrivals, e);
    ReceiveAppend(rx, b, t.arrivals);
    ReceiveOne(rx, b[0]);
    ReceiveOne(Receiving(t.header, all), e[0]);
    assert ReceiveAll(rx, b) == (Receiving(t.header, map[]), []);
    assert ReceiveAll(rx, b + t.arrivals).1 == [];
    var file := Received(t.header, Assemble(all, TWO32));
    assert ReceiveAll(rx, t.Wire()).1 == [file];
  }

  lemma ReceiveOne(rx: Rx, d: Datagram)
    ensures ReceiveAll(rx, [d]) == Receive(rx, d)
  {
    hide Receive;
    var (rx1, out1) := Receive(rx, d);
    assert ReceiveAll(rx1, [d][1..]) == (rx1, []);
    assert out1 + [] == out1;
  }

  lemma TextFrames(h: Header)
    requires FitsHeader(h)
    ensures IsBegin(BeginFrame(h)) && ParseHeader(BeginFrame(h)) == Some(h)
    ensures !IsBegin(EndFrame()) && IsEnd(EndFrame())
  {
    ParseOfBegin(h);
    assert EndFrame()[16] == 'E' && BEGIN()[16] == 'B';
  }

  /** Replacing pieces by nothing shortens the whole exactly when a non-empty piece goes. */
  lemma {:induction false} BlankedLength(all: seq<seq<byte>>, kept: seq<seq<byte>>)
    requires |all| == |kept| && forall i :: 0 <= i < |all| ==> kept[i] == all[i] || kept[i] == []
    ensures |Concat(kept)| <= |Concat(all)|
    ensures |Concat(kept)| == |Concat(all)| <==> kept == all
  {
    if all != [] {
      BlankedLength(all[1..], kept[1..]);
      assert kept == [kept[0]] + kept[1..] && all == [all[0]] + all[1..];
    }
  }

  /**
   * When the announced size is the file's, the recovered file passes the length check exactly when
   * a copy of every non-empty frame arrived, and then it is the file: nothing behind a short
   * payload gets in, and no loss goes unnoticed.
   */
  lemma LossDetected(t: Transfer, content: seq<byte>)
    requires t.Valid() && LegalReads(t.chunks, content) && t.header.size == |content|
    ensures var file := Received(t.header, Concat(t.Survivors()));
      && (file.Complete() <==> forall i :: 0 <= i < |t.chunks| && t.chunks[i] != [] ==> t.Arrived(i))
      && (file.Complete() ==> file.content == content)
      && |file.content| <= |content|
  {
    hide Transfer.Arrived;
    var kept := t.Survivors();
    BlankedLength(t.chunks, kept);
    if kept == t.chunks {
      forall i | 0 <= i < |t.chunks| && t.chunks[i] != [] ensures t.Arrived(i) { assert kept[i] != []; }
    }
  }

  ghost function Recovered(ts: seq<Transfer>): (files: seq<Received>)
    requires forall i :: 0 <= i < |ts| ==> ts[i].Valid()
    ensures |files| == |ts|
    ensures forall i :: 0 <= i < |ts| && ts[i].Valid() ==> files[i] == Received(ts[i].header, Concat(ts[i].Survivors()))
  {
    seq(|ts|, i requires 0 <= i < |ts| && ts[i].Valid() => Received(ts[i].header, Concat(ts[i].Survivors())))
  }

  function WireOf(ts: seq<Transfer>): seq<Datagram> {
    if ts == [] then [] else ts[0].Wire() + WireOf(ts[1..])
  }

  /** Transfers one after the other, each with its own losses, repeats and order, come out apart. */
  lemma {:induction false} TransfersInSequence(rx: Rx, ts: seq<Transfer>)
    requires forall i :: 0 <= i < |ts| ==> ts[i].Valid()
    ensures ReceiveAll(rx, WireOf(ts)).1 == Recovered(ts)
    decreases |ts|
  {
    hide Transfer.Wire, Transfer.Survivors, Transfer.Valid, ReceiveAll;
    if ts == [] {
      ReceiveNothing(rx);
    } else {
      OneTransfer(rx, ts[0]);
      TransfersInSequence(Idle, ts[1..]);
      ReceiveAppend(rx, ts[0].Wire(), WireOf(ts[1..]));
    }
  }

  /** A file as the sender is asked to send it: what to announce, its bytes, and how they are read. */
  datatype Sending = Sending(header: Header, content: seq<byte>, chunks: seq<seq<byte>>) {
    ghost predicate Valid() {
      FitsHeader(header) && LegalReads(chunks, content) && |chunks| <= TWO32
    }
  }

  ghost function SessionsOf(files: seq<Sending>): seq<Datagram>
    requires forall i :: 0 <= i < |files| ==> files[i].Valid()
  {
    if files == [] then [] else assert files[0].Valid(); Session(files[0].header, files[0].chunks) + SessionsOf(files[1..])
  }

  function Sent(files: seq<Sending>): (received: seq<Received>)
    ensures |received| == |files|
    ensures forall i :: 0 <= i < |files| ==> received[i] == Received(files[i].header, files[i].content)
  {
    Map((f: Sending) => Received(f.header, f.content), files)
  }

  /** What the sender writes for a list of files decodes to exactly that list. */
  lemma {:induction false} SessionRoundTrip(rx: Rx, files: seq<Sending>)
    requires forall i :: 0 <= i < |files| ==> files[i].Valid()
    ensures ReceiveAll(rx, SessionsOf(files)).1 == Sent(files)
    decreases |files|
  {
    hide Session, BeginFrame, EndFrame, ReceiveAll, Sent, FitsHeader;
    SentParts(files);
    if files == [] {
      ReceiveNothing(rx);
    } else {
      OneSession(rx, files[0]);
      SessionRoundTrip(Idle, files[1..]);
      ReceiveAppend(rx, Session(files[0].header, files[0].chunks), SessionsOf(files[1..]));
    }
  }

  lemma SentParts(files: seq<Sending>)
    ensures files == [] ==> Sent(files) == []
    ensures files != [] ==> Sent(files) == [Received(files[0].header, files[0].content)] + Sent(files[1..])
  {}

  lemma ReceiveNothing(rx: Rx)
    ensures ReceiveAll(rx, []) == (rx, [])
  {}

  lemma OneSession(rx: Rx, f: Sending)
    requires f.Valid()
    ensures ReceiveAll(rx, Session(f.header, f.chunks)) == (Idle, [Received(f.header, f.content)])
  {
    hide FrameAt, DataFrames, Padded, HeaderText;
    var t := Transfer(f.header, f.chunks, DataFrames(BeginFrame(f.header), f.chunks));
    assert t.Valid();
    OneTransfer(rx, t);
    assert t.Survivors() == f.chunks;
  }
}
