/** The datagrams of a file transfer and the sender that writes them. */
module Wire {
  import opened Seqs
  import opened Text
  import opened Integers

  const DATAGRAM := 1200
  const PAYLOAD := 1192

  type Datagram = d: seq<byte> | |d| == 1200 witness seq(1200, _ => '\0')

  // ---- 32-bit numbers ----

  /** binary.LittleEndian.PutUint32 of uint32(v). */
  function LE32(v: nat): (b: seq<byte>)
    ensures |b| == 4
  {
    [(v % 256) as char, (v / 256 % 256) as char, (v / 65536 % 256) as char, (v / 16777216 % 256) as char]
  }

  function FromLE32(b: seq<byte>): (v: nat)
    requires |b| == 4
    ensures v < TWO32
  {
    b[0] as int + 256 * b[1] as int + 65536 * b[2] as int + 16777216 * b[3] as int
  }

  lemma LE32RoundTrip(v: nat)
    ensures FromLE32(LE32(v)) == v % TWO32
  {
    assert v / 256 / 256 == v / 65536 && v / 65536 / 256 == v / 16777216;
    assert v / 16777216 / 256 == v / TWO32;
  }

  // ---- text frames ----

  /** What the BEGIN frame announces; the size is whatever integer the sender prints. */
  datatype Header = Header(name: seq<byte>, dir: seq<byte>, size: int, hash: seq<byte>)

  function BEGIN(): seq<byte> { "DD-FILETRANSFER BEGIN v2" }
  function END(): seq<byte> { "DD-FILETRANSFER END v2" }

  function HeaderText(h: Header): seq<byte> {
    BEGIN() + [' '] + h.name + [' '] + h.dir + [' '] + DecimalInt(h.size) + [' '] + Hex(h.hash)
  }

  /** copy(content, text) into a fresh buffer: cut at the datagram size, zero filled. */
  function Padded(text: seq<byte>): Datagram {
    if |text| >= DATAGRAM then text[..DATAGRAM] else text + seq(DATAGRAM - |text|, _ => '\0')
  }

  function BeginFrame(h: Header): Datagram { Padded(HeaderText(h)) }

  function EndFrame(): Datagram { Padded(END()) }

  // ---- data frames ----

  /** The buffer after one read of `chunk`: whatever lay behind the payload stays there. */
  function DataFrame(buffer: Datagram, counter: nat, chunk: seq<byte>): Datagram
    requires |chunk| <= PAYLOAD
  {
    LE32(counter) + LE32(|chunk|) + chunk + buffer[8 + |chunk|..]
  }

  predicate Chunked(chunks: seq<seq<byte>>) {
    forall i :: 0 <= i < |chunks| ==> |chunks[i]| <= PAYLOAD
  }

  /** The frame of chunk `i`, sent from a buffer that every earlier chunk went through. */
  function FrameAt(buffer: Datagram, chunks: seq<seq<byte>>, i: nat): Datagram
    requires Chunked(chunks) && i < |chunks|
  {
    DataFrame(if i == 0 then buffer else FrameAt(buffer, chunks, i - 1), i, chunks[i])
  }

  function DataFrames(buffer: Datagram, chunks: seq<seq<byte>>): (frames: seq<Datagram>)
    requires Chunked(chunks)
    ensures |frames| == |chunks|
  {
    seq(|chunks|, i requires 0 <= i < |chunks| => FrameAt(buffer, chunks, i))
  }

  /** Everything one transfer puts on the wire. */
  function Session(h: Header, chunks: seq<seq<byte>>): seq<Datagram>
    requires Chunked(chunks)
  {
    [BeginFrame(h)] + DataFrames(BeginFrame(h), chunks) + [EndFrame()]
  }

  lemma FrameStep(buffer: Datagram, chunks: seq<seq<byte>>, i: nat)
    requires Chunked(chunks) && i < |chunks|
    ensures var frames := DataFrames(buffer, chunks);
      frames[i] == DataFrame(if i == 0 then buffer else frames[i - 1], i, chunks[i])
  {}

  /** Behind its payload a data frame still shows what the datagram before it had there, the BEGIN text at first. */
  lemma StaleBytes(h: Header, chunks: seq<seq<byte>>, i: nat)
    requires Chunked(chunks) && i < |chunks|
    ensures var session, at := Session(h, chunks), 8 + |chunks[i]|;
      session[i + 1][at..] == session[i][at..]
  {
    hide FrameAt, Padded, HeaderText;
    var frames := DataFrames(BeginFrame(h), chunks);
    FrameStep(BeginFrame(h), chunks, i);
    var session := Session(h, chunks);
    assert session[i + 1] == frames[i];
    assert session[i] == if i == 0 then BeginFrame(h) else frames[i - 1];
    StaleOfFrame(session[i], i, chunks[i]);
  }

  lemma StaleOfFrame(buffer: Datagram, counter: nat, chunk: seq<byte>)
    requires |chunk| <= PAYLOAD
    ensures DataFrame(buffer, counter, chunk)[8 + |chunk|..] == buffer[8 + |chunk|..]
  {}

  /** The text of one header, and of the END frame, byte for byte. */
  lemma HeaderWritten()
    ensures EndFrame()[..23] == "DD-FILETRANSFER END v2" + ['\0']
    ensures HeaderText(Header("a.txt", "x/y", 12, [255 as char, 10 as char])) == "DD-FILETRANSFER BEGIN v2 a.txt x/y 12 ff0a"
  {
    hide DecimalInt, Hex;
    SizeWritten();
    HashWritten();
  }

  lemma SizeWritten()
    ensures DecimalInt(12) == "12"
  {
    assert Decimal(12) == Decimal(1) + [Digit(2)];
  }

  lemma HashWritten()
    ensures Hex([255 as char, 10 as char]) == "ff0a"
  {
    var hash: seq<byte> := [255 as char, 10 as char];
    assert hash[1..] == [10 as char] && [10 as char][1..] == [];
    assert Hex([10 as char]) == "0a" + Hex([]) == "0a";
    assert Hex(hash) == "ff" + Hex(hash[1..]);
  }

  // ---- reads ----

  /**
   * `chunks` is what successive reads of the open file return, the last one being the read that
   * reports an error. Reads may be short, empty, or deliver data together with the error.
   */
  predicate LegalReads(chunks: seq<seq<byte>>, content: seq<byte>) {
    |chunks| > 0 && Chunked(chunks) && Concat(chunks) == content
  }

  /** The reads of a regular file: full buffers, one remainder, then the empty end-of-file read. */
  function FullReads(content: seq<byte>): (chunks: seq<seq<byte>>)
    ensures Chunked(chunks)
  {
    if content == [] then [[]]
    else if |content| <= PAYLOAD then [content, []]
    else [content[..PAYLOAD]] + FullReads(content[PAYLOAD..])
  }

  lemma {:induction false} FullReadsCount(content: seq<byte>)
    ensures LegalReads(FullReads(content), content)
    ensures |FullReads(content)| == (|content| + PAYLOAD - 1) / PAYLOAD + 1
  {
    var chunks := FullReads(content);
    if content == [] {
      assert Concat(chunks) == [] + Concat(chunks[1..]);
    } else if |content| <= PAYLOAD {
      assert |chunks| == 2 && chunks[1] == [];
      assert Concat(chunks[1..]) == [] + Concat(chunks[1..][1..]);
    } else {
      FullReadsCount(content[PAYLOAD..]);
      assert chunks[1..] == FullReads(content[PAYLOAD..]);
      assert content[..PAYLOAD] + content[PAYLOAD..] == content;
    }
  }

  // ---- counters ----

  /** The test after frame c, on the counter as a uint32. */
  predicate PauseAt(c: nat, m: nat)
    requires m > 0
  {
    c % TWO32 % m == 0
  }

  /** Pauses taken after c frames. */
  function Pauses(c: nat, m: nat): (p: nat)
    requires m > 0
    ensures c == 0 ==> p == 0
  {
    if c == 0 then 0 else Pauses(c - 1, m) + (if PauseAt(c, m) then 1 else 0)
  }

  lemma MulAtLeast(d: int, m: nat)
    requires d >= 1
    ensures d * m >= m
  {
    assert (d - 1) * m >= 0;
  }

  lemma DivUnique(x: nat, m: nat, q: nat, r: nat)
    requires m > 0 && x == q * m + r && r < m
    ensures x / m == q && x % m == r
  {
    var d := x / m - q;
    assert d * m == r - x % m;
    if d >= 1 { MulAtLeast(d, m); }
    if d <= -1 {
      MulAtLeast(-d, m);
    }
    assert d == 0;
  }

  lemma DivStep(r: nat, m: nat)
    requires m > 0
    ensures (r + 1) / m == r / m + (if (r + 1) % m == 0 then 1 else 0)
  {
    var q, s := r / m, r % m;
    if s + 1 == m {
      assert (q + 1) * m == q * m + m;
      DivUnique(r + 1, m, q + 1, 0);
    } else {
      DivUnique(r + 1, m, q, s + 1);
    }
  }

  lemma PauseAtTurn(turn: nat, r: nat, m: nat)
    requires m > 0 && r < TWO32
    ensures PauseAt(turn * TWO32 + r, m) <==> r % m == 0
  {
    assert (turn * TWO32 + r) % TWO32 == r;
  }

  /** Pauses within one turn of the counter. */
  lemma {:induction false} PauseTurn(turn: nat, r: nat, m: nat)
    requires m > 0 && r < TWO32
    ensures Pauses(turn * TWO32 + r, m) == Pauses(turn * TWO32, m) + r / m
  {
    hide PauseAt;
    if r == 0 {
      DivUnique(0, m, 0, 0);
    } else {
      PauseTurn(turn, r - 1, m);
      PauseAtTurn(turn, r, m);
      DivStep(r - 1, m);
    }
  }

  lemma WholeTurn(turn: nat, m: nat)
    requires m > 0
    ensures Pauses((turn + 1) * TWO32, m) == Pauses(turn * TWO32, m) + (TWO32 - 1) / m + 1
  {
    hide Pauses, PauseAt;
    PauseTurn(turn, TWO32 - 1, m);
    PausesStep((turn + 1) * TWO32, m);
    PauseAtTurn(turn + 1, 0, m);
    DivUnique(0, m, 0, 0);
  }

  lemma PausesStep(c: nat, m: nat)
    requires m > 0 && c > 0
    ensures Pauses(c, m) == Pauses(c - 1, m) + (if PauseAt(c, m) then 1 else 0)
  {}

  lemma {:induction false} PauseTurns(turns: nat, m: nat, k: nat)
    requires m > 0 && k == (TWO32 - 1) / m + 1
    ensures Pauses(turns * TWO32, m) == turns * k
  {
    if turns > 0 {
      PauseTurns(turns - 1, m, k);
      WholeTurn(turns - 1, m);
      assert (turns - 1) * k + k == turns * k;
    }
  }

  /** One pause every m frames, and one more each time the counter wraps to zero. */
  lemma PauseCount(c: nat, m: nat)
    requires m > 0
    ensures Pauses(c, m) == c / TWO32 * ((TWO32 - 1) / m + 1) + c % TWO32 / m
    ensures c < TWO32 ==> Pauses(c, m) == c / m
  {
    hide Pauses;
    PauseTurn(c / TWO32, c % TWO32, m);
    PauseTurns(c / TWO32, m, (TWO32 - 1) / m + 1);
  }

  /** The 386 build's running total is the number of bytes sent exactly up to 1789569 frames. */
  lemma TotalExactIff(c: nat)
    ensures (forall k: nat :: k <= c ==> ToInt32(1200 * k) == 1200 * k) <==> c <= 1789569
  {
    if c > 1789569 {
      assert ToInt32(1200 * 1789570) != 1200 * 1789570;
    }
  }

  // ---- the sender ----

  datatype Stat = Missing | Directory | Regular(size: nat)

  /** How the sender's system calls answer; `chunks` are the reads of the opened file. */
  datatype Calls = Calls(stat: Stat, dials: bool, opens: bool, hash: seq<byte>, chunks: seq<seq<byte>>)

  datatype Outcome = FileNotFound | IsDirectory | EmptyFile | DialFailed | OpenFailed | DivideByZero | Sent

  /** The checks before the first datagram, in the sender's order. */
  function Admission(calls: Calls): Outcome {
    if calls.stat.Missing? then FileNotFound
    else if calls.stat.Directory? then IsDirectory
    else if calls.stat.size == 0 then EmptyFile
    else if !calls.dials then DialFailed
    else if !calls.opens then OpenFailed
    else Sent
  }

  /**
   * sendFile up to the close of the file. A modulus that is zero as a uint32 makes the remainder
   * after the first data frame panic, so that transfer stops there.
   */
  method SendFile(name: seq<byte>, dir: seq<byte>, size: int, calls: Calls, modulus: int)
    returns (outcome: Outcome, wire: seq<Datagram>, total: int, pauses: nat)
    requires |calls.chunks| > 0 && Chunked(calls.chunks)
    ensures outcome == FileNotFound <==> calls.stat.Missing?
    ensures outcome == IsDirectory <==> calls.stat.Directory?
    ensures outcome == EmptyFile <==> calls.stat == Regular(0)
    ensures outcome == DialFailed <==> calls.stat.Regular? && calls.stat.size > 0 && !calls.dials
    ensures outcome == OpenFailed <==> calls.stat.Regular? && calls.stat.size > 0 && calls.dials && !calls.opens
    ensures Admission(calls) != Sent ==> outcome == Admission(calls) && wire == [] && total == 0 && pauses == 0
    ensures Admission(calls) == Sent ==>
      var h := Header(name, dir, size, calls.hash);
      && (modulus % TWO32 != 0 ==>
            && outcome == Sent
            && wire == Session(h, calls.chunks)
            && total == ToInt32(DATAGRAM * |calls.chunks|)
            && pauses == Pauses(|calls.chunks|, modulus % TWO32))
      && (modulus % TWO32 == 0 ==> outcome == DivideByZero && wire == Session(h, calls.chunks)[..2])
  {
    wire, total, pauses := [], 0, 0;
    outcome := Admission(calls);
    if outcome != Sent { return; }
    var divides;
    divides, wire, total, pauses := Transmit(Header(name, dir, size, calls.hash), calls.chunks, modulus % TWO32);
    if !divides { outcome := DivideByZero; }
  }

  /** The BEGIN frame, one data frame a read, the END frame; all but the last from one buffer. */
  method Transmit(h: Header, chunks: seq<seq<byte>>, m: nat)
    returns (divides: bool, wire: seq<Datagram>, total: int, pauses: nat)
    requires |chunks| > 0 && Chunked(chunks)
    ensures divides <==> m != 0
    ensures divides ==> wire == Session(h, chunks)
    ensures divides ==> total == ToInt32(DATAGRAM * |chunks|) && pauses == Pauses(|chunks|, m)
    ensures !divides ==> wire == Session(h, chunks)[..2]
  {
    hide FrameAt, DataFrame, DataFrames, Padded, PauseAt, HeaderText, END, ToInt32;
    divides, total, pauses := true, ToInt32(0), 0;
    var content := NewText(HeaderText(h));
    wire := [content[..]];
    ghost var frames := DataFrames(BeginFrame(h), chunks);
    var counter := 0;
    while counter < |chunks|
      invariant 0 <= counter <= |chunks|
      invariant content.Length == DATAGRAM && fresh(content)
      invariant content[..] == if counter == 0 then BeginFrame(h) else frames[counter - 1]
      invariant wire == [BeginFrame(h)] + frames[..counter]
      invariant total == ToInt32(DATAGRAM * counter)
      invariant m != 0 ==> pauses == Pauses(counter, m)
      invariant counter > 0 ==> m != 0
    {
      LoadFrame(content, counter, chunks[counter]);
      FrameStep(BeginFrame(h), chunks, counter);
      wire := wire + [content[..]];
      ToInt32Add(DATAGRAM * counter, DATAGRAM);
      total := ToInt32(total + DATAGRAM);
      counter := counter + 1;
      if m == 0 {
        divides := false;
        return;
      }
      if PauseAt(counter, m) {
        pauses := pauses + 1;
      }
    }
    content := NewText(END());
    wire := wire + [content[..]];
  }

  /** content = make([]byte, 1200); copy(content, text). */
  method NewText(text: seq<byte>) returns (content: array<byte>)
    ensures fresh(content) && content[..] == Padded(text)
  {
    content := new byte[DATAGRAM](_ => '\0');
    var n := if |text| < DATAGRAM then |text| else DATAGRAM;
    forall j | 0 <= j < n { content[j] := text[j]; }
  }

  /** One read into content[8..], then the two numbers in front of it. */
  method LoadFrame(content: array<byte>, counter: nat, chunk: seq<byte>)
    requires content.Length == DATAGRAM && |chunk| <= PAYLOAD
    modifies content
    ensures content[..] == DataFrame(old(content[..]), counter, chunk)
  {
    ghost var before := content[..];
    var n := |chunk|;
    forall j | 8 <= j < 8 + n { content[j] := chunk[j - 8]; }
    ghost var payload := chunk + before[8 + n..];
    assert content[8..] == payload;
    PutUint32(content, 0, counter);
    assert content[..4] == LE32(counter);
    assert content[8..] == payload;
    PutUint32(content, 4, n);
    assert content[..] == LE32(counter) + LE32(n) + payload;
  }

  method PutUint32(content: array<byte>, at: nat, v: nat)
    requires at + 4 <= content.Length
    modifies content
    ensures content[..] == old(content[..at]) + LE32(v) + old(content[at + 4..])
  {
    var b := LE32(v);
    forall j | 0 <= j < 4 { content[at + j] := b[j]; }
  }
}
