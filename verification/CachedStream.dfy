/** Several collectors at once: what is sent, what is cached, and what the cache gives back. */
module CachedStream {
  import opened Seqs
  import opened Integers
  import opened Listing
  import opened Stamps
  import opened Collector
  import CacheWriter

  /** A message of a group. */
  datatype Tagged<P> = Tagged(group: nat, batch: Batch<P>)

  /** One collector takes one point; handing a full batch to the proxy and to the cache is one step. */
  datatype Turn<P> = Turn(group: nat, reading: Reading<P>)

  datatype Streams<P> = Streams(progress: map<nat, Progress<P>>, sent: seq<Tagged<P>>, cached: seq<Tagged<P>>) {
    function Of(g: nat): Progress<P> { if g in progress then progress[g] else Start() }
  }

  function TakeTurn<P>(s: Streams<P>, t: Turn<P>): Streams<P> {
    var c := s.Of(t.group);
    var d := Step(c, t.reading);
    var n := |c.sent|;
    if |d.sent| > n then
      Streams(s.progress[t.group := d],
              s.sent + [Tagged(t.group, Batch(n % TWO64, d.sent[n]))],
              s.cached + [Tagged(t.group, Batch((n + 1) % TWO64, d.sent[n]))])
    else s.(progress := s.progress[t.group := d])
  }

  function Interleave<P>(ts: seq<Turn<P>>): Streams<P> {
    if ts == [] then Streams(map[], [], []) else TakeTurn(Interleave(ts[..|ts| - 1]), ts[|ts| - 1])
  }

  function Turns<P>(g: nat): Turn<P> -> bool { (t: Turn<P>) => t.group == g }

  function InGroup<P>(g: nat): Tagged<P> -> bool { (m: Tagged<P>) => m.group == g }

  /** What one collector reads. */
  function ReadBy<P>(ts: seq<Turn<P>>, g: nat): seq<Reading<P>> {
    Map((t: Turn<P>) => t.reading, Filter(Turns(g), ts))
  }

  /** The messages of one group in a stream. */
  function OfGroup<P>(log: seq<Tagged<P>>, g: nat): seq<Batch<P>> {
    Map((m: Tagged<P>) => m.batch, Filter(InGroup(g), log))
  }

  lemma FilterSnoc<A>(p: A -> bool, s: seq<A>, x: A)
    ensures Filter(p, s + [x]) == Filter(p, s) + (if p(x) then [x] else [])
  {
    FilterAppend(p, s, [x]);
    assert Filter(p, [x]) == (if p(x) then [x] else []) + Filter(p, [x][1..]);
  }

  lemma OfGroupSnoc<P>(log: seq<Tagged<P>>, m: Tagged<P>, g: nat)
    ensures OfGroup(log + [m], g) == if m.group == g then OfGroup(log, g) + [m.batch] else OfGroup(log, g)
  {
    FilterSnoc(InGroup(g), log, m);
  }

  lemma ReadBySnoc<P>(ts: seq<Turn<P>>, t: Turn<P>, g: nat)
    ensures ReadBy(ts + [t], g) == if t.group == g then ReadBy(ts, g) + [t.reading] else ReadBy(ts, g)
  {
    FilterSnoc(Turns(g), ts, t);
  }

  /**
   * In every interleaving each collector makes the progress it would make alone; its messages are
   * sent in order with numbers 0, 1, ..., and cached in the same order with each number one higher.
   */
  lemma {:induction false} CachedRefinesSent<P>(ts: seq<Turn<P>>, g: nat)
    ensures var s := Interleave(ts);
      && s.Of(g) == Steps(Start(), ReadBy(ts, g))
      && Numbered(OfGroup(s.sent, g), s.Of(g).sent, 0)
      && Numbered(OfGroup(s.cached, g), s.Of(g).sent, 1)
  {
    hide Step, Steps, Numbered, ReadBy, OfGroup, TakeTurn;
    if ts == [] {
      NothingRead<P>(g);
    } else {
      var n := |ts| - 1;
      var before, t := ts[..n], ts[n];
      assert ts == before + [t];
      CachedRefinesSent(before, g);
      ReadBySnoc(before, t, g);
      TurnOfGroup(Interleave(before), t, g, ReadBy(before, g));
    }
  }

  /** What one turn does to the streams of a group. */
  lemma TurnOfGroup<P>(s: Streams<P>, t: Turn<P>, g: nat, rs: seq<Reading<P>>)
    requires s.Of(g) == Steps(Start(), rs)
    requires Numbered(OfGroup(s.sent, g), s.Of(g).sent, 0) && Numbered(OfGroup(s.cached, g), s.Of(g).sent, 1)
    ensures var u := TakeTurn(s, t);
      && u.Of(g) == Steps(Start(), if t.group == g then rs + [t.reading] else rs)
      && Numbered(OfGroup(u.sent, g), u.Of(g).sent, 0)
      && Numbered(OfGroup(u.cached, g), u.Of(g).sent, 1)
  {
    hide Step, Steps, Numbered, OfGroup;
    var c := s.Of(t.group);
    var d := Step(c, t.reading);
    if t.group == g {
      assert (rs + [t.reading])[..|rs|] == rs;
      StepsSnoc(rs + [t.reading]);
      SentGrows(c, t.reading);
    }
    if |d.sent| > |c.sent| {
      var k := |c.sent|;
      var h := d.sent[k];
      OfGroupSnoc(s.sent, Tagged(t.group, Batch(k % TWO64, h)), g);
      OfGroupSnoc(s.cached, Tagged(t.group, Batch((k + 1) % TWO64, h)), g);
      if t.group == g {
        assert d.sent == c.sent + [h];
        NumberedMore(OfGroup(s.sent, g), c.sent, 0, h);
        NumberedMore(OfGroup(s.cached, g), c.sent, 1, h);
      }
    }
  }

  lemma SentGrows<P>(c: Progress<P>, r: Reading<P>)
    ensures var d := Step(c, r);
      d.sent == c.sent || (|d.sent| == |c.sent| + 1 && d.sent == c.sent + [d.sent[|c.sent|]])
  {}

  lemma NothingRead<P>(g: nat)
    ensures ReadBy<P>([], g) == [] && Steps<P>(Start(), []) == Start()
    ensures OfGroup<P>([], g) == []
    ensures Numbered(OfGroup<P>([], g), Start<P>().sent, 0) && Numbered(OfGroup<P>([], g), Start<P>().sent, 1)
  {}

  /**
   * Replay: after the cached messages of any interleaving went through the history writer and the
   * last file was closed, the files read in walk order hold, behind what was there before, text
   * that decodes to messages whose restriction to a group is that group's batches, in order.
   */
  lemma ReplayGivesBatches<P>(tree: Listing<CacheWriter.Content<Tagged<P>>>, start: Stamp,
                              events: seq<CacheWriter.Event<Tagged<P>>>, ts: seq<Turn<P>>, g: nat)
    returns (text: CacheWriter.Content<Tagged<P>>, ms: seq<Tagged<P>>)
    requires CacheWriter.Earlier(tree, start) && CacheWriter.Clock(start, events)
    requires CacheWriter.Messages(events) == Interleave(ts).cached
    ensures CacheWriter.Contents(Walk([], CacheWriter.CloseFile(CacheWriter.Run(CacheWriter.Init(tree, start), events)).tree))
      == CacheWriter.Contents(Walk([], tree)) + text
    ensures CacheWriter.Decode(text) == Some((CacheWriter.AtStart, ms))
    ensures Numbered(OfGroup(ms, g), Steps(Start(), ReadBy(ts, g)).sent, 1)
  {
    var s := CacheWriter.Segments(-1, events);
    text, ms := CacheWriter.RenderAll(s.closed + [s.last]), CacheWriter.Messages(events);
    CacheWriter.CacheConservation(tree, start, events);
    CachedRefinesSent(ts, g);
  }
}
