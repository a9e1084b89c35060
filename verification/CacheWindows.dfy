/** When the cache changes files: the rotation test against the five-minute windows it stands for. */
module CacheWindows {
  import opened Seqs
  import opened Listing
  import opened Stamps
  import opened CacheWriter

  function Minute<M>(events: seq<Event<M>>, k: nat): int
    requires k < |events|
  {
    events[k].now.Time()
  }

  /** The aligned five-minute window of a message. */
  function Window<M>(events: seq<Event<M>>, k: nat): int
    requires k < |events|
  {
    Minute(events, k) / 5
  }

  /** The file message k is written to, in the state the writer really is in. */
  function FileOf<M>(tree: Listing<Content<M>>, start: Stamp, events: seq<Event<M>>, k: nat): Option<Path>
    requires k < |events|
  {
    Run(Init(tree, start), events[..k + 1]).current
  }

  /** The rotation test in terms of time. */
  predicate RotatesAt<M>(events: seq<Event<M>>, k: nat)
    requires k < |events|
  {
    Minute(events, k) % 5 == 0 && (k == 0 || Minute(events, k - 1) % 5 != 0)
  }

  /** Every message that enters another window comes in its first minute, and not from another first minute. */
  ghost predicate OnTheDot<M>(events: seq<Event<M>>) {
    forall k :: 0 < k < |events| && Window(events, k) != Window(events, k - 1) ==> RotatesAt(events, k)
  }

  function Created<M>(start: Stamp, events: seq<Event<M>>, k: nat): Stamp
    requires k < |events|
  {
    LastCreated(start, events[..k + 1])
  }

  /** The open file is that of the last creation, whatever is in the tree and whatever the clock does. */
  lemma {:induction false} OpenIsCreated<M>(tree: Listing<Content<M>>, start: Stamp, events: seq<Event<M>>)
    ensures var w := Run(Init(tree, start), events);
      && w.current == Some(PathOf(LastCreated(start, events)))
      && w.prevRemainder == (if events == [] then -1 else events[|events| - 1].now.minute % 5)
  {
    hide PathOf, Rotates;
    if events != [] {
      OpenIsCreated(tree, start, events[..|events| - 1]);
    }
  }

  lemma FileOfCreated<M>(tree: Listing<Content<M>>, start: Stamp, events: seq<Event<M>>, k: nat)
    requires k < |events|
    ensures FileOf(tree, start, events, k) == Some(PathOf(Created(start, events, k)))
  {
    hide PathOf, Run, Init, LastCreated;
    OpenIsCreated(tree, start, events[..k + 1]);
  }

  lemma {:induction false} LastCreatedValid<M>(start: Stamp, events: seq<Event<M>>)
    requires start.Valid() && forall i :: 0 <= i < |events| ==> events[i].again.Valid()
    ensures LastCreated(start, events).Valid()
  {
    hide Stamp.Valid, Rotates;
    if events != [] { LastCreatedValid(start, events[..|events| - 1]); }
  }

  lemma CreatedStep<M>(start: Stamp, events: seq<Event<M>>, k: nat)
    requires k < |events|
    ensures Created(start, events, k) ==
      if RotatesAt(events, k) then events[k].again
      else if k == 0 then start else Created(start, events, k - 1)
  {
    hide Date;
    var upTo := events[..k + 1];
    assert upTo[..k] == events[..k] && upTo[k] == events[k];
    MinuteOfTime(events[k].now);
    if k == 0 {
      assert LastCreated(start, events[..0]) == start;
    } else {
      MinuteOfTime(events[k - 1].now);
      assert upTo[k - 1] == events[k - 1];
      assert Created(start, events, k - 1) == LastCreated(start, upTo[..k]);
    }
  }

  lemma {:induction false} MinutesAscend<M>(start: Stamp, events: seq<Event<M>>, i: nat, j: nat)
    requires Ticking(start, events) && i <= j < |events|
    ensures start.Time() <= Minute(events, i) <= Minute(events, j)
    ensures i < j ==> events[i].again.Time() <= Minute(events, j)
    decreases j
  {
    hide Date;
    assert Reading(start, events, j) <= events[j].now.Time();
    if i < j { MinutesAscend(start, events, i, j - 1); }
    else if j > 0 { MinutesAscend(start, events, j - 1, j - 1); }
  }

  /** A file is created no later than the second reading for any message in it. */
  lemma {:induction false} CreatedBy<M>(start: Stamp, events: seq<Event<M>>, k: nat)
    requires Ticking(start, events) && k < |events|
    ensures Created(start, events, k).Time() <= events[k].again.Time()
  {
    hide Date, Created;
    CreatedStep(start, events, k);
    MinutesAscend(start, events, k, k);
    if k > 0 {
      CreatedBy(start, events, k - 1);
      MinutesAscend(start, events, k - 1, k);
    }
  }

  /** A later rotation opens a file of a later minute, also when a minute turns between the two readings. */
  lemma RotationIsLater<M>(start: Stamp, events: seq<Event<M>>, i: nat, k: nat)
    requires Ticking(start, events) && i < k < |events| && RotatesAt(events, k)
    ensures Minute(events, i) < Minute(events, k)
    ensures Created(start, events, i).Time() < Created(start, events, k).Time() == events[k].again.Time()
  {
    hide Date, Created, Ticking;
    CreatedStep(start, events, k);
    MinutesAscend(start, events, i, k - 1);
    MinutesAscend(start, events, k - 1, k);
    ReadInOrder(start, events, k);
    if i < k - 1 {
      CreatedBy(start, events, i);
    } else {
      // the message in front of a rotation causes none
      CreatedStep(start, events, i);
      if i > 0 {
        CreatedBy(start, events, i - 1);
        MinutesAscend(start, events, i - 1, i);
      }
    }
  }

  lemma ReadInOrder<M>(start: Stamp, events: seq<Event<M>>, k: nat)
    requires Ticking(start, events) && k < |events|
    ensures Minute(events, k) <= events[k].again.Time()
  {}

  /** Rotations after the one at startup happen at strictly increasing minutes, in files of distinct names. */
  lemma RotationsDistinct<M>(start: Stamp, events: seq<Event<M>>, k: nat, l: nat)
    requires Ticking(start, events) && k < l < |events| && RotatesAt(events, k) && RotatesAt(events, l)
    ensures Minute(events, k) < Minute(events, l)
    ensures NameOf(events[k].again) != NameOf(events[l].again)
  {
    hide Date, NameOf, Created;
    RotationIsLater(start, events, k, l);
    CreatedStep(start, events, k);
    NamesDistinct(events[k].again, events[l].again);
  }

  /** The writer never rotates between two messages of one window. */
  lemma {:induction false} NeverInsideAWindow<M>(start: Stamp, events: seq<Event<M>>, i: nat, j: nat)
    requires Ticking(start, events) && i <= j < |events| && Window(events, i) == Window(events, j)
    ensures Created(start, events, i) == Created(start, events, j)
    decreases j
  {
    hide Date, Created, Ticking;
    if i < j {
      MinutesAscend(start, events, i, j - 1);
      MinutesAscend(start, events, j - 1, j);
      CreatedStep(start, events, j);
      NeverInsideAWindow(start, events, i, j - 1);
    }
  }

  lemma {:induction false} FilesFollowWindows<M>(start: Stamp, events: seq<Event<M>>, i: nat, j: nat)
    requires Ticking(start, events) && OnTheDot(events) && i <= j < |events|
    ensures Created(start, events, i) == Created(start, events, j) <==> Window(events, i) == Window(events, j)
    decreases j
  {
    hide Date, Created, Ticking;
    if i < j {
      MinutesAscend(start, events, i, j - 1);
      MinutesAscend(start, events, j - 1, j);
      CreatedStep(start, events, j);
      if RotatesAt(events, j) {
        RotationIsLater(start, events, i, j);
      } else {
        FilesFollowWindows(start, events, i, j - 1);
        assert Window(events, j - 1) == Window(events, j);
      }
    }
  }

  /**
   * For every run: messages share a file exactly when they share a five-minute window, if and only
   * if each window is entered in its first minute from a message that was not in a first minute.
   */
  lemma FilesAreWindowsIff<M>(tree: Listing<Content<M>>, start: Stamp, events: seq<Event<M>>)
    requires Ticking(start, events)
    ensures
      (forall i, j :: 0 <= i < j < |events| ==>
         (FileOf(tree, start, events, i) == FileOf(tree, start, events, j) <==> Window(events, i) == Window(events, j)))
      <==> OnTheDot(events)
  {
    hide Date, Created, FileOf, PathOf, Window, Ticking;
    forall i, j | 0 <= i < j < |events|
      ensures FileOf(tree, start, events, i) == FileOf(tree, start, events, j)
        <==> Created(start, events, i) == Created(start, events, j)
    {
      SameFile(tree, start, events, i, j);
    }
    if OnTheDot(events) {
      forall i, j | 0 <= i < j < |events|
        ensures Created(start, events, i) == Created(start, events, j) <==> Window(events, i) == Window(events, j)
      {
        FilesFollowWindows(start, events, i, j);
      }
    } else {
      var k :| 0 < k < |events| && Window(events, k) != Window(events, k - 1) && !RotatesAt(events, k);
      CreatedStep(start, events, k);
      assert FileOf(tree, start, events, k - 1) == FileOf(tree, start, events, k);
    }
  }

  lemma SameFile<M>(tree: Listing<Content<M>>, start: Stamp, events: seq<Event<M>>, i: nat, j: nat)
    requires Ticking(start, events) && i < |events| && j < |events|
    ensures FileOf(tree, start, events, i) == FileOf(tree, start, events, j)
      <==> Created(start, events, i) == Created(start, events, j)
  {
    hide Date, FileOf, PathOf, Stamp.Valid;
    FileOfCreated(tree, start, events, i);
    FileOfCreated(tree, start, events, j);
    LastCreatedValid(start, events[..i + 1]);
    LastCreatedValid(start, events[..j + 1]);
    PathsDistinct(Created(start, events, i), Created(start, events, j));
  }

  /** Messages at least every minute enter each window in its first minute. */
  lemma MinuteByMinute<M>(events: seq<Event<M>>)
    requires forall k :: 0 < k < |events| ==> 0 <= Minute(events, k) - Minute(events, k - 1) <= 1
    ensures OnTheDot(events)
  {
    hide Date;
    forall k | 0 < k < |events| && Window(events, k) != Window(events, k - 1) ensures RotatesAt(events, k) {
      assert 0 <= Minute(events, k) - Minute(events, k - 1) <= 1;
    }
  }

  /** Where it fails: after minute 4 the next message comes in minute 6, and both are in one file. */
  lemma SkippedMinute<M>(s: Stamp, m: M) returns (events: seq<Event<M>>)
    requires s.Valid() && s.minute == 4
    ensures Ticking(s, events) && !OnTheDot(events)
    ensures |events| == 2 && Window(events, 0) != Window(events, 1)
    ensures forall tree :: FileOf(tree, s, events, 0) == FileOf(tree, s, events, 1)
  {
    hide PathOf, Run, Init, YearStart, MonthStart, DaysIn, FileOf;
    var t := s.(minute := 6);
    events := [Event(m, s, s), Event(m, t, t)];
    assert t.Time() == s.Time() + 2;
    MinuteOfTime(s);
    assert Window(events, 1) == Window(events, 0) + 1 && !RotatesAt(events, 1);
    CreatedStep(s, events, 1);
    forall tree ensures FileOf(tree, s, events, 0) == FileOf(tree, s, events, 1) {
      FileOfCreated(tree, s, events, 0);
      FileOfCreated(tree, s, events, 1);
    }
  }
}
