/** Starting and stopping collectors through the status stored in the database. */
module GroupStatus {
  datatype Status = NotRunning | Running | RunningWithWarning

  /** Where a collector is: not in its loop yet, or in front of the poll, the read or the update. */
  datatype Pc = Starting | Polling | Reading | Updating | Exited

  datatype Proc = Proc(pc: Pc, readCount: nat)

  /** One group: the stored status and the collectors ever started for it. */
  datatype World = World(status: Status, procs: seq<Proc>)

  /**
   * Atomic steps. A launch can fail to connect or find no tags; it stores a status when it works.
   * A poll may fail to load the group, and then the collector carries on.
   */
  datatype Action =
    | StartRequest(hasTags: bool)
    | StopRequest
    | Launch(c: nat, works: bool, warning: bool)
    | Poll(c: nat, found: bool)
    | Read(c: nat)
    | Update(c: nat)

  predicate At(w: World, c: nat, pc: Pc) { c < |w.procs| && w.procs[c].pc == pc }

  function Goto(w: World, c: nat, pc: Pc): World
    requires c < |w.procs|
  {
    w.(procs := w.procs[c := w.procs[c].(pc := pc)])
  }

  /** The action's effect; nothing happens when it is not the process's turn for it. */
  function Act(w: World, a: Action): World {
    match a
    case StartRequest(hasTags) =>
      if w.status == NotRunning && hasTags then w.(procs := w.procs + [Proc(Starting, 0)]) else w
    case StopRequest =>
      if w.status != NotRunning then w.(status := NotRunning) else w
    case Launch(c, works, warning) =>
      if !At(w, c, Starting) then w
      else if !works then Goto(w, c, Exited)
      else Goto(w, c, Polling).(status := if warning then RunningWithWarning else Running)
    case Poll(c, found) =>
      if !At(w, c, Polling) then w
      else if found && w.status == NotRunning then Goto(w, c, Exited)
      else Goto(w, c, Reading)
    case Read(c) =>
      if !At(w, c, Reading) then w
      else w.(procs := w.procs[c := Proc(Updating, w.procs[c].readCount + 1)])
    case Update(c) =>
      // writes the last run and the counter, never the status
      if !At(w, c, Updating) then w else Goto(w, c, Polling)
  }

  function Run(w: World, trace: seq<Action>): World
    decreases |trace|
  {
    if trace == [] then w else Run(Act(w, trace[0]), trace[1..])
  }

  // ---- sampling ----

  lemma RunAppend(w: World, a: seq<Action>, b: seq<Action>)
    ensures Run(w, a + b) == Run(Run(w, a), b)
    decreases |a|
  {
    if a == [] {
      assert a + b == b;
    } else {
      assert (a + b)[1..] == a[1..] + b;
      RunAppend(Act(w, a[0]), a[1..], b);
    }
  }

  lemma RunOne(w: World, a: Action)
    ensures Run(w, [a]) == Act(w, a)
  {
    assert [a][1..] == [];
    assert Run(Act(w, a), []) == Act(w, a);
  }

  lemma RunThree(w: World, a: Action, b: Action, c: Action)
    ensures Run(w, [a, b, c]) == Act(Act(Act(w, a), b), c)
  {
    hide Act;
    assert [a, b, c] == [a] + ([b] + [c]);
    RunAppend(w, [a], [b] + [c]);
    RunAppend(Act(w, a), [b], [c]);
    RunOne(w, a);
    RunOne(Act(w, a), b);
    RunOne(Act(Act(w, a), b), c);
  }

  /** Rounds of one collector; a poll may fail to find the group. */
  function Rounds(c: nat, found: seq<bool>): seq<Action> {
    if found == [] then [] else [Poll(c, found[0]), Read(c), Update(c)] + Rounds(c, found[1..])
  }

  /** While its group is not stopped, or its polls fail, a collector reads once in each of its rounds, and the status stays. */
  lemma {:induction false} SamplesWhileRunning(w: World, c: nat, found: seq<bool>)
    requires At(w, c, Polling)
    requires w.status != NotRunning || forall i :: 0 <= i < |found| ==> !found[i]
    ensures Run(w, Rounds(c, found)) == w.(procs := w.procs[c := Proc(Polling, w.procs[c].readCount + |found|)])
    decreases |found|
  {
    var count := w.procs[c].readCount;
    if found == [] {
      assert w.procs[c := w.procs[c]] == w.procs;
    } else {
      var round, after := [Poll(c, found[0]), Read(c), Update(c)], w.procs[c := Proc(Polling, count + 1)];
      RunThree(w, Poll(c, found[0]), Read(c), Update(c));
      RunAppend(w, round, Rounds(c, found[1..]));
      assert Run(w, round).procs == after;
      SamplesWhileRunning(w.(procs := after), c, found[1..]);
      assert after[c := Proc(Polling, count + |found|)] == w.procs[c := Proc(Polling, count + |found|)];
    }
  }

  /** A start with tags of a stopped group, a launch that works, and some rounds: the group runs and was read once a round. */
  lemma StartedGroupSamples(w: World, warning: bool, found: seq<bool>)
    requires w.status == NotRunning
    ensures var c := |w.procs|;
      Run(w, [StartRequest(true), Launch(c, true, warning)] + Rounds(c, found))
        == World(if warning then RunningWithWarning else Running, w.procs + [Proc(Polling, |found|)])
  {
    var c := |w.procs|;
    var start, launch := StartRequest(true), Launch(c, true, warning);
    var w1 := Act(w, start);
    var w2 := Act(w1, launch);
    assert [start, launch] == [start] + [launch];
    RunAppend(w, [start], [launch]);
    RunOne(w, start);
    RunOne(w1, launch);
    RunAppend(w, [start, launch], Rounds(c, found));
    assert w2.procs == w.procs + [Proc(Polling, 0)];
    SamplesWhileRunning(w2, c, found);
    assert w2.procs[c := Proc(Polling, |found|)] == w.procs + [Proc(Polling, |found|)];
  }

  /** At step k the launch of the collector fails, or a poll of it finds the group stopped. */
  ghost predicate Leaves(w: World, trace: seq<Action>, c: nat, k: nat) {
    && k < |trace|
    && var v := Run(w, trace[..k]);
    && ((At(v, c, Starting) && trace[k].Launch? && trace[k].c == c && !trace[k].works)
        || (At(v, c, Polling) && trace[k] == Poll(c, true) && v.status == NotRunning))
  }

  lemma LeavesLater(w: World, trace: seq<Action>, c: nat, k: nat)
    requires trace != []
    ensures Leaves(Act(w, trace[0]), trace[1..], c, k) <==> Leaves(w, trace, c, k + 1)
  {
    if k < |trace| - 1 {
      assert trace[..k + 1][1..] == trace[1..][..k] && trace[..k + 1][0] == trace[0];
      assert trace[1..][k] == trace[k + 1];
    }
  }

  /**
   * In every interleaving a collector is over exactly if its launch failed while it was starting, or
   * a poll of it found the group and the status not running.
   */
  lemma {:induction false} ExitIff(w: World, trace: seq<Action>, c: nat)
    requires c < |w.procs| && w.procs[c].pc != Exited
    ensures |w.procs| <= |Run(w, trace).procs|
    ensures Run(w, trace).procs[c].pc == Exited <==> exists k: nat :: Leaves(w, trace, c, k)
    decreases |trace|
  {
    hide Leaves;
    if trace == [] {
      forall k: nat ensures !Leaves(w, trace, c, k) { NoneLeaves(w, c, k); }
    } else {
      var v, rest := Act(w, trace[0]), trace[1..];
      ExitsNow(w, trace, c);
      if v.procs[c].pc == Exited {
        StaysExited(v, rest, c);
      } else {
        ExitIff(v, rest, c);
        if k: nat :| Leaves(v, rest, c, k) { LeavesLater(w, trace, c, k); }
        if k: nat :| Leaves(w, trace, c, k) {
          if k > 0 { LeavesLater(w, trace, c, k - 1); }
        }
      }
    }
  }

  lemma NoneLeaves(w: World, c: nat, k: nat)
    ensures !Leaves(w, [], c, k)
  {}

  lemma ExitsNow(w: World, trace: seq<Action>, c: nat)
    requires trace != [] && c < |w.procs| && w.procs[c].pc != Exited
    ensures |w.procs| <= |Act(w, trace[0]).procs|
    ensures Act(w, trace[0]).procs[c].pc == Exited <==> Leaves(w, trace, c, 0)
  {
    assert Run(w, trace[..0]) == w;
  }

  lemma {:induction false} StaysExited(w: World, trace: seq<Action>, c: nat)
    requires At(w, c, Exited)
    ensures At(Run(w, trace), c, Exited) && |w.procs| <= |Run(w, trace).procs|
    decreases |trace|
  {
    if trace != [] { StaysExited(Act(w, trace[0]), trace[1..], c); }
  }

  /** While a group is not stopped no request starts a second collector, and the status stays that of a running group. */
  lemma {:induction false} NoSecondCollector(w: World, trace: seq<Action>)
    requires w.status != NotRunning && forall i :: 0 <= i < |trace| ==> !trace[i].StopRequest?
    ensures Run(w, trace).status != NotRunning && |Run(w, trace).procs| == |w.procs|
    decreases |trace|
  {
    if trace != [] { NoSecondCollector(Act(w, trace[0]), trace[1..]); }
  }

  /** Only a stop and a launch that works write the status. */
  lemma {:induction false} StatusKept(w: World, trace: seq<Action>)
    requires forall i :: 0 <= i < |trace| ==> !trace[i].StopRequest? && !(trace[i].Launch? && trace[i].works)
    ensures Run(w, trace).status == w.status
    decreases |trace|
  {
    if trace != [] { StatusKept(Act(w, trace[0]), trace[1..]); }
  }

  /** A start of a group without tags does nothing. */
  lemma NoTagsNoStart(w: World)
    ensures Run(w, [StartRequest(false)]) == w
  {
    RunOne(w, StartRequest(false));
  }

  predicate NoStarts(trace: seq<Action>) { forall i :: 0 <= i < |trace| ==> !trace[i].StartRequest? }

  predicate NoneStarting(w: World) { forall c :: 0 <= c < |w.procs| ==> w.procs[c].pc != Starting }

  lemma {:induction false} StaysStopped(w: World, trace: seq<Action>)
    requires w.status == NotRunning && NoneStarting(w) && NoStarts(trace)
    ensures Run(w, trace).status == NotRunning && NoneStarting(Run(w, trace))
    ensures |Run(w, trace).procs| == |w.procs|
    decreases |trace|
  {
    if trace != [] { StaysStopped(Act(w, trace[0]), trace[1..]); }
  }

  /** A stop lasts in every interleaving without a later start exactly when no collector is still starting. */
  lemma StopLastsIff(w: World)
    requires w.status != NotRunning
    ensures var stopped := Act(w, StopRequest);
      (forall trace :: NoStarts(trace) ==> Run(stopped, trace).status == NotRunning) <==> NoneStarting(w)
  {
    var stopped := Act(w, StopRequest);
    if NoneStarting(w) {
      forall trace | NoStarts(trace) ensures Run(stopped, trace).status == NotRunning {
        StaysStopped(stopped, trace);
      }
    } else {
      var c :| 0 <= c < |w.procs| && w.procs[c].pc == Starting;
      var trace := [Launch(c, true, false)];
      assert NoStarts(trace) && trace[1..] == [];
      assert Run(stopped, trace) == Run(Act(stopped, trace[0]), trace[1..]);
    }
  }

  /** Such a stop can happen: two starts before the first collector is launched. */
  lemma TwoStartsOneLaunch()
    ensures var w := Run(World(NotRunning, []), [StartRequest(true), StartRequest(true), Launch(0, true, false)]);
      w.status != NotRunning && !NoneStarting(w)
  {
    var trace := [StartRequest(true), StartRequest(true), Launch(0, true, false)];
    var w := World(NotRunning, []);
    var w1 := Act(w, trace[0]);
    var w2 := Act(w1, trace[1]);
    var w3 := Act(w2, trace[2]);
    assert trace[1..][1..] == [trace[2]] && trace[1..][1..][1..] == [];
    assert Run(w2, [trace[2]]) == Run(w3, []);
    assert Run(w, trace) == w3;
    assert w3.procs[1].pc == Starting;
  }

  function FailedPolls(trace: seq<Action>, c: nat): nat {
    if trace == [] then 0
    else (if trace[0] == Poll(c, false) then 1 else 0) + FailedPolls(trace[1..], c)
  }

  /** Reads a collector can still do after a stop if its polls work. */
  function ReadsLeft(pc: Pc): nat { if pc == Reading then 1 else 0 }

  /** After a stop each collector reads once more if it had just polled, and once for each poll that fails. */
  lemma {:induction false} FewReadsAfterStop(w: World, trace: seq<Action>, c: nat)
    requires w.status == NotRunning && NoneStarting(w) && NoStarts(trace) && c < |w.procs|
    ensures |Run(w, trace).procs| == |w.procs|
    ensures Run(w, trace).procs[c].readCount <= w.procs[c].readCount + ReadsLeft(w.procs[c].pc) + FailedPolls(trace, c)
    decreases |trace|
  {
    if trace != [] {
      FewReadsAfterStop(Act(w, trace[0]), trace[1..], c);
    }
  }

  /** The action is a step of collector c that is its turn. */
  predicate Effective(w: World, a: Action, c: nat) {
    match a
    case Poll(d, _) => d == c && At(w, c, Polling)
    case Read(d) => d == c && At(w, c, Reading)
    case Update(d) => d == c && At(w, c, Updating)
    case _ => false
  }

  function StepsOf(w: World, trace: seq<Action>, c: nat): nat
    decreases |trace|
  {
    if trace == [] then 0
    else (if Effective(w, trace[0], c) then 1 else 0) + StepsOf(Act(w, trace[0]), trace[1..], c)
  }

  /** Steps to the exit of a stopped collector: read, update, poll. */
  function StepsLeft(pc: Pc): nat {
    match pc
    case Reading => 3
    case Updating => 2
    case Polling => 1
    case _ => 0
  }

  /** After a stop, with polls that work, a collector has exited once it took its remaining steps. */
  lemma {:induction false} ExitsAfterStop(w: World, trace: seq<Action>, c: nat)
    requires w.status == NotRunning && NoneStarting(w) && NoStarts(trace) && c < |w.procs|
    requires FailedPolls(trace, c) == 0
    ensures |Run(w, trace).procs| == |w.procs|
    ensures StepsOf(w, trace, c) + StepsLeft(Run(w, trace).procs[c].pc) == StepsLeft(w.procs[c].pc)
    ensures StepsOf(w, trace, c) == StepsLeft(w.procs[c].pc) ==> Run(w, trace).procs[c].pc == Exited
    decreases |trace|
  {
    StaysStopped(w, trace);
    if trace != [] {
      ExitsAfterStop(Act(w, trace[0]), trace[1..], c);
    }
  }
}
