/** The table of groups and the requests that are meant to keep a single default group in it. */
module DefaultGroup {
  import opened Seqs

  /** The columns a request carries, and the ones only the server writes. */
  datatype Row = Row(id: nat, columns: string, isDefault: bool, kept: string)

  /** The rows in the order of their ids, as every query orders them. */
  type Table = seq<Row>

  predicate Ordered(t: Table) { forall i, j :: 0 <= i < j < |t| ==> t[i].id < t[j].id }

  function Defaults(t: Table): nat {
    if t == [] then 0 else (if t[0].isDefault then 1 else 0) + Defaults(t[1..])
  }

  predicate OtherDefault(t: Table, id: nat) { exists i :: 0 <= i < |t| && t[i].isDefault && t[i].id != id }

  // ---- statements on the table ----

  /** Save: the row with this id replaced, or the row put in its place. */
  function Save(t: Table, r: Row): Table {
    if t == [] || r.id < t[0].id then [r] + t
    else if r.id == t[0].id then [r] + t[1..]
    else [t[0]] + Save(t[1..], r)
  }

  /** update opc_groups set default_group = false. */
  function Clear(t: Table): (u: Table)
    ensures |u| == |t| && forall i :: 0 <= i < |t| ==> u[i] == t[i].(isDefault := false)
  {
    Map((r: Row) => r.(isDefault := false), t)
  }

  function Find(t: Table, id: nat): Option<Row> {
    if t == [] then None else if t[0].id == id then Some(t[0]) else Find(t[1..], id)
  }

  function Delete(t: Table, id: nat): Table {
    Filter((r: Row) => r.id != id, t)
  }

  // ---- requests ----

  /** Which writes of a request succeed: the bulk clear, the save or deletion, and the mark of a listing. */
  datatype Writes = Writes(clear: bool, save: bool, mark: bool)

  /** What a listing shows: the first group marked when none was. */
  function Listed(t: Table): Table {
    if t != [] && Defaults(t) == 0 then [t[0].(isDefault := true)] + t[1..] else t
  }

  /** What it leaves in the table; a mark that cannot be saved is only shown. */
  function Marked(t: Table, mark: bool): Table { if mark then Listed(t) else t }

  /** NewGroup; a body without an id gets the number the database assigns. */
  function Created(t: Table, r: Row, nextId: nat, w: Writes): Table {
    var u := if r.isDefault && w.clear then Clear(t) else t;
    if w.save then Marked(Save(u, Numbered(r, nextId)), w.mark) else u
  }

  /** UpdateGroup; only the columns of the request change, and an unknown id changes nothing. */
  function Updated(t: Table, r: Row, w: Writes): Table {
    var old' := Find(t, r.id);
    if old'.None? then t
    else
      var u := if r.isDefault && w.clear then Clear(t) else t;
      if w.save then Marked(Save(u, r.(kept := old'.value.kept)), w.mark) else u
  }

  /** The number a row is stored under; zero stands for the one the database assigns. */
  function Numbered(r: Row, nextId: nat): (n: Row)
    ensures n.isDefault == r.isDefault && (r.id > 0 ==> n == r)
  {
    if r.id == 0 then r.(id := nextId) else r
  }

  /** The requests that write groups: those of the group routes, and the generic data routes for the same table. */
  datatype Request =
    | List
    | Create(row: Row, nextId: nat)
    | Update(row: Row)
    | NewData(row: Row, nextId: nat)
    | UpdateData(row: Row, nextId: nat)
    | DeleteById(id: nat)
    | DeleteMatching(gone: Row -> bool)

  function Handle(t: Table, q: Request, w: Writes): Table {
    match q
    case List => Marked(t, w.mark)
    case Create(r, nextId) => Created(t, r, nextId, w)
    case Update(r) => Updated(t, r, w)
    case NewData(r, nextId) =>
      // an id that is taken is an error
      if w.save && Find(t, Numbered(r, nextId).id).None? then Save(t, Numbered(r, nextId)) else t
    case UpdateData(r, nextId) => if w.save then Save(t, Numbered(r, nextId)) else t
    case DeleteById(id) => if w.save then Delete(t, id) else t
    case DeleteMatching(gone) => if w.save then Filter((r: Row) => !gone(r), t) else t
  }

  // ---- at most one default ----

  lemma {:induction false} DefaultsOf(t: Table)
    ensures Defaults(t) == 0 <==> forall i :: 0 <= i < |t| ==> !t[i].isDefault
  {
    if t != [] {
      DefaultsOf(t[1..]);
      assert forall i :: 1 <= i < |t| ==> t[i] == t[1..][i - 1];
    }
  }

  lemma {:induction false} SaveOrdered(t: Table, r: Row)
    requires Ordered(t)
    ensures Ordered(Save(t, r)) && Save(t, r) != []
    ensures forall i :: 0 <= i < |Save(t, r)| ==> Save(t, r)[i] == r || Save(t, r)[i] in t
  {
    if t != [] && r.id > t[0].id {
      SaveOrdered(t[1..], r);
      var u := Save(t[1..], r);
      forall i | 0 <= i < |u| ensures t[0].id < u[i].id {
        if u[i] != r { var k :| 0 <= k < |t[1..]| && t[1..][k] == u[i]; assert t[k + 1] == u[i]; }
      }
    }
  }

  /** How many defaults there are after a save. */
  lemma {:induction false} DefaultsAfterSave(t: Table, r: Row)
    requires Ordered(t)
    ensures var before := Find(t, r.id);
      Defaults(Save(t, r)) == Defaults(t) + (if r.isDefault then 1 else 0)
        - (if before.Some? && before.value.isDefault then 1 else 0)
  {
    if t == [] || r.id < t[0].id {
      assert Save(t, r)[1..] == t;
      FindAbsent(t, r.id);
    } else if r.id == t[0].id {
      assert Save(t, r)[1..] == t[1..];
    } else {
      assert Save(t, r)[1..] == Save(t[1..], r);
      DefaultsAfterSave(t[1..], r);
    }
  }

  lemma {:induction false} FindAbsent(t: Table, id: nat)
    requires forall i :: 0 <= i < |t| ==> t[i].id != id
    ensures Find(t, id) == None
  {
    if t != [] { FindAbsent(t[1..], id); }
  }

  lemma {:induction false} FindDefault(t: Table, id: nat)
    requires Ordered(t) && Defaults(t) == 1
    ensures OtherDefault(t, id) <==> !(Find(t, id).Some? && Find(t, id).value.isDefault)
  {
    var u := t[1..];
    DefaultsOf(u);
    if t[0].isDefault {
      if t[0].id == id {
        assert forall i :: 1 <= i < |t| ==> t[i] == u[i - 1];
      } else {
        FindNoDefault(u, id);
        assert OtherDefault(t, id);
      }
    } else {
      FindDefault(u, id);
      assert forall i :: 1 <= i < |t| ==> t[i] == u[i - 1];
      if t[0].id == id {
        FindAbsent(u, id);
        assert Find(t, id) == Some(t[0]);
        var k :| 0 <= k < |u| && u[k].isDefault;
        assert t[k + 1].isDefault && t[k + 1].id != id;
      } else if OtherDefault(u, id) {
        var k :| 0 <= k < |u| && u[k].isDefault && u[k].id != id;
        assert t[k + 1].isDefault && t[k + 1].id != id;
      }
    }
  }

  lemma {:induction false} FindNoDefault(t: Table, id: nat)
    requires forall i :: 0 <= i < |t| ==> !t[i].isDefault
    ensures !(Find(t, id).Some? && Find(t, id).value.isDefault)
  {
    if t != [] { FindNoDefault(t[1..], id); }
  }

  /**
   * A bare save, as the generic data route does it, keeps at most one default exactly when it does
   * not mark a row while another row is marked.
   */
  lemma SaveKeepsSingleIff(t: Table, r: Row)
    requires Ordered(t) && Defaults(t) <= 1
    ensures Defaults(Save(t, r)) <= 1 <==> !(r.isDefault && OtherDefault(t, r.id))
  {
    DefaultsAfterSave(t, r);
    DefaultsOf(t);
    if Defaults(t) == 1 {
      FindDefault(t, r.id);
    } else {
      FindNoDefault(t, r.id);
    }
  }

  lemma ClearHasNone(t: Table)
    requires Ordered(t)
    ensures Defaults(Clear(t)) == 0 && Ordered(Clear(t))
  {
    DefaultsOf(Clear(t));
  }

  /** A listing ends with a default; the new one is the row of the lowest id. */
  lemma ListedHasDefault(t: Table)
    requires Ordered(t) && Defaults(t) <= 1
    ensures Ordered(Listed(t)) && |Listed(t)| == |t|
    ensures t != [] ==> Defaults(Listed(t)) == 1
    ensures Defaults(t) == 1 ==> Listed(t) == t
    ensures t != [] && Defaults(t) == 0 ==>
      Listed(t)[0].isDefault && forall i :: 0 < i < |t| ==> Listed(t)[i] == t[i] && t[0].id < t[i].id
  {
    var u := Listed(t);
    if u != t { assert u[1..] == t[1..]; }
  }

  lemma DeleteNone(id: nat)
    ensures Delete([], id) == []
  {}

  lemma DeleteStep(t: Table, id: nat)
    requires t != []
    ensures Delete(t, id) == (if t[0].id != id then [t[0]] else []) + Delete(t[1..], id)
  {}

  lemma FilterStep(t: Table, keep: Row -> bool)
    requires t != []
    ensures Filter(keep, t) == (if keep(t[0]) then [t[0]] else []) + Filter(keep, t[1..])
  {}

  lemma FilterOfNone(keep: Row -> bool)
    ensures Filter(keep, []) == []
  {}

  lemma {:induction false} FilterOrdered(t: Table, keep: Row -> bool)
    requires Ordered(t)
    ensures Ordered(Filter(keep, t))
  {
    hide Filter;
    if t == [] {
      FilterOfNone(keep);
    } else {
      var u, d := t[1..], Filter(keep, t[1..]);
      FilterOrdered(u, keep);
      FilterStep(t, keep);
      FilterIn(keep, u);
      forall i | 0 <= i < |d| ensures t[0].id < d[i].id {
        var k :| 0 <= k < |u| && u[k] == d[i];
        assert t[k + 1] == u[k];
      }
    }
  }

  lemma {:induction false} FilterDefaults(t: Table, keep: Row -> bool)
    ensures Defaults(Filter(keep, t)) <= Defaults(t)
  {
    hide Filter;
    if t == [] {
      FilterOfNone(keep);
    } else {
      var d := Filter(keep, t[1..]);
      FilterDefaults(t[1..], keep);
      FilterStep(t, keep);
      if keep(t[0]) {
        assert ([t[0]] + d)[1..] == d;
      } else {
        assert [] + d == d;
      }
    }
  }

  /** Taking rows out keeps the order and adds no default. */
  lemma FilterFewer(t: Table, keep: Row -> bool)
    requires Ordered(t)
    ensures Ordered(Filter(keep, t)) && Defaults(Filter(keep, t)) <= Defaults(t)
  {
    FilterOrdered(t, keep);
    FilterDefaults(t, keep);
  }

  lemma DeleteFewer(t: Table, id: nat)
    requires Ordered(t)
    ensures Ordered(Delete(t, id)) && Defaults(Delete(t, id)) <= Defaults(t)
  {
    FilterFewer(t, (r: Row) => r.id != id);
  }

  /**
   * The request stores a default while another row is the default: a group request whose clear
   * fails, or one of the generic routes, which clear nothing.
   */
  predicate Clashes(t: Table, q: Request, w: Writes) {
    match q
    case Create(r, nextId) => w.save && r.isDefault && !w.clear && OtherDefault(t, Numbered(r, nextId).id)
    case Update(r) => Find(t, r.id).Some? && w.save && r.isDefault && !w.clear && OtherDefault(t, r.id)
    case NewData(r, nextId) =>
      var id := Numbered(r, nextId).id;
      Find(t, id).None? && w.save && r.isDefault && OtherDefault(t, id)
    case UpdateData(r, nextId) => w.save && r.isDefault && OtherDefault(t, Numbered(r, nextId).id)
    case _ => false
  }

  /** For any request and any failing writes: the single default is lost exactly by such a clash. */
  lemma SingleDefaultIff(t: Table, q: Request, w: Writes)
    requires Ordered(t) && Defaults(t) <= 1
    ensures Ordered(Handle(t, q, w))
    ensures Defaults(Handle(t, q, w)) <= 1 <==> !Clashes(t, q, w)
  {
    hide Marked, Save, Clear, Delete, Defaults, Find, OtherDefault, Filter, Numbered, Ordered;
    match q
    case List => MarkedDefaults(t, w.mark);
    case Create(r, nextId) =>
      WriteRow(t, Numbered(r, nextId), w);
    case Update(r) =>
      if Find(t, r.id).Some? { WriteRow(t, r.(kept := Find(t, r.id).value.kept), w); }
    case NewData(r, nextId) => BareSave(t, Numbered(r, nextId));
    case UpdateData(r, nextId) => BareSave(t, Numbered(r, nextId));
    case DeleteById(id) => DeleteFewer(t, id);
    case DeleteMatching(gone) => FilterFewer(t, (r: Row) => !gone(r));
  }

  lemma BareSave(t: Table, r: Row)
    requires Ordered(t) && Defaults(t) <= 1
    ensures Ordered(Save(t, r))
    ensures Defaults(Save(t, r)) <= 1 <==> !(r.isDefault && OtherDefault(t, r.id))
  {
    hide Save, Defaults;
    SaveOrdered(t, r);
    SaveKeepsSingleIff(t, r);
  }

  /** The part create and update share: the clear, the save and the listing. */
  lemma WriteRow(t: Table, r: Row, w: Writes)
    requires Ordered(t) && Defaults(t) <= 1
    ensures var u := if r.isDefault && w.clear then Clear(t) else t;
      var v := if w.save then Marked(Save(u, r), w.mark) else u;
      && Ordered(v)
      && (Defaults(v) <= 1 <==> !(w.save && r.isDefault && !w.clear && OtherDefault(t, r.id)))
      && (w.save && Defaults(v) <= 1 && (w.mark || r.isDefault) ==> v != [] && Defaults(v) == 1)
  {
    hide Marked, Save, Clear, Defaults;
    var u := if r.isDefault && w.clear then Clear(t) else t;
    ClearHasNone(t);
    SaveKeepsSingleIff(u, r);
    SaveOrdered(u, r);
    DefaultsOf(u);
    if r.isDefault { HasDefault(u, r); }
    MarkedDefaults(Save(u, r), w.mark);
  }

  lemma {:induction false} HasDefault(t: Table, r: Row)
    requires Ordered(t) && r.isDefault
    ensures Defaults(Save(t, r)) >= 1
  {
    if t != [] && r.id > t[0].id {
      HasDefault(t[1..], r);
      assert Save(t, r)[1..] == Save(t[1..], r);
    }
  }

  lemma MarkedDefaults(t: Table, mark: bool)
    requires Ordered(t)
    ensures Ordered(Marked(t, mark)) && |Marked(t, mark)| == |t|
    ensures Defaults(Marked(t, mark)) <= 1 <==> Defaults(t) <= 1
    ensures Defaults(t) == 1 ==> Marked(t, mark) == t
    ensures t != [] && Defaults(t) <= 1 && mark ==> Defaults(Marked(t, mark)) == 1
  {
    if Defaults(t) <= 1 { ListedHasDefault(t); }
  }

  // ---- what a request leaves alone ----

  /** The same row, but for the mark. */
  predicate SameRow(a: Option<Row>, b: Option<Row>) {
    (a.None? && b.None?) || (a.Some? && b.Some? && a.value.(isDefault := false) == b.value.(isDefault := false))
  }

  lemma {:induction false} FindSave(t: Table, r: Row, id: nat)
    requires Ordered(t)
    ensures Find(Save(t, r), id) == if id == r.id then Some(r) else Find(t, id)
  {
    if t != [] && r.id >= t[0].id {
      if r.id > t[0].id { FindSave(t[1..], r, id); }
    } else {
      assert ([r] + t)[1..] == t;
    }
  }

  lemma {:induction false} FindSame(t: Table, u: Table, id: nat)
    requires |t| == |u| && forall i :: 0 <= i < |t| ==> u[i].(isDefault := false) == t[i].(isDefault := false)
    ensures SameRow(Find(t, id), Find(u, id))
  {
    if t != [] {
      assert t[0].id == t[0].(isDefault := false).id == u[0].id;
      FindSame(t[1..], u[1..], id);
    }
  }

  lemma FindMarked(t: Table, mark: bool, id: nat)
    ensures SameRow(Find(t, id), Find(Marked(t, mark), id))
  {
    FindSame(t, Marked(t, mark), id);
  }

  /** A saved row is there as written, and every other group keeps all but its mark. */
  lemma WriteRowFrame(t: Table, r: Row, w: Writes, id: nat)
    requires Ordered(t) && w.save
    ensures var after := Marked(Save(if r.isDefault && w.clear then Clear(t) else t, r), w.mark);
      SameRow(Find(after, id), if id == r.id then Some(r) else Find(t, id))
  {
    hide Marked, Save, Clear, Find;
    var u := if r.isDefault && w.clear then Clear(t) else t;
    ClearHasNone(t);
    FindSave(u, r, id);
    FindMarked(Save(u, r), w.mark, id);
    FindClear(t, id);
  }

  lemma FindClear(t: Table, id: nat)
    ensures SameRow(Find(t, id), Find(Clear(t), id))
  {
    FindSame(t, Clear(t), id);
  }

  /** An update changes the request's columns of its group and keeps the server's. */
  lemma UpdateFrame(t: Table, r: Row, w: Writes, id: nat)
    requires Ordered(t) && w.save && Find(t, r.id).Some?
    ensures SameRow(Find(Updated(t, r, w), id),
                    if id == r.id then Some(r.(kept := Find(t, r.id).value.kept)) else Find(t, id))
  {
    hide Marked, Save, Clear, Find;
    WriteRowFrame(t, r.(kept := Find(t, r.id).value.kept), w, id);
  }

  /** A deletion takes out its group and no other. */
  lemma {:induction false} DeleteFrame(t: Table, gone: nat, id: nat)
    ensures Find(Delete(t, gone), id) == if id == gone then None else Find(t, id)
  {
    hide Delete;
    if t == [] {
      DeleteNone(gone);
    } else {
      DeleteStep(t, gone);
      DeleteFrame(t[1..], gone, id);
      assert ([t[0]] + Delete(t[1..], gone))[1..] == Delete(t[1..], gone);
      assert [] + Delete(t[1..], gone) == Delete(t[1..], gone);
    }
  }

  // ---- which group is the default ----

  predicate HasMark(t: Table, id: nat) { Find(t, id).Some? && Find(t, id).value.isDefault }

  /** Stored as the default, before a listing: the row of the request as asked, another if it was and was not cleared. */
  predicate Asked(t: Table, r: Row, w: Writes, id: nat) {
    if id == r.id then r.isDefault else HasMark(t, id) && !(r.isDefault && w.clear)
  }

  /**
   * After a row was stored exactly those groups are the default, and if there is none the one of the
   * lowest id, as far as the mark of the listing works.
   */
  ghost predicate MarksFollow(t: Table, after: Table, r: Row, w: Writes) {
    forall id: nat :: HasMark(after, id) <==>
      Asked(t, r, w, id) || (w.mark && (forall k: nat :: !Asked(t, r, w, k)) && after != [] && after[0].id == id)
  }

  lemma {:induction false} MarksOf(t: Table)
    requires Ordered(t)
    ensures Defaults(t) == 0 <==> forall id: nat :: !HasMark(t, id)
  {
    if t == [] {
      NoRows();
    } else if t[0].isDefault {
      assert HasMark(t, t[0].id);
    } else {
      var u := t[1..];
      MarksOf(u);
      forall id: nat ensures HasMark(t, id) <==> HasMark(u, id) {
        if id == t[0].id { FindAbsent(u, id); }
      }
    }
  }

  lemma MarksOfMarked(t: Table, mark: bool, id: nat)
    requires Ordered(t) && t != []
    ensures HasMark(Marked(t, mark), id) <==> HasMark(t, id) || (mark && Defaults(t) == 0 && t[0].id == id)
    ensures Marked(t, mark) != [] && Marked(t, mark)[0].id == t[0].id
  {
    hide Defaults;
    var u := Marked(t, mark);
    if u != t { assert u[1..] == t[1..]; }
  }

  lemma {:induction false} ClearHasNoMark(t: Table, id: nat)
    ensures !HasMark(Clear(t), id)
  {
    FindNoDefault(Clear(t), id);
  }

  lemma WriteRowMarks(t: Table, r: Row, w: Writes)
    requires Ordered(t) && w.save
    ensures MarksFollow(t, Marked(Save(if r.isDefault && w.clear then Clear(t) else t, r), w.mark), r, w)
  {
    hide Marked, Save, Clear, Defaults, Find, Ordered;
    var u := if r.isDefault && w.clear then Clear(t) else t;
    assert Ordered(u) by { ClearHasNone(t); }
    var v := Save(u, r);
    SaveOrdered(u, r);
    forall id: nat ensures HasMark(v, id) <==> Asked(t, r, w, id) {
      FindSave(u, r, id);
      ClearHasNoMark(t, id);
    }
    MarksOf(v);
    forall id: nat
      ensures HasMark(Marked(v, w.mark), id) <==> HasMark(v, id) || (w.mark && Defaults(v) == 0 && v[0].id == id)
      ensures Marked(v, w.mark) != [] && Marked(v, w.mark)[0].id == v[0].id
    {
      MarksOfMarked(v, w.mark, id);
    }
  }

  /** What a request leaves whose save fails: all marks are gone if its clear worked, and nothing else changed. */
  ghost predicate ClearedOnly(t: Table, after: Table, cleared: bool) {
    && (forall id: nat :: SameRow(Find(t, id), Find(after, id)))
    && (forall id: nat :: HasMark(after, id) <==> HasMark(t, id) && !cleared)
  }

  lemma ClearsOnly(t: Table, cleared: bool)
    ensures ClearedOnly(t, if cleared then Clear(t) else t, cleared)
  {
    hide Find, Clear;
    forall id: nat
      ensures SameRow(Find(t, id), Find(if cleared then Clear(t) else t, id))
      ensures HasMark(if cleared then Clear(t) else t, id) <==> HasMark(t, id) && !cleared
    {
      FindClear(t, id);
      ClearHasNoMark(t, id);
    }
  }

  /** The generic routes store the row as it is, or refuse a new one of an id that is taken, and touch no other. */
  lemma BareSaveFrame(t: Table, r: Row, nextId: nat, w: Writes, id: nat)
    requires Ordered(t) && w.save
    ensures var n := Numbered(r, nextId);
      && Find(Handle(t, UpdateData(r, nextId), w), id) == (if id == n.id then Some(n) else Find(t, id))
      && Find(Handle(t, NewData(r, nextId), w), id)
           == if id == n.id && Find(t, id).None? then Some(n) else Find(t, id)
  {
    hide Save, Find;
    FindSave(t, Numbered(r, nextId), id);
  }

  /** A deletion by some condition takes out exactly the groups that meet it. */
  lemma {:induction false} DeleteMatchingFrame(t: Table, gone: Row -> bool, w: Writes, id: nat)
    requires Ordered(t) && w.save
    ensures Find(Handle(t, DeleteMatching(gone), w), id)
      == if Find(t, id).Some? && gone(Find(t, id).value) then None else Find(t, id)
  {
    hide Filter;
    var keep := (r: Row) => !gone(r);
    if t == [] {
      FilterOfNone(keep);
    } else {
      var u := t[1..];
      FilterStep(t, keep);
      DeleteMatchingFrame(u, gone, w, id);
      if t[0].id == id { FindAbsent(u, id); }
      assert ([t[0]] + Filter(keep, u))[1..] == Filter(keep, u);
      assert [] + Filter(keep, u) == Filter(keep, u);
      assert Handle(u, DeleteMatching(gone), w) == Filter(keep, u);
    }
  }

  lemma MarksAlike(t: Table, after: Table, r: Row, q: Row, w: Writes)
    requires MarksFollow(t, after, r, w) && r.id == q.id && r.isDefault == q.isDefault
    ensures MarksFollow(t, after, q, w)
  {
    hide HasMark;
    assert forall k: nat :: Asked(t, r, w, k) == Asked(t, q, w, k);
  }

  // ---- runs ----

  /** A request, and which of its writes succeed. */
  datatype Call = Call(request: Request, writes: Writes)

  function Serve(t: Table, calls: seq<Call>): Table {
    if calls == [] then t
    else
      var c := calls[|calls| - 1];
      Handle(Serve(t, calls[..|calls| - 1]), c.request, c.writes)
  }

  predicate ClashAt(calls: seq<Call>, k: nat)
    requires k < |calls|
  {
    Clashes(Serve([], calls[..k]), calls[k].request, calls[k].writes)
  }

  predicate SingleAfter(calls: seq<Call>, k: nat)
    requires k <= |calls|
  {
    Defaults(Serve([], calls[..k])) <= 1
  }

  /** Over any sequence of requests and failing writes at most one group is ever the default exactly if none clashes. */
  lemma {:induction false} SingleDefaultRunIff(calls: seq<Call>)
    ensures (forall k :: 0 <= k <= |calls| ==> SingleAfter(calls, k))
      <==> (forall k :: 0 <= k < |calls| ==> !ClashAt(calls, k))
    ensures (forall k :: 0 <= k < |calls| ==> !ClashAt(calls, k)) ==> Ordered(Serve([], calls))
  {
    hide Handle, Clashes, Defaults, Ordered;
    if calls == [] {
      NoRows();
    } else {
      var n := |calls| - 1;
      var before := calls[..n];
      SingleDefaultRunIff(before);
      assert forall k :: 0 <= k <= n ==> before[..k] == calls[..k];
      assert forall k :: 0 <= k <= n ==> SingleAfter(before, k) == SingleAfter(calls, k);
      assert forall k :: 0 <= k < n ==> ClashAt(before, k) == ClashAt(calls, k);
      assert calls[..n + 1] == calls && before[..n] == before;
      if forall k :: 0 <= k < n ==> !ClashAt(before, k) {
        assert SingleAfter(before, n);
        SingleDefaultIff(Serve([], before), calls[n].request, calls[n].writes);
        assert SingleAfter(calls, n + 1) <==> !ClashAt(calls, n);
      }
    }
  }

  lemma NoRows()
    ensures Ordered([]) && Defaults([]) == 0
  {}

  /**
   * Over any sequence of requests none of which clashes no more than one group is ever the default,
   * and after a list, a create or an update that finds its group exactly one is, when the save and
   * the mark succeed too.
   */
  lemma {:induction false} SingleDefault(calls: seq<Call>)
    requires forall k :: 0 <= k < |calls| ==> !ClashAt(calls, k)
    ensures var t := Serve([], calls);
      && Ordered(t) && Defaults(t) <= 1
      && (calls != [] && calls[|calls| - 1].writes.save && calls[|calls| - 1].writes.mark ==>
            var q := calls[|calls| - 1].request;
            && (t != [] && (q.List? || q.Create?) ==> Defaults(t) == 1)
            && (q.Update? && Find(Serve([], calls[..|calls| - 1]), q.row.id).Some? ==> Defaults(t) == 1))
  {
    hide Marked, Save, Clear, Delete, Defaults, Find, OtherDefault, Ordered, Clashes;
    SingleDefaultRunIff(calls);
    assert SingleAfter(calls, |calls|) && calls[..|calls|] == calls;
    if calls != [] {
      var n := |calls| - 1;
      var before, w := Serve([], calls[..n]), calls[n].writes;
      forall k | 0 <= k < n ensures !ClashAt(calls[..n], k) { assert calls[..n][..k] == calls[..k] && !ClashAt(calls, k); }
      SingleDefaultRunIff(calls[..n]);
      assert SingleAfter(calls[..n], n) && calls[..n][..n] == calls[..n];
      match calls[n].request
      case List => MarkedDefaults(before, w.mark);
      case Create(r, nextId) => WriteRow(before, Numbered(r, nextId), w);
      case Update(r) =>
        if Find(before, r.id).Some? { WriteRow(before, r.(kept := Find(before, r.id).value.kept), w); }
      case _ =>
    }
  }

  /** A clear that works, or a row that is no default, does not clash in a request of the group routes. */
  lemma NoClash(t: Table, q: Request, w: Writes)
    requires !q.NewData? && !q.UpdateData? && (w.clear || ((q.Create? || q.Update?) ==> !q.row.isDefault))
    ensures !Clashes(t, q, w)
  {}

  /** Where it fails: two marked groups stored by the generic routes. */
  lemma BareSavesLeaveTwo(a: Row, b: Row, w: Writes)
    requires 0 < a.id < b.id && a.isDefault && b.isDefault && w.save
    ensures Defaults(Serve([], [Call(NewData(a, 1), w), Call(UpdateData(b, 1), w)])) == 2
  {
    var c1, c2 := Call(NewData(a, 1), w), Call(UpdateData(b, 1), w);
    assert [c1, c2][..1] == [c1] && [c1][..0] == [];
    assert Serve([], [c1]) == Save([], a) == [a];
    assert Save([a], b) == [a] + Save([a][1..], b) == [a, b];
    assert Serve([], [c1, c2]) == [a, b];
    assert Defaults([a, b]) == 1 + Defaults([a, b][1..]) == 2;
  }

  /** Where it fails: two groups are created, and the second is made the default while the clear fails. */
  lemma FailedClearLeavesTwo(a: Row, b: Row)
    requires 0 < a.id < b.id && a.isDefault && !b.isDefault
    ensures var works := Writes(true, true, true);
      var update := Call(Update(b.(isDefault := true)), works.(clear := false));
      Defaults(Serve([], [Call(Create(a, 1), works), Call(Create(b, 1), works), update])) == 2
  {
    hide Handle;
    var works := Writes(true, true, true);
    var c1, c2 := Call(Create(a, 1), works), Call(Create(b, 1), works);
    var c3 := Call(Update(b.(isDefault := true)), works.(clear := false));
    assert [c1, c2, c3][..2] == [c1, c2] && [c1, c2][..1] == [c1] && [c1][..0] == [];
    TwoCreated(a, b, works);
    assert Serve([], [c1]) == Handle([], c1.request, works);
    assert Serve([], [c1, c2]) == [a, b];
  }

  /** The tables of that run. */
  lemma TwoCreated(a: Row, b: Row, w: Writes)
    requires 0 < a.id < b.id && a.isDefault && !b.isDefault && w == Writes(true, true, true)
    ensures Handle([], Create(a, 1), w) == [a] && Handle([a], Create(b, 1), w) == [a, b]
    ensures Defaults(Handle([a, b], Update(b.(isDefault := true)), w.(clear := false))) == 2
  {
    assert Clear([]) == [] && Save([], a) == [a];
    assert Save([a], b) == [a] + Save([a][1..], b) == [a, b];
    var c := b.(isDefault := true);
    assert Find([a, b], b.id) == Find([a, b][1..], b.id) == Some(b);
    assert Save([a, b], c) == [a] + Save([a, b][1..], c) == [a, c];
    assert Defaults([a, c]) == 1 + Defaults([a, c][1..]) == 2;
  }

  // ---- the handlers ----

  class Groups {
    var rows: Table

    constructor ()
      ensures rows == []
    {
      rows := [];
    }

    /** The groups shown always have a default; whether the table has one then depends on the mark's own save. */
    method GetGroups(mark: bool) returns (groups: Table)
      requires Ordered(rows)
      modifies this
      ensures groups == Listed(old(rows)) && rows == Marked(old(rows), mark)
      ensures groups != [] ==> exists i :: 0 <= i < |groups| && groups[i].isDefault
      ensures old(rows) != [] && Defaults(old(rows)) <= 1 ==> Defaults(groups) == 1 && (mark ==> Defaults(rows) == 1)
    {
      groups := rows;
      var found := false;
      var i := 0;
      while i < |groups| && !found
        invariant 0 <= i <= |groups|
        invariant found ==> i < |groups| && groups[i].isDefault
        invariant !found ==> forall k :: 0 <= k < i ==> !groups[k].isDefault
        decreases |groups| - i, !found
      {
        if groups[i].isDefault {
          found := true;
        } else {
          i := i + 1;
        }
      }
      DefaultsOf(groups);
      if Defaults(groups) <= 1 { ListedHasDefault(groups); }
      if !found && |groups| > 0 {
        var first := groups[0].(isDefault := true);
        groups := [first] + groups[1..];
        assert groups[0].isDefault;
        if mark {
          rows := Save(rows, first);
        }
      }
    }

    method NewGroup(group: Row, nextId: nat, w: Writes) returns (ok: bool)
      requires Ordered(rows)
      modifies this
      ensures ok == w.save && rows == Created(old(rows), group, nextId, w)
      ensures ok ==> SameRow(Find(rows, Numbered(group, nextId).id),
                             Some(Numbered(group, nextId)))
      ensures !ok ==> ClearedOnly(old(rows), rows, group.isDefault && w.clear)
      ensures ok ==> MarksFollow(old(rows), rows, Numbered(group, nextId), w)
      ensures ok && group.isDefault ==> HasMark(rows, Numbered(group, nextId).id)
      ensures Defaults(old(rows)) <= 1 && (w.clear || !group.isDefault) ==> Defaults(rows) <= 1
      ensures Defaults(old(rows)) <= 1 && (w.clear || !group.isDefault) && w.save && w.mark ==> Defaults(rows) == 1
    {
      hide Marked, Listed, Save, Clear, Defaults, Find, SameRow, HasMark;
      var row := Numbered(group, nextId);
      ClearsOnly(rows, group.isDefault && w.clear);
      if w.save {
        WriteRowFrame(rows, row, w, row.id);
        WriteRowMarks(rows, row, w);
        assert Asked(rows, row, w, row.id) == row.isDefault;
      }
      if Defaults(rows) <= 1 { WriteRow(rows, row, w); }
      SaveOrdered(if group.isDefault && w.clear then Clear(rows) else rows, row);
      if group.isDefault && w.clear {
        rows := Clear(rows);
      }
      ok := w.save;
      if !ok { return; }
      rows := Save(rows, row);
      var _ := GetGroups(w.mark);
    }

    method UpdateGroup(data: Row, w: Writes) returns (ok: bool)
      requires Ordered(rows)
      modifies this
      ensures ok == (Find(old(rows), data.id).Some? && w.save) && rows == Updated(old(rows), data, w)
      ensures ok ==> SameRow(Find(rows, data.id), Some(data.(kept := Find(old(rows), data.id).value.kept)))
      ensures Find(old(rows), data.id).None? ==> rows == old(rows)
      ensures !ok && Find(old(rows), data.id).Some? ==> ClearedOnly(old(rows), rows, data.isDefault && w.clear)
      ensures ok ==> MarksFollow(old(rows), rows, data, w)
      ensures ok && data.isDefault ==> HasMark(rows, data.id)
      ensures Defaults(old(rows)) <= 1 && (w.clear || !data.isDefault) ==> Defaults(rows) <= 1
      ensures Defaults(old(rows)) <= 1 && (w.clear || !data.isDefault) && ok && w.mark ==> Defaults(rows) == 1
    {
      hide Marked, Listed, Save, Clear, Defaults, Find, SameRow, HasMark;
      var group := Find(rows, data.id);
      if group.None? { return false; }
      var row := data.(kept := group.value.kept);
      ClearsOnly(rows, data.isDefault && w.clear);
      if w.save {
        WriteRowFrame(rows, row, w, row.id);
        WriteRowMarks(rows, row, w);
        MarksAlike(rows, Updated(rows, data, w), row, data, w);
        assert Asked(rows, row, w, row.id) == row.isDefault;
      }
      if Defaults(rows) <= 1 { WriteRow(rows, row, w); }
      SaveOrdered(if data.isDefault && w.clear then Clear(rows) else rows, row);
      if data.isDefault && w.clear {
        rows := Clear(rows);
      }
      ok := w.save;
      if !ok { return; }
      rows := Save(rows, row);
      var _ := GetGroups(w.mark);
    }

    /** The group with the id is gone, if the deletion works, and every other one is as it was. */
    method DeleteDataByID(id: nat, works: bool)
      modifies this
      ensures !works ==> rows == old(rows)
      ensures works ==> Find(rows, id) == None && |rows| <= |old(rows)|
      ensures forall k: nat :: k != id ==> Find(rows, k) == Find(old(rows), k)
      ensures Ordered(old(rows)) ==> Ordered(rows) && Defaults(rows) <= Defaults(old(rows))
    {
      if works {
        forall k: nat ensures Find(Delete(rows, id), k) == if k == id then None else Find(rows, k) {
          DeleteFrame(rows, id, k);
        }
        if Ordered(rows) { DeleteFewer(rows, id); }
        rows := Delete(rows, id);
      }
    }
  }
}
