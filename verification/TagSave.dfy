/** Saving posted tag changes into the table of tags, and the import as a whole. */
module TagSave {
  import opened Seqs
  import opened Csv
  import opened TagImport

  datatype Row = Row(id: nat, name: string, groupid: int)

  type Table = seq<Row>

  /** The row an entry is parsed to; NaN is posted as null and read as zero. */
  function RowOf(item: Item): Row {
    Row(item.id, item.name, if item.groupid.Int? then item.groupid.v else 0)
  }

  predicate HasId(t: Table, id: nat) { exists i :: 0 <= i < |t| && t[i].id == id }

  function NextId(t: Table): (id: nat)
    ensures id > 0 && !HasId(t, id) && forall i :: 0 <= i < |t| ==> t[i].id < id
  {
    if t == [] then 1
    else
      var rest := NextId(t[..|t| - 1]);
      assert forall i :: 0 <= i < |t| - 1 ==> t[i] == t[..|t| - 1][i];
      if t[|t| - 1].id >= rest then t[|t| - 1].id + 1 else rest
  }

  /** Save: an update by id, else a new row. */
  function SaveRow(t: Table, r: Row): (u: Table)
    ensures r.id > 0 && HasId(t, r.id) ==>
      |u| == |t| && forall i :: 0 <= i < |t| ==> u[i] == if t[i].id == r.id then r else t[i]
  {
    if r.id == 0 then t + [r.(id := NextId(t))]
    else if HasId(t, r.id) then Map((x: Row) => if x.id == r.id then r else x, t)
    else t + [r]
  }

  /** Create: a new row, unless its id is taken. */
  predicate Creatable(t: Table, r: Row) { r.id == 0 || !HasId(t, r.id) }

  function CreateRow(t: Table, r: Row): Table {
    if r.id == 0 then t + [r.(id := NextId(t))] else if HasId(t, r.id) then t else t + [r]
  }

  lemma NotCreated(t: Table, r: Row)
    ensures !Creatable(t, r) ==> CreateRow(t, r) == t
  {}

  function WithDefault(r: Row, defaultGroup: int): Row {
    if r.groupid == 0 then r.(groupid := defaultGroup) else r
  }

  function Names(t: Table): (names: seq<string>)
    ensures |names| == |t| && forall i :: 0 <= i < |t| ==> names[i] == t[i].name
  {
    Map((r: Row) => r.name, t)
  }

  /** One posted entry when writes succeed. */
  function SaveOne(t: Table, names: seq<string>, defaultGroup: int, item: Item): Table {
    if item.name in names then SaveRow(t, RowOf(item)) else CreateRow(t, WithDefault(RowOf(item), defaultGroup))
  }

  function SaveAll(t: Table, names: seq<string>, defaultGroup: int, items: seq<Item>): Table {
    if items == [] then t
    else SaveOne(SaveAll(t, names, defaultGroup, items[..|items| - 1]), names, defaultGroup, items[|items| - 1])
  }

  // ---- posting, whatever fails ----

  /** What became of a posted entry. */
  datatype Effect = Updated | Created | Failed

  /** The table, the number of writes attempted, and what became of the entries so far. */
  datatype Outcome = Outcome(table: Table, writes: nat, effects: seq<Effect>)

  /** The tries to update the tags of a name, until one works: the writes so far, and whether one did. */
  function Tried(names: seq<string>, name: string, ok: nat -> bool, writes: nat): (nat, bool) {
    if names == [] then (writes, false)
    else if names[0] != name then Tried(names[1..], name, ok, writes)
    else if ok(writes + 1) then (writes + 1, true)
    else Tried(names[1..], name, ok, writes + 1)
  }

  /** One posted entry: an update that works, or else one attempt to create it. */
  function PostOne(o: Outcome, names: seq<string>, defaultGroup: int, item: Item, ok: nat -> bool): Outcome {
    var (n, found) := Tried(names, item.name, ok, o.writes);
    var row := WithDefault(RowOf(item), defaultGroup);
    if found then Outcome(SaveRow(o.table, RowOf(item)), n, o.effects + [Updated])
    else if ok(n + 1) && Creatable(o.table, row) then Outcome(CreateRow(o.table, row), n + 1, o.effects + [Created])
    else Outcome(o.table, n + 1, o.effects + [Failed])
  }

  function PostAll(t: Table, names: seq<string>, defaultGroup: int, items: seq<Item>, ok: nat -> bool): (o: Outcome)
    ensures |o.effects| == |items|
  {
    if items == [] then Outcome(t, 0, [])
    else
      var n := |items| - 1;
      PostOne(PostAll(t, names, defaultGroup, items[..n], ok), names, defaultGroup, items[n], ok)
  }

  /** How many entries met that end. */
  function Tally(effects: seq<Effect>, e: Effect): nat {
    if effects == [] then 0 else Tally(effects[..|effects| - 1], e) + (if effects[|effects| - 1] == e then 1 else 0)
  }

  lemma TallyMore(effects: seq<Effect>, last: Effect)
    ensures forall e :: Tally(effects + [last], e) == Tally(effects, e) + (if last == e then 1 else 0)
  {
    assert (effects + [last])[..|effects|] == effects;
  }

  lemma TallyOfNone()
    ensures forall e :: Tally([], e) == 0
  {}

  lemma {:induction false} TriedWorks(names: seq<string>, name: string, ok: nat -> bool, writes: nat)
    requires forall k: nat :: ok(k)
    ensures Tried(names, name, ok, writes).1 <==> name in names
  {
    if names != [] { TriedWorks(names[1..], name, ok, writes); }
  }

  /** When every write works the table is that of saving each entry in turn. */
  lemma {:induction false} PostAllWorks(t: Table, names: seq<string>, defaultGroup: int, items: seq<Item>, ok: nat -> bool)
    requires forall k: nat :: ok(k)
    ensures PostAll(t, names, defaultGroup, items, ok).table == SaveAll(t, names, defaultGroup, items)
  {
    hide SaveRow, CreateRow, RowOf, WithDefault, Creatable, Tried;
    if items != [] {
      var n := |items| - 1;
      var o := PostAll(t, names, defaultGroup, items[..n], ok);
      PostAllWorks(t, names, defaultGroup, items[..n], ok);
      TriedWorks(names, items[n].name, ok, o.writes);
      NotCreated(o.table, WithDefault(RowOf(items[n]), defaultGroup));
    }
  }

  // ---- the handler ----

  class Tags {
    var rows: Table

    constructor (stored: Table)
      ensures rows == stored
    {
      rows := stored;
    }

    /**
     * PostTagChanges; `ok` says which of the successive writes succeed. Without a default group
     * nothing is done. A save that fails falls through to the next tag of that name and then to a
     * creation, so every entry is counted once whatever fails.
     */
    method PostTagChanges(items: seq<Item>, defaultGroup: Option<int>, ok: nat -> bool)
      returns (accepted: bool, created: nat, updated: nat, failed: nat)
      modifies this
      ensures accepted == defaultGroup.Some?
      ensures !accepted ==> rows == old(rows)
      ensures accepted ==> created + updated + failed == |items|
      ensures accepted ==>
        var o := PostAll(old(rows), Names(old(rows)), defaultGroup.value, items, ok);
        && rows == o.table && created == Tally(o.effects, Created) && updated == Tally(o.effects, Updated)
        && failed == Tally(o.effects, Failed)
      ensures accepted && (forall k: nat :: ok(k)) ==>
        rows == SaveAll(old(rows), Names(old(rows)), defaultGroup.value, items)
    {
      hide SaveRow, CreateRow, RowOf, WithDefault, Creatable, SaveAll, Tried, Tally;
      TallyOfNone();
      accepted, created, updated, failed := defaultGroup.Some?, 0, 0, 0;
      if !accepted { return; }
      var tagnames := Names(rows);
      var writes := 0;
      ghost var effects: seq<Effect> := [];
      var m := 0;
      while m < |items|
        invariant 0 <= m <= |items| && created + updated + failed == m
        invariant Outcome(rows, writes, effects) == PostAll(old(rows), tagnames, defaultGroup.value, items[..m], ok)
        invariant created == Tally(effects, Created) && updated == Tally(effects, Updated)
        invariant failed == Tally(effects, Failed)
      {
        var item := items[m];
        assert items[..m + 1][..m] == items[..m] && items[..m + 1][m] == item;
        ghost var before := Outcome(rows, writes, effects);
        ghost var effect := Failed;
        var found;
        writes, found := Update(item, tagnames, ok, writes);
        if found {
          updated, effect := updated + 1, Updated;
        } else {
          var row := WithDefault(RowOf(item), defaultGroup.value);
          writes := writes + 1;
          if ok(writes) && Creatable(rows, row) {
            rows := CreateRow(rows, row);
            created, effect := created + 1, Created;
          } else {
            failed := failed + 1;
          }
        }
        TallyMore(effects, effect);
        effects := effects + [effect];
        assert Outcome(rows, writes, effects) == PostOne(before, tagnames, defaultGroup.value, item, ok);
        m := m + 1;
      }
      assert items[..m] == items;
      if forall k: nat :: ok(k) { PostAllWorks(old(rows), tagnames, defaultGroup.value, items, ok); }
    }

    /** The loop over the names: tags of the entry's name are tried until one is updated. */
    method Update(item: Item, tagnames: seq<string>, ok: nat -> bool, before: nat) returns (writes: nat, found: bool)
      modifies this
      ensures (writes, found) == Tried(tagnames, item.name, ok, before)
      ensures rows == if found then SaveRow(old(rows), RowOf(item)) else old(rows)
    {
      hide SaveRow, RowOf;
      writes, found := before, false;
      var j := 0;
      while j < |tagnames|
        invariant 0 <= j <= |tagnames| && rows == old(rows)
        invariant Tried(tagnames[j..], item.name, ok, writes) == Tried(tagnames, item.name, ok, before)
      {
        assert tagnames[j..][1..] == tagnames[j + 1..];
        if item.name == tagnames[j] {
          writes := writes + 1;
          if ok(writes) {
            rows := SaveRow(rows, RowOf(item));
            return writes, true;
          }
        }
        j := j + 1;
      }
    }
  }

  // ---- names to groups ----

  /** The group of the first row with a name. */
  function GroupOf(t: Table, n: string): Option<int> {
    if t == [] then None else if t[0].name == n then Some(t[0].groupid) else GroupOf(t[1..], n)
  }

  /** The group an id asks for: no number is zero, and for a name that is not stored yet both mean the default group. */
  function GroupGiven(gid: Num, names: seq<string>, n: string, defaultGroup: int): int {
    if n !in names && (gid.NaN? || gid == Int(0)) then defaultGroup
    else if gid.NaN? then 0 else gid.v
  }

  /** The group posted for a name. */
  function PostedGroup(items: seq<Item>, names: seq<string>, defaultGroup: int, n: string): Option<int> {
    if items == [] then None
    else if items[|items| - 1].name == n then Some(GroupGiven(items[|items| - 1].groupid, names, n, defaultGroup))
    else PostedGroup(items[..|items| - 1], names, defaultGroup, n)
  }

  /** Ids and names are unique. */
  predicate Keyed(t: Table) {
    && (forall i :: 0 <= i < |t| ==> t[i].id > 0)
    && (forall i, j :: 0 <= i < j < |t| ==> t[i].id != t[j].id && t[i].name != t[j].name)
  }

  lemma {:induction false} GroupOfRow(t: Table, i: nat)
    requires Keyed(t) && i < |t|
    ensures GroupOf(t, t[i].name) == Some(t[i].groupid)
  {
    if i > 0 {
      assert t[1..][i - 1] == t[i];
      GroupOfRow(t[1..], i - 1);
    }
  }

  lemma {:induction false} GroupOfNone(t: Table, n: string)
    ensures GroupOf(t, n).None? <==> forall i :: 0 <= i < |t| ==> t[i].name != n
  {
    if t != [] {
      GroupOfNone(t[1..], n);
      assert forall i :: 1 <= i < |t| ==> t[i] == t[1..][i - 1];
    }
  }

  lemma {:induction false} GroupOfSnoc(t: Table, r: Row, n: string)
    ensures GroupOf(t + [r], n) ==
      if GroupOf(t, n).Some? then GroupOf(t, n) else if r.name == n then Some(r.groupid) else None
  {
    if t == [] {
      assert t + [r] == [r];
    } else {
      assert (t + [r])[1..] == t[1..] + [r];
      GroupOfSnoc(t[1..], r, n);
    }
  }

  /** Two tables with the same names, row by row, and one other group. */
  lemma {:induction false} GroupOfUpdate(t: Table, u: Table, i: nat, n: string)
    requires Keyed(t) && |u| == |t| && i < |t| && u[i].name == t[i].name
    requires forall j :: 0 <= j < |t| && j != i ==> u[j] == t[j]
    ensures GroupOf(u, n) == if n == t[i].name then Some(u[i].groupid) else GroupOf(t, n)
  {
    if i == 0 {
      assert u[1..] == t[1..];
    } else {
      assert t[1..][i - 1] == t[i] && u[1..][i - 1] == u[i];
      GroupOfUpdate(t[1..], u[1..], i - 1, n);
    }
  }

  /** A posted entry fits the table: its own row under its own name, or a new name. */
  predicate Fits(t: Table, names: seq<string>, item: Item) {
    if item.name in names then exists i :: 0 <= i < |t| && t[i].id == item.id && t[i].name == item.name
    else item.id == 0 && forall i :: 0 <= i < |t| ==> t[i].name != item.name
  }

  lemma SaveOneGroups(t: Table, names: seq<string>, defaultGroup: int, item: Item, n: string)
    requires Keyed(t) && Fits(t, names, item)
    ensures Keyed(SaveOne(t, names, defaultGroup, item))
    ensures GroupOf(SaveOne(t, names, defaultGroup, item), n) ==
      if n == item.name then Some(GroupGiven(item.groupid, names, n, defaultGroup)) else GroupOf(t, n)
  {
    var u := SaveOne(t, names, defaultGroup, item);
    if item.name in names {
      var i :| 0 <= i < |t| && t[i].id == item.id && t[i].name == item.name;
      assert HasId(t, item.id);
      assert u[i] == RowOf(item);
      GroupOfUpdate(t, u, i, n);
    } else {
      GroupOfSnoc(t, WithDefault(RowOf(item), defaultGroup).(id := NextId(t)), n);
      GroupOfNone(t, item.name);
    }
  }

  lemma SaveOneFits(t: Table, names: seq<string>, defaultGroup: int, item: Item, other: Item)
    requires Keyed(t) && Fits(t, names, item) && Fits(t, names, other) && item.name != other.name
    ensures Fits(SaveOne(t, names, defaultGroup, item), names, other)
  {
    hide GroupOf;
    var u := SaveOne(t, names, defaultGroup, item);
    if item.name in names {
      var i :| 0 <= i < |t| && t[i].id == item.id && t[i].name == item.name;
      assert HasId(t, item.id) && |u| == |t|;
    }
    if other.name in names {
      var k :| 0 <= k < |t| && t[k].id == other.id && t[k].name == other.name;
      assert u[k] == t[k];
    }
  }

  ghost predicate AllFit(t: Table, names: seq<string>, items: seq<Item>) {
    forall i :: 0 <= i < |items| ==> Fits(t, names, items[i])
  }

  /** After saving entries of distinct names each of them has its posted group, and no other name changes. */
  lemma {:induction false} SaveAllGroups(t: Table, names: seq<string>, defaultGroup: int, items: seq<Item>, n: string)
    requires Keyed(t) && DistinctNames(items) && AllFit(t, names, items)
    ensures Keyed(SaveAll(t, names, defaultGroup, items))
    ensures GroupOf(SaveAll(t, names, defaultGroup, items), n) ==
      if PostedGroup(items, names, defaultGroup, n).Some? then PostedGroup(items, names, defaultGroup, n)
      else GroupOf(t, n)
    ensures forall item :: Fits(t, names, item) && (forall i :: 0 <= i < |items| ==> items[i].name != item.name) ==>
      Fits(SaveAll(t, names, defaultGroup, items), names, item)
  {
    hide SaveOne, Fits, GroupOf, GroupGiven, Keyed;
    if items != [] {
      var k := |items| - 1;
      var before := items[..k];
      var t1 := SaveAll(t, names, defaultGroup, before);
      SaveAllGroups(t, names, defaultGroup, before, n);
      assert Fits(t1, names, items[k]);
      SaveOneGroups(t1, names, defaultGroup, items[k], n);
      forall item | Fits(t, names, item) && (forall i :: 0 <= i < |items| ==> items[i].name != item.name)
        ensures Fits(SaveAll(t, names, defaultGroup, items), names, item)
      {
        assert items[k].name != item.name;
        SaveOneFits(t1, names, defaultGroup, items[k], item);
      }
    }
  }

  /** An entry that fits is either saved as it should be or changes nothing. */
  lemma PostOneEffect(o: Outcome, names: seq<string>, defaultGroup: int, item: Item, ok: nat -> bool)
    requires Fits(o.table, names, item) && Keyed(o.table)
    ensures var p := PostOne(o, names, defaultGroup, item, ok);
      && |p.effects| == |o.effects| + 1 && p.effects == o.effects + [p.effects[|o.effects|]]
      && p.table == (if p.effects[|o.effects|].Failed? then o.table else SaveOne(o.table, names, defaultGroup, item))
      && (p.effects[|o.effects|].Updated? ==> item.name in names)
      && (p.effects[|o.effects|].Created? ==> item.name !in names)
  {
    hide SaveRow, CreateRow, GroupOf, NextId;
    TriedNamed(names, item.name, ok, o.writes);
    if item.name in names {
      var i :| 0 <= i < |o.table| && o.table[i].id == item.id && o.table[i].name == item.name;
      assert HasId(o.table, item.id);
    }
  }

  lemma {:induction false} TriedNamed(names: seq<string>, name: string, ok: nat -> bool, writes: nat)
    ensures Tried(names, name, ok, writes).1 ==> name in names
  {
    if names != [] {
      TriedNamed(names[1..], name, ok, writes);
      TriedNamed(names[1..], name, ok, writes + 1);
    }
  }

  /**
   * Whatever fails, the group of each posted name is the posted one if its entry was stored and the
   * old one if not, and no other name changes.
   */
  lemma {:induction false} PostedGroups(t: Table, names: seq<string>, defaultGroup: int, items: seq<Item>, ok: nat -> bool)
    requires Keyed(t) && DistinctNames(items) && AllFit(t, names, items)
    ensures var o := PostAll(t, names, defaultGroup, items, ok);
      && Keyed(o.table)
      && (forall k :: 0 <= k < |items| ==>
            GroupOf(o.table, items[k].name)
              == if o.effects[k].Failed? then GroupOf(t, items[k].name)
                 else Some(GroupGiven(items[k].groupid, names, items[k].name, defaultGroup)))
      && (forall n :: (forall k :: 0 <= k < |items| ==> items[k].name != n) ==> GroupOf(o.table, n) == GroupOf(t, n))
      && (forall item :: Fits(t, names, item) && (forall i :: 0 <= i < |items| ==> items[i].name != item.name) ==>
            Fits(o.table, names, item))
  {
    hide PostOne, SaveOne, Fits, GroupOf, RowOf, GroupGiven, Keyed;
    if items != [] {
      var m := |items| - 1;
      var before, item := items[..m], items[m];
      PostedGroups(t, names, defaultGroup, before, ok);
      var o := PostAll(t, names, defaultGroup, before, ok);
      var p := PostAll(t, names, defaultGroup, items, ok);
      assert Fits(o.table, names, item);
      PostOneEffect(o, names, defaultGroup, item, ok);
      SaveOneGroups(o.table, names, defaultGroup, item, item.name);
      forall n
        ensures GroupOf(p.table, n) ==
          if !p.effects[m].Failed? && n == item.name then Some(GroupGiven(item.groupid, names, n, defaultGroup))
          else GroupOf(o.table, n)
      {
        SaveOneGroups(o.table, names, defaultGroup, item, n);
      }
      forall other | Fits(t, names, other) && (forall i :: 0 <= i < |items| ==> items[i].name != other.name)
        ensures Fits(p.table, names, other)
      {
        assert items[m].name != other.name;
        SaveOneFits(o.table, names, defaultGroup, item, other);
      }
    }
  }

  /** The entries counted as updated are of stored names, those counted as new of others. */
  lemma {:induction false} PostedKinds(t: Table, names: seq<string>, defaultGroup: int, items: seq<Item>, ok: nat -> bool)
    requires Keyed(t) && DistinctNames(items) && AllFit(t, names, items)
    ensures var o := PostAll(t, names, defaultGroup, items, ok);
      forall k :: 0 <= k < |items| ==>
        (o.effects[k].Updated? ==> items[k].name in names) && (o.effects[k].Created? ==> items[k].name !in names)
  {
    hide PostOne, SaveOne, Fits, GroupOf, RowOf, GroupGiven, Keyed;
    if items != [] {
      var m := |items| - 1;
      PostedKinds(t, names, defaultGroup, items[..m], ok);
      PostedGroups(t, names, defaultGroup, items[..m], ok);
      PostOneEffect(PostAll(t, names, defaultGroup, items[..m], ok), names, defaultGroup, items[m], ok);
    }
  }

  /**
   * One entry against a table of distinct names: a stored name is updated if the first write works,
   * and else fails although a creation is tried; a new name is created if its one write works.
   */
  lemma PostOneOutcome(o: Outcome, names: seq<string>, defaultGroup: int, item: Item, ok: nat -> bool)
    requires Keyed(o.table) && Fits(o.table, names, item)
    requires forall i, j :: 0 <= i < j < |names| ==> names[i] != names[j]
    ensures var p := PostOne(o, names, defaultGroup, item, ok);
      var works := ok(o.writes + 1);
      && p.writes == o.writes + (if item.name in names && !works then 2 else 1)
      && p.effects == o.effects + [if !works then Failed else if item.name in names then Updated else Created]
  {
    hide SaveRow, CreateRow, GroupOf, NextId;
    TriedOnce(names, item.name, ok, o.writes);
    if item.name in names {
      var i :| 0 <= i < |o.table| && o.table[i].id == item.id && o.table[i].name == item.name;
      assert HasId(o.table, item.id);
    }
  }

  lemma {:induction false} TriedOnce(names: seq<string>, name: string, ok: nat -> bool, writes: nat)
    requires forall i, j :: 0 <= i < j < |names| ==> names[i] != names[j]
    ensures Tried(names, name, ok, writes) ==
      if name in names then (writes + 1, ok(writes + 1)) else (writes, false)
  {
    if names != [] {
      TriedOnce(names[1..], name, ok, writes);
      TriedOnce(names[1..], name, ok, writes + 1);
    }
  }

  // ---- the import as a whole ----

  /** The list as loaded from the table. */
  function ItemsOf(t: Table): (items: seq<Item>)
    ensures |items| == |t|
    ensures forall i :: 0 <= i < |t| ==>
      items[i] == Item(t[i].id, t[i].name, Int(t[i].groupid), Some(t[i].groupid), false, false)
  {
    Map((r: Row) => Item(r.id, r.name, Int(r.groupid), Some(r.groupid), false, false), t)
  }

  /** The list that is left to save after importing records. */
  function ToSave(t: Table, groups: seq<int>, rs: seq<Tag>): seq<Item> {
    Staying(ProcessRecords(Page(ItemsOf(t), None), groups, rs).items)
  }

  /** The old table overridden by the last mention of each name. */
  function Overlay(t: Table, rs: seq<Tag>, defaultGroup: int, n: string): Option<int> {
    var ms, stored := Mentions(rs, n), GroupOf(t, n);
    if ms == [] then stored else Some(GroupGiven(ms[|ms| - 1], Names(t), n, defaultGroup))
  }

  /** The last two records of a stored tag agree on a number that is not its stored group. */
  predicate Masked(ms: seq<Num>, stored: int) {
    |ms| >= 2 && ms[|ms| - 1].Int? && ms[|ms| - 1] == ms[|ms| - 2] && ms[|ms| - 1] != Int(stored)
  }

  lemma StayingSnoc(items: seq<Item>)
    requires items != []
    ensures var m := |items| - 1;
      Staying(items) == if items[m].Stays() then Staying(items[..m]) + [items[m]] else Staying(items[..m])
  {
    var m := |items| - 1;
    var stays := (i: Item) => i.Stays();
    assert items == items[..m] + [items[m]];
    FilterAppend(stays, items[..m], [items[m]]);
    assert Filter(stays, [items[m]]) == (if stays(items[m]) then [items[m]] else []) + Filter(stays, [items[m]][1..]);
  }

  lemma {:induction false} IndexOfSnoc(items: seq<Item>, n: string)
    requires items != []
    ensures var m := |items| - 1;
      var k := IndexOf(items[..m], n);
      IndexOf(items, n) == if k < m then k else if items[m].name == n then m else m + 1
  {
    if |items| > 1 {
      assert items[..|items| - 1][1..] == items[1..][..|items| - 2];
      IndexOfSnoc(items[1..], n);
    }
  }

  /** Of a list of distinct names, a name is posted when its entry stays, with that entry's group. */
  lemma {:induction false} PostedOfStaying(items: seq<Item>, names: seq<string>, defaultGroup: int, n: string)
    requires DistinctNames(items)
    ensures var k := IndexOf(items, n);
      PostedGroup(Staying(items), names, defaultGroup, n) ==
        if k < |items| && items[k].Stays() then Some(GroupGiven(items[k].groupid, names, n, defaultGroup)) else None
  {
    hide GroupGiven, Staying, IndexOf;
    if items == [] {
      NothingStays(n);
    } else {
      var m := |items| - 1;
      var s := Staying(items[..m]);
      PostedOfStaying(items[..m], names, defaultGroup, n);
      StayingSnoc(items);
      IndexOfSnoc(items, n);
      assert (s + [items[m]])[..|s|] == s;
    }
  }

  lemma {:induction false} StayingDistinct(items: seq<Item>)
    requires DistinctNames(items)
    ensures DistinctNames(Staying(items))
    ensures forall i :: 0 <= i < |Staying(items)| ==> Staying(items)[i] in items
  {
    hide Staying;
    if items == [] {
      NothingStays("");
    } else {
      var m := |items| - 1;
      var s := Staying(items[..m]);
      StayingDistinct(items[..m]);
      StayingSnoc(items);
      forall i | 0 <= i < |s| ensures s[i] in items && s[i].name != items[m].name {
        var k :| 0 <= k < m && items[..m][k] == s[i];
        assert items[k] == s[i];
      }
    }
  }

  lemma NothingStays(n: string)
    ensures Staying([]) == [] && IndexOf([], n) == 0
  {}

  /** What is left to save fits the table it came from. */
  lemma SavedFits(t: Table, groups: seq<int>, rs: seq<Tag>, items: seq<Item>, item: Item)
    requires Keyed(t) && Reflects(ItemsOf(t), items, groups, rs)
    requires item in items
    ensures Fits(t, Names(t), item)
  {
    hide Mentions, GroupOf;
    var stored := ItemsOf(t);
    var i :| 0 <= i < |items| && items[i] == item;
    if i < |t| {
      assert Followed(stored[i], item, groups, rs);
      assert Names(t)[i] == item.name;
    } else {
      assert Added(item, groups, rs);
      forall j | 0 <= j < |t| ensures t[j].name != item.name {
        assert Followed(stored[j], items[j], groups, rs);
      }
    }
  }

  /** For one name: what the save leaves against what the overlay asks for. */
  lemma OverlayOfName(t: Table, groups: seq<int>, rs: seq<Tag>, defaultGroup: int, n: string)
    requires Keyed(t) && AllNamed(rs)
    ensures var u := SaveAll(t, Names(t), defaultGroup, ToSave(t, groups, rs));
      var masked := GroupOf(t, n).Some? && Masked(Mentions(rs, n), GroupOf(t, n).value);
      GroupOf(u, n) == Overlay(t, rs, defaultGroup, n) <==> !masked
  {
    hide Mentions, IndexOf, Staying, GroupOf, SaveAll, Fits, PostedGroup, ProcessRecords, Reflects, Masked, RowOf, Overlay;
    hide GroupGiven;
    var stored := ItemsOf(t);
    var items := ProcessRecords(Page(stored, None), groups, rs).items;
    var kept := Staying(items);
    RecordsReflected(stored, groups, rs);
    assert DistinctNames(items) by { ReflectsDistinct(stored, items, groups, rs); }
    PostedOfStaying(items, Names(t), defaultGroup, n);
    StayingDistinct(items);
    forall i | 0 <= i < |kept| ensures Fits(t, Names(t), kept[i]) { SavedFits(t, groups, rs, items, kept[i]); }
    SaveAllGroups(t, Names(t), defaultGroup, kept, n);
    PostedIsOverlay(t, groups, rs, items, defaultGroup, n);
  }

  lemma ReflectsDistinct(stored: seq<Item>, items: seq<Item>, groups: seq<int>, rs: seq<Tag>)
    requires Reflects(stored, items, groups, rs)
    ensures DistinctNames(items)
  {}

  lemma NameStored(t: Table, n: string)
    ensures n in Names(t) <==> GroupOf(t, n).Some?
  {
    GroupOfNone(t, n);
    if i :| 0 <= i < |t| && t[i].name == n { assert Names(t)[i] == n; }
  }

  /** The group a name is saved with, or else keeps, against the overlay. */
  lemma PostedIsOverlay(t: Table, groups: seq<int>, rs: seq<Tag>, items: seq<Item>, defaultGroup: int, n: string)
    requires Keyed(t) && Reflects(ItemsOf(t), items, groups, rs)
    ensures var k := IndexOf(items, n);
      var saved := if k < |items| && items[k].Stays() then Some(GroupGiven(items[k].groupid, Names(t), n, defaultGroup))
                   else GroupOf(t, n);
      var masked := GroupOf(t, n).Some? && Masked(Mentions(rs, n), GroupOf(t, n).value);
      saved == Overlay(t, rs, defaultGroup, n) <==> !masked
  {
    hide Mentions, IndexOf, GroupOf, Masked, LastDiffers, Reflects, Keyed, GroupGiven, Names;
    var ms, k := Mentions(rs, n), IndexOf(items, n);
    GroupOfNone(t, n);
    NameStored(t, n);
    if i :| 0 <= i < |t| && t[i].name == n {
      StoredEntry(t, items, groups, rs, i);
      GroupOfRow(t, i);
      StoredOverlay(t[i].groupid, ms, items[i], Names(t), n, defaultGroup);
    } else if k < |items| {
      NewEntry(ItemsOf(t), items, groups, rs, k);
    } else {
      assert ms == [] by { Unmentioned(ItemsOf(t), items, groups, rs, n); }
    }
  }

  lemma StoredEntry(t: Table, items: seq<Item>, groups: seq<int>, rs: seq<Tag>, i: nat)
    requires Reflects(ItemsOf(t), items, groups, rs) && i < |t|
    ensures i < |items| && Followed(ItemsOf(t)[i], items[i], groups, rs) && IndexOf(items, t[i].name) == i
  {
    assert Followed(ItemsOf(t)[i], items[i], groups, rs);
    IndexOfDistinct(items, i);
  }

  /** An entry whose name is not stored was added. */
  lemma NewEntry(stored: seq<Item>, items: seq<Item>, groups: seq<int>, rs: seq<Tag>, k: nat)
    requires Reflects(stored, items, groups, rs) && k < |items|
    requires forall i :: 0 <= i < |stored| ==> stored[i].name != items[k].name
    ensures Added(items[k], groups, rs)
  {}

  lemma Unmentioned(stored: seq<Item>, items: seq<Item>, groups: seq<int>, rs: seq<Tag>, n: string)
    requires Reflects(stored, items, groups, rs) && IndexOf(items, n) == |items|
    ensures Mentions(rs, n) == []
  {}

  /** A stored entry is saved as the records ask exactly when they do not mask the change. */
  lemma StoredOverlay(g0: int, ms: seq<Num>, now: Item, names: seq<string>, n: string, defaultGroup: int)
    requires n in names
    requires now.groupid == Last(ms, Int(g0)) && now.changed == LastDiffers(ms, Int(g0)) && !now.isNew
    ensures var saved := if now.Stays() then GroupGiven(now.groupid, names, n, defaultGroup) else g0;
      saved == (if ms == [] then g0 else GroupGiven(ms[|ms| - 1], names, n, defaultGroup)) <==> !Masked(ms, g0)
  {}

  /**
   * Import then save, all writes succeeding, for any records: every name ends with the group of its
   * last record, or its old group without one, if and only if no stored tag's last two records agree
   * on a group that is not the stored one. A record without a number asks for group 0, and for a new
   * tag both mean the default group.
   */
  lemma ImportIsOverlayIff(t: Table, groups: seq<int>, rs: seq<Tag>, defaultGroup: int)
    requires Keyed(t)
    ensures ToSave(t, groups, rs) == ToSave(t, groups, Named(rs))
    ensures var u := SaveAll(t, Names(t), defaultGroup, ToSave(t, groups, rs));
      (forall n :: GroupOf(u, n) == Overlay(t, Named(rs), defaultGroup, n))
      <==> (forall i :: 0 <= i < |t| ==> !Masked(Mentions(Named(rs), t[i].name), t[i].groupid))
  {
    hide Overlay, SaveAll, ToSave, Mentions, GroupOf, Masked, Named, AllNamed;
    var named := Named(rs);
    NamedSuffices(t, groups, rs);
    NamedAreNamed(rs);
    var u := SaveAll(t, Names(t), defaultGroup, ToSave(t, groups, rs));
    forall n
      ensures GroupOf(u, n) == Overlay(t, named, defaultGroup, n)
        <==> !(GroupOf(t, n).Some? && Masked(Mentions(named, n), GroupOf(t, n).value))
    {
      OverlayOfName(t, groups, named, defaultGroup, n);
    }
    forall i | 0 <= i < |t| ensures GroupOf(t, t[i].name) == Some(t[i].groupid) { GroupOfRow(t, i); }
    forall n | GroupOf(t, n).Some? ensures exists i :: 0 <= i < |t| && t[i].name == n { GroupOfNone(t, n); }
  }

  /** Where it fails: a stored tag that two records put in another group stays in its old one. */
  lemma RepeatedRowIsLost(x: Row, gid: int, groups: seq<int>, defaultGroup: int)
    requires x.id > 0 && x.name != "" && gid in groups && gid != x.groupid
    ensures var rs := [Tag(x.name, Int(gid)), Tag(x.name, Int(gid))];
      && Keyed([x]) && Masked(Mentions(Named(rs), x.name), x.groupid)
      && Overlay([x], Named(rs), defaultGroup, x.name) == Some(gid)
      && GroupOf(SaveAll([x], Names([x]), defaultGroup, ToSave([x], groups, rs)), x.name) == Some(x.groupid)
  {
    hide SaveOne, ProcessRecord, Mentions;
    var r := Tag(x.name, Int(gid));
    var rs := [r, r];
    FilterAll((y: Tag) => y.name != "", rs);
    assert Named(rs) == rs;
    MentionedTwice(r);
    assert Names([x])[0] == x.name;
    NothingLeft(x, gid, groups);
  }

  lemma MentionedTwice(r: Tag)
    ensures Mentions([r, r], r.name) == [r.groupid, r.groupid]
  {
    assert [r, r][..1] == [r] && [r][..0] == [];
    assert Mentions([r], r.name) == Mentions([], r.name) + [r.groupid] == [r.groupid];
  }

  lemma NothingLeft(x: Row, gid: int, groups: seq<int>)
    requires x.name != "" && gid in groups && gid != x.groupid
    ensures ToSave([x], groups, [Tag(x.name, Int(gid)), Tag(x.name, Int(gid))]) == []
  {
    var r := Tag(x.name, Int(gid));
    assert [r, r][..1] == [r] && [r][..0] == [];
    var p0 := Page(ItemsOf([x]), None);
    var p1 := ProcessRecord(p0, groups, r);
    var p2 := ProcessRecord(p1, groups, r);
    assert ProcessRecords(p0, groups, [r]) == p1;
    assert p1.items == [p0.items[0].(groupid := Int(gid), group := Some(gid), changed := true)];
    assert p2.items == [p1.items[0].(changed := false)];
    FilterNone((i: Item) => i.Stays(), p2.items);
  }

  lemma NamedSuffices(t: Table, groups: seq<int>, rs: seq<Tag>)
    ensures ToSave(t, groups, rs) == ToSave(t, groups, Named(rs))
  {
    BlanksSkipped(Page(ItemsOf(t), None), groups, rs);
  }
}
