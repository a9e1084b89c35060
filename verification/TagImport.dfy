/** Importing tags in the browser and saving the changes on the server. */
module TagImport {
  import opened Seqs
  import opened Csv

  // ---- the browser's list ----

  /** An entry of the item list; id 0 for one that was never stored. `group` is the id of the group object. */
  datatype Item = Item(id: nat, name: string, groupid: Num, group: Option<int>, changed: bool, isNew: bool) {
    predicate Stays() { changed || isNew }
  }

  /** The list, and the group variable that keeps its value from one record to the next. */
  datatype Page = Page(items: seq<Item>, group: Option<int>)

  /** === on numbers: NaN equals nothing. */
  predicate StrictlyEqual(a: Num, b: Num) { a.Int? && a == b }

  /** The first entry with a name, or the length of the list. */
  function IndexOf(items: seq<Item>, name: string): (k: nat)
    ensures k <= |items|
    ensures k < |items| ==> items[k].name == name
    ensures forall j :: 0 <= j < k ==> items[j].name != name
  {
    if items == [] || items[0].name == name then 0 else 1 + IndexOf(items[1..], name)
  }

  function GroupFor(groups: seq<int>, gid: Num, before: Option<int>): Option<int> {
    if gid.Int? && gid.v in groups then Some(gid.v) else before
  }

  function Regrouped(item: Item, gid: Num, group: Option<int>): Item {
    if StrictlyEqual(item.groupid, gid) then item.(changed := false)
    else item.(groupid := gid, group := group, changed := true)
  }

  /** One record. */
  function ProcessRecord(p: Page, groups: seq<int>, r: Tag): Page {
    if r.name == "" then p
    else
      var group := GroupFor(groups, r.groupid, p.group);
      var k := IndexOf(p.items, r.name);
      Page(if k < |p.items| then p.items[k := Regrouped(p.items[k], r.groupid, group)]
           else p.items + [Item(0, r.name, r.groupid, group, false, true)], group)
  }

  function ProcessRecords(p: Page, groups: seq<int>, rs: seq<Tag>): Page {
    if rs == [] then p
    else ProcessRecord(ProcessRecords(p, groups, rs[..|rs| - 1]), groups, rs[|rs| - 1])
  }

  function Staying(items: seq<Item>): seq<Item> { Filter((i: Item) => i.Stays(), items) }

  class TagTable {
    var items: seq<Item>
    var groups: seq<int>

    constructor (loaded: seq<Item>, known: seq<int>)
      ensures items == loaded && groups == known
    {
      items, groups := loaded, known;
    }

    /** processResponse on the records of a CSV. */
    method ProcessResponse(records: seq<seq<string>>)
      requires forall i :: 0 <= i < |records| ==> |records[i]| > 0
      modifies this`items
      ensures items == Staying(ProcessRecords(Page(old(items), None), groups, Map(TagOfRecord, records)).items)
    {
      hide ProcessRecord, TagOf, Trim, ParseInt, Filter;
      var group: Option<int> := None;
      TagsOfRecords(records);
      ghost var tags := Map(TagOfRecord, records);
      var mi := 0;
      while mi < |records|
        invariant 0 <= mi <= |records|
        invariant Page(items, group) == ProcessRecords(Page(old(items), None), groups, tags[..mi])
      {
        var record := records[mi];
        var tagname := Trim(record[0]);
        var groupid := if |record| > 1 then ParseInt(record[1]) else NaN;
        assert tags[mi] == Tag(tagname, groupid);
        assert tags[..mi + 1][..mi] == tags[..mi] && tags[..mi + 1][mi] == tags[mi];
        if tagname != "" {
          group := Merge(tagname, groupid, group);
        } else {
          BlankRecord(Page(items, group), groups, groupid);
        }
        mi := mi + 1;
      }
      assert tags[..mi] == tags;
      items := Filter((i: Item) => i.Stays(), items);
    }

    /** The two searches for one record and what they change. */
    method Merge(tagname: string, groupid: Num, before: Option<int>) returns (group: Option<int>)
      requires tagname != ""
      modifies this`items
      ensures Page(items, group) == ProcessRecord(Page(old(items), before), groups, Tag(tagname, groupid))
    {
      group := FindGroup(groupid, before);
      var found := false;
      var i := 0;
      while i < |items| && !found
        invariant 0 <= i <= |items|
        invariant forall j :: 0 <= j < i ==> items[j].name != tagname
        invariant found ==> i < |items| && items[i].name == tagname
        decreases |items| - i, !found
      {
        if items[i].name == tagname { found := true; } else { i := i + 1; }
      }
      assert i == IndexOf(items, tagname);
      if found {
        items := items[i := Regrouped(items[i], groupid, group)];
      } else {
        items := items + [Item(0, tagname, groupid, group, false, true)];
      }
    }

    /** The search of the group table; an unknown id leaves the variable alone. */
    method FindGroup(groupid: Num, before: Option<int>) returns (group: Option<int>)
      ensures group == GroupFor(groups, groupid, before)
    {
      group := before;
      var g := 0;
      while g < |groups|
        invariant 0 <= g <= |groups|
        invariant forall j :: 0 <= j < g ==> !StrictlyEqual(groupid, Int(groups[j]))
        invariant group == before
      {
        if StrictlyEqual(groupid, Int(groups[g])) {
          return Some(groups[g]);
        }
        g := g + 1;
      }
    }
  }

  lemma TagsOfRecords(records: seq<seq<string>>)
    requires forall i :: 0 <= i < |records| ==> |records[i]| > 0
    ensures forall i :: 0 <= i < |records| ==>
      Map(TagOfRecord, records)[i] == Tag(Trim(records[i][0]), if |records[i]| > 1 then ParseInt(records[i][1]) else NaN)
  {}

  lemma BlankRecord(p: Page, groups: seq<int>, gid: Num)
    ensures ProcessRecord(p, groups, Tag("", gid)) == p
  {}

  function TagOfRecord(record: seq<string>): Tag {
    if record == [] then Tag("", NaN) else TagOf(record)
  }

  // ---- what the list holds after the records ----

  /** The group ids the records give a name, in order. */
  function Mentions(rs: seq<Tag>, name: string): seq<Num> {
    if rs == [] then []
    else
      var r := rs[|rs| - 1];
      Mentions(rs[..|rs| - 1], name) + (if r.name == name then [r.groupid] else [])
  }

  function Last(ms: seq<Num>, before: Num): Num { if ms == [] then before else ms[|ms| - 1] }

  /** Whether the last mention differs from the one before it, or from what was stored; no number does so always. */
  predicate LastDiffers(ms: seq<Num>, stored: Num) {
    ms != [] && (ms[|ms| - 1].NaN? || ms[|ms| - 1] != Last(ms[..|ms| - 1], stored))
  }

  predicate AllNamed(rs: seq<Tag>) { forall i :: 0 <= i < |rs| ==> rs[i].name != "" }

  /** The entry shows the group object of its own id, if there is one. */
  predicate ShowsOwn(e: Item, groups: seq<int>) {
    e.groupid.Int? && e.groupid.v in groups ==> e.group == Some(e.groupid.v)
  }

  predicate DistinctNames(items: seq<Item>) {
    forall i, j :: 0 <= i < j < |items| ==> items[i].name != items[j].name
  }

  /** Freshly loaded from the server. */
  predicate Loaded(items: seq<Item>) {
    DistinctNames(items) && forall i :: 0 <= i < |items| ==>
      items[i].id > 0 && items[i].groupid.Int? && !items[i].changed && !items[i].isNew
  }

  /** A stored entry after the records: regrouped as last mentioned, flagged by the last two values. */
  predicate Followed(stored: Item, now: Item, groups: seq<int>, rs: seq<Tag>) {
    var ms := Mentions(rs, stored.name);
    && now.id == stored.id && now.name == stored.name && !now.isNew
    && now.groupid == Last(ms, stored.groupid)
    && now.changed == LastDiffers(ms, stored.groupid)
    && (now.changed ==> ShowsOwn(now, groups))
  }

  /** An entry the records added. */
  predicate Added(now: Item, groups: seq<int>, rs: seq<Tag>) {
    var ms := Mentions(rs, now.name);
    now.id == 0 && now.isNew && ms != [] && now.groupid == Last(ms, NaN) && ShowsOwn(now, groups)
  }

  ghost predicate Reflects(stored: seq<Item>, items: seq<Item>, groups: seq<int>, rs: seq<Tag>) {
    && |stored| <= |items| && DistinctNames(items)
    && (forall i :: 0 <= i < |stored| ==> Followed(stored[i], items[i], groups, rs))
    && (forall i :: |stored| <= i < |items| ==> Added(items[i], groups, rs))
    && (forall n :: Mentions(rs, n) != [] ==> IndexOf(items, n) < |items|)
  }

  lemma MentionsMore(rs: seq<Tag>, n: string)
    requires rs != []
    ensures var k := |rs| - 1;
      Mentions(rs, n) == if rs[k].name == n then Mentions(rs[..k], n) + [rs[k].groupid] else Mentions(rs[..k], n)
  {}

  lemma IndexOfDistinct(items: seq<Item>, k: nat)
    requires DistinctNames(items) && k < |items|
    ensures IndexOf(items, items[k].name) == k
  {}

  lemma {:induction false} RecordsReflected(stored: seq<Item>, groups: seq<int>, rs: seq<Tag>)
    requires Loaded(stored) && AllNamed(rs)
    ensures Reflects(stored, ProcessRecords(Page(stored, None), groups, rs).items, groups, rs)
  {
    hide IndexOf;
    if rs == [] {
      forall n ensures Mentions(rs, n) == [] {}
    } else {
      var n := |rs| - 1;
      RecordsReflected(stored, groups, rs[..n]);
      OneReflected(stored, ProcessRecords(Page(stored, None), groups, rs[..n]), groups, rs);
    }
  }

  lemma OneReflected(stored: seq<Item>, p: Page, groups: seq<int>, rs: seq<Tag>)
    requires rs != [] && Loaded(stored) && AllNamed(rs) && Reflects(stored, p.items, groups, rs[..|rs| - 1])
    ensures Reflects(stored, ProcessRecord(p, groups, rs[|rs| - 1]).items, groups, rs)
  {
    hide IndexOf, Mentions, Followed, Added;
    var r, before := rs[|rs| - 1], rs[..|rs| - 1];
    var items := ProcessRecord(p, groups, r).items;
    var k := IndexOf(p.items, r.name);
    var group := GroupFor(groups, r.groupid, p.group);
    forall i | 0 <= i < |stored| ensures Followed(stored[i], items[i], groups, rs) {
      FollowedOn(stored[i], p.items[i], groups, rs, group);
    }
    forall i | |stored| <= i < |items| ensures Added(items[i], groups, rs) {
      if i < |p.items| { AddedOn(p.items[i], groups, rs, group); } else { AddedNow(groups, rs, group); }
    }
    forall n | Mentions(rs, n) != [] ensures IndexOf(items, n) < |items| {
      MentionsMore(rs, n);
      if n == r.name { Present(items, k, n); }
      else { var j := IndexOf(p.items, n); Present(items, j, n); }
    }
  }

  /** The entry after the last record: regrouped if the record names it. */
  function Next(now: Item, r: Tag, group: Option<int>): Item {
    if now.name == r.name then Regrouped(now, r.groupid, group) else now
  }

  lemma FollowedOn(stored: Item, now: Item, groups: seq<int>, rs: seq<Tag>, group: Option<int>)
    requires rs != [] && GroupFor(groups, rs[|rs| - 1].groupid, group) == group
    requires Followed(stored, now, groups, rs[..|rs| - 1])
    ensures Followed(stored, Next(now, rs[|rs| - 1], group), groups, rs)
  {
    hide Mentions;
    var ms, r := Mentions(rs[..|rs| - 1], stored.name), rs[|rs| - 1];
    MentionsMore(rs, stored.name);
    assert (ms + [r.groupid])[..|ms|] == ms;
  }

  lemma AddedOn(now: Item, groups: seq<int>, rs: seq<Tag>, group: Option<int>)
    requires rs != [] && GroupFor(groups, rs[|rs| - 1].groupid, group) == group
    requires Added(now, groups, rs[..|rs| - 1])
    ensures Added(Next(now, rs[|rs| - 1], group), groups, rs)
  {
    hide Mentions;
    MentionsMore(rs, now.name);
  }

  lemma AddedNow(groups: seq<int>, rs: seq<Tag>, group: Option<int>)
    requires rs != [] && GroupFor(groups, rs[|rs| - 1].groupid, group) == group
    ensures Added(Item(0, rs[|rs| - 1].name, rs[|rs| - 1].groupid, group, false, true), groups, rs)
  {
    hide Mentions;
    MentionsMore(rs, rs[|rs| - 1].name);
  }

  lemma Present(items: seq<Item>, k: nat, n: string)
    requires k < |items| && items[k].name == n
    ensures IndexOf(items, n) < |items|
  {}

  // ---- blank records and own exports ----

  /** The records that name a tag; a blank line of the file gives one that does not. */
  function Named(rs: seq<Tag>): seq<Tag> { Filter((r: Tag) => r.name != "", rs) }

  lemma NamedAreNamed(rs: seq<Tag>)
    ensures AllNamed(Named(rs))
  {
    FilterIn((r: Tag) => r.name != "", rs);
  }

  lemma {:induction false} BlanksSkipped(p: Page, groups: seq<int>, rs: seq<Tag>)
    ensures ProcessRecords(p, groups, rs) == ProcessRecords(p, groups, Named(rs))
  {
    hide ProcessRecord;
    if rs != [] {
      var n := |rs| - 1;
      var named := (r: Tag) => r.name != "";
      BlanksSkipped(p, groups, rs[..n]);
      assert rs == rs[..n] + [rs[n]];
      FilterAppend(named, rs[..n], [rs[n]]);
      assert Filter(named, [rs[n]]) == (if named(rs[n]) then [rs[n]] else []) + Filter(named, [rs[n]][1..]);
      var before := Named(rs[..n]);
      if rs[n].name != "" {
        assert Named(rs) == before + [rs[n]] && (before + [rs[n]])[..|before|] == before;
      } else {
        BlankRecord(ProcessRecords(p, groups, rs[..n]), groups, rs[n].groupid);
        assert Named(rs) == before;
      }
    }
  }

  /** What the export prints of the list. */
  function TagsOf(items: seq<Item>): (tags: seq<Tag>)
    ensures |tags| == |items|
    ensures forall i :: 0 <= i < |items| ==> tags[i] == Tag(items[i].name, items[i].groupid)
  {
    Map((i: Item) => Tag(i.name, i.groupid), items)
  }

  lemma {:induction false} OwnRecordsIdle(items: seq<Item>, groups: seq<int>, k: nat)
    requires Loaded(items) && k <= |items|
    ensures ProcessRecords(Page(items, None), groups, TagsOf(items)[..k]).items == items
  {
    hide IndexOf, TagsOf;
    if k > 0 {
      var tags := TagsOf(items);
      OwnRecordsIdle(items, groups, k - 1);
      assert tags[..k][..k - 1] == tags[..k - 1];
      IndexOfDistinct(items, k - 1);
      assert items[k - 1 := items[k - 1]] == items;
    }
  }

  /** Importing one's own export marks nothing new or changed. */
  lemma ReimportIsIdle(items: seq<Item>, groups: seq<int>)
    requires Loaded(items) && forall i :: 0 <= i < |items| ==> Clean(items[i].name)
    ensures Staying(ProcessRecords(Page(items, None), groups, Imported(Exported(TagsOf(items)))).items) == []
  {
    hide Imported, Exported, Clean, ProcessRecords;
    var tags := TagsOf(items);
    CsvRoundTripIff(tags);
    OwnRecordsIdle(items, groups, |items|);
    assert tags[..|items|] == tags;
    var stays := (i: Item) => i.Stays();
    FilterNone(stays, items);
  }

  // ---- the group object shown ----

  /** The known group id of the last named record that has one. */
  function LastKnown(groups: seq<int>, rs: seq<Tag>): (group: Option<int>)
    ensures group.Some? ==> group.value in groups
  {
    if rs == [] then None
    else
      var n := |rs| - 1;
      var before := LastKnown(groups, rs[..n]);
      if rs[n].name != "" && rs[n].groupid.Int? && rs[n].groupid.v in groups then Some(rs[n].groupid.v) else before
  }

  /** Record k gave the entry its id, and the last known group up to it is the one the entry shows. */
  ghost predicate SetBy(e: Item, groups: seq<int>, rs: seq<Tag>, k: nat) {
    k < |rs| && rs[k].name == e.name != "" && rs[k].groupid == e.groupid && e.group == LastKnown(groups, rs[..k + 1])
  }

  ghost predicate SetByOne(e: Item, groups: seq<int>, rs: seq<Tag>) { exists k :: SetBy(e, groups, rs, k) }

  lemma SetBefore(e: Item, groups: seq<int>, rs: seq<Tag>)
    requires rs != [] && SetByOne(e, groups, rs[..|rs| - 1])
    ensures SetByOne(e, groups, rs)
  {
    hide LastKnown;
    var before := rs[..|rs| - 1];
    var k: nat :| SetBy(e, groups, before, k);
    assert before[..k + 1] == rs[..k + 1];
    assert SetBy(e, groups, rs, k);
  }

  /** Whatever the records, each entry left to save was set by one of them, with the last known group up to it. */
  lemma {:induction false} StayingSetBy(stored: seq<Item>, groups: seq<int>, rs: seq<Tag>)
    requires forall i :: 0 <= i < |stored| ==> !stored[i].Stays()
    ensures var p := ProcessRecords(Page(stored, None), groups, rs);
      && p.group == LastKnown(groups, rs)
      && forall i :: 0 <= i < |p.items| && p.items[i].Stays() ==> SetByOne(p.items[i], groups, rs)
  {
    hide IndexOf, SetByOne;
    if rs != [] {
      var n := |rs| - 1;
      StayingSetBy(stored, groups, rs[..n]);
      var p := ProcessRecords(Page(stored, None), groups, rs[..n]);
      var q := ProcessRecord(p, groups, rs[n]);
      assert rs[..n + 1] == rs;
      forall i | 0 <= i < |q.items| && q.items[i].Stays() ensures SetByOne(q.items[i], groups, rs) {
        if i < |p.items| && p.items[i].Stays() && SameShown(p.items[i], q.items[i]) {
          SetBefore(p.items[i], groups, rs);
          SetAlike(p.items[i], q.items[i], groups, rs);
        } else {
          SetNow(q.items[i], groups, rs);
        }
      }
    }
  }

  predicate SameShown(d: Item, e: Item) { d.name == e.name && d.groupid == e.groupid && d.group == e.group }

  lemma SetAlike(d: Item, e: Item, groups: seq<int>, rs: seq<Tag>)
    requires SetByOne(d, groups, rs) && SameShown(d, e)
    ensures SetByOne(e, groups, rs)
  {
    hide LastKnown;
    var k: nat :| SetBy(d, groups, rs, k);
    assert SetBy(e, groups, rs, k);
  }

  lemma SetNow(e: Item, groups: seq<int>, rs: seq<Tag>)
    requires rs != [] && rs[|rs| - 1].name == e.name != "" && rs[|rs| - 1].groupid == e.groupid
    requires e.group == LastKnown(groups, rs)
    ensures SetByOne(e, groups, rs)
  {
    assert rs[..|rs|] == rs;
    assert SetBy(e, groups, rs, |rs| - 1);
  }

  /**
   * For any records: an entry left to save carries the group object of its own id if and only if a
   * group of that id is known; otherwise it carries the one of the last known id up to its record.
   */
  lemma GroupObjectIff(stored: seq<Item>, groups: seq<int>, rs: seq<Tag>)
    requires forall i :: 0 <= i < |stored| ==> !stored[i].Stays()
    ensures var items := Staying(ProcessRecords(Page(stored, None), groups, rs).items);
      forall i :: 0 <= i < |items| ==>
        var e := items[i];
        && SetByOne(e, groups, rs)
        && ((e.groupid.Int? && e.group == Some(e.groupid.v)) <==> (e.groupid.Int? && e.groupid.v in groups))
  {
    hide SetByOne, ProcessRecords, Staying;
    var all := ProcessRecords(Page(stored, None), groups, rs).items;
    StayingSetBy(stored, groups, rs);
    StayingIn(all);
    var items := Staying(all);
    forall i | 0 <= i < |items|
      ensures SetByOne(items[i], groups, rs)
      ensures (items[i].groupid.Int? && items[i].group == Some(items[i].groupid.v))
        <==> (items[i].groupid.Int? && items[i].groupid.v in groups)
    {
      var k :| 0 <= k < |all| && all[k] == items[i];
      ShownOwn(items[i], groups, rs);
    }
  }

  lemma ShownOwn(e: Item, groups: seq<int>, rs: seq<Tag>)
    requires SetByOne(e, groups, rs)
    ensures (e.groupid.Int? && e.group == Some(e.groupid.v)) <==> (e.groupid.Int? && e.groupid.v in groups)
  {
    var k: nat :| SetBy(e, groups, rs, k);
    assert rs[..k + 1][k] == rs[k];
  }

  lemma StayingIn(items: seq<Item>)
    ensures forall i :: 0 <= i < |Staying(items)| ==> Staying(items)[i].Stays() && Staying(items)[i] in items
  {
    var stays := (i: Item) => i.Stays();
    FilterIn(stays, items);
    assert Staying(items) == Filter(stays, items);
  }

  /** For instance: id 7 is unknown, and the second entry is shown and saved with the group of the first. */
  lemma UnknownIdTakesStaleGroup()
    ensures var p := ProcessRecords(Page([], None), [1], [Tag("a", Int(1)), Tag("b", Int(7))]);
      p.items[1].groupid == Int(7) && p.items[1].group == Some(1)
  {
    var rs := [Tag("a", Int(1)), Tag("b", Int(7))];
    assert rs[..1] == [rs[0]] && rs[..1][..0] == [];
    assert ProcessRecords(Page([], None), [1], rs[..1]) == ProcessRecord(Page([], None), [1], rs[0]);
  }
}
