/** The index of the cache, what it reports, and the removal of old files. */
module CacheIndex {
  import opened Seqs
  import opened Text
  import opened Integers
  import opened Listing
  import opened Stamps
  import opened CacheWriter
  import opened Settings

  /** Time is in minutes. */
  datatype CacheItem = CacheItem(filename: Path, time: int, size: nat)

  function TimeOfPath(p: Path): int {
    if p == [] then TimeFromName("") else TimeFromName(p[|p| - 1])
  }

  function Entry<T>(item: Item<T>, sizeOf: T -> nat): CacheItem {
    CacheItem(item.path, TimeOfPath(item.path), sizeOf(item.content))
  }

  function Entries<T>(items: seq<Item<T>>, sizeOf: T -> nat): (entries: seq<CacheItem>)
    ensures |entries| == |items|
    ensures forall i :: 0 <= i < |items| ==> entries[i] == Entry(items[i], sizeOf)
  {
    Map((item: Item<T>) => Entry(item, sizeOf), items)
  }

  lemma EntriesAppend<T>(a: seq<Item<T>>, b: seq<Item<T>>, sizeOf: T -> nat)
    ensures Entries(a + b, sizeOf) == Entries(a, sizeOf) + Entries(b, sizeOf)
  {}

  function TotalSize(entries: seq<CacheItem>): nat {
    if entries == [] then 0 else TotalSize(entries[..|entries| - 1]) + entries[|entries| - 1].size
  }

  /** The entry of a file bears its path, its own size, and the minute in its name. */
  lemma EntryTells<T>(s: Stamp, content: T, sizeOf: T -> nat)
    requires s.Valid() && |Decimal(s.year)| <= ANY_WIDTH
    ensures Entry(Item(PathOf(s), content), sizeOf) == CacheItem(PathOf(s), s.Time(), sizeOf(content))
  {
    hide PathOf, Date;
    TimeOfStamp(s);
  }

  /** The total is that of the parts, and of one entry its size. */
  lemma {:induction false} TotalSizeAdds(a: seq<CacheItem>, b: seq<CacheItem>)
    ensures TotalSize(a + b) == TotalSize(a) + TotalSize(b)
    ensures TotalSize([]) == 0 && (|b| == 1 ==> TotalSize(b) == b[0].size)
  {
    if b == [] {
      assert a + b == a;
    } else {
      var n := |b| - 1;
      assert (a + b)[..|a| + n] == a + b[..n];
      TotalSizeAdds(a, b[..n]);
      if n == 0 { assert b[..n] == []; }
    }
  }

  // ---- the order of the index ----

  lemma TimeOfStamp(s: Stamp)
    requires s.Valid() && |Decimal(s.year)| <= ANY_WIDTH
    ensures TimeOfPath(PathOf(s)) == s.Time()
  {
    NameRoundTrip(s);
  }

  ghost predicate DatedPath(p: Path, digits: nat) {
    exists s: Stamp :: s.Valid() && |Decimal(s.year)| == digits && PathOf(s) == p
  }

  /** Every file of the walk was created for some minute, in years of so many digits. */
  ghost predicate Dated<T>(items: seq<Item<T>>, digits: nat) {
    forall i :: 0 <= i < |items| ==> DatedPath(items[i].path, digits)
  }

  lemma StampedIsDated<T>(items: seq<Item<T>>)
    requires Stamped(items)
    ensures Dated(items, 4)
  {
    hide Stamp.Valid, PathOf, Decimal;
    forall i | 0 <= i < |items| ensures DatedPath(items[i].path, 4) {
      assert StampPath(items[i].path);
      var s: Stamp :| Usable(s) && PathOf(s) == items[i].path;
      FourDigits(s.year);
    }
  }

  /**
   * In a tree of files the cache created, in years of equally many digits, the walk lists them in
   * strictly ascending time.
   */
  lemma SameDigitsIndex<T>(tree: Listing<T>, sizeOf: T -> nat, digits: nat)
    requires Sorted(tree) && digits <= ANY_WIDTH && Dated(Walk([], tree), digits)
    ensures Chronological(Entries(Walk([], tree), sizeOf))
  {
    hide Sorted, Stamps.PathOf, Date, Stamp.Valid, Decimal, PathBefore, TimeOfPath, Walk;
    var items := Walk([], tree);
    WalkAscending([], tree);
    forall i, j | 0 <= i < j < |items| ensures TimeOfPath(items[i].path) < TimeOfPath(items[j].path) {
      assert DatedPath(items[i].path, digits) && DatedPath(items[j].path, digits);
      var s: Stamp :| s.Valid() && |Decimal(s.year)| == digits && PathOf(s) == items[i].path;
      var t: Stamp :| t.Valid() && |Decimal(t.year)| == digits && PathOf(t) == items[j].path;
      TimeOfStamp(s);
      TimeOfStamp(t);
      SameDigitsKeepOrder(s, t);
    }
  }

  predicate Chronological(entries: seq<CacheItem>) {
    forall i, j :: 0 <= i < j < |entries| ==> entries[i].time < entries[j].time
  }

  /** In particular with four-digit years, as in the tree any run of those years leaves. */
  lemma IndexIsChronological<T>(tree: Listing<T>, sizeOf: T -> nat)
    requires Sorted(tree) && Stamped(Walk([], tree))
    ensures Chronological(Entries(Walk([], tree), sizeOf))
  {
    hide Sorted, Stamped, Dated, Walk, Entries;
    StampedIsDated(Walk([], tree));
    SameDigitsIndex(tree, sizeOf, 4);
  }

  /** So the first and the last entry bear the least and the greatest time. */
  lemma EndsAreExtremes<T>(tree: Listing<T>, sizeOf: T -> nat, digits: nat, k: nat)
    requires Sorted(tree) && digits <= ANY_WIDTH && Dated(Walk([], tree), digits) && k < |Walk([], tree)|
    ensures var entries := Entries(Walk([], tree), sizeOf);
      entries[0].time <= entries[k].time <= entries[|entries| - 1].time
  {
    hide Sorted, Dated, Entries, Entry, Walk;
    SameDigitsIndex(tree, sizeOf, digits);
    var entries := Entries(Walk([], tree), sizeOf);
    if 0 < k { assert entries[0].time < entries[k].time; }
    if k < |entries| - 1 { assert entries[k].time < entries[|entries| - 1].time; }
  }

  // ---- retention ----

  const DAY := 86_400_000_000_000  // nanoseconds
  const MINUTE := 60_000_000_000

  /** time.Time.Sub: differences that do not fit a Duration are cut to its ends. */
  function Sub(t: int, u: int): int {
    var d := t - u;
    if d > MAX64 then MAX64 else if d < -MAX64 - 1 then -MAX64 - 1 else d
  }

  /** The pruner's test on a file's time, all in nanoseconds. */
  predicate TooOld(utc: int, t: int, days: nat) {
    Sub(utc, t) > ToInt64(days * DAY % TWO64)
  }

  /** The test is exact for all times exactly up to 106751 days, where the product fits an int64. */
  lemma PruneExactIff(days: nat)
    requires days >= 1
    ensures (forall utc, t :: TooOld(utc, t, days) <==> utc - t > days * DAY) <==> days <= 106751
  {
    if days <= 106751 {
      assert ToInt64(days * DAY % TWO64) == days * DAY;
    } else {
      // a file whose age lies just over the wrapped limit is removed too early
      var limit := ToInt64(days * DAY % TWO64);
      WrapIsEven(days);
      var age := if limit < 0 then 0 else limit + 1;
      assert TooOld(age, 0, days) && age <= days * DAY;
    }
  }

  /** Up to 106751 days an entry is counted exactly if its age is over that many days of 1440 minutes. */
  lemma StaleIff(utc: int, days: nat, e: CacheItem)
    requires 1 <= days <= 106751
    ensures Stale(utc, days)(e) <==> utc - e.time * MINUTE > days * 1440 * MINUTE
  {
    PruneExactIff(days);
    assert TooOld(utc, e.time * MINUTE, days) <==> utc - e.time * MINUTE > days * DAY;
  }

  /** The wrapped product is even, so it is not the greatest int64. */
  lemma WrapIsEven(days: nat)
    ensures ToInt64(days * DAY % TWO64) < MAX64
  {
    var q := days * DAY / TWO64;
    assert days * DAY == q * TWO64 + days * DAY % TWO64;
  }

  // ---- the index and the pruner ----

  class Cache<T> {
    var tree: Listing<T>
    const sizeOf: T -> nat
    var items: seq<CacheItem>
    var size: nat
    var count: nat
    var firstTime: int
    var lastTime: int
    var days: int

    constructor (files: Listing<T>, measure: T -> nat)
      ensures tree == files && sizeOf == measure && days == 7
    {
      tree, sizeOf := files, measure;
      items, size, count, firstTime, lastTime, days := [], 0, 0, 0, 0, 7;
    }

    /** filepath.Walk with the indexer: one entry for each file below `dir`. */
    method WalkTree(dir: Path, l: Listing<T>)
      requires size == TotalSize(items)
      modifies this`items, this`size
      ensures items == old(items) + Entries(Walk(dir, l), sizeOf)
      ensures size == TotalSize(items)
      decreases l
    {
      hide Entries, Entry, TotalSize;
      if l.Empty? {
        EntriesOfNone<T>(sizeOf);
        return;
      }
      EntriesAppend(HeadWalk(dir, l), Walk(dir, l.rest), sizeOf);
      if l.File? {
        Index(dir + [l.name], l.content);
      } else {
        WalkTree(dir + [l.name], l.kids);
      }
      WalkTree(dir, l.rest);
    }

    /** The indexer's branch for a file. */
    method Index(p: Path, content: T)
      requires size == TotalSize(items)
      modifies this`items, this`size
      ensures items == old(items) + Entries([Item(p, content)], sizeOf)
      ensures size == TotalSize(items)
    {
      ghost var before := items;
      items := items + [CacheItem(p, TimeOfPath(p), sizeOf(content))];
      assert items[..|items| - 1] == before;
      size := size + sizeOf(content);
    }

    method RefreshCache()
      modifies this`items, this`size, this`count
      ensures items == Entries(Walk([], tree), sizeOf)
      ensures forall i :: 0 <= i < |items| ==>
        var x := Walk([], tree)[i]; items[i].filename == x.path && items[i].size == sizeOf(x.content)
      ensures size == TotalSize(items) && count == |items|
    {
      hide Entries, Walk, TotalSize;
      items, size := [], 0;
      NoSize();
      WalkTree([], tree);
      EntriesTell(Walk([], tree), sizeOf);
      count := |items|;
    }

    /** The ends are the first and last entries; for an empty cache they are left from earlier. */
    method GetCacheInfo()
      modifies this`items, this`size, this`count, this`firstTime, this`lastTime
      ensures items == Entries(Walk([], tree), sizeOf)
      ensures size == TotalSize(items) && count == |items|
      ensures if count > 0 then firstTime == items[0].time && lastTime == items[count - 1].time
              else firstTime == old(firstTime) && lastTime == old(lastTime)
    {
      hide Entries, Entry, Walk, TotalSize;
      RefreshCache();
      if count > 0 {
        firstTime, lastTime := items[0].time, items[count - 1].time;
      }
    }

    /** One turn of the pruner over a fresh index; `removable` says which removals work. */
    method PrunePass(utc: int, setting: Option<string>, removable: Path -> bool) returns (removed: nat)
      requires days >= 1
      modifies this
      ensures days == Retention(old(days), setting) >= 1
      ensures items == Entries(Walk([], old(tree)), sizeOf)
      ensures tree == Pruned(old(tree), items, Goes(utc, days, removable))
      ensures removed == |Filter(Stale(utc, days), items)|
    {
      hide TooOld, Filter, Entries, TotalSize, Walk, Atoi, Pruned, Stale, Goes;
      if setting.Some? {
        days := Atoi(setting.value);
        if days < 1 { days := 7; }
      }
      RefreshCache();
      removed := RemoveStale(utc, removable);
    }

    /** The loop over the index; a removal that fails is counted all the same. */
    method RemoveStale(utc: int, removable: Path -> bool) returns (removed: nat)
      requires days >= 1
      modifies this`tree
      ensures tree == Pruned(old(tree), items, Goes(utc, days, removable))
      ensures removed == |Filter(Stale(utc, days), items)|
    {
      hide TooOld, Filter, Remove, Pruned;
      ghost var goes := Goes(utc, days, removable);
      PrunedNone(tree, goes);
      removed := 0;
      var i := 0;
      while i < |items|
        invariant 0 <= i <= |items|
        invariant tree == Pruned(old(tree), items[..i], goes)
        invariant removed == |Filter(Stale(utc, days), items[..i])|
      {
        var item := items[i];
        assert items[..i + 1] == items[..i] + [item];
        PrunedSnoc(old(tree), items[..i], item, goes);
        FilterAppend(Stale(utc, days), items[..i], [item]);
        FilterOne(Stale(utc, days), item);
        if TooOld(utc, item.time * MINUTE, days) {
          if removable(item.filename) { tree := Remove(tree, item.filename); }
          removed := removed + 1;
        }
        i := i + 1;
      }
      assert items[..i] == items;
    }
  }

  lemma EntriesTell<T>(all: seq<Item<T>>, sizeOf: T -> nat)
    ensures forall i :: 0 <= i < |all| ==>
      Entries(all, sizeOf)[i].filename == all[i].path && Entries(all, sizeOf)[i].size == sizeOf(all[i].content)
  {}

  lemma NoSize()
    ensures TotalSize([]) == 0
  {}

  lemma EntriesOfNone<T>(sizeOf: T -> nat)
    ensures Entries<T>([], sizeOf) == []
  {}

  lemma FilterOne<A>(p: A -> bool, x: A)
    ensures Filter(p, [x]) == if p(x) then [x] else []
  {
    assert Filter(p, [x]) == (if p(x) then [x] else []) + Filter(p, [x][1..]);
  }

  function Stale(utc: int, days: nat): CacheItem -> bool {
    (e: CacheItem) => TooOld(utc, e.time * MINUTE, days)
  }

  /** The entries a pass takes out: the stale ones whose removal works. */
  function Goes(utc: int, days: nat, removable: Path -> bool): CacheItem -> bool {
    (e: CacheItem) => TooOld(utc, e.time * MINUTE, days) && removable(e.filename)
  }

  /** The files a pass should leave, by the exact age of the time in their names. */
  function Recent<T>(utc: int, days: nat, removable: Path -> bool): Item<T> -> bool {
    (x: Item<T>) => utc - TimeOfPath(x.path) * MINUTE <= days * DAY || !removable(x.path)
  }

  /** The tree after removing some of the entries. */
  function Pruned<T>(l: Listing<T>, entries: seq<CacheItem>, goes: CacheItem -> bool): Listing<T> {
    if entries == [] then l
    else
      var n := |entries| - 1;
      var before := Pruned(l, entries[..n], goes);
      if goes(entries[n]) then Remove(before, entries[n].filename) else before
  }

  lemma PrunedNone<T>(l: Listing<T>, goes: CacheItem -> bool)
    ensures Pruned(l, [], goes) == l
  {}

  lemma PrunedSnoc<T>(l: Listing<T>, entries: seq<CacheItem>, e: CacheItem, goes: CacheItem -> bool)
    ensures var before := Pruned(l, entries, goes);
      Pruned(l, entries + [e], goes) == if goes(e) then Remove(before, e.filename) else before
  {
    assert (entries + [e])[..|entries|] == entries;
  }

  ghost predicate GoneAmong(entries: seq<CacheItem>, goes: CacheItem -> bool, p: Path) {
    exists k :: 0 <= k < |entries| && entries[k].filename == p && goes(entries[k])
  }

  lemma {:induction false} PrunedWalk<T>(l: Listing<T>, entries: seq<CacheItem>, goes: CacheItem -> bool)
    ensures Walk([], Pruned(l, entries, goes))
      == Filter((x: Item<T>) => !GoneAmong(entries, goes, x.path), Walk([], l))
  {
    hide Walk, Remove;
    var keep := (x: Item<T>) => !GoneAmong(entries, goes, x.path);
    if entries == [] {
      FilterAll(keep, Walk([], l));
    } else {
      var n := |entries| - 1;
      var e := entries[n];
      var keepFirst := (x: Item<T>) => !GoneAmong(entries[..n], goes, x.path);
      PrunedWalk(l, entries[..n], goes);
      forall p ensures GoneAmong(entries, goes, p)
        <==> GoneAmong(entries[..n], goes, p) || (e.filename == p && goes(e))
      {
        GoneAmongMore(entries, goes, p);
      }
      if goes(e) {
        assert [] + e.filename == e.filename;
        WalkRemove([], Pruned(l, entries[..n], goes), e.filename);
        FilterTwice(Without<T>([] + e.filename), keepFirst, keep, Walk([], l));
      } else {
        FilterSame(keepFirst, keep, Walk([], l));
      }
    }
  }

  lemma GoneAmongMore(entries: seq<CacheItem>, goes: CacheItem -> bool, p: Path)
    requires entries != []
    ensures var n := |entries| - 1;
      var last := entries[n].filename == p && goes(entries[n]);
      GoneAmong(entries, goes, p) <==> GoneAmong(entries[..n], goes, p) || last
  {
    var n := |entries| - 1;
    assert forall k :: 0 <= k < n ==> entries[..n][k] == entries[k];
    if GoneAmong(entries[..n], goes, p) {
      var k :| 0 <= k < n && entries[..n][k].filename == p && goes(entries[..n][k]);
      assert entries[k].filename == p;
    }
  }

  /** Up to 106751 days of retention a pass removes exactly the files older than that, as far as removals work. */
  lemma PruneKeepsRecent<T>(tree: Listing<T>, sizeOf: T -> nat, utc: int, days: nat, removable: Path -> bool)
    requires 1 <= days <= 106751
    ensures Walk([], Pruned(tree, Entries(Walk([], tree), sizeOf), Goes(utc, days, removable)))
      == Filter(Recent(utc, days, removable), Walk([], tree))
  {
    hide Walk, TimeOfPath;
    var items := Walk([], tree);
    var entries, goes := Entries(items, sizeOf), Goes(utc, days, removable);
    var keep := (x: Item<T>) => !GoneAmong(entries, goes, x.path);
    PrunedWalk(tree, entries, goes);
    PruneExactIff(days);
    forall i | 0 <= i < |items| ensures keep(items[i]) <==> Recent<T>(utc, days, removable)(items[i]) {
      var p := items[i].path;
      assert TooOld(utc, TimeOfPath(p) * MINUTE, days) <==> utc - TimeOfPath(p) * MINUTE > days * DAY;
      assert entries[i].filename == p;
    }
    FilterSame(keep, Recent<T>(utc, days, removable), items);
  }
}
