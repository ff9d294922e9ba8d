/** Segment files as tables: what a v1 file holds, and that a written table is held. */
module StoredTables {
  import opened Words
  import opened Points
  import opened Tables
  import opened Segment
  import opened SegmentReader
  import V1 = SegmentV1

  /** Reading the file, series by series or as a whole, yields exactly the table. */
  ghost predicate Holds(file: seq<byte>, t: Table) {
    var r := Open(file);
    && r.Ok?
    && AllOf(r.value, |r.value.index|) == Ok(t)
    && (forall id: uint64 :: Lookup(r.value, id) == Ok(if id in t then t[id] else []))
    && Ordered(t)
  }

  /** The table of a file. */
  ghost function Content(file: seq<byte>): Table {
    var r := Open(file);
    if r.Ok? && AllOf(r.value, |r.value.index|).Ok? then AllOf(r.value, |r.value.index|).value else map[]
  }

  lemma HoldsContent(file: seq<byte>, t: Table)
    requires Holds(file, t)
    ensures Content(file) == t
  {
  }

  /** The series list of a table, in any order. */
  ghost predicate Lists(list: multiset<SeriesPoints>, t: Table) {
    forall s: SeriesPoints :: list[s] == if s.id in t && t[s.id] == s.points then 1 else 0
  }

  lemma ListsExtend(list: multiset<SeriesPoints>, t: Table, id: uint64, points: seq<Point>)
    requires Lists(list, t) && id !in t
    ensures Lists(list + multiset{SeriesPoints(id, points)}, t[id := points])
  {
  }

  lemma NothingListed()
    ensures Lists(multiset([]), map[])
  {
  }

  /** One more series in the list and in the table. */
  lemma ListedMore(list: seq<SeriesPoints>, t: Table, id: uint64, points: seq<Point>)
    requires Lists(multiset(list), t) && id !in t
    ensures Lists(multiset(list + [SeriesPoints(id, points)]), t[id := points]) && |t[id := points]| == |t| + 1
  {
    hide Lists;
    ListsExtend(multiset(list), t, id, points);
    assert multiset(list + [SeriesPoints(id, points)]) == multiset(list) + multiset{SeriesPoints(id, points)};
  }

  /** The size limits of a v1 file: index fields that hold their numbers, and timestamps
      whose varints respect the reader's budget. */
  ghost predicate WellSized(list: seq<SeriesPoints>) {
    Storable(1, list) && AllFit(list)
  }

  lemma IncreasingIds(list: seq<SeriesPoints>, t: Table)
    requires SortedById(list) && Lists(multiset(list), t)
    ensures forall i, j :: 0 <= i < j < |list| ==> list[i].id < list[j].id
  {
    forall i, j | 0 <= i < j < |list|
      ensures list[i].id < list[j].id
    {
      TwiceListed(list, i, j);
      assert list[i] in multiset(list) && list[j] in multiset(list);
    }
  }

  lemma TwiceListed(list: seq<SeriesPoints>, i: nat, j: nat)
    requires i < j < |list|
    ensures list[i] == list[j] ==> multiset(list)[list[i]] >= 2
  {
    if list[i] == list[j] {
      assert list == list[..j] + [list[j]] + list[j + 1..];
      assert list[i] in list[..j];
    }
  }

  /** Without empty series nothing is skipped. */
  lemma {:induction false} AllOccupied(list: seq<SeriesPoints>)
    requires forall i :: 0 <= i < |list| ==> list[i].points != []
    ensures Occupied(list) == list
  {
    if list != [] {
      var init := list[..|list| - 1];
      AllOccupied(init);
      assert list == init + [list[|list| - 1]];
    }
  }

  lemma {:induction false} TableOfKeys(list: seq<SeriesPoints>)
    ensures forall id :: id in TableOf(list) <==> exists i :: 0 <= i < |list| && list[i].id == id
  {
    if list != [] {
      var n := |list| - 1;
      TableOfKeys(list[..n]);
      forall id
        ensures id in TableOf(list) <==> exists i :: 0 <= i < |list| && list[i].id == id
      {
        if id in TableOf(list[..n]) {
          var i :| 0 <= i < n && list[..n][i].id == id;
          assert list[i].id == id;
        } else if id == list[n].id {
          assert id in TableOf(list);
        } else {
          assert forall i :: 0 <= i < n ==> list[..n][i].id == list[i].id;
        }
      }
    }
  }

  lemma {:induction false} TableOfAt(list: seq<SeriesPoints>, k: nat)
    requires forall i, j :: 0 <= i < j < |list| ==> list[i].id < list[j].id
    requires k < |list|
    ensures list[k].id in TableOf(list) && TableOf(list)[list[k].id] == list[k].points
  {
    var n := |list| - 1;
    if k < n {
      TableOfAt(list[..n], k);
    }
  }

  /** The table of a sorted listing is the table listed. */
  lemma TableOfListing(list: seq<SeriesPoints>, t: Table)
    requires SortedById(list) && Lists(multiset(list), t)
    ensures TableOf(list) == t
  {
    IncreasingIds(list, t);
    TableOfKeys(list);
    forall id
      ensures id in TableOf(list) <==> id in t
      ensures id in t ==> TableOf(list)[id] == t[id]
    {
      if id in t {
        assert multiset(list)[SeriesPoints(id, t[id])] == 1;
        assert SeriesPoints(id, t[id]) in list;
        var k :| 0 <= k < |list| && list[k] == SeriesPoints(id, t[id]);
        TableOfAt(list, k);
      } else {
        forall k | 0 <= k < |list|
          ensures list[k].id != id
        {
          assert list[k] in multiset(list);
        }
      }
    }
  }

  /** A v1 file written from the listing of an ordered table holds that table if and only
      if every series respects the reader's budget; otherwise reading the whole file
      panics. */
  lemma HeldExactly(list: seq<SeriesPoints>, t: Table, blockStart: int64, blockEnd: int64)
    requires SortedById(list) && Lists(multiset(list), t) && Ordered(t) && Storable(1, list)
    ensures Holds(FileBytes(1, list, blockStart, blockEnd), t) <==> AllFit(list)
  {
    hide FileBytes, Open, Lookup, AllOf, SortedById, OffsetOf, AllFit, V1.FitsBudget;
    var file := FileBytes(1, list, blockStart, blockEnd);
    IncreasingIds(list, t);
    TableOfListing(list, t);
    ReadAllV1(list, blockStart, blockEnd);
    if AllFit(list) {
      forall id: uint64
        ensures Lookup(Open(file).value, id) == Ok(if id in t then t[id] else [])
      {
        LookupHeld(list, t, blockStart, blockEnd, id);
      }
    }
  }

  lemma LookupHeld(list: seq<SeriesPoints>, t: Table, blockStart: int64, blockEnd: int64, id: uint64)
    requires SortedById(list) && Lists(multiset(list), t) && Storable(1, list) && AllFit(list)
    ensures var r := Open(FileBytes(1, list, blockStart, blockEnd));
            r.Ok? && Lookup(r.value, id) == Ok(if id in t then t[id] else [])
  {
    hide FileBytes, Open, Lookup, V1.Encode, SortedById, OffsetOf;
    if id in t {
      assert multiset(list)[SeriesPoints(id, t[id])] == 1;
      assert SeriesPoints(id, t[id]) in list;
      var k :| 0 <= k < |list| && list[k] == SeriesPoints(id, t[id]);
      ReadBackV1(list, blockStart, blockEnd, k);
    } else {
      forall k | 0 <= k < |list|
        ensures list[k].id != id
      {
        assert list[k] in multiset(list);
      }
      ReadMissing(1, list, blockStart, blockEnd, id);
    }
  }

  /** In particular a file within the size limits holds its table. */
  lemma WrittenTableIsHeld(list: seq<SeriesPoints>, t: Table, blockStart: int64, blockEnd: int64)
    requires SortedById(list) && Lists(multiset(list), t) && Ordered(t) && WellSized(list)
    ensures Holds(FileBytes(1, list, blockStart, blockEnd), t)
  {
    hide Holds, FileBytes, SortedById, Lists, Ordered, Storable, AllFit;
    HeldExactly(list, t, blockStart, blockEnd);
  }

  /** Series lists that a table can produce have points everywhere. */
  lemma ListedHavePoints(list: seq<SeriesPoints>, t: Table)
    requires Lists(multiset(list), t) && Ordered(t)
    ensures forall i :: 0 <= i < |list| ==> list[i].points != []
    ensures Occupied(list) == list
    ensures forall i :: 0 <= i < |list| ==> list[i].id in t && t[list[i].id] == list[i].points
  {
    forall i | 0 <= i < |list|
      ensures list[i].points != []
      ensures list[i].id in t && t[list[i].id] == list[i].points
    {
      assert list[i] in multiset(list);
    }
    AllOccupied(list);
  }

  /** Realistic timestamps meet the budget: it is enough that they stay within 2^54 of
      zero. */
  lemma ModestTimestampsFit(points: seq<Point>)
    requires forall i :: 0 <= i < |points| ==> -0x40_0000_0000_0000 <= points[i].ts < 0x40_0000_0000_0000
    ensures V1.FitsBudget(points)
  {
    var ts := Timestamps(points);
    forall i | 0 < i < |ts|
      ensures -0x80_0000_0000_0000 <= Sub64(ts[i], ts[i - 1]) < 0x80_0000_0000_0000
    {
      WrapUnique(ts[i] as int - ts[i - 1] as int, ts[i] - ts[i - 1]);
    }
    V1.ModestDeltasFit(points);
  }
}
