/** Combining point lists for a query (internal/query/query.go): the k-way merge and the
    two binary searches of the time filter. */
module Query {
  import opened Words
  import opened Points

  // ----- what a stable merge is

  /** The points of s at time t, in their order in s. */
  function AtTime(s: seq<Point>, t: int64): seq<Point> {
    if s == [] then []
    else
      var n := |s| - 1;
      AtTime(s[..n], t) + if s[n].ts == t then [s[n]] else []
  }

  /** The points of all lists at time t, list by list. */
  function AllAtTime(lists: seq<seq<Point>>, t: int64): seq<Point> {
    if lists == [] then []
    else
      var n := |lists| - 1;
      AllAtTime(lists[..n], t) + AtTime(lists[n], t)
  }

  /** r is the stable sort of the concatenated lists: time-ordered, and points at the same
      time keep the order of their lists and their order inside a list. */
  ghost predicate StableMerge(lists: seq<seq<Point>>, r: seq<Point>) {
    Sorted(r) && forall t: int64 :: AtTime(r, t) == AllAtTime(lists, t)
  }

  /** What the code's merge returns: a stable merge below the largest timestamp, at which
      points survive only while no other list has any. */
  ghost predicate IsMerge(lists: seq<seq<Point>>, r: seq<Point>) {
    && Sorted(r)
    && (forall t: int64 :: t < MAX_INT64 ==> AtTime(r, t) == AllAtTime(lists, t))
    && AtTime(r, MAX_INT64) == if Active(lists) <= 1 then AllAtTime(lists, MAX_INT64) else []
  }

  ghost predicate AllSorted(lists: seq<seq<Point>>) {
    forall i :: 0 <= i < |lists| ==> Sorted(lists[i])
  }

  /** All points of all lists. */
  ghost function UnionOf(lists: seq<seq<Point>>): multiset<Point> {
    if lists == [] then multiset{} else UnionOf(lists[..|lists| - 1]) + multiset(lists[|lists| - 1])
  }

  lemma {:induction false} AtTimeConcat(a: seq<Point>, b: seq<Point>, t: int64)
    ensures AtTime(a + b, t) == AtTime(a, t) + AtTime(b, t)
  {
    if b == [] {
      assert a + b == a;
    } else {
      var n := |b| - 1;
      assert (a + b)[..|a| + n] == a + b[..n];
      AtTimeConcat(a, b[..n], t);
    }
  }

  lemma {:induction false} AtTimeAbsent(s: seq<Point>, t: int64)
    requires forall i :: 0 <= i < |s| ==> s[i].ts != t
    ensures AtTime(s, t) == []
  {
    if s != [] {
      AtTimeAbsent(s[..|s| - 1], t);
    }
  }

  lemma {:induction false} AtTimePresent(s: seq<Point>, t: int64, i: nat)
    requires i < |s| && s[i].ts == t
    ensures AtTime(s, t) != []
  {
    if i < |s| - 1 {
      AtTimePresent(s[..|s| - 1], t, i);
    }
  }

  /** A point occurs in s as often as among the points of s at its time. */
  lemma {:induction false} AtTimeCount(s: seq<Point>, p: Point)
    ensures multiset(AtTime(s, p.ts))[p] == multiset(s)[p]
  {
    if s != [] {
      var n := |s| - 1;
      assert s == s[..n] + [s[n]];
      AtTimeCount(s[..n], p);
    }
  }

  lemma {:induction false} AllAtTimeCount(lists: seq<seq<Point>>, p: Point)
    ensures multiset(AllAtTime(lists, p.ts))[p] == UnionOf(lists)[p]
  {
    if lists != [] {
      AllAtTimeCount(lists[..|lists| - 1], p);
      AtTimeCount(lists[|lists| - 1], p);
    }
  }

  /** A stable merge neither loses nor invents points. */
  lemma StableMergeContent(lists: seq<seq<Point>>, r: seq<Point>)
    requires StableMerge(lists, r)
    ensures multiset(r) == UnionOf(lists)
  {
    forall p: Point
      ensures multiset(r)[p] == UnionOf(lists)[p]
    {
      AtTimeCount(r, p);
      AllAtTimeCount(lists, p);
    }
  }

  /** There is only one stable merge of given lists. */
  lemma {:induction false} StableMergeUnique(a: seq<Point>, b: seq<Point>)
    requires Sorted(a) && Sorted(b)
    requires forall t: int64 :: AtTime(a, t) == AtTime(b, t)
    ensures a == b
    decreases |a|
  {
    if a == [] {
      if b != [] {
        AtTimePresent(b, b[0].ts, 0);
      }
    } else {
      var n := |a| - 1;
      AtTimePresent(a, a[n].ts, n);
      if b == [] {
        assert false;
      }
      var m := |b| - 1;
      AtTimePresent(b, b[m].ts, m);
      if a[n].ts < b[m].ts {
        AtTimeAbsent(a, b[m].ts);
        assert false;
      }
      if b[m].ts < a[n].ts {
        AtTimeAbsent(b, a[n].ts);
        assert false;
      }
      assert a[n] == AtTime(a, a[n].ts)[|AtTime(a, a[n].ts)| - 1];
      assert a[n] == b[m];
      forall t: int64
        ensures AtTime(a[..n], t) == AtTime(b[..m], t)
      {
        var x, y := AtTime(a[..n], t), AtTime(b[..m], t);
        assert AtTime(a, t) == x + if a[n].ts == t then [a[n]] else [];
        assert AtTime(b, t) == y + if b[m].ts == t then [b[m]] else [];
        if t == a[n].ts {
          assert (x + [a[n]])[..|x|] == x && (y + [b[m]])[..|y|] == y;
        } else {
          assert x + [] == x && y + [] == y;
        }
      }
      StableMergeUnique(a[..n], b[..m]);
    }
  }

  // ----- the merge loop

  /** What is left of each list. */
  function Rest(lists: seq<seq<Point>>, idx: seq<nat>): (rest: seq<seq<Point>>)
    requires |idx| == |lists| && forall i :: 0 <= i < |lists| ==> idx[i] <= |lists[i]|
    ensures |rest| == |lists|
  {
    seq(|lists|, i requires 0 <= i < |lists| => lists[i][idx[i]..])
  }

  lemma {:induction false} AllAtTimeNone(lists: seq<seq<Point>>, t: int64)
    requires forall i :: 0 <= i < |lists| ==> AtTime(lists[i], t) == []
    ensures AllAtTime(lists, t) == []
  {
    if lists != [] {
      AllAtTimeNone(lists[..|lists| - 1], t);
    }
  }

  /** Lists that differ in one place only, in what they hold at time t. */
  lemma {:induction false} AllAtTimeDiffer(a: seq<seq<Point>>, b: seq<seq<Point>>, k: nat, t: int64, x: seq<Point>)
    requires |a| == |b| && k < |a|
    requires forall i :: 0 <= i < |a| && i != k ==> AtTime(a[i], t) == AtTime(b[i], t)
    requires AtTime(a[k], t) == x + AtTime(b[k], t)
    requires x == [] || forall i :: 0 <= i < k ==> AtTime(a[i], t) == []
    ensures AllAtTime(a, t) == x + AllAtTime(b, t)
  {
    hide AtTime;
    var n := |a| - 1;
    if k < n {
      AllAtTimeDiffer(a[..n], b[..n], k, t, x);
    } else {
      AllAtTimeSame(a[..n], b[..n], t);
      if x != [] {
        AllAtTimeNone(a[..n], t);
      }
    }
  }

  lemma {:induction false} AllAtTimeSame(a: seq<seq<Point>>, b: seq<seq<Point>>, t: int64)
    requires |a| == |b| && forall i :: 0 <= i < |a| ==> AtTime(a[i], t) == AtTime(b[i], t)
    ensures AllAtTime(a, t) == AllAtTime(b, t)
  {
    if a != [] {
      AllAtTimeSame(a[..|a| - 1], b[..|b| - 1], t);
    }
  }

  /** The choice of the inner loop: the earliest head, the lowest list on ties, and nothing
      at or beyond the largest timestamp. */
  ghost predicate Best(rest: seq<seq<Point>>, k: nat) {
    && k < |rest| && rest[k] != [] && rest[k][0].ts < MAX_INT64
    && (forall i :: 0 <= i < |rest| && rest[i] != [] ==> rest[k][0].ts <= rest[i][0].ts)
    && (forall i :: 0 <= i < k && rest[i] != [] ==> rest[k][0].ts < rest[i][0].ts)
  }

  /** Taking the best head takes the first of the remaining points at its time. */
  lemma TakeBest(rest: seq<seq<Point>>, k: nat, after: seq<seq<Point>>, t: int64)
    requires AllSorted(rest) && Best(rest, k)
    requires after == rest[k := rest[k][1..]]
    ensures AllAtTime(rest, t) == AtTime([rest[k][0]], t) + AllAtTime(after, t)
  {
    var head := rest[k][0];
    assert rest[k] == [head] + rest[k][1..];
    AtTimeConcat([head], rest[k][1..], t);
    var x := AtTime([head], t);
    if head.ts == t {
      forall i | 0 <= i < k
        ensures AtTime(rest[i], t) == []
      {
        AtTimeAbsent(rest[i], t);
      }
    } else {
      AtTimeAbsent([head], t);
    }
    AllAtTimeDiffer(rest, after, k, t, x);
  }

  method FindBest(points: seq<seq<Point>>, idx: seq<nat>) returns (best: int)
    requires |idx| == |points| && forall i :: 0 <= i < |points| ==> idx[i] <= |points[i]|
    ensures -1 <= best < |points|
    ensures best >= 0 ==> Best(Rest(points, idx), best)
    ensures best == -1 ==> forall i :: 0 <= i < |points| && idx[i] < |points[i]| ==> points[i][idx[i]].ts == MAX_INT64
  {
    best := -1;
    var bestTs: int64 := MAX_INT64;
    for i := 0 to |points|
      invariant -1 <= best < i
      invariant best == -1 ==> bestTs == MAX_INT64
      invariant best >= 0 ==> idx[best] < |points[best]| && bestTs == points[best][idx[best]].ts < MAX_INT64
      invariant forall j :: 0 <= j < i && idx[j] < |points[j]| ==> bestTs <= points[j][idx[j]].ts
      invariant forall j :: 0 <= j < best && idx[j] < |points[j]| ==> bestTs < points[j][idx[j]].ts
    {
      if idx[i] < |points[i]| && points[i][idx[i]].ts < bestTs {
        bestTs := points[i][idx[i]].ts;
        best := i;
      }
    }
  }

  /** How many lists have points. */
  function Active(lists: seq<seq<Point>>): (n: nat)
    ensures n <= |lists|
  {
    if lists == [] then 0
    else Active(lists[..|lists| - 1]) + if |lists[|lists| - 1]| > 0 then 1 else 0
  }

  lemma {:induction false} InactiveEmpty(lists: seq<seq<Point>>)
    requires Active(lists) == 0
    ensures forall i :: 0 <= i < |lists| ==> lists[i] == []
  {
    if lists != [] {
      InactiveEmpty(lists[..|lists| - 1]);
      assert forall i :: 0 <= i < |lists| - 1 ==> lists[i] == lists[..|lists| - 1][i];
    }
  }

  lemma {:induction false} SingleActive(lists: seq<seq<Point>>, k: nat, t: int64)
    requires k < |lists| && |lists[k]| > 0 && Active(lists) == 1
    ensures AllAtTime(lists, t) == AtTime(lists[k], t)
  {
    var n := |lists| - 1;
    if k < n {
      assert lists[..n][k] == lists[k];
      if Active(lists[..n]) == 0 {
        InactiveEmpty(lists[..n]);
        assert false;
      }
      SingleActive(lists[..n], k, t);
    } else {
      InactiveEmpty(lists[..n]);
      AllAtTimeNone(lists[..n], t);
    }
  }

  method Merge(points: seq<seq<Point>>) returns (r: seq<Point>)
    requires AllSorted(points)
    ensures IsMerge(points, r)
  {
    var active := CountActive(points);
    if active == 0 {
      InactiveEmpty(points);
      forall t: int64
        ensures AllAtTime(points, t) == []
      {
        AllAtTimeNone(points, t);
      }
      return [];
    }
    if active == 1 {
      for i := 0 to |points|
        invariant forall j :: 0 <= j < i ==> |points[j]| == 0
      {
        if |points[i]| > 0 {
          forall t: int64
            ensures AllAtTime(points, t) == AtTime(points[i], t)
          {
            SingleActive(points, i, t);
          }
          return points[i];
        }
      }
      NoneActive(points);
      assert false;
    }
    r := MergeLoop(points);
  }

  lemma {:induction false} NoneActive(lists: seq<seq<Point>>)
    requires forall j :: 0 <= j < |lists| ==> |lists[j]| == 0
    ensures Active(lists) == 0
  {
    if lists != [] {
      NoneActive(lists[..|lists| - 1]);
    }
  }

  method CountActive(points: seq<seq<Point>>) returns (active: nat)
    ensures active == Active(points)
  {
    active := 0;
    for i := 0 to |points|
      invariant active == Active(points[..i])
    {
      assert points[..i + 1][..i] == points[..i];
      if |points[i]| > 0 {
        active := active + 1;
      }
    }
    assert points[..|points|] == points;
  }

  function Remaining(points: seq<seq<Point>>, idx: seq<nat>): nat
    requires |idx| == |points| && forall i :: 0 <= i < |points| ==> idx[i] <= |points[i]|
    decreases |points|
  {
    if points == [] then 0
    else
      var n := |points| - 1;
      Remaining(points[..n], idx[..n]) + |points[n]| - idx[n]
  }

  lemma {:induction false} RemainingDecreases(points: seq<seq<Point>>, idx: seq<nat>, k: nat)
    requires |idx| == |points| && forall i :: 0 <= i < |points| ==> idx[i] <= |points[i]|
    requires k < |points| && idx[k] < |points[k]|
    ensures Remaining(points, idx[k := idx[k] + 1]) + 1 == Remaining(points, idx)
    decreases |points|
  {
    var n := |points| - 1;
    var idx' := idx[k := idx[k] + 1];
    if k < n {
      assert idx'[..n] == idx[..n][k := idx[k] + 1];
      RemainingDecreases(points[..n], idx[..n], k);
    } else {
      assert idx'[..n] == idx[..n];
    }
  }

  method MergeLoop(points: seq<seq<Point>>) returns (result: seq<Point>)
    requires AllSorted(points)
    ensures Sorted(result)
    ensures forall t: int64 :: AtTime(result, t) == if t < MAX_INT64 then AllAtTime(points, t) else []
  {
    hide AtTime, AllAtTime, Sorted, Remaining, Best;
    var idx: seq<nat> := seq(|points|, i => 0);
    result := [];
    RestAtStart(points, idx);
    assert Merging(points, idx, result) by { MergingAtStart(points, idx); }
    while true
      invariant |idx| == |points| && forall i :: 0 <= i < |points| ==> idx[i] <= |points[i]|
      invariant Merging(points, idx, result)
      decreases Remaining(points, idx)
    {
      var best := FindBest(points, idx);
      if best == -1 {
        break;
      }
      MergingStep(points, idx, result, best);
      RemainingDecreases(points, idx, best);
      result := result + [points[best][idx[best]]];
      idx := idx[best := idx[best] + 1];
    }
    MergingDone(points, idx, result);
  }

  /** The loop invariant of the merge. */
  ghost predicate Merging(points: seq<seq<Point>>, idx: seq<nat>, result: seq<Point>)
    requires |idx| == |points| && forall i :: 0 <= i < |points| ==> idx[i] <= |points[i]|
  {
    var rest := Rest(points, idx);
    && Sorted(result)
    && AllSorted(rest)
    && (forall i, j :: 0 <= i < |result| && 0 <= j < |rest| && rest[j] != [] ==> result[i].ts <= rest[j][0].ts)
    && (forall i :: 0 <= i < |result| ==> result[i].ts < MAX_INT64)
    && (forall t: int64 :: AtTime(result, t) + AllAtTime(rest, t) == AllAtTime(points, t))
  }

  lemma RestAtStart(points: seq<seq<Point>>, idx: seq<nat>)
    requires |idx| == |points| && forall i :: 0 <= i < |points| ==> idx[i] == 0
    ensures Rest(points, idx) == points
  {
  }

  lemma MergingAtStart(points: seq<seq<Point>>, idx: seq<nat>)
    requires |idx| == |points| && forall i :: 0 <= i < |points| ==> idx[i] == 0
    requires AllSorted(points)
    ensures Merging(points, idx, [])
  {
    RestAtStart(points, idx);
    forall t: int64
      ensures AtTime([], t) + AllAtTime(points, t) == AllAtTime(points, t)
    {
    }
  }

  lemma MergingStep(points: seq<seq<Point>>, idx: seq<nat>, result: seq<Point>, k: nat)
    requires |idx| == |points| && forall i :: 0 <= i < |points| ==> idx[i] <= |points[i]|
    requires Merging(points, idx, result) && Best(Rest(points, idx), k)
    ensures idx[k] < |points[k]|
    ensures Merging(points, idx[k := idx[k] + 1], result + [points[k][idx[k]]])
  {
    hide AtTime, AllAtTime;
    var rest := Rest(points, idx);
    var idx' := idx[k := idx[k] + 1];
    var head := rest[k][0];
    var after := Rest(points, idx');
    assert after[k] == rest[k][1..];
    assert after == rest[k := rest[k][1..]];
    var result' := result + [head];
    assert Sorted(result');
    assert AllSorted(after);
    forall t: int64
      ensures AtTime(result', t) + AllAtTime(after, t) == AllAtTime(points, t)
    {
      TakeBest(rest, k, after, t);
      AtTimeConcat(result, [head], t);
    }
  }

  lemma MergingDone(points: seq<seq<Point>>, idx: seq<nat>, result: seq<Point>)
    requires |idx| == |points| && forall i :: 0 <= i < |points| ==> idx[i] <= |points[i]|
    requires Merging(points, idx, result)
    requires forall i :: 0 <= i < |points| && idx[i] < |points[i]| ==> points[i][idx[i]].ts == MAX_INT64
    ensures Sorted(result)
    ensures forall t: int64 :: AtTime(result, t) == if t < MAX_INT64 then AllAtTime(points, t) else []
  {
    hide AtTime, AllAtTime;
    var rest := Rest(points, idx);
    forall t: int64
      ensures AtTime(result, t) == if t < MAX_INT64 then AllAtTime(points, t) else []
    {
      if t < MAX_INT64 {
        forall i | 0 <= i < |rest|
          ensures AtTime(rest[i], t) == []
        {
          assert rest[i] != [] ==> rest[i][0].ts == MAX_INT64;
          AtTimeAbsent(rest[i], t);
        }
        AllAtTimeNone(rest, t);
        assert AtTime(result, t) + [] == AtTime(result, t);
      } else {
        AtTimeAbsent(result, t);
      }
    }
  }

  lemma MergeSorted(lists: seq<seq<Point>>, r: seq<Point>)
    requires IsMerge(lists, r)
    ensures Sorted(r)
  {
    hide Sorted, AtTime, AllAtTime;
  }

  /** The merge is the stable merge if and only if at most one list has points or no point
      stands at the largest timestamp, which the loop takes for its end marker. */
  lemma MergeStableExactly(lists: seq<seq<Point>>, r: seq<Point>)
    requires IsMerge(lists, r)
    ensures StableMerge(lists, r) <==> Active(lists) <= 1 || AllAtTime(lists, MAX_INT64) == []
  {
    hide AtTime, AllAtTime;
    if Active(lists) <= 1 || AllAtTime(lists, MAX_INT64) == [] {
      forall t: int64
        ensures AtTime(r, t) == AllAtTime(lists, t)
      {
      }
    }
  }

  // ----- the time filter

  /** The plain filter: every point inside [start, end], in order. */
  function Within(points: seq<Point>, start: int, end: int): seq<Point> {
    if points == [] then []
    else
      var n := |points| - 1;
      Within(points[..n], start, end) + if start <= points[n].ts <= end then [points[n]] else []
  }

  /** sort.Search: the result separates false from true at its own boundary, whatever the
      predicate. */
  method Search(n: nat, f: nat --> bool) returns (i: nat)
    requires forall k :: 0 <= k < n ==> f.requires(k)
    ensures i <= n && (i < n ==> f(i)) && (i > 0 ==> !f(i - 1))
  {
    i := 0;
    var j := n;
    while i < j
      invariant 0 <= i <= j <= n
      invariant (j < n ==> f(j)) && (i > 0 ==> !f(i - 1))
    {
      var h := (i + j) / 2;
      if !f(h) {
        i := h + 1;
      } else {
        j := h;
      }
    }
  }

  method Filter(points: seq<Point>, start: int64, end: int64) returns (out: seq<Point>)
    requires Sorted(points)
    ensures out == Within(points, start, end)
  {
    hide Within;
    if |points| == 0 {
      WithinOutside(points, start, end);
      return [];
    }
    var first := Search(|points|, i requires 0 <= i < |points| => points[i].ts >= start);
    var last := Search(|points|, i requires 0 <= i < |points| => points[i].ts > end);
    assert forall i :: 0 <= i < first ==> points[i].ts < start;
    assert forall i :: first <= i < |points| ==> points[i].ts >= start;
    assert forall i :: 0 <= i < last ==> points[i].ts <= end;
    assert forall i :: last <= i < |points| ==> points[i].ts > end;
    if first >= last {
      WithinOutside(points, start, end);
      return [];
    }
    out := points[first..last];
    WithinSlice(points, first, last, start, end);
  }

  lemma WithinSlice(points: seq<Point>, first: nat, last: nat, start: int, end: int)
    requires first <= last <= |points|
    requires forall i :: 0 <= i < |points| ==> (start <= points[i].ts <= end <==> first <= i < last)
    ensures Within(points, start, end) == points[first..last]
  {
    hide Within;
    var a, out, b := points[..first], points[first..last], points[last..];
    assert points == a + out + b;
    WithinConcat(a + out, b, start, end);
    WithinConcat(a, out, start, end);
    WithinOutside(a, start, end);
    WithinOutside(b, start, end);
    WithinInside(out, start, end);
  }

  lemma {:induction false} WithinConcat(a: seq<Point>, b: seq<Point>, start: int, end: int)
    ensures Within(a + b, start, end) == Within(a, start, end) + Within(b, start, end)
  {
    if b == [] {
      assert a + b == a;
    } else {
      var n := |b| - 1;
      assert (a + b)[..|a| + n] == a + b[..n];
      WithinConcat(a, b[..n], start, end);
    }
  }

  lemma {:induction false} WithinOutside(points: seq<Point>, start: int, end: int)
    requires forall i :: 0 <= i < |points| ==> !(start <= points[i].ts <= end)
    ensures Within(points, start, end) == []
  {
    if points != [] {
      WithinOutside(points[..|points| - 1], start, end);
    }
  }

  lemma {:induction false} WithinInside(points: seq<Point>, start: int, end: int)
    requires forall i :: 0 <= i < |points| ==> start <= points[i].ts <= end
    ensures Within(points, start, end) == points
  {
    if points != [] {
      var n := |points| - 1;
      var init := points[..n];
      assert points == init + [points[n]];
      WithinInside(init, start, end);
    }
  }

  /** The filter keeps order and exactly the multiplicities of the points in range. */
  lemma {:induction false} WithinContent(points: seq<Point>, start: int, end: int, p: Point)
    ensures multiset(Within(points, start, end))[p] == if start <= p.ts <= end then multiset(points)[p] else 0
  {
    if points != [] {
      var n := |points| - 1;
      assert points == points[..n] + [points[n]];
      WithinContent(points[..n], start, end, p);
    }
  }

  lemma {:induction false} WithinSorted(points: seq<Point>, start: int, end: int)
    requires Sorted(points)
    ensures Sorted(Within(points, start, end))
    ensures forall p :: p in Within(points, start, end) ==> p in points
  {
    if points != [] {
      var n := |points| - 1;
      WithinSorted(points[..n], start, end);
      var init := Within(points[..n], start, end);
      assert forall p :: p in init ==> p.ts <= points[n].ts;
    }
  }
}
