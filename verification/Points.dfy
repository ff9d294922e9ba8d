/** Time-series points and the vocabulary shared by the store: timestamp order,
    per-series tables and multisets of points. */
module Points {
  import opened Words

  /** A float64 value is carried as its 64-bit pattern. */
  datatype Point = Point(ts: int64, val: uint64)

  function Timestamps(points: seq<Point>): (ts: seq<int64>)
    ensures |ts| == |points| && forall i :: 0 <= i < |points| ==> ts[i] == points[i].ts
  {
    seq(|points|, i requires 0 <= i < |points| => points[i].ts)
  }

  function Values(points: seq<Point>): (vs: seq<uint64>)
    ensures |vs| == |points| && forall i :: 0 <= i < |points| ==> vs[i] == points[i].val
  {
    seq(|points|, i requires 0 <= i < |points| => points[i].val)
  }

  /** Timestamps and values of equal number, paired up again. */
  function Zip(ts: seq<int64>, vs: seq<uint64>): (points: seq<Point>)
    requires |ts| == |vs|
    ensures |points| == |ts|
  {
    seq(|ts|, i requires 0 <= i < |ts| => Point(ts[i], vs[i]))
  }

  lemma ZipColumns(points: seq<Point>)
    ensures Zip(Timestamps(points), Values(points)) == points
  {
  }

  lemma ZipInjective(ts: seq<int64>, vs: seq<uint64>, points: seq<Point>)
    requires |ts| == |vs| && Zip(ts, vs) == points
    ensures ts == Timestamps(points) && vs == Values(points)
  {
  }

  ghost predicate Sorted(s: seq<Point>) {
    forall i, j :: 0 <= i < j < |s| ==> s[i].ts <= s[j].ts
  }

  lemma SortedConcat(a: seq<Point>, b: seq<Point>)
    requires Sorted(a) && Sorted(b)
    requires a == [] || b == [] || a[|a| - 1].ts <= b[0].ts
    ensures Sorted(a + b)
  {
  }

  lemma SortedInsert(r: seq<Point>, k: nat, p: Point)
    requires Sorted(r) && k <= |r|
    requires forall i :: 0 <= i < k ==> r[i].ts < p.ts
    requires k < |r| ==> p.ts <= r[k].ts
    ensures Sorted(r[..k] + [p] + r[k..])
  {
    var a, b := r[..k], r[k..];
    hide Sorted;
    SortedSlice(r, k);
    SortedConcat(a, [p]);
    SortedConcat(a + [p], b);
  }

  lemma MultisetInsert<T>(r: seq<T>, k: nat, p: T)
    requires k <= |r|
    ensures multiset(r[..k] + [p] + r[k..]) == multiset(r) + multiset{p}
  {
    assert r == r[..k] + r[k..];
  }

  lemma SortedSlice(r: seq<Point>, k: nat)
    requires Sorted(r) && k <= |r|
    ensures Sorted(r[..k]) && Sorted(r[k..])
    ensures forall p: Point :: Sorted([p])
  {
  }

  method InsertSorted(r: seq<Point>, p: Point) returns (out: seq<Point>)
    requires Sorted(r)
    ensures Sorted(out) && multiset(out) == multiset(r) + multiset{p}
  {
    var k := 0;
    while k < |r| && r[k].ts < p.ts
      invariant 0 <= k <= |r|
      invariant forall i :: 0 <= i < k ==> r[i].ts < p.ts
    {
      k := k + 1;
    }
    SortedInsert(r, k, p);
    MultisetInsert(r, k, p);
    out := r[..k] + [p] + r[k..];
  }

  /** sort.Slice on timestamps: sorted, a permutation, and nothing promised about ties. */
  method SortByTimestamp(s: seq<Point>) returns (r: seq<Point>)
    ensures Sorted(r) && multiset(r) == multiset(s)
  {
    r := [];
    for n := 0 to |s|
      invariant Sorted(r) && multiset(r) == multiset(s[..n])
    {
      assert s[..n + 1] == s[..n] + [s[n]];
      r := InsertSorted(r, s[n]);
    }
    assert s[..|s|] == s;
  }
}
