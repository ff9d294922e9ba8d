/** The inverted tag index (internal/index/index.go). */
module Index {
  import opened Words

  /** One call of Insert. */
  datatype Registration = Registration(id: uint64, metric: string, tags: map<string, string>)

  function TagKey(k: string, v: string): string {
    k + "=" + v
  }

  /** The joined strings of some of the tags. */
  ghost function Joined(tags: map<string, string>, keys: set<string>): set<string> {
    set k | k in keys && k in tags :: TagKey(k, tags[k])
  }

  /** The registration carries a tag whose key and value join to the given string. */
  ghost predicate Carries(r: Registration, key: string) {
    key in Joined(r.tags, r.tags.Keys)
  }

  /** The IDs registered under a metric. */
  ghost function IdsOf(history: seq<Registration>, metric: string): set<uint64> {
    if history == [] then {}
    else
      var n := |history| - 1;
      IdsOf(history[..n], metric) + if history[n].metric == metric then {history[n].id} else {}
  }

  /** The IDs registered under a metric with a tag that joins to key. */
  ghost function TagIds(history: seq<Registration>, metric: string, key: string): set<uint64> {
    if history == [] then {}
    else
      var n := |history| - 1;
      TagIds(history[..n], metric, key)
      + if history[n].metric == metric && Carries(history[n], key) then {history[n].id} else {}
  }

  /** The IDs that satisfy every filter of the index. */
  ghost function Matching(history: seq<Registration>, metric: string, filters: map<string, string>): set<uint64> {
    set id | id in IdsOf(history, metric)
             && forall k :: k in filters ==> id in TagIds(history, metric, TagKey(k, filters[k]))
  }

  lemma {:induction false} TagIdsAmongIds(history: seq<Registration>, metric: string, key: string)
    ensures TagIds(history, metric, key) <= IdsOf(history, metric)
  {
    if history != [] {
      TagIdsAmongIds(history[..|history| - 1], metric, key);
    }
  }

  ghost predicate StrictlyIncreasing(s: seq<uint64>) {
    forall i, j :: 0 <= i < j < |s| ==> s[i] < s[j]
  }

  type TagMap = map<string, map<string, set<uint64>>>

  /** What a tag index holds under a metric and a joined tag. */
  ghost function TagSet(tagIndex: TagMap, metric: string, key: string): set<uint64> {
    if metric in tagIndex && key in tagIndex[metric] then tagIndex[metric][key] else {}
  }

  /** The tag index of a history in which one more ID has been entered under some joined
      tags of one metric. */
  ghost predicate TagsHold(tagIndex: TagMap, history: seq<Registration>, metric: string, id: uint64,
                           keys: set<string>) {
    && (forall m, key :: TagSet(tagIndex, m, key) ==
                         TagIds(history, m, key) + (if m == metric && key in keys then {id} else {}))
    && (forall m, key :: m in tagIndex && key in tagIndex[m] ==> tagIndex[m][key] != {})
  }

  lemma EnterTag(tagIndex: TagMap, history: seq<Registration>, metric: string, id: uint64, keys: set<string>,
                 key: string)
    requires TagsHold(tagIndex, history, metric, id, keys)
    ensures var byKey := if metric in tagIndex then tagIndex[metric] else map[];
            var s := if key in byKey then byKey[key] else {};
            TagsHold(tagIndex[metric := byKey[key := s + {id}]], history, metric, id, keys + {key})
  {
    hide TagIds;
    var byKey := if metric in tagIndex then tagIndex[metric] else map[];
    var s := if key in byKey then byKey[key] else {};
    var after := tagIndex[metric := byKey[key := s + {id}]];
    forall m, x
      ensures TagSet(after, m, x) == TagIds(history, m, x) + (if m == metric && x in keys + {key} then {id} else {})
    {
      assert TagSet(tagIndex, m, x) == TagIds(history, m, x) + (if m == metric && x in keys then {id} else {});
    }
  }

  lemma TagsEntered(tagIndex: TagMap, history: seq<Registration>, r: Registration)
    requires TagsHold(tagIndex, history, r.metric, r.id, Joined(r.tags, r.tags.Keys))
    ensures TagsHold(tagIndex, history + [r], r.metric, r.id, {})
  {
    assert (history + [r])[..|history|] == history;
    forall m, x
      ensures TagSet(tagIndex, m, x) == TagIds(history + [r], m, x) + {}
    {
      assert TagSet(tagIndex, m, x) ==
             TagIds(history, m, x) + (if m == r.metric && x in Joined(r.tags, r.tags.Keys) then {r.id} else {});
    }
  }

  lemma JoinOneMore(tags: map<string, string>, keys: set<string>, k: string)
    requires k in tags
    ensures Joined(tags, keys + {k}) == Joined(tags, keys) + {TagKey(k, tags[k])}
  {
  }

  /** The metric's IDs of a history. */
  ghost predicate MetricsHold(metricSeries: map<string, set<uint64>>, history: seq<Registration>) {
    && (forall m :: m in metricSeries <==> IdsOf(history, m) != {})
    && (forall m :: m in metricSeries ==> metricSeries[m] == IdsOf(history, m))
  }

  lemma MetricEntered(metricSeries: map<string, set<uint64>>, history: seq<Registration>, r: Registration)
    requires MetricsHold(metricSeries, history)
    ensures var ids := if r.metric in metricSeries then metricSeries[r.metric] else {};
            MetricsHold(metricSeries[r.metric := ids + {r.id}], history + [r])
  {
    assert (history + [r])[..|history|] == history;
  }

  /** The IDs that satisfy the filters under some of the keys. */
  ghost function MatchingKeys(history: seq<Registration>, metric: string, filters: map<string, string>,
                              keys: set<string>): set<uint64> {
    set id | id in IdsOf(history, metric)
             && forall k :: k in keys && k in filters ==> id in TagIds(history, metric, TagKey(k, filters[k]))
  }

  lemma MatchFirst(history: seq<Registration>, metric: string, filters: map<string, string>, k: string)
    requires k in filters
    ensures MatchingKeys(history, metric, filters, {k}) == TagIds(history, metric, TagKey(k, filters[k]))
  {
    TagIdsAmongIds(history, metric, TagKey(k, filters[k]));
  }

  lemma MatchOneMore(history: seq<Registration>, metric: string, filters: map<string, string>, keys: set<string>,
                     k: string)
    requires k in filters
    ensures MatchingKeys(history, metric, filters, keys + {k}) ==
            set id | id in MatchingKeys(history, metric, filters, keys)
                     && id in TagIds(history, metric, TagKey(k, filters[k]))
  {
    hide TagIds, IdsOf;
  }

  lemma MatchNone(history: seq<Registration>, metric: string, filters: map<string, string>, k: string)
    requires k in filters && TagIds(history, metric, TagKey(k, filters[k])) == {}
    ensures Matching(history, metric, filters) == {}
  {
  }

  class Index {
    var metricSeries: map<string, set<uint64>>
    var tagIndex: TagMap
    ghost var history: seq<Registration>

    ghost predicate Valid()
      reads this
    {
      MetricsHold(metricSeries, history) && TagsHold(tagIndex, history, "", 0, {})
    }

    constructor ()
      ensures Valid() && history == []
    {
      metricSeries, tagIndex, history := map[], map[], [];
    }

    method Insert(id: uint64, metric: string, tags: map<string, string>)
      requires Valid()
      modifies this
      ensures Valid() && history == old(history) + [Registration(id, metric, tags)]
    {
      hide MetricsHold, TagKey, Joined;
      ghost var r := Registration(id, metric, tags);
      MetricEntered(metricSeries, history, r);
      var ids := if metric in metricSeries then metricSeries[metric] else {};
      metricSeries := metricSeries[metric := ids + {id}];
      NoneJoined(tags);
      assert TagsHold(tagIndex, history, metric, id, Joined(tags, {}));
      hide TagsHold;
      var keys := tags.Keys;
      assert tags.Keys - keys == {};
      while keys != {}
        invariant keys <= tags.Keys && history == old(history)
        invariant MetricsHold(metricSeries, history + [r])
        invariant TagsHold(tagIndex, history, metric, id, Joined(tags, tags.Keys - keys))
        decreases keys
      {
        var k :| k in keys;
        var byKey := if metric in tagIndex then tagIndex[metric] else map[];
        var tagKey := TagKey(k, tags[k]);
        var s := if tagKey in byKey then byKey[tagKey] else {};
        EnterTag(tagIndex, history, metric, id, Joined(tags, tags.Keys - keys), tagKey);
        JoinOneMore(tags, tags.Keys - keys, k);
        tagIndex := tagIndex[metric := byKey[tagKey := s + {id}]];
        assert tags.Keys - keys + {k} == tags.Keys - (keys - {k});
        keys := keys - {k};
      }
      assert tags.Keys - keys == tags.Keys;
      TagsEntered(tagIndex, history, r);
      history := history + [r];
      AnyTagsHold(tagIndex, history, metric, id);
    }

    /** Every order of visiting the filters gives the same strictly increasing list. */
    method Resolve(metric: string, filters: map<string, string>) returns (out: seq<uint64>)
      requires Valid()
      ensures StrictlyIncreasing(out)
      ensures (set id | id in out) == Matching(history, metric, filters)
    {
      hide TagIds, IdsOf, TagKey, MatchingKeys, StrictlyIncreasing;
      if metric !in metricSeries {
        assert Matching(history, metric, filters) == {};
        out := Sort({});
        return;
      }
      if |filters| == 0 {
        out := Sort(metricSeries[metric]);
        return;
      }
      hide Matching;
      var result: set<uint64> := {};
      var first := true;
      var keys := filters.Keys;
      while keys != {}
        invariant keys <= filters.Keys && (first <==> keys == filters.Keys)
        invariant !first ==> result == MatchingKeys(history, metric, filters, filters.Keys - keys)
        decreases keys
      {
        var k :| k in keys;
        var tagKey := TagKey(k, filters[k]);
        assert TagSet(tagIndex, metric, tagKey) == TagIds(history, metric, tagKey) + {};
        if metric !in tagIndex || tagKey !in tagIndex[metric] {
          MatchNone(history, metric, filters, k);
          out := Sort({});
          return;
        }
        var s := tagIndex[metric][tagKey];
        if first {
          MatchFirst(history, metric, filters, k);
          assert filters.Keys - (keys - {k}) == {k};
          result, first := s, false;
        } else {
          MatchOneMore(history, metric, filters, filters.Keys - keys, k);
          assert filters.Keys - (keys - {k}) == filters.Keys - keys + {k};
          result := set id | id in result && id in s;
        }
        keys := keys - {k};
      }
      assert filters.Keys - keys == filters.Keys;
      MatchAll(history, metric, filters);
      out := Sort(result);
    }
  }

  lemma NoneJoined(tags: map<string, string>)
    ensures Joined(tags, {}) == {}
  {
  }

  lemma AnyTagsHold(tagIndex: TagMap, history: seq<Registration>, metric: string, id: uint64)
    requires TagsHold(tagIndex, history, metric, id, {})
    ensures TagsHold(tagIndex, history, "", 0, {})
  {
    hide TagIds;
  }

  lemma MatchAll(history: seq<Registration>, metric: string, filters: map<string, string>)
    ensures MatchingKeys(history, metric, filters, filters.Keys) == Matching(history, metric, filters)
  {
    hide TagIds, IdsOf;
  }

  /** Collecting a set and sorting it. */
  method Sort(ids: set<uint64>) returns (out: seq<uint64>)
    ensures StrictlyIncreasing(out) && (set id | id in out) == ids
  {
    out := [];
    var left := ids;
    while left != {}
      invariant left <= ids && StrictlyIncreasing(out) && (set id | id in out) == ids - left
      decreases left
    {
      var id :| id in left;
      out := InsertId(out, id);
      assert ids - left + {id} == ids - (left - {id});
      left := left - {id};
    }
  }

  method InsertId(s: seq<uint64>, id: uint64) returns (out: seq<uint64>)
    requires StrictlyIncreasing(s) && id !in s
    ensures StrictlyIncreasing(out) && (set x | x in out) == (set x | x in s) + {id}
  {
    var k := 0;
    while k < |s| && s[k] < id
      invariant 0 <= k <= |s| && forall i :: 0 <= i < k ==> s[i] < id
    {
      k := k + 1;
    }
    out := s[..k] + [id] + s[k..];
    ElementsInsert(s, k, id);
  }

  lemma ElementsInsert(s: seq<uint64>, k: nat, id: uint64)
    requires k <= |s|
    ensures (set x | x in s[..k] + [id] + s[k..]) == (set x | x in s) + {id}
  {
    assert s == s[..k] + s[k..];
  }

  // ----- agreement with brute force

  /** An increasing list is determined by its elements: Resolve has one possible answer. */
  lemma {:induction false} IncreasingUnique(a: seq<uint64>, b: seq<uint64>)
    requires StrictlyIncreasing(a) && StrictlyIncreasing(b)
    requires forall x :: x in a <==> x in b
    ensures a == b
    decreases |a|
  {
    assert b != [] ==> b[0] in b;
    if a != [] {
      assert a[0] in b;
      var i :| 0 <= i < |b| && b[i] == a[0];
      var j :| 0 <= j < |a| && a[j] == b[0];
      assert a[0] == b[0];
      var a', b' := a[1..], b[1..];
      forall x
        ensures x in a' <==> x in b'
      {
        assert x in a <==> x == a[0] || x in a';
        assert x in b <==> x == b[0] || x in b';
        assert a[0] !in a' && b[0] !in b';
      }
      IncreasingUnique(a', b');
    }
  }

  predicate NoEquals(k: string) {
    '=' !in k
  }

  /** Without '=' in the keys the joined string splits in one way only. */
  lemma TagKeyInjective(k: string, v: string, k': string, v': string)
    requires NoEquals(k) && NoEquals(k') && TagKey(k, v) == TagKey(k', v')
    ensures k == k' && v == v'
  {
    LongerKeyHasEquals(k, v, k', v');
    LongerKeyHasEquals(k', v', k, v);
    var s := TagKey(k, v);
    assert k == s[..|k|] && k' == s[..|k'|];
    assert v == s[|k| + 1..] && v' == s[|k'| + 1..];
  }

  lemma LongerKeyHasEquals(k: string, v: string, k': string, v': string)
    requires TagKey(k, v) == TagKey(k', v')
    ensures |k| < |k'| ==> '=' in k'
  {
    if |k| < |k'| {
      assert TagKey(k, v)[|k|] == '=';
      assert TagKey(k', v')[|k|] == k'[|k|];
    }
  }

  /** Some registration of the ID under the metric has exactly this tag. */
  ghost predicate Registered(history: seq<Registration>, id: uint64, metric: string, k: string, v: string) {
    exists i :: 0 <= i < |history| && history[i].id == id && history[i].metric == metric
                && k in history[i].tags && history[i].tags[k] == v
  }

  ghost predicate PlainKeys(history: seq<Registration>) {
    forall i, k :: 0 <= i < |history| && k in history[i].tags ==> NoEquals(k)
  }

  /** No tag of the history joins to the string of (k, v) but (k, v) itself. */
  ghost predicate Unambiguous(history: seq<Registration>, k: string, v: string) {
    forall i, k' :: 0 <= i < |history| && k' in history[i].tags && TagKey(k', history[i].tags[k']) == TagKey(k, v) ==>
      k' == k && history[i].tags[k'] == v
  }

  /** What no other tag is confused with is looked up exactly. */
  lemma {:induction false} TagIdsUnambiguous(history: seq<Registration>, metric: string, k: string, v: string,
      id: uint64)
    requires Unambiguous(history, k, v)
    ensures id in TagIds(history, metric, TagKey(k, v)) <==> Registered(history, id, metric, k, v)
  {
    if history != [] {
      var n := |history| - 1;
      var init, last := history[..n], history[n];
      assert forall j :: 0 <= j < n ==> init[j] == history[j];
      TagIdsUnambiguous(init, metric, k, v, id);
      var carries := last.id == id && last.metric == metric && k in last.tags && last.tags[k] == v;
      RegisteredLast(history, id, metric, k, v);
      if last.id == id && last.metric == metric && Carries(last, TagKey(k, v)) {
        var k' :| k' in last.tags && TagKey(k', last.tags[k']) == TagKey(k, v);
        assert k' == k && last.tags[k'] == v;
        assert carries;
      }
      if carries {
        assert TagKey(k, last.tags[k]) in Joined(last.tags, last.tags.Keys);
      }
    }
  }

  /** With plain keys a joined lookup finds the IDs registered with that very tag. */
  lemma TagIdsExactly(history: seq<Registration>, metric: string, k: string, v: string, id: uint64)
    requires PlainKeys(history) && NoEquals(k)
    ensures id in TagIds(history, metric, TagKey(k, v)) <==> Registered(history, id, metric, k, v)
  {
    forall i, k' | 0 <= i < |history| && k' in history[i].tags && TagKey(k', history[i].tags[k']) == TagKey(k, v)
      ensures k' == k && history[i].tags[k'] == v
    {
      TagKeyInjective(k', history[i].tags[k'], k, v);
    }
    TagIdsUnambiguous(history, metric, k, v, id);
  }

  /** Without any '=' in the tag, its joined string has one, and splits nowhere else. */
  lemma TagKeyUnique(k: string, v: string, k': string, v': string)
    requires NoEquals(k) && NoEquals(v) && TagKey(k, v) == TagKey(k', v')
    ensures k == k' && v == v'
  {
    var s := TagKey(k, v);
    LongerKeyHasEquals(k', v', k, v);
    ShorterValueHasEquals(k, v, k', v');
    assert k == s[..|k|] && k' == s[..|k'|];
    assert v == s[|k| + 1..] && v' == s[|k'| + 1..];
  }

  lemma ShorterValueHasEquals(k: string, v: string, k': string, v': string)
    requires TagKey(k, v) == TagKey(k', v')
    ensures |k| < |k'| ==> '=' in v
  {
    if |k| < |k'| {
      assert TagKey(k', v')[|k'|] == '=';
      assert TagKey(k, v)[|k'|] == v[|k'| - |k| - 1];
    }
  }

  lemma SplitAtEquals(s: string) returns (a: string, b: string)
    requires '=' in s
    ensures s == a + "=" + b && NoEquals(a)
  {
    if s[0] == '=' {
      a, b := "", s[1..];
    } else {
      var a';
      a', b := SplitAtEquals(s[1..]);
      a := [s[0]] + a';
      assert s == [s[0]] + s[1..];
    }
  }

  /** Another tag with the same joined string, under a plain key if it is the key that has
      the '='. */
  lemma ConfusedTag(k: string, v: string) returns (k': string, v': string)
    requires !(NoEquals(k) && NoEquals(v))
    ensures k' != k && TagKey(k', v') == TagKey(k, v)
    ensures !NoEquals(k) ==> NoEquals(k')
  {
    if !NoEquals(k) {
      var a, b := SplitAtEquals(k);
      k', v' := a, b + "=" + v;
      assert TagKey(k', v') == a + "=" + b + "=" + v;
    } else {
      var a, b := SplitAtEquals(v);
      k', v' := k + "=" + a, b;
      assert TagKey(k', v') == k + "=" + (a + "=" + b);
      assert |k'| > |k|;
    }
  }

  /** Registering the other tag alone makes the lookup find what was never registered. */
  lemma ConfusedHistory(id: uint64, metric: string, k: string, v: string) returns (history: seq<Registration>)
    requires !(NoEquals(k) && NoEquals(v))
    ensures id in TagIds(history, metric, TagKey(k, v)) && !Registered(history, id, metric, k, v)
    ensures !NoEquals(k) ==> PlainKeys(history)
  {
    var k', v' := ConfusedTag(k, v);
    var r := Registration(id, metric, map[k' := v']);
    history := [r];
    assert history[..0] == [];
    assert k' in r.tags && TagKey(k', r.tags[k']) == TagKey(k, v);
    assert Carries(r, TagKey(k, v));
  }

  /** The lookup of one tag agrees with brute force. */
  ghost predicate Agrees(history: seq<Registration>, metric: string, k: string, v: string, id: uint64) {
    id in TagIds(history, metric, TagKey(k, v)) <==> Registered(history, id, metric, k, v)
  }

  /** Looking up a tag is right for every history if and only if neither its key nor its
      value has a '='. */
  lemma LookupExactly(k: string, v: string)
    ensures (forall history, metric, id :: Agrees(history, metric, k, v, id)) <==> NoEquals(k) && NoEquals(v)
  {
    if NoEquals(k) && NoEquals(v) {
      forall history: seq<Registration>, metric: string, id: uint64
        ensures Agrees(history, metric, k, v, id)
      {
        forall i, k' | 0 <= i < |history| && k' in history[i].tags && TagKey(k', history[i].tags[k']) == TagKey(k, v)
          ensures k' == k && history[i].tags[k'] == v
        {
          TagKeyUnique(k, v, k', history[i].tags[k']);
        }
        TagIdsUnambiguous(history, metric, k, v, id);
      }
    } else {
      var history := ConfusedHistory(0, "", k, v);
      assert !Agrees(history, "", k, v, 0);
    }
  }

  /** When all registered keys are plain, a '=' in the value does no harm: the lookup is
      right for every such history if and only if the filter's key has none. */
  lemma PlainLookupExactly(k: string, v: string)
    ensures (forall history, metric, id :: PlainKeys(history) ==> Agrees(history, metric, k, v, id)) <==> NoEquals(k)
  {
    if NoEquals(k) {
      forall history: seq<Registration>, metric: string, id: uint64 | PlainKeys(history)
        ensures Agrees(history, metric, k, v, id)
      {
        TagIdsExactly(history, metric, k, v, id);
      }
    } else {
      var history := ConfusedHistory(0, "", k, v);
      assert PlainKeys(history) && !Agrees(history, "", k, v, 0);
    }
  }

  lemma RegisteredLast(history: seq<Registration>, id: uint64, metric: string, k: string, v: string)
    requires history != []
    ensures var n := |history| - 1;
            Registered(history, id, metric, k, v) <==>
            Registered(history[..n], id, metric, k, v)
            || (history[n].id == id && history[n].metric == metric && k in history[n].tags && history[n].tags[k] == v)
  {
    var n := |history| - 1;
    var init := history[..n];
    if Registered(init, id, metric, k, v) {
      var i :| 0 <= i < n && init[i].id == id && init[i].metric == metric && k in init[i].tags && init[i].tags[k] == v;
      assert history[i] == init[i];
    }
    if Registered(history, id, metric, k, v) {
      var i :| 0 <= i < |history| && history[i].id == id && history[i].metric == metric
               && k in history[i].tags && history[i].tags[k] == v;
      assert i < n ==> init[i] == history[i];
    }
  }

  /** The ID has the metric, and each filter pair was registered for it under the metric. */
  ghost predicate BruteForce(history: seq<Registration>, metric: string, filters: map<string, string>, id: uint64) {
    id in IdsOf(history, metric) && forall k :: k in filters ==> Registered(history, id, metric, k, filters[k])
  }

  /** Resolve, as brute force would: when no filter can be confused, an ID of the metric
      matches if and only if each filter pair was registered for it. */
  lemma MatchingIsBruteForce(history: seq<Registration>, metric: string, filters: map<string, string>, id: uint64)
    requires forall k :: k in filters ==> NoEquals(k) && (PlainKeys(history) || NoEquals(filters[k]))
    ensures id in Matching(history, metric, filters) <==> BruteForce(history, metric, filters, id)
  {
    forall k | k in filters
      ensures id in TagIds(history, metric, TagKey(k, filters[k])) <==> Registered(history, id, metric, k, filters[k])
    {
      if PlainKeys(history) {
        TagIdsExactly(history, metric, k, filters[k], id);
      } else {
        LookupExactly(k, filters[k]);
        assert Agrees(history, metric, k, filters[k], id);
      }
    }
  }

  /** Any filter with a '=' can be confused, whatever the others are. */
  lemma ConfusedFilter(metric: string, filters: map<string, string>, k: string, id: uint64)
    returns (history: seq<Registration>)
    requires k in filters && !(NoEquals(k) && NoEquals(filters[k]))
    ensures id in Matching(history, metric, filters) && !BruteForce(history, metric, filters, id)
  {
    hide TagKey;
    var k', v' := ConfusedTag(k, filters[k]);
    var others, other := Registration(id, metric, filters - {k}), Registration(id, metric, map[k' := v']);
    history := [others, other];
    TwoRegistrations(others, other, metric);
    assert id in IdsOf(history, metric);
    forall j | j in filters
      ensures id in TagIds(history, metric, TagKey(j, filters[j]))
    {
      if j == k {
        assert k' in other.tags && TagKey(k', other.tags[k']) == TagKey(k, filters[k]);
        assert Carries(other, TagKey(j, filters[j]));
      } else {
        assert j in others.tags && others.tags[j] == filters[j];
        assert Carries(others, TagKey(j, filters[j]));
      }
    }
    assert !Registered(history, id, metric, k, filters[k]);
  }

  lemma TwoRegistrations(a: Registration, b: Registration, metric: string)
    requires a.metric == b.metric == metric
    ensures a.id in IdsOf([a, b], metric)
    ensures forall key :: Carries(a, key) ==> a.id in TagIds([a, b], metric, key)
    ensures forall key :: Carries(b, key) ==> b.id in TagIds([a, b], metric, key)
  {
    assert [a, b][..1] == [a] && [a][..0] == [];
  }

  /** Resolve agrees with brute force on every history if and only if no filter has a '=',
      neither in its key nor in its value. */
  lemma ResolveExactly(metric: string, filters: map<string, string>)
    ensures (forall history, id ::
               id in Matching(history, metric, filters) <==> BruteForce(history, metric, filters, id))
            <==> forall k :: k in filters ==> NoEquals(k) && NoEquals(filters[k])
  {
    if k :| k in filters && !(NoEquals(k) && NoEquals(filters[k])) {
      var history := ConfusedFilter(metric, filters, k, 0);
      assert 0 in Matching(history, metric, filters) && !BruteForce(history, metric, filters, 0);
    } else {
      forall history: seq<Registration>, id: uint64
        ensures id in Matching(history, metric, filters) <==> BruteForce(history, metric, filters, id)
      {
        MatchingIsBruteForce(history, metric, filters, id);
      }
    }
  }

  /** With '=' in a key the index confuses two different tags. */
  lemma AmbiguousKey(id: uint64, metric: string)
    ensures var history := [Registration(id, metric, map["a" := "b=c"])];
            id in Matching(history, metric, map["a=b" := "c"]) && !Registered(history, id, metric, "a=b", "c")
  {
    var tags := map["a" := "b=c"];
    var r := Registration(id, metric, tags);
    var history := [r];
    assert history[..0] == [];
    assert TagKey("a", "b=c") == TagKey("a=b", "c");
    assert "a" in r.tags && TagKey("a", r.tags["a"]) == TagKey("a=b", "c");
    assert Carries(r, TagKey("a=b", "c"));
    assert "a=b" != "a" by { assert |"a=b"| == 3; }
  }
}
