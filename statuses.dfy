/** Status records and lodash `orderBy(statuses, ["timestamp"], ["desc"])`:
    a STABLE sort by timestamp, most recent first, in which statuses with
    equal timestamps keep their input order. Every "most recent status"
    that the view model derives is the head of this sorted list. */
module Statuses {
  import opened Collections

  /** The user attached to a status. */
  datatype User = User(uuid: string, name: string, display: string)

  /** A timestamped lifecycle event of a sample or a test allocation. An
      absent `status` or `category` is the empty string: the view model only
      compares them with non-empty constants or searches them for one, and
      both give the same answer for `undefined` and "". */
  datatype Status = Status(status: string, category: string, timestamp: int, user: User)

  /** Most recent first. */
  ghost predicate SortedDesc(s: seq<Status>)
  {
    forall i, j :: 0 <= i < j < |s| ==> s[i].timestamp >= s[j].timestamp
  }

  /** The position of the first status that has the largest timestamp. */
  function FirstMaxIndex(s: seq<Status>): (k: nat)
    requires |s| > 0
    ensures k < |s|
    ensures forall j :: 0 <= j < |s| ==> s[j].timestamp <= s[k].timestamp
    ensures forall j :: 0 <= j < k ==> s[j].timestamp < s[k].timestamp
  {
    if |s| == 1 then 0
    else
      var k' := FirstMaxIndex(s[1..]) + 1;
      if s[0].timestamp >= s[k'].timestamp then 0 else k'
  }

  /** `s` without its element at position `k`. */
  function RemoveAt(s: seq<Status>, k: nat): (r: seq<Status>)
    requires k < |s|
    ensures |r| == |s| - 1
  {
    s[..k] + s[k + 1..]
  }

  /** `orderBy(s, ["timestamp"], ["desc"])`: repeatedly take the first of
      the most recent statuses left. */
  function OrderByTimestampDesc(s: seq<Status>): (r: seq<Status>)
    ensures |r| == |s|
    decreases |s|
  {
    if |s| == 0 then []
    else
      var k := FirstMaxIndex(s);
      [s[k]] + OrderByTimestampDesc(RemoveAt(s, k))
  }

  /** The statuses stamped `v`, in order. */
  function AtTimestamp(s: seq<Status>, v: int): (r: seq<Status>)
    ensures forall i :: 0 <= i < |r| ==> r[i].timestamp == v
  {
    if |s| == 0 then []
    else (if s[0].timestamp == v then [s[0]] else []) + AtTimestamp(s[1..], v)
  }

  /** Stamps are kept by the parts of a concatenation. */
  lemma {:induction false} AtTimestampConcat(a: seq<Status>, b: seq<Status>, v: int)
    ensures AtTimestamp(a + b, v) == AtTimestamp(a, v) + AtTimestamp(b, v)
  {
    if |a| > 0 {
      assert (a + b)[1..] == a[1..] + b;
      AtTimestampConcat(a[1..], b, v);
    } else {
      assert a + b == b;
    }
  }

  /** A list with no status stamped `v` selects nothing at `v`. */
  lemma {:induction false} AtTimestampNone(s: seq<Status>, v: int)
    requires forall i :: 0 <= i < |s| ==> s[i].timestamp != v
    ensures AtTimestamp(s, v) == []
  {
    if |s| > 0 {
      AtTimestampNone(s[1..], v);
    }
  }

  /** Taking out the first most recent status removes exactly that status
      from the statuses stamped with its timestamp, and nothing from the
      others. */
  lemma RemoveFirstMax(s: seq<Status>, v: int)
    requires |s| > 0
    ensures var k := FirstMaxIndex(s);
      AtTimestamp(s, v) ==
        (if s[k].timestamp == v then [s[k]] else []) + AtTimestamp(RemoveAt(s, k), v)
  {
    var k := FirstMaxIndex(s);
    assert s == s[..k] + [s[k]] + s[k + 1..];
    AtTimestampConcat(s[..k] + [s[k]], s[k + 1..], v);
    AtTimestampConcat(s[..k], [s[k]], v);
    AtTimestampConcat(s[..k], s[k + 1..], v);
    assert AtTimestamp([s[k]], v) == (if s[k].timestamp == v then [s[k]] else []) + AtTimestamp([], v);
    if s[k].timestamp == v {
      AtTimestampNone(s[..k], v);
    }
  }

  /** Taking an element out of a list takes it out of the list's multiset. */
  lemma RemoveAtMultiset(s: seq<Status>, k: nat)
    requires k < |s|
    ensures multiset(s) == multiset{s[k]} + multiset(RemoveAt(s, k))
  {
    assert s == s[..k] + [s[k]] + s[k + 1..];
  }

  /** Sorting only rearranges: the sorted list is a permutation. */
  lemma {:induction false} OrderByIsPermutation(s: seq<Status>)
    ensures multiset(OrderByTimestampDesc(s)) == multiset(s)
    decreases |s|
  {
    if |s| > 0 {
      var k := FirstMaxIndex(s);
      var rest := RemoveAt(s, k);
      OrderByIsPermutation(rest);
      RemoveAtMultiset(s, k);
      assert OrderByTimestampDesc(s) == [s[k]] + OrderByTimestampDesc(rest);
    }
  }

  /** The sorted list is most recent first. */
  lemma {:induction false} OrderByIsSorted(s: seq<Status>)
    ensures SortedDesc(OrderByTimestampDesc(s))
    decreases |s|
  {
    if |s| > 0 {
      var k := FirstMaxIndex(s);
      var rest := RemoveAt(s, k);
      OrderByIsSorted(rest);
      OrderByIsPermutation(rest);
      var r := OrderByTimestampDesc(s);
      forall j | 1 <= j < |r|
        ensures r[0].timestamp >= r[j].timestamp
      {
        assert r[j] in multiset(OrderByTimestampDesc(rest));
        assert r[j] in rest;
        assert r[j] in s;
      }
    }
  }

  /** The sort is stable: for every timestamp, the statuses stamped with it
      appear in the sorted list in the same order as in the input. */
  lemma {:induction false} OrderByIsStable(s: seq<Status>, v: int)
    ensures AtTimestamp(OrderByTimestampDesc(s), v) == AtTimestamp(s, v)
    decreases |s|
  {
    if |s| > 0 {
      var k := FirstMaxIndex(s);
      OrderByIsStable(RemoveAt(s, k), v);
      RemoveFirstMax(s, v);
      AtTimestampConcat([s[k]], OrderByTimestampDesc(RemoveAt(s, k)), v);
      assert AtTimestamp([s[k]], v) == (if s[k].timestamp == v then [s[k]] else []) + AtTimestamp([], v);
    }
  }

  /** `t` holds the statuses of `s` most recent first, equal timestamps in
      their input order. */
  ghost predicate IsStableDescOf(t: seq<Status>, s: seq<Status>)
  {
    SortedDesc(t) && forall v :: AtTimestamp(t, v) == AtTimestamp(s, v)
  }

  /** A status is stamped `v` exactly when it is selected at `v`. */
  lemma {:induction false} AtTimestampMembers(s: seq<Status>, x: Status)
    ensures x in s <==> x in AtTimestamp(s, x.timestamp)
  {
    if |s| > 0 {
      AtTimestampMembers(s[1..], x);
    }
  }

  /** A stable most-recent-first arrangement of a non-empty list starts
      with the first of its most recent statuses. */
  lemma StableHead(t: seq<Status>, s: seq<Status>)
    requires IsStableDescOf(t, s) && |s| > 0
    ensures |t| > 0 && t[0] == s[FirstMaxIndex(s)]
  {
    var k := FirstMaxIndex(s);
    var m := s[k].timestamp;
    // Some status of t is stamped m, so t is not empty ...
    AtTimestampMembers(s, s[k]);
    assert AtTimestamp(t, m) == AtTimestamp(s, m);
    var y := AtTimestamp(s, m)[0];
    AtTimestampMembers(t, y);
    // ... and its head is stamped m: not later, since each stamp of t is a
    // stamp of s, and not earlier, since t is sorted and holds an m.
    var h := t[0];
    AtTimestampMembers(t, h);
    assert AtTimestamp(s, h.timestamp) == AtTimestamp(t, h.timestamp);
    AtTimestampMembers(s, h);
    assert h.timestamp == m;
    // So t[0] is the first status of s stamped m, which is s[k].
    AtTimestampUncons(t, m);
    RemoveFirstMax(s, m);
  }

  /** Past their common head, a stable arrangement is a stable arrangement
      of the rest. */
  lemma StableTail(t: seq<Status>, s: seq<Status>)
    requires IsStableDescOf(t, s) && |s| > 0 && |t| > 0
    requires t[0] == s[FirstMaxIndex(s)]
    ensures IsStableDescOf(t[1..], RemoveAt(s, FirstMaxIndex(s)))
  {
    var rest := RemoveAt(s, FirstMaxIndex(s));
    forall v
      ensures AtTimestamp(t[1..], v) == AtTimestamp(rest, v)
    {
      StableTailAtTimestamp(t, s, v);
    }
    assert SortedDesc(t[1..]) by {
      forall i, j | 0 <= i < j < |t[1..]|
        ensures t[1..][i].timestamp >= t[1..][j].timestamp
      {
        assert t[1..][i] == t[i + 1] && t[1..][j] == t[j + 1];
      }
    }
  }

  /** The per-timestamp half of `StableTail`. */
  lemma StableTailAtTimestamp(t: seq<Status>, s: seq<Status>, v: int)
    requires |s| > 0 && |t| > 0 && t[0] == s[FirstMaxIndex(s)]
    requires AtTimestamp(t, v) == AtTimestamp(s, v)
    ensures AtTimestamp(t[1..], v) == AtTimestamp(RemoveAt(s, FirstMaxIndex(s)), v)
  {
    var k := FirstMaxIndex(s);
    var head := if s[k].timestamp == v then [s[k]] else [];
    var b, c := AtTimestamp(t[1..], v), AtTimestamp(RemoveAt(s, k), v);
    RemoveFirstMax(s, v);
    AtTimestampUncons(t, v);
    assert head + b == head + c;
    assert (head + b)[|head|..] == b;
    assert (head + c)[|head|..] == c;
  }

  /** A non-empty list has a status stamped with its head's timestamp. */
  lemma AtTimestampHeadNonEmpty(t: seq<Status>)
    ensures |t| > 0 ==> |AtTimestamp(t, t[0].timestamp)| > 0
  {
  }

  /** Selecting a stamp from a list with its head split off. */
  lemma AtTimestampUncons(t: seq<Status>, v: int)
    requires |t| > 0
    ensures AtTimestamp(t, v) == (if t[0].timestamp == v then [t[0]] else []) + AtTimestamp(t[1..], v)
  {
  }

  /** A stable most-recent-first arrangement is unique: any list that is
      sorted by descending timestamp and keeps the input order among equal
      timestamps IS `OrderByTimestampDesc(s)`. So the function is exactly
      what lodash's stable `orderBy` returns, whatever its algorithm. */
  lemma {:induction false} StableSortIsUnique(t: seq<Status>, s: seq<Status>)
    requires IsStableDescOf(t, s)
    ensures t == OrderByTimestampDesc(s)
    decreases |s|
  {
    if |s| == 0 {
      AtTimestampHeadNonEmpty(t);
    } else {
      StableHead(t, s);
      StableTail(t, s);
      StableSortIsUnique(t[1..], RemoveAt(s, FirstMaxIndex(s)));
      assert t == [t[0]] + t[1..];
    }
  }

  /** Position `k` holds the most recent status of `s`, and the first in
      input order among those that share its timestamp. */
  ghost predicate IsLatestAt(s: seq<Status>, k: int)
  {
    && 0 <= k < |s|
    && (forall j :: 0 <= j < k ==> s[j].timestamp < s[k].timestamp)
    && (forall j :: 0 <= j < |s| ==> s[j].timestamp <= s[k].timestamp)
  }

  /** `x` is the latest status of `s`: the most recent one, the first in
      input order on a tie. */
  ghost predicate IsLatest(s: seq<Status>, x: Status)
  {
    exists k :: IsLatestAt(s, k) && s[k] == x
  }

  /** The head of the sorted list is the latest status. */
  lemma HeadIsLatest(s: seq<Status>)
    requires |s| > 0
    ensures IsLatest(s, OrderByTimestampDesc(s)[0])
  {
  }

  /** The second of the sorted list is the latest of what is left once the
      latest status is taken out. */
  lemma SecondIsLatestOfRest(s: seq<Status>)
    requires |s| >= 2
    ensures IsLatest(RemoveAt(s, FirstMaxIndex(s)), OrderByTimestampDesc(s)[1])
  {
    HeadIsLatest(RemoveAt(s, FirstMaxIndex(s)));
  }

  /** A list has at most one latest status. */
  lemma LatestIsUnique(s: seq<Status>, x: Status, y: Status)
    requires IsLatest(s, x) && IsLatest(s, y)
    ensures x == y
  {
  }

  /** Picking out some entries of a list in their original order keeps the
      latest one latest, when it is among those picked. */
  lemma {:induction false} LatestAmongPicked(s: seq<Status>, p: Status -> bool, f: seq<Status>, idx: seq<int>, k: int, m: int)
    requires PicksMatches(s, p, f, idx) && Increasing(idx)
    requires IsLatestAt(s, k) && 0 <= m < |idx| && idx[m] == k
    ensures IsLatestAt(f, m)
  {
    forall j | 0 <= j < m
      ensures f[j].timestamp < f[m].timestamp
    {
      assert idx[j] < idx[m];
      assert f[j] == s[idx[j]];
    }
    forall j | 0 <= j < |f|
      ensures f[j].timestamp <= f[m].timestamp
    {
      assert f[j] == s[idx[j]];
    }
  }

  /** The latest status of a list is still the latest once the list is
      filtered by a condition it meets. */
  lemma LatestSurvivesFilter(s: seq<Status>, p: Status -> bool, x: Status)
    requires IsLatest(s, x) && p(x)
    ensures IsLatest(Filter(s, p), x)
  {
    var k :| IsLatestAt(s, k) && s[k] == x;
    var f := Filter(s, p);
    FilterSelectsInOrder(s, p);
    var idx :| SelectsInOrder(s, p, f, idx);
    assert k in idx;
    var m :| 0 <= m < |idx| && idx[m] == k;
    LatestAmongPicked(s, p, f, idx, k, m);
  }
}
