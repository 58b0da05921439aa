/** The lodash and array combinators the view model is built from,
    as functions over sequences and maps: `filter`, `map`, `flatten`,
    `uniqBy` (first occurrence per key wins), `groupBy` (every element,
    in order, under its key) and `keyBy` (last occurrence per key wins). */
module Collections {
  import opened Values

  /** `s.filter(p)`: the elements that satisfy `p`, in order. */
  function Filter<T>(s: seq<T>, p: T -> bool): (r: seq<T>)
    ensures |r| <= |s|
    ensures forall i :: 0 <= i < |r| ==> r[i] in s && p(r[i])
    ensures forall i :: 0 <= i < |s| && p(s[i]) ==> s[i] in r
  {
    if |s| == 0 then []
    else (if p(s[0]) then [s[0]] else []) + Filter(s[1..], p)
  }

  /** Filtering a concatenation filters each part. */
  lemma {:induction false} FilterConcat<T>(a: seq<T>, b: seq<T>, p: T -> bool)
    ensures Filter(a + b, p) == Filter(a, p) + Filter(b, p)
  {
    if |a| > 0 {
      assert (a + b)[1..] == a[1..] + b;
      FilterConcat(a[1..], b, p);
    } else {
      assert a + b == b;
    }
  }

  /** `r` holds the elements of `s` at positions `idx`, which all match. */
  ghost predicate PicksMatches<T>(s: seq<T>, p: T -> bool, r: seq<T>, idx: seq<int>)
  {
    |idx| == |r| && forall i :: 0 <= i < |idx| ==> 0 <= idx[i] < |s| && r[i] == s[idx[i]] && p(s[idx[i]])
  }

  ghost predicate Increasing(idx: seq<int>)
  {
    forall i, j :: 0 <= i < j < |idx| ==> idx[i] < idx[j]
  }

  /** Every matching position of `s` is listed in `idx`. */
  ghost predicate CoversMatches<T>(s: seq<T>, p: T -> bool, idx: seq<int>)
  {
    forall j :: 0 <= j < |s| && p(s[j]) ==> j in idx
  }

  /** `idx` lists, in increasing order, exactly the positions of `s` whose
      elements satisfy `p`, and `r` holds the elements at those positions,
      in that order. */
  ghost predicate SelectsInOrder<T>(s: seq<T>, p: T -> bool, r: seq<T>, idx: seq<int>)
  {
    PicksMatches(s, p, r, idx) && Increasing(idx) && CoversMatches(s, p, idx)
  }

  /** `filter` keeps every matching element, once per occurrence, in input
      order, and nothing else. */
  lemma {:induction false} FilterSelectsInOrder<T>(s: seq<T>, p: T -> bool)
    ensures exists idx :: SelectsInOrder(s, p, Filter(s, p), idx)
  {
    if |s| == 0 {
      assert SelectsInOrder(s, p, Filter(s, p), []);
    } else {
      FilterSelectsInOrder(s[1..], p);
      var tail :| SelectsInOrder(s[1..], p, Filter(s[1..], p), tail);
      var idx := ConsIndices(p(s[0]), tail);
      ConsPicks(s, p, Filter(s[1..], p), tail);
      ConsIncreasing(p(s[0]), tail);
      ConsCovers(s, p, tail);
      assert Filter(s, p) == (if p(s[0]) then [s[0]] else []) + Filter(s[1..], p);
      assert SelectsInOrder(s, p, Filter(s, p), idx);
    }
  }

  /** Every position moved one place right. */
  function Shift(tail: seq<int>): (r: seq<int>)
    ensures |r| == |tail|
    ensures forall i :: 0 <= i < |tail| ==> r[i] == tail[i] + 1
  {
    seq(|tail|, i requires 0 <= i < |tail| => tail[i] + 1)
  }

  /** The positions in `tail` moved one place right, preceded by 0 when
      `keepHead`. */
  function ConsIndices(keepHead: bool, tail: seq<int>): seq<int>
  {
    (if keepHead then [0] else []) + Shift(tail)
  }

  lemma ConsPicks<T>(s: seq<T>, p: T -> bool, r: seq<T>, tail: seq<int>)
    requires |s| > 0 && PicksMatches(s[1..], p, r, tail)
    ensures PicksMatches(s, p, (if p(s[0]) then [s[0]] else []) + r, ConsIndices(p(s[0]), tail))
  {
    var idx, r' := ConsIndices(p(s[0]), tail), (if p(s[0]) then [s[0]] else []) + r;
    var h := if p(s[0]) then 1 else 0;
    forall i | 0 <= i < |idx|
      ensures 0 <= idx[i] < |s| && r'[i] == s[idx[i]] && p(s[idx[i]])
    {
      if i >= h {
        assert idx[i] == Shift(tail)[i - h] == tail[i - h] + 1;
        assert r'[i] == r[i - h];
        assert s[1..][tail[i - h]] == s[tail[i - h] + 1];
      }
    }
  }

  lemma ConsIncreasing(keepHead: bool, tail: seq<int>)
    requires Increasing(tail) && forall i :: 0 <= i < |tail| ==> tail[i] >= 0
    ensures Increasing(ConsIndices(keepHead, tail))
  {
    var idx := ConsIndices(keepHead, tail);
    var h := if keepHead then 1 else 0;
    forall i, j | 0 <= i < j < |idx|
      ensures idx[i] < idx[j]
    {
      var b := tail[j - h];
      assert idx[j] == Shift(tail)[j - h] == b + 1;
      if i >= h {
        var a := tail[i - h];
        assert idx[i] == Shift(tail)[i - h] == a + 1;
        assert a < b;
      } else {
        assert idx[i] == 0;
      }
    }
  }

  lemma ConsCovers<T>(s: seq<T>, p: T -> bool, tail: seq<int>)
    requires |s| > 0 && CoversMatches(s[1..], p, tail)
    ensures CoversMatches(s, p, ConsIndices(p(s[0]), tail))
  {
    var idx := ConsIndices(p(s[0]), tail);
    var h := if p(s[0]) then 1 else 0;
    forall j | 0 <= j < |s| && p(s[j])
      ensures j in idx
    {
      if j > 0 {
        assert s[1..][j - 1] == s[j];
        var i :| 0 <= i < |tail| && tail[i] == j - 1;
        assert idx[h + i] == Shift(tail)[i] == j;
      }
    }
  }

  /** Filtering a list extended by one element extends the filtered list by
      that element exactly when it matches. */
  lemma FilterAppend<T>(s: seq<T>, x: T, p: T -> bool)
    ensures Filter(s + [x], p) == Filter(s, p) + (if p(x) then [x] else [])
  {
    FilterConcat(s, [x], p);
    assert Filter([x], p) == (if p(x) then [x] else []) + Filter([], p);
  }

  /** `(s.filter(p) || [])[0]`: the first element satisfying `p`, if any. */
  function FirstWhere<T>(s: seq<T>, p: T -> bool): Option<T>
  {
    var f := Filter(s, p);
    if |f| > 0 then Some(f[0]) else None
  }

  /** The first match is found exactly when some element matches, and it is
      the element at the earliest matching position. */
  lemma {:induction false} FirstWhereSpec<T>(s: seq<T>, p: T -> bool)
    ensures FirstWhere(s, p).None? <==> forall x :: x in s ==> !p(x)
    ensures FirstWhere(s, p).Some? ==>
      exists i :: 0 <= i < |s| && s[i] == FirstWhere(s, p).value && p(s[i])
        && forall j :: 0 <= j < i ==> !p(s[j])
  {
    if |s| > 0 {
      FirstWhereSpec(s[1..], p);
      if !p(s[0]) {
        assert FirstWhere(s, p) == FirstWhere(s[1..], p);
        if FirstWhere(s, p).Some? {
          var i :| 0 <= i < |s[1..]| && s[1..][i] == FirstWhere(s, p).value && p(s[1..][i])
            && forall j :: 0 <= j < i ==> !p(s[1..][j]);
          assert s[i + 1] == FirstWhere(s, p).value;
        }
      } else {
        assert s[0] == FirstWhere(s, p).value;
      }
    }
  }

  /** `s.map(f)`. */
  function MapSeq<T, U>(s: seq<T>, f: T -> U): (r: seq<U>)
    ensures |r| == |s|
    ensures forall i :: 0 <= i < |s| ==> r[i] == f(s[i])
  {
    if |s| == 0 then [] else [f(s[0])] + MapSeq(s[1..], f)
  }

  /** Mapping a list extended by one element appends that element's image. */
  lemma MapAppend<T, U>(s: seq<T>, x: T, f: T -> U)
    ensures MapSeq(s + [x], f) == MapSeq(s, f) + [f(x)]
  {
    assert forall i :: 0 <= i < |s| ==> (s + [x])[i] == s[i];
  }

  /** `flatten(ss)`: the sequences one after another. */
  function Flatten<T>(ss: seq<seq<T>>): seq<T>
  {
    if |ss| == 0 then [] else ss[0] + Flatten(ss[1..])
  }

  /** An element is in the flattening exactly when it is in one of the parts. */
  lemma {:induction false} FlattenMembers<T>(ss: seq<seq<T>>, x: T)
    ensures x in Flatten(ss) <==> exists i :: 0 <= i < |ss| && x in ss[i]
  {
    if |ss| > 0 {
      FlattenMembers(ss[1..], x);
      if x in Flatten(ss[1..]) {
        var i :| 0 <= i < |ss[1..]| && x in ss[1..][i];
        assert x in ss[i + 1];
      }
      if exists i :: 0 <= i < |ss| && x in ss[i] {
        var i :| 0 <= i < |ss| && x in ss[i];
        if i > 0 {
          assert x in ss[1..][i - 1];
        }
      }
    }
  }

  /** Flattening a list extended by one part appends that part whole: every
      occurrence, part after part, in order. */
  lemma {:induction false} FlattenAppend<T>(ss: seq<seq<T>>, t: seq<T>)
    ensures Flatten(ss + [t]) == Flatten(ss) + t
  {
    if |ss| == 0 {
      assert ss + [t] == [t];
    } else {
      assert (ss + [t])[1..] == ss[1..] + [t];
      FlattenAppend(ss[1..], t);
    }
  }

  /** The elements whose key is `k`, in order. */
  function WithKey<T, K(==)>(s: seq<T>, key: T -> K, k: K): seq<T>
  {
    if |s| == 0 then []
    else (if key(s[0]) == k then [s[0]] else []) + WithKey(s[1..], key, k)
  }

  /** The set of keys of the elements. */
  function KeySet<T, K(==)>(s: seq<T>, key: T -> K): set<K>
  {
    if |s| == 0 then {} else {key(s[0])} + KeySet(s[1..], key)
  }

  /** The first element whose key is `k`, if any. */
  function FirstWithKey<T, K(==)>(s: seq<T>, key: T -> K, k: K): Option<T>
  {
    var w := WithKey(s, key, k);
    if |w| == 0 then None else Some(w[0])
  }

  /** A key is in the key set exactly when some element carries it, and then
      the elements carrying it are not none. */
  lemma {:induction false} KeySetMembers<T, K>(s: seq<T>, key: T -> K, k: K)
    ensures k in KeySet(s, key) <==> |WithKey(s, key, k)| > 0
    ensures k in KeySet(s, key) <==> exists x :: x in s && key(x) == k
  {
    if |s| > 0 {
      KeySetMembers(s[1..], key, k);
      if exists x :: x in s && key(x) == k {
        var x :| x in s && key(x) == k;
        if x != s[0] {
          assert x in s[1..];
        }
      }
    }
  }

  /** An element selected by key carries that key and comes from the list. */
  lemma {:induction false} WithKeyElements<T, K>(s: seq<T>, key: T -> K, k: K, i: int)
    requires 0 <= i < |WithKey(s, key, k)|
    ensures key(WithKey(s, key, k)[i]) == k && WithKey(s, key, k)[i] in s
  {
    if |s| > 0 && !(key(s[0]) == k && i == 0) {
      WithKeyElements(s[1..], key, k, if key(s[0]) == k then i - 1 else i);
    }
  }

  /** Keying by the element order is the same as keying appended elements last. */
  lemma {:induction false} WithKeyAppend<T, K>(s: seq<T>, x: T, key: T -> K, k: K)
    ensures WithKey(s + [x], key, k) == WithKey(s, key, k) + (if key(x) == k then [x] else [])
    ensures KeySet(s + [x], key) == KeySet(s, key) + {key(x)}
  {
    if |s| > 0 {
      assert (s + [x])[1..] == s[1..] + [x];
      WithKeyAppend(s[1..], x, key, k);
    } else {
      assert s + [x] == [x];
    }
  }

  /** Mapping with a function that keeps keys commutes with selecting a key. */
  lemma {:induction false} WithKeyMap<T, U, K>(s: seq<T>, f: T -> U, keyT: T -> K, keyU: U -> K, k: K)
    requires forall x :: keyU(f(x)) == keyT(x)
    ensures WithKey(MapSeq(s, f), keyU, k) == MapSeq(WithKey(s, keyT, k), f)
    ensures KeySet(MapSeq(s, f), keyU) == KeySet(s, keyT)
  {
    if |s| > 0 {
      assert MapSeq(s, f)[1..] == MapSeq(s[1..], f);
      WithKeyMap(s[1..], f, keyT, keyU, k);
      if keyT(s[0]) == k {
        assert MapSeq(WithKey(s, keyT, k), f) == [f(s[0])] + MapSeq(WithKey(s[1..], keyT, k), f);
      }
    }
  }

  /** `uniqBy(s, key)` as lodash computes it: walking left to right, an
      element is kept when no earlier element had its key. `seen` holds the
      keys met so far. */
  function UniqFrom<T, K(==)>(s: seq<T>, key: T -> K, seen: set<K>): seq<T>
  {
    if |s| == 0 then []
    else if key(s[0]) in seen then UniqFrom(s[1..], key, seen)
    else [s[0]] + UniqFrom(s[1..], key, seen + {key(s[0])})
  }

  /** `uniqBy(s, key)`. */
  function UniqBy<T, K(==)>(s: seq<T>, key: T -> K): seq<T>
  {
    UniqFrom(s, key, {})
  }

  /** What `UniqFrom` keeps: pairwise distinct keys none of which was seen,
      every unseen key of the input, and for each key the first element of
      the input that carries it. */
  lemma {:induction false} UniqFromSpec<T, K>(s: seq<T>, key: T -> K, seen: set<K>)
    ensures var r := UniqFrom(s, key, seen);
      && (forall i, j :: 0 <= i < j < |r| ==> key(r[i]) != key(r[j]))
      && (forall i :: 0 <= i < |r| ==> key(r[i]) !in seen)
      && KeySet(r, key) == KeySet(s, key) - seen
      && (forall i :: 0 <= i < |r| ==> FirstWithKey(s, key, key(r[i])) == Some(r[i]))
  {
    if |s| > 0 {
      var k0 := key(s[0]);
      if k0 in seen {
        UniqFromSpec(s[1..], key, seen);
      } else {
        var tail := UniqFrom(s[1..], key, seen + {k0});
        UniqFromSpec(s[1..], key, seen + {k0});
        var r := [s[0]] + tail;
        assert UniqFrom(s, key, seen) == r;
        assert forall i :: 1 <= i < |r| ==> r[i] == tail[i - 1];
      }
    }
  }

  /** lodash `uniqBy`: pairwise distinct keys, the same key set as the
      input, and for each key the first element of the input carrying it. */
  lemma UniqBySpec<T, K>(s: seq<T>, key: T -> K)
    ensures var r := UniqBy(s, key);
      && (forall i, j :: 0 <= i < j < |r| ==> key(r[i]) != key(r[j]))
      && KeySet(r, key) == KeySet(s, key)
      && (forall i :: 0 <= i < |r| ==> FirstWithKey(s, key, key(r[i])) == Some(r[i]))
  {
    UniqFromSpec(s, key, {});
  }

  /** Walking one element further keeps what was kept so far, in its order,
      and adds the new element at the end exactly when its key is new. */
  lemma {:induction false} UniqFromAppend<T, K>(s: seq<T>, x: T, key: T -> K, seen: set<K>)
    ensures UniqFrom(s + [x], key, seen)
      == UniqFrom(s, key, seen) + (if key(x) in seen + KeySet(s, key) then [] else [x])
    decreases |s|
  {
    if |s| == 0 {
      assert s + [x] == [x];
    } else {
      var k0 := key(s[0]);
      assert (s + [x])[0] == s[0];
      assert (s + [x])[1..] == s[1..] + [x];
      assert KeySet(s, key) == {k0} + KeySet(s[1..], key);
      if k0 in seen {
        UniqFromAppend(s[1..], x, key, seen);
        assert seen + KeySet(s, key) == seen + KeySet(s[1..], key);
      } else {
        UniqFromAppend(s[1..], x, key, seen + {k0});
        assert seen + {k0} + KeySet(s[1..], key) == seen + KeySet(s, key);
      }
    }
  }

  /** lodash `uniqBy` keeps first occurrences in input order: one more
      element is appended exactly when no earlier element had its key. */
  lemma UniqByAppend<T, K>(s: seq<T>, x: T, key: T -> K)
    ensures UniqBy(s + [x], key) == UniqBy(s, key) + (if key(x) in KeySet(s, key) then [] else [x])
  {
    UniqFromAppend(s, x, key, {});
    assert {} + KeySet(s, key) == KeySet(s, key);
  }

  /** `groupBy(s, key)`: walking left to right, each element is appended to
      the list held under its key. */
  function GroupBy<T, K(==)>(s: seq<T>, key: T -> K): map<K, seq<T>>
    decreases |s|
  {
    if |s| == 0 then map[]
    else
      var m := GroupBy(s[..|s| - 1], key);
      var x := s[|s| - 1];
      m[key(x) := (if key(x) in m then m[key(x)] else []) + [x]]
  }

  /** lodash `groupBy`: the keys are exactly the keys of the input, and
      under each key stand all the elements carrying it, in input order. */
  lemma {:induction false} GroupBySpec<T, K>(s: seq<T>, key: T -> K)
    ensures GroupBy(s, key).Keys == KeySet(s, key)
    ensures forall k :: k in GroupBy(s, key) ==> GroupBy(s, key)[k] == WithKey(s, key, k)
    decreases |s|
  {
    if |s| > 0 {
      var init, x := s[..|s| - 1], s[|s| - 1];
      assert s == init + [x];
      GroupBySpec(init, key);
      forall k
        ensures WithKey(s, key, k) == WithKey(init, key, k) + (if key(x) == k then [x] else [])
        ensures KeySet(s, key) == KeySet(init, key) + {key(x)}
      {
        WithKeyAppend(init, x, key, k);
      }
      var m := GroupBy(init, key);
      var old_ := if key(x) in m then m[key(x)] else [];
      KeySetMembers(init, key, key(x));
      assert old_ == WithKey(init, key, key(x));
      assert GroupBy(s, key) == m[key(x) := old_ + [x]];
      forall k | k in GroupBy(s, key)
        ensures GroupBy(s, key)[k] == WithKey(s, key, k)
      {
        WithKeyAppend(init, x, key, k);
      }
    }
  }

  /** `keyBy(s, key)`: walking left to right, each element is stored under
      its key, replacing what an earlier element stored there. */
  function KeyBy<T, K(==)>(s: seq<T>, key: T -> K): map<K, T>
    decreases |s|
  {
    if |s| == 0 then map[]
    else KeyBy(s[..|s| - 1], key)[key(s[|s| - 1]) := s[|s| - 1]]
  }

  /** lodash `keyBy`: the keys are exactly the keys of the input, and each
      key holds the LAST element carrying it. */
  lemma {:induction false} KeyBySpec<T, K>(s: seq<T>, key: T -> K)
    ensures KeyBy(s, key).Keys == KeySet(s, key)
    ensures forall k :: k in KeyBy(s, key) ==>
      var w := WithKey(s, key, k); |w| > 0 && KeyBy(s, key)[k] == w[|w| - 1]
    decreases |s|
  {
    if |s| > 0 {
      var init, x := s[..|s| - 1], s[|s| - 1];
      assert s == init + [x];
      KeyBySpec(init, key);
      forall k
        ensures WithKey(s, key, k) == WithKey(init, key, k) + (if key(x) == k then [x] else [])
        ensures KeySet(s, key) == KeySet(init, key) + {key(x)}
      {
        WithKeyAppend(init, x, key, k);
      }
      WithKeyAppend(init, x, key, key(x));
      var m := KeyBy(init, key);
      assert KeyBy(s, key) == m[key(x) := x];
      assert KeyBy(s, key).Keys == m.Keys + {key(x)};
      forall k | k in KeyBy(s, key)
        ensures var w := WithKey(s, key, k); |w| > 0 && KeyBy(s, key)[k] == w[|w| - 1]
      {
        WithKeyAppend(init, x, key, k);
      }
    }
  }
}
