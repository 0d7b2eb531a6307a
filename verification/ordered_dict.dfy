/** Python's insertion-ordered `dict`, as a sequence of entries. Building a
    dict from pairs (a dict comprehension, `dict.update`) keeps the first
    position of a key and the last value written to it. */
module OrderedDict {
  import opened Wrappers

  type Dict<K, V> = seq<(K, V)>

  ghost predicate DistinctKeys<K, V>(d: Dict<K, V>) {
    forall i, j :: 0 <= i < j < |d| ==> d[i].0 != d[j].0
  }

  /** The keys in iteration order: Python's `list(d.keys())`. */
  function Keys<K, V>(d: Dict<K, V>): seq<K> {
    seq(|d|, i requires 0 <= i < |d| => d[i].0)
  }

  function KeySet<K, V>(d: Dict<K, V>): set<K> {
    set i | 0 <= i < |d| :: d[i].0
  }

  /** The first position at or after `i` whose key is `k`. */
  function IndexOfKeyFrom<K(==), V>(d: Dict<K, V>, k: K, i: nat): (r: Option<nat>)
    ensures r.Some? ==> i <= r.value < |d| && d[r.value].0 == k
    ensures forall j :: i <= j < |d| && (r.None? || j < r.value) ==> d[j].0 != k
    decreases |d| - i
  {
    if i >= |d| then None
    else if d[i].0 == k then Some(i)
    else IndexOfKeyFrom(d, k, i + 1)
  }

  /** The position of key `k`, if present. */
  function IndexOfKey<K(==), V>(d: Dict<K, V>, k: K): (r: Option<nat>)
    ensures r.Some? ==> r.value < |d| && d[r.value].0 == k
    ensures r.None? <==> k !in KeySet(d)
    ensures forall j :: 0 <= j < |d| && (r.None? || j < r.value) ==> d[j].0 != k
  {
    IndexOfKeyFrom(d, k, 0)
  }

  /** Python's `d.get(k)`. */
  function Get<K(==), V>(d: Dict<K, V>, k: K): (r: Option<V>)
    ensures r.None? <==> k !in KeySet(d)
  {
    match IndexOfKey(d, k)
    case None => None
    case Some(i) => Some(d[i].1)
  }

  /** Two dicts with the same key sequence find every key at the same place. */
  lemma SameKeysSameIndex<K, V>(d: Dict<K, V>, e: Dict<K, V>, k: K)
    requires |d| == |e| && forall i :: 0 <= i < |d| ==> d[i].0 == e[i].0
    ensures IndexOfKey(d, k) == IndexOfKey(e, k)
  {
    var a, b := IndexOfKey(d, k), IndexOfKey(e, k);
    if a.Some? {
      assert e[a.value].0 == k;
    }
    if b.Some? {
      assert d[b.value].0 == k;
    }
  }

  /** Python's `d[k] = v`: overwrite in place, or append a new entry. */
  function Put<K(==,!new), V>(d: Dict<K, V>, k: K, v: V): (r: Dict<K, V>)
    ensures Get(r, k) == Some(v)
    ensures forall k' :: k' != k ==> Get(r, k') == Get(d, k')
    ensures k in KeySet(d) ==> Keys(r) == Keys(d)
    ensures k !in KeySet(d) ==> Keys(r) == Keys(d) + [k]
    ensures KeySet(r) == KeySet(d) + {k}
    ensures DistinctKeys(d) ==> DistinctKeys(r)
  {
    match IndexOfKey(d, k)
    case Some(i) =>
      var r := d[i := (k, v)];
      forall k' ensures IndexOfKey(r, k') == IndexOfKey(d, k') {
        SameKeysSameIndex(r, d, k');
      }
      assert KeySet(r) == KeySet(d) by {
        assert forall j :: 0 <= j < |d| ==> r[j].0 == d[j].0;
      }
      r
    case None =>
      var r := d + [(k, v)];
      forall k' | k' != k ensures IndexOfKey(r, k') == IndexOfKey(d, k') {
        var a := IndexOfKey(d, k');
        if a.Some? {
          assert r[a.value].0 == k';
          assert IndexOfKey(r, k').value <= a.value;
        }
      }
      assert r[|d|].0 == k;
      assert forall j :: 0 <= j < |d| ==> r[j].0 == d[j].0;
      assert IndexOfKey(r, k) == Some(|d|);
      assert KeySet(r) == KeySet(d) + {k} by {
        forall x | x in KeySet(r) ensures x in KeySet(d) + {k} {
          var j :| 0 <= j < |r| && r[j].0 == x;
          if j < |d| { assert d[j].0 == x; }
        }
        assert r[|d|].0 == k;
      }
      r
  }

  /** The value of the last pair with key `k`: the reference meaning of
      building a dict from pairs in order. */
  function LastValue<K(==), V>(ps: seq<(K, V)>, k: K): (r: Option<V>)
    ensures r.None? <==> k !in KeySet(ps)
    ensures r.Some? ==> exists j :: 0 <= j < |ps| && ps[j] == (k, r.value)
                                    && forall j' :: j < j' < |ps| ==> ps[j'].0 != k
  {
    if |ps| == 0 then None
    else if ps[|ps| - 1].0 == k then Some(ps[|ps| - 1].1)
    else
      var init := ps[..|ps| - 1];
      var r := LastValue(init, k);
      KeySetSnoc(ps);
      assert forall j :: 0 <= j < |init| ==> init[j] == ps[j];
      if r.Some? then
        ghost var j :| 0 <= j < |init| && init[j] == (k, r.value)
                       && forall j' :: j < j' < |init| ==> init[j'].0 != k;
        assert ps[j] == (k, r.value);
        r
      else r
  }

  /** The last write to a key in `a + b` is in `b` unless `b` lacks the key. */
  lemma {:induction false} LastValueAppend<K, V>(a: seq<(K, V)>, b: seq<(K, V)>, k: K)
    ensures LastValue(a + b, k) == if k in KeySet(b) then LastValue(b, k) else LastValue(a, k)
    decreases |b|
  {
    if |b| > 0 {
      assert (a + b)[..|a + b| - 1] == a + b[..|b| - 1];
      KeySetSnoc(b);
      LastValueAppend(a, b[..|b| - 1], k);
    } else {
      assert a + b == a;
    }
  }

  /** A pair whose key is not written again later determines the last value. */
  lemma LastValueOfLastEntry<K, V>(ps: seq<(K, V)>, i: nat)
    requires i < |ps|
    requires forall i' :: i < i' < |ps| ==> ps[i'].0 != ps[i].0
    ensures LastValue(ps, ps[i].0) == Some(ps[i].1)
  {
    var r := LastValue(ps, ps[i].0);
    assert ps[i].0 in KeySet(ps);
    var j :| 0 <= j < |ps| && ps[j] == (ps[i].0, r.value)
             && forall j' :: j < j' < |ps| ==> ps[j'].0 != ps[i].0;
    assert j == i;
  }

  /** The keys of `ks` in order of their first occurrence, without repeats. */
  function FirstOccurrences<K(==)>(ks: seq<K>): seq<K> {
    if |ks| == 0 then []
    else if ks[|ks| - 1] in ks[..|ks| - 1] then FirstOccurrences(ks[..|ks| - 1])
    else FirstOccurrences(ks[..|ks| - 1]) + [ks[|ks| - 1]]
  }

  lemma KeySetSnoc<K, V>(ps: seq<(K, V)>)
    requires |ps| > 0
    ensures KeySet(ps) == KeySet(ps[..|ps| - 1]) + {ps[|ps| - 1].0}
    ensures Keys(ps[..|ps| - 1]) == Keys(ps)[..|ps| - 1]
  {
    var init := ps[..|ps| - 1];
    forall x | x in KeySet(ps) ensures x in KeySet(init) + {ps[|ps| - 1].0} {
      var i :| 0 <= i < |ps| && ps[i].0 == x;
      if i < |init| { assert init[i].0 == x; }
    }
  }

  /** Python's `dict(ps)`, equivalently `{k: v for k, v in ps}`. */
  function FromPairs<K(==,!new), V>(ps: seq<(K, V)>): (d: Dict<K, V>)
    ensures DistinctKeys(d)
    ensures forall k :: Get(d, k) == LastValue(ps, k)
    ensures KeySet(d) == KeySet(ps)
    ensures Keys(d) == FirstOccurrences(Keys(ps))
  {
    if |ps| == 0 then []
    else
      var init := ps[..|ps| - 1];
      var last := ps[|ps| - 1];
      var prev := FromPairs(init);
      KeySetSnoc(ps);
      assert last.0 in KeySet(init) <==> last.0 in Keys(init) by {
        if last.0 in KeySet(init) {
          var i :| 0 <= i < |init| && init[i].0 == last.0;
          assert Keys(init)[i] == last.0;
        }
      }
      Put(prev, last.0, last.1)
  }

  /** Pairs with distinct keys already are the dict they build. */
  lemma {:induction false} FromPairsOfDistinct<K(!new), V>(ps: seq<(K, V)>)
    requires DistinctKeys(ps)
    ensures FromPairs(ps) == ps
    decreases |ps|
  {
    if |ps| > 0 {
      var init, last := ps[..|ps| - 1], ps[|ps| - 1];
      assert DistinctKeys(init) by {
        forall i, j | 0 <= i < j < |init| ensures init[i].0 != init[j].0 {
          assert init[i] == ps[i] && init[j] == ps[j];
        }
      }
      FromPairsOfDistinct(init);
      assert last.0 !in KeySet(init);
      assert FromPairs(ps) == Put(init, last.0, last.1);
      PutAbsent(init, last.0, last.1);
      assert init + [last] == ps;
    }
  }

  lemma PutAbsent<K(!new), V>(d: Dict<K, V>, k: K, v: V)
    requires k !in KeySet(d)
    ensures Put(d, k, v) == d + [(k, v)]
  {
    assert IndexOfKey(d, k).None?;
  }

  lemma KeySetConcat<K, V>(a: seq<(K, V)>, b: seq<(K, V)>)
    ensures KeySet(a + b) == KeySet(a) + KeySet(b)
  {
    var ab := a + b;
    forall k | k in KeySet(ab) ensures k in KeySet(a) + KeySet(b) {
      var i :| 0 <= i < |ab| && ab[i].0 == k;
      if i >= |a| { assert b[i - |a|].0 == k; }
    }
    forall k | k in KeySet(a) ensures k in KeySet(ab) {
      var i :| 0 <= i < |a| && a[i].0 == k;
      assert ab[i].0 == k;
    }
    forall k | k in KeySet(b) ensures k in KeySet(ab) {
      var i :| 0 <= i < |b| && b[i].0 == k;
      assert ab[i + |a|].0 == k;
    }
  }

  lemma KeySetTail<K, V>(d: Dict<K, V>)
    requires |d| > 0
    ensures KeySet(d) == {d[0].0} + KeySet(d[1..])
  {
    forall k | k in KeySet(d) ensures k in {d[0].0} + KeySet(d[1..]) {
      var i :| 0 <= i < |d| && d[i].0 == k;
      if i > 0 {
        assert d[1..][i - 1].0 == k;
      }
    }
    forall k | k in KeySet(d[1..]) ensures k in KeySet(d) {
      var i :| 0 <= i < |d[1..]| && d[1..][i].0 == k;
      assert d[i + 1].0 == k;
    }
  }

  /** Python's `del d[k]` on a dict that may lack `k`: every other entry
      stays, in order. */
  function Remove<K(==,!new), V(!new)>(d: Dict<K, V>, k: K): (r: Dict<K, V>)
    ensures |r| <= |d|
    ensures forall e :: e in r <==> e in d && e.0 != k
    ensures KeySet(r) == KeySet(d) - {k}
    ensures k !in KeySet(d) ==> r == d
  {
    if |d| == 0 then []
    else
      var rest := Remove(d[1..], k);
      assert d == [d[0]] + d[1..];
      KeySetTail(d);
      if d[0].0 == k then rest
      else
        var r := [d[0]] + rest;
        assert r[1..] == rest;
        KeySetTail(r);
        r
  }

  /** The dict as an unordered map: what Python's `==` on dicts compares. */
  function ToMap<K(==), V>(d: Dict<K, V>): (m: map<K, V>)
    ensures m.Keys == KeySet(d)
    ensures forall k :: k in m ==> Get(d, k) == Some(m[k])
  {
    map k | k in KeySet(d) :: Get(d, k).value
  }
}
