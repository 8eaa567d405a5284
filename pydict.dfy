/** Python's insertion-ordered `dict`: the key sequence in insertion order and
    the map from keys to values. Assigning to an existing key keeps its
    position; a new key goes last. */
module PyDict {

  datatype Dict<K(==), V> = Dict(keys: seq<K>, vals: map<K, V>)

  ghost predicate Distinct<K>(s: seq<K>) {
    forall i, j :: 0 <= i < j < |s| ==> s[i] != s[j]
  }

  /** What every Python dict satisfies: each key once, and exactly the mapped keys. */
  ghost predicate Valid<K, V>(d: Dict<K, V>) {
    && Distinct(d.keys)
    && (forall k :: k in d.vals ==> k in d.keys)
    && (forall i :: 0 <= i < |d.keys| ==> d.keys[i] in d.vals)
  }

  function Empty<K(==), V>(): (d: Dict<K, V>)
    ensures Valid(d) && d.keys == []
  {
    Dict([], map[])
  }

  /** `d[k] = v`. */
  function Set<K(==), V>(d: Dict<K, V>, k: K, v: V): (r: Dict<K, V>)
    ensures Valid(d) ==> Valid(r)
    ensures r.vals == d.vals[k := v]
    ensures k in d.vals ==> r.keys == d.keys
    ensures k !in d.vals ==> r.keys == d.keys + [k]
  {
    if k in d.vals then Dict(d.keys, d.vals[k := v]) else Dict(d.keys + [k], d.vals[k := v])
  }

  /** `list(d.values())`. */
  function Values<K(==), V>(d: Dict<K, V>): (vs: seq<V>)
    requires Valid(d)
    ensures |vs| == |d.keys|
    ensures forall i :: 0 <= i < |vs| ==> vs[i] == d.vals[d.keys[i]]
  {
    seq(|d.keys|, i requires 0 <= i < |d.keys| => d.vals[d.keys[i]])
  }

  /** The index of the first occurrence of `x` in `s`. */
  function FirstIndex<K(==)>(s: seq<K>, x: K): (i: nat)
    requires x in s
    ensures i < |s| && s[i] == x
    ensures forall j :: 0 <= j < i ==> s[j] != x
  {
    if s[0] == x then 0 else 1 + FirstIndex(s[1..], x)
  }

  /** The index of the last occurrence of `x` in `s`. */
  function LastIndex<K(==)>(s: seq<K>, x: K): (i: nat)
    requires x in s
    ensures i < |s| && s[i] == x
    ensures forall j :: i < j < |s| ==> s[j] != x
  {
    if s[|s| - 1] == x then |s| - 1 else LastIndex(s[..|s| - 1], x)
  }

  /** A dict comprehension `{ks[i]: vs[i] for i in ...}`: keys assigned one
      after the other, in list order. */
  function FromPairs<K(==), V>(ks: seq<K>, vs: seq<V>): (d: Dict<K, V>)
    requires |ks| == |vs|
    ensures Valid(d)
    decreases |ks|
  {
    if ks == [] then Empty()
    else Set(FromPairs(ks[..|ks| - 1], vs[..|vs| - 1]), ks[|ks| - 1], vs[|vs| - 1])
  }

  /** The dict holds exactly the keys of the list. */
  lemma {:induction false} FromPairsKeys<K, V>(ks: seq<K>, vs: seq<V>)
    requires |ks| == |vs|
    ensures forall k :: k in FromPairs(ks, vs).vals <==> k in ks
    decreases |ks|
  {
    if ks != [] {
      var n := |ks| - 1;
      FromPairsKeys(ks[..n], vs[..n]);
      assert ks == ks[..n] + [ks[n]];
    }
  }

  /** Duplicate keys collapse onto one value: the last pair with a key supplies it. */
  lemma {:induction false} FromPairsLastWins<K, V>(ks: seq<K>, vs: seq<V>, k: K)
    requires |ks| == |vs| && k in ks
    ensures k in FromPairs(ks, vs).vals
    ensures FromPairs(ks, vs).vals[k] == vs[LastIndex(ks, k)]
    decreases |ks|
  {
    var n := |ks| - 1;
    if ks[n] != k {
      var i :| 0 <= i < |ks| && ks[i] == k;
      assert ks[..n][i] == k;
      FromPairsLastWins(ks[..n], vs[..n], k);
    }
  }

  /** An element other than the last is in the list exactly when it is in
      the list without its last element, and its last occurrence is found
      there. */
  lemma LastIndexInit<K>(s: seq<K>, x: K)
    requires s != [] && s[|s| - 1] != x
    ensures x in s <==> x in s[..|s| - 1]
    ensures x in s ==> LastIndex(s, x) == LastIndex(s[..|s| - 1], x)
  {
    assert s == s[..|s| - 1] + [s[|s| - 1]];
  }

  /** In a list without repeats, each element's last occurrence is its only one. */
  lemma LastIndexDistinct<K>(s: seq<K>, i: nat)
    requires Distinct(s) && i < |s|
    ensures LastIndex(s, s[i]) == i
  {
  }

  /** `keys` lists elements of `s` in the order of their first occurrence there. */
  ghost predicate InFirstOrder<K>(keys: seq<K>, s: seq<K>) {
    && (forall a :: 0 <= a < |keys| ==> keys[a] in s)
    && (forall a, b :: 0 <= a < b < |keys| ==> FirstIndex(s, keys[a]) < FirstIndex(s, keys[b]))
  }

  /** Keys keep the position of their first occurrence in the list. */
  lemma {:induction false} FromPairsFirstOrder<K, V>(ks: seq<K>, vs: seq<V>)
    requires |ks| == |vs|
    ensures InFirstOrder(FromPairs(ks, vs).keys, ks)
    decreases |ks|
  {
    if ks != [] {
      var n := |ks| - 1;
      var ks', vs' := ks[..n], vs[..n];
      FromPairsFirstOrder(ks', vs');
      var d0 := FromPairs(ks', vs');
      InFirstOrderExtend(d0.keys, ks, n);
      var d := FromPairs(ks, vs);
      assert d == Set(d0, ks[n], vs[n]);
      if ks[n] !in d0.vals {
        FromPairsKeys(ks', vs');
        FirstIndexNew(ks, n);
        InFirstOrderAppend(d0.keys, ks, n);
      }
    }
  }

  lemma InFirstOrderExtend<K>(keys: seq<K>, s: seq<K>, n: nat)
    requires n <= |s| && InFirstOrder(keys, s[..n])
    ensures InFirstOrder(keys, s)
  {
    forall a | 0 <= a < |keys| ensures keys[a] in s && FirstIndex(s, keys[a]) == FirstIndex(s[..n], keys[a]) {
      FirstIndexPrefix(s, n, keys[a]);
    }
  }

  lemma InFirstOrderAppend<K>(keys: seq<K>, s: seq<K>, n: nat)
    requires n < |s| && InFirstOrder(keys, s)
    requires forall a :: 0 <= a < |keys| ==> keys[a] in s[..n]
    requires FirstIndex(s, s[n]) == n
    ensures InFirstOrder(keys + [s[n]], s)
  {
    var keys' := keys + [s[n]];
    forall a | 0 <= a < |keys| ensures FirstIndex(s, keys[a]) < n {
      FirstIndexPrefix(s, n, keys[a]);
    }
    forall a, b | 0 <= a < b < |keys'| ensures FirstIndex(s, keys'[a]) < FirstIndex(s, keys'[b]) {
      if b < |keys| {
        assert keys'[a] == keys[a] && keys'[b] == keys[b];
      }
    }
  }

  lemma FirstIndexNew<K>(s: seq<K>, n: nat)
    requires n < |s| && s[n] !in s[..n]
    ensures FirstIndex(s, s[n]) == n
  {
  }

  lemma PrefixMember<K>(s: seq<K>, n: nat, x: K)
    requires n <= |s| && x in s[..n]
    ensures x in s
  {
    var i :| 0 <= i < n && s[..n][i] == x;
    assert s[i] == x;
  }

  lemma {:induction false} FirstIndexPrefix<K>(s: seq<K>, n: nat, x: K)
    requires n <= |s| && x in s[..n]
    ensures x in s && FirstIndex(s, x) == FirstIndex(s[..n], x)
  {
    PrefixMember(s, n, x);
    var i := FirstIndex(s[..n], x);
    assert s[i] == x;
    var j := FirstIndex(s, x);
    assert j <= i;
  }

  /** Without duplicate keys nothing collapses: the dict lists the keys and
      the values in the order given. */
  lemma FromPairsDistinct<K, V>(ks: seq<K>, vs: seq<V>)
    requires |ks| == |vs| && Distinct(ks)
    ensures FromPairs(ks, vs).keys == ks
    ensures Values(FromPairs(ks, vs)) == vs
  {
    FromPairsDistinctKeys(ks, vs);
    var d := FromPairs(ks, vs);
    forall i | 0 <= i < |ks| ensures Values(d)[i] == vs[i] {
      FromPairsLastWins(ks, vs, ks[i]);
      assert LastIndex(ks, ks[i]) == i;
    }
  }

  lemma {:induction false} FromPairsDistinctKeys<K, V>(ks: seq<K>, vs: seq<V>)
    requires |ks| == |vs| && Distinct(ks)
    ensures FromPairs(ks, vs).keys == ks
    decreases |ks|
  {
    if ks != [] {
      var n := |ks| - 1;
      var ks', vs' := ks[..n], vs[..n];
      DistinctInit(ks);
      FromPairsDistinctKeys(ks', vs');
      FromPairsKeys(ks', vs');
      var d0 := FromPairs(ks', vs');
      assert ks[n] !in d0.vals;
      assert ks' + [ks[n]] == ks;
    }
  }

  /** Without repeats, the last element is not among the others, which
      have no repeats either. */
  lemma DistinctInit<K>(ks: seq<K>)
    requires Distinct(ks) && ks != []
    ensures ks[|ks| - 1] !in ks[..|ks| - 1] && Distinct(ks[..|ks| - 1])
  {
  }

  /** Assigning to an existing key replaces its value where it stands. */
  lemma SetExistingValues<K, V>(d: Dict<K, V>, p: nat, v: V)
    requires Valid(d) && p < |d.keys|
    ensures Values(Set(d, d.keys[p], v)) == Values(d)[p := v]
  {
    var r := Set(d, d.keys[p], v);
    forall i | 0 <= i < |d.keys| ensures Values(r)[i] == Values(d)[p := v][i] {
      if i != p { assert d.keys[i] != d.keys[p]; }
    }
  }

  /** Assigning to a new key appends its value. */
  lemma SetNewValues<K, V>(d: Dict<K, V>, k: K, v: V)
    requires Valid(d) && k !in d.vals
    ensures Values(Set(d, k, v)) == Values(d) + [v]
  {
    var r := Set(d, k, v);
    forall i | 0 <= i < |d.keys| ensures Values(r)[i] == Values(d)[i] {
      assert d.keys[i] != k;
    }
  }

  /** Assigning a key the value it already holds changes nothing. */
  lemma SetSame<K, V>(d: Dict<K, V>, k: K, v: V)
    requires k in d.vals && d.vals[k] == v
    ensures Set(d, k, v) == d
  {
    assert d.vals[k := v] == d.vals;
  }

  /** `for k, v in d.items(): d[k] = f(v)` after `i` items: `r` holds the
      keys of `d` in its order, the first `i` values mapped by `f`, the
      rest as in `d`. */
  ghost predicate MappedUpTo<K, V>(d: Dict<K, V>, r: Dict<K, V>, i: nat, f: V -> V) {
    && i <= |d.keys|
    && r.keys == d.keys && r.vals.Keys == d.vals.Keys
    && (forall j :: 0 <= j < i ==> d.keys[j] in r.vals && r.vals[d.keys[j]] == f(d.vals[d.keys[j]]))
    && (forall j :: i <= j < |d.keys| ==> d.keys[j] in r.vals && r.vals[d.keys[j]] == d.vals[d.keys[j]])
  }

  /** Assigning the next item its mapped value extends the mapped prefix by one. */
  lemma MappedStep<K, V>(d: Dict<K, V>, r: Dict<K, V>, i: nat, f: V -> V)
    requires Valid(d) && MappedUpTo(d, r, i, f) && i < |d.keys|
    ensures d.keys[i] in r.vals && r.vals[d.keys[i]] == d.vals[d.keys[i]]
    ensures MappedUpTo(d, Set(r, d.keys[i], f(r.vals[d.keys[i]])), i + 1, f)
  {
    var k := d.keys[i];
    var r' := Set(r, k, f(r.vals[k]));
    assert r'.vals.Keys == r.vals.Keys;
    forall j | 0 <= j < |d.keys| && j != i ensures r'.vals[d.keys[j]] == r.vals[d.keys[j]] {
      assert d.keys[j] != k;
    }
  }

  /** Once every item is visited, each value is the mapped value. */
  lemma MappedAll<K, V>(d: Dict<K, V>, r: Dict<K, V>, f: V -> V)
    requires Valid(d) && MappedUpTo(d, r, |d.keys|, f)
    ensures r.keys == d.keys && r.vals.Keys == d.vals.Keys
    ensures forall k :: k in d.vals ==> r.vals[k] == f(d.vals[k])
  {
    forall k | k in d.vals ensures r.vals[k] == f(d.vals[k]) {
      var j :| 0 <= j < |d.keys| && d.keys[j] == k;
    }
  }

  /** A dict is the comprehension over its own items. */
  lemma FromPairsRebuilds<K, V>(d: Dict<K, V>)
    requires Valid(d)
    ensures FromPairs(d.keys, Values(d)) == d
  {
    var vs := Values(d);
    FromPairsDistinctKeys(d.keys, vs);
    FromPairsKeys(d.keys, vs);
    var e := FromPairs(d.keys, vs);
    assert forall k :: k in e.vals <==> k in d.vals;
    forall k | k in d.vals ensures e.vals[k] == d.vals[k] {
      FromPairsLastWins(d.keys, vs, k);
      var i := LastIndex(d.keys, k);
      assert vs[i] == d.vals[d.keys[i]];
    }
    assert e.vals == d.vals;
  }
}
