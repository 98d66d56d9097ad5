/** Python's `OrderedDict`, as a value: the keys in insertion order and the
    mapping itself. Assigning to a key that is present keeps its position;
    assigning to a new key appends it. */
module OrderedDicts {
  import opened Values

  datatype ODict<K(==), V> = ODict(keys: seq<K>, vals: map<K, V>) {

    /** Keys are listed once each, and exactly the mapped keys are listed. */
    ghost predicate Valid() {
      && (forall i, j :: 0 <= i < j < |keys| ==> keys[i] != keys[j])
      && (forall k :: k in vals ==> k in keys)
      && (forall i :: 0 <= i < |keys| ==> keys[i] in vals)
    }

    /** `d.get(k)`: the value held for `k`, if any. */
    function Get(k: K): (r: Option<V>)
      ensures r.Some? <==> k in vals
      ensures r.Some? ==> r.value == vals[k]
    {
      if k in vals then Some(vals[k]) else None
    }

    /** `d[k] = v`. */
    function Put(k: K, v: V): (d: ODict<K, V>)
      ensures k in d.vals && d.vals[k] == v
      ensures d.vals.Keys == vals.Keys + {k}
      ensures forall j :: j in vals && j != k ==> d.vals[j] == vals[j]
      ensures d.keys == if k in vals then keys else keys + [k]
    {
      if k in vals then ODict(keys, vals[k := v]) else ODict(keys + [k], vals[k := v])
    }

    lemma PutValid(k: K, v: V)
      requires Valid()
      ensures Put(k, v).Valid()
    {
    }

    /** `list(d.values())`: the values in key order. */
    function Values(): (vs: seq<V>)
      requires Valid()
      ensures |vs| == |keys|
      ensures forall i :: 0 <= i < |keys| ==> vs[i] == vals[keys[i]]
    {
      seq(|keys|, i requires 0 <= i < |keys| => vals[keys[i]])
    }
  }

  function Empty<K, V>(): (d: ODict<K, V>)
    ensures d.Valid()
  {
    ODict([], map[])
  }

  /** Assigns `v` to each key of `ks` in turn. */
  function PutEach<K, V>(d: ODict<K, V>, ks: seq<K>, v: V): (r: ODict<K, V>)
    ensures d.Valid() ==> r.Valid()
    ensures r.vals.Keys == d.vals.Keys + set k | k in ks
    ensures forall k :: k in ks ==> r.vals[k] == v
    ensures forall k :: k in d.vals && k !in ks ==> r.vals[k] == d.vals[k]
    decreases |ks|
  {
    if ks == [] then d
    else
      var before := PutEach(d, ks[..|ks| - 1], v);
      var k := ks[|ks| - 1];
      assert d.Valid() ==> before.Put(k, v).Valid() by {
        if d.Valid() { before.PutValid(k, v); }
      }
      before.Put(k, v)
  }

  /** Writes `entries` one after another, as a sequence of assignments does. */
  function PutAll<K, V>(d: ODict<K, V>, entries: seq<(K, V)>): (r: ODict<K, V>)
    ensures d.Valid() ==> r.Valid()
    ensures d.vals.Keys <= r.vals.Keys
    ensures forall i :: 0 <= i < |entries| ==> entries[i].0 in r.vals
    decreases |entries|
  {
    if entries == [] then d
    else
      var init := entries[..|entries| - 1];
      var before := PutAll(d, init);
      var k := entries[|entries| - 1].0;
      var v := entries[|entries| - 1].1;
      assert d.Valid() ==> before.Put(k, v).Valid() by { if d.Valid() { before.PutValid(k, v); } }
      assert forall i :: 0 <= i < |init| ==> init[i] == entries[i];
      before.Put(k, v)
  }

  /** The last assignment to a key decides its value. */
  lemma {:induction false} PutAllLast<K, V>(d: ODict<K, V>, entries: seq<(K, V)>, i: nat)
    requires i < |entries|
    requires forall j :: i < j < |entries| ==> entries[j].0 != entries[i].0
    ensures PutAll(d, entries).Get(entries[i].0) == Some(entries[i].1)
    decreases |entries|
  {
    if i < |entries| - 1 {
      var init := entries[..|entries| - 1];
      assert init[i] == entries[i];
      forall j | i < j < |init| ensures init[j].0 != init[i].0 {
        assert init[j] == entries[j];
      }
      PutAllLast(d, init, i);
    }
  }

  /** One more key of the list assigned. */
  lemma PutEachStep<K, V>(d: ODict<K, V>, ks: seq<K>, i: nat, v: V)
    requires i < |ks|
    ensures PutEach(d, ks[..i + 1], v) == PutEach(d, ks[..i], v).Put(ks[i], v)
  {
    assert ks[..i + 1][..i] == ks[..i];
  }

  lemma {:induction false} PutEachConcat<K, V>(d: ODict<K, V>, a: seq<K>, b: seq<K>, v: V)
    ensures PutEach(d, a + b, v) == PutEach(PutEach(d, a, v), b, v)
    decreases |b|
  {
    if b == [] {
      assert a + b == a;
    } else {
      var b' := b[..|b| - 1];
      assert (a + b)[..|a + b| - 1] == a + b';
      PutEachConcat(d, a, b', v);
    }
  }

  /** The keys of `d` are, in order, the elements of rank `0` to `n - 1`
      under `rank`, and every key held has a rank below `n`. */
  ghost predicate Ranked<K, V>(d: ODict<K, V>, rank: K -> nat, n: nat) {
    && |d.keys| == n
    && (forall i :: 0 <= i < n ==> rank(d.keys[i]) == i)
    && (forall k :: k in d.vals ==> rank(k) < n)
    && (forall i :: 0 <= i < n ==> d.keys[i] in d.vals)
  }

  lemma RankedValid<K, V>(d: ODict<K, V>, rank: K -> nat, n: nat)
    requires Ranked(d, rank, n)
    requires forall a, b :: rank(a) == rank(b) ==> a == b
    ensures d.Valid()
  {
    forall k | k in d.vals ensures k in d.keys {
      assert rank(d.keys[rank(k)]) == rank(k);
    }
  }

  /** A key of the next rank is new, and goes to the end. */
  lemma RankedPut<K, V>(d: ODict<K, V>, rank: K -> nat, n: nat, k: K, v: V)
    requires Ranked(d, rank, n) && rank(k) == n
    ensures k !in d.vals
    ensures Ranked(d.Put(k, v), rank, n + 1)
  {
  }

  /** Writing keys of the next ranks appends them, with their values. */
  lemma {:induction false} PutAllNext<K, V>(d: ODict<K, V>, rank: K -> nat, n: nat, entries: seq<(K, V)>)
    requires Ranked(d, rank, n)
    requires forall i :: 0 <= i < |entries| ==> rank(entries[i].0) == n + i
    ensures Ranked(PutAll(d, entries), rank, n + |entries|)
    ensures forall i :: 0 <= i < |entries| ==> PutAll(d, entries).Get(entries[i].0) == Some(entries[i].1)
    ensures forall k :: k in d.vals ==> PutAll(d, entries).Get(k) == d.Get(k)
    decreases |entries|
  {
    if entries != [] {
      var init := entries[..|entries| - 1];
      var last := entries[|entries| - 1];
      PutAllNext(d, rank, n, init);
      forall i | 0 <= i < |init| ensures init[i] == entries[i] { }
      var before := PutAll(d, init);
      assert PutAll(d, entries) == before.Put(last.0, last.1);
      RankedPut(before, rank, n + |init|, last.0, last.1);
    }
  }

  /** Writing keys of the next ranks appends them. */
  lemma {:induction false} PutEachNext<K, V>(d: ODict<K, V>, rank: K -> nat, n: nat, ks: seq<K>, v: V)
    requires Ranked(d, rank, n)
    requires forall i :: 0 <= i < |ks| ==> rank(ks[i]) == n + i
    ensures Ranked(PutEach(d, ks, v), rank, n + |ks|)
    decreases |ks|
  {
    if ks != [] {
      PutEachNext(d, rank, n, ks[..|ks| - 1], v);
    }
  }

  /** Writing keys that are present keeps the order. */
  lemma {:induction false} PutEachPresent<K, V>(d: ODict<K, V>, rank: K -> nat, n: nat, ks: seq<K>, v: V)
    requires Ranked(d, rank, n)
    requires forall i :: 0 <= i < |ks| ==> ks[i] in d.vals
    ensures Ranked(PutEach(d, ks, v), rank, n)
    decreases |ks|
  {
    if ks != [] {
      PutEachPresent(d, rank, n, ks[..|ks| - 1], v);
    }
  }

  /** Writing values that satisfy `p` into a dictionary whose values all
      satisfy `p` keeps it so. */
  lemma {:induction false} PutAllKeeps<K, V>(d: ODict<K, V>, entries: seq<(K, V)>, p: V -> bool)
    requires forall k :: k in d.vals ==> p(d.vals[k])
    requires forall i :: 0 <= i < |entries| ==> p(entries[i].1)
    ensures forall k :: k in PutAll(d, entries).vals ==> p(PutAll(d, entries).vals[k])
    decreases |entries|
  {
    if entries != [] {
      var init := entries[..|entries| - 1];
      assert forall i :: 0 <= i < |init| ==> init[i] == entries[i];
      PutAllKeeps(d, init, p);
    }
  }

  lemma {:induction false} PutEachKeeps<K, V>(d: ODict<K, V>, ks: seq<K>, v: V, p: V -> bool)
    requires forall k :: k in d.vals ==> p(d.vals[k])
    requires p(v)
    ensures forall k :: k in PutEach(d, ks, v).vals ==> p(PutEach(d, ks, v).vals[k])
    decreases |ks|
  {
    if ks != [] {
      PutEachKeeps(d, ks[..|ks| - 1], v, p);
    }
  }
}
