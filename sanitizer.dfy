/** The record sanitiser `Weibo.standardize_info`: every value that is not a
    bool, an int or a list loses its zero-width spaces and every character the
    output encoding cannot represent (`encode(enc, "ignore").decode(enc)`). */
module Sanitizer {
  import opened Values
  import opened OrderedDicts

  const ZeroWidthSpace: char := '\U{200B}'

  /** A character survives when it is no zero-width space and `encodable`,
      the repertoire of the console's encoding, holds of it. */
  predicate Kept(c: char, encodable: char -> bool) {
    c != ZeroWidthSpace && encodable(c)
  }

  /** `s.replace("\u200b", "").encode(enc, "ignore").decode(enc)`. */
  function Clean(s: string, encodable: char -> bool): (r: string)
    ensures |r| <= |s|
    ensures forall i :: 0 <= i < |r| ==> Kept(r[i], encodable) && r[i] in s
    ensures forall c :: c in s && Kept(c, encodable) ==> c in r
  {
    if s == [] then []
    else (if Kept(s[0], encodable) then [s[0]] else []) + Clean(s[1..], encodable)
  }

  /** What `standardize_info` does to one value; `None` is the
      `AttributeError` of `replace` on a value that is no string. */
  function CleanValue(v: Value, encodable: char -> bool): Option<Value> {
    match v
    case Str(s) => Some(Str(Clean(s, encodable)))
    case Int(_) => Some(v)
    case Bool(_) => Some(v)
    case List(_) => Some(v)
    case Other => None
  }

  /** No string value holds a character that `Clean` drops. */
  ghost predicate Sanitized<K>(d: ODict<K, Value>, encodable: char -> bool) {
    forall k :: k in d.vals && d.vals[k].Str? ==>
      forall i :: 0 <= i < |d.vals[k].s| ==> Kept(d.vals[k].s[i], encodable)
  }

  /** The dictionary `standardize_info` leaves behind, or `None` when it
      raises on the way. */
  function StandardizeSpec<K>(d: ODict<K, Value>, encodable: char -> bool): (r: Option<ODict<K, Value>>)
    ensures r.Some? <==> forall k :: k in d.vals ==> !d.vals[k].Other?
    ensures r.Some? ==> r.value.keys == d.keys && r.value.vals.Keys == d.vals.Keys
    ensures r.Some? && d.Valid() ==> r.value.Valid()
    ensures r.Some? ==> forall k :: k in d.vals && !d.vals[k].Str? ==> r.value.vals[k] == d.vals[k]
    ensures r.Some? ==> forall k :: k in d.vals && d.vals[k].Str? ==> r.value.vals[k] == Str(Clean(d.vals[k].s, encodable))
    ensures r.Some? ==> Sanitized(r.value, encodable)
  {
    if forall k :: k in d.vals ==> !d.vals[k].Other? then
      Some(ODict(d.keys, map k | k in d.vals :: CleanValue(d.vals[k], encodable).value))
    else None
  }

  /** `standardize_info(weibo)`: rewrites the entries one by one, in key order. */
  method Standardize<K>(d: ODict<K, Value>, encodable: char -> bool) returns (r: Option<ODict<K, Value>>)
    requires d.Valid()
    ensures r == StandardizeSpec(d, encodable)
  {
    var cur := d;
    for i := 0 to |d.keys|
      invariant cur.keys == d.keys && cur.vals.Keys == d.vals.Keys
      invariant forall j :: 0 <= j < i ==> !d.vals[d.keys[j]].Other?
      invariant forall j :: 0 <= j < i ==> cur.vals[d.keys[j]] == CleanValue(d.vals[d.keys[j]], encodable).value
      invariant forall j :: i <= j < |d.keys| ==> cur.vals[d.keys[j]] == d.vals[d.keys[j]]
    {
      var k := d.keys[i];
      var v := CleanValue(cur.vals[k], encodable);
      if v.None? {
        assert d.vals[k].Other?;
        return None;
      }
      ghost var before := cur;
      cur := cur.Put(k, v.value);
      forall j | 0 <= j < |d.keys| && j != i ensures cur.vals[d.keys[j]] == before.vals[d.keys[j]] {
        assert d.keys[j] != k;
      }
    }
    forall k | k in d.vals
      ensures !d.vals[k].Other? && cur.vals[k] == CleanValue(d.vals[k], encodable).value
    {
      var j :| 0 <= j < |d.keys| && d.keys[j] == k;
    }
    assert cur.vals == map k | k in d.vals :: CleanValue(d.vals[k], encodable).value;
    r := Some(cur);
  }

  // ---------------------------------------------------------------------
  // Properties

  lemma {:induction false} CleanIdempotent(s: string, encodable: char -> bool)
    ensures Clean(Clean(s, encodable), encodable) == Clean(s, encodable)
  {
    CleanKeepsClean(Clean(s, encodable), encodable);
  }

  /** One character is kept as it is, or dropped. */
  lemma CleanChar(c: char, encodable: char -> bool)
    ensures Clean([c], encodable) == if Kept(c, encodable) then [c] else []
  {
    assert [c][1..] == [];
  }

  /** Cleaning works character by character: it keeps the order of the
      characters it does not drop, and nothing else. */
  lemma {:induction false} CleanConcat(a: string, b: string, encodable: char -> bool)
    ensures Clean(a + b, encodable) == Clean(a, encodable) + Clean(b, encodable)
    decreases |a|
  {
    if a == [] {
      assert a + b == b;
    } else {
      assert (a + b)[0] == a[0];
      assert (a + b)[1..] == a[1..] + b;
      CleanConcat(a[1..], b, encodable);
    }
  }

  /** A string made only of kept characters is left as it is. */
  lemma {:induction false} CleanKeepsClean(s: string, encodable: char -> bool)
    requires forall i :: 0 <= i < |s| ==> Kept(s[i], encodable)
    ensures Clean(s, encodable) == s
  {
    if s != [] {
      CleanKeepsClean(s[1..], encodable);
    }
  }

  /** Applying `standardize_info` twice gives what applying it once gives. */
  lemma StandardizeIdempotent<K>(d: ODict<K, Value>, encodable: char -> bool)
    requires StandardizeSpec(d, encodable).Some?
    ensures StandardizeSpec(StandardizeSpec(d, encodable).value, encodable) == StandardizeSpec(d, encodable)
  {
    var once := StandardizeSpec(d, encodable).value;
    assert forall k :: k in once.vals ==> !once.vals[k].Other? by {
      forall k | k in once.vals ensures !once.vals[k].Other? {
        assert once.vals[k] == CleanValue(d.vals[k], encodable).value;
      }
    }
    var twice := StandardizeSpec(once, encodable).value;
    forall k | k in once.vals
      ensures twice.vals[k] == once.vals[k]
    {
      if once.vals[k].Str? {
        assert twice.vals[k] == Str(Clean(once.vals[k].s, encodable));
        CleanKeepsClean(once.vals[k].s, encodable);
      }
    }
    assert twice.vals == once.vals;
  }

  /** What `standardize_info` leaves under one key. */
  lemma StandardizeGet<K>(d: ODict<K, Value>, encodable: char -> bool, k: K)
    requires StandardizeSpec(d, encodable).Some?
    ensures d.Get(k).Some? ==> StandardizeSpec(d, encodable).value.Get(k) == CleanValue(d.Get(k).value, encodable)
    ensures d.Get(k).None? ==> StandardizeSpec(d, encodable).value.Get(k).None?
  {
  }
}
