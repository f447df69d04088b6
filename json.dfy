/**
 * Decoded JSON values as PHP holds them after `json_decode($text, true)`, and the
 * ordered string-keyed arrays the controllers build before `json_encode`. Encoding
 * and decoding text themselves are not modelled.
 */
module Json {
  import opened Wrappers
  import PhpString

  datatype Json =
    | JNull
    | JBool(b: bool)
    | JInt(i: int)
    | JStr(s: string)
    | JArr(items: seq<Json>)
    | JObj(members: seq<(string, Json)>)

  /** PHP's `empty()` on a decoded value: null, false, 0, "", "0" and empty arrays. */
  predicate IsEmptyValue(j: Json) {
    match j
    case JNull => true
    case JBool(b) => !b
    case JInt(i) => i == 0
    case JStr(s) => PhpString.IsEmpty(s)
    case JArr(items) => items == []
    case JObj(members) => members == []
  }

  /**
   * `empty()` on a property of a body decoded as objects (json_decode without `true`):
   * a JSON object is a stdClass there, and an object is never empty, even `{}`.
   */
  predicate IsEmptyProperty(j: Json) {
    match j
    case JObj(_) => false
    case _ => IsEmptyValue(j)
  }

  /** empty() holds for exactly seven decoded values. */
  lemma IsEmptyValueMeaning(j: Json)
    ensures IsEmptyValue(j) <==> j in {JNull, JBool(false), JInt(0), JStr(""), JStr("0"), JArr([]), JObj([])}
  {
  }

  /** On an object-decoded property, empty() holds for exactly six values: no object is among them. */
  lemma IsEmptyPropertyMeaning(j: Json)
    ensures IsEmptyProperty(j) <==> j in {JNull, JBool(false), JInt(0), JStr(""), JStr("0"), JArr([])}
  {
  }

  /** The two readings of empty() differ exactly on the empty object. */
  lemma EmptyPropertyOnlyDiffersOnEmptyObject(j: Json)
    ensures IsEmptyProperty(j) <==> IsEmptyValue(j) && j != JObj([])
    ensures IsEmptyProperty(j) ==> !j.JObj?
  {
  }

  /** The keys of an ordered array, in order. */
  function Keys(m: seq<(string, Json)>): (r: seq<string>)
    ensures |r| == |m| && forall i :: 0 <= i < |m| ==> r[i] == m[i].0
  {
    seq(|m|, i requires 0 <= i < |m| => m[i].0)
  }

  /** `$m[$k]`: the value stored under `k`; when a key repeats, the later entry is the one kept. */
  function Lookup(m: seq<(string, Json)>, k: string): (r: Option<Json>)
    ensures r.None? <==> k !in Keys(m)
    decreases |m|
  {
    if m == [] then None
    else if m[|m| - 1].0 == k then Some(m[|m| - 1].1)
    else
      assert Keys(m) == Keys(m[..|m| - 1]) + [m[|m| - 1].0];
      Lookup(m[..|m| - 1], k)
  }

  /** `$j[$k] ?? null` on a decoded value; anything that is not an object yields null. */
  function Get(j: Json, k: string): Json {
    if j.JObj? then Lookup(j.members, k).GetOr(JNull) else JNull
  }

  /** `$j[$k] ?? null`: the stored value when `j` is an object holding `k`, else null. */
  lemma GetMeaning(j: Json, k: string)
    ensures j.JObj? && k in Keys(j.members) ==> Some(Get(j, k)) == Lookup(j.members, k)
    ensures !j.JObj? || k !in Keys(j.members) ==> Get(j, k) == JNull
    ensures Get(JObj([(k, JNull)]), k) == Get(JObj([]), k)
  {
  }

  /**
   * The text a scalar takes when bound as a query parameter: strings as they are,
   * integers in decimal, true as "1", false and null as "". Arrays are not given a
   * text here and read as "".
   */
  function ScalarText(j: Json): (r: string)
    ensures j.JStr? ==> r == j.s
    ensures j.JInt? ==> PhpString.IntCast(r) == j.i
    ensures j.JNull? ==> r == ""
  {
    match j
    case JStr(s) => s
    case JInt(i) => PhpString.IntCastOfIntToString(i); PhpString.IntToString(i)
    case JBool(b) => if b then "1" else ""
    case _ => ""
  }

  /** `$m[$k] = $v`: overwrite the value of an existing key in place, or append a new key. */
  function Put(m: seq<(string, Json)>, k: string, v: Json): (r: seq<(string, Json)>)
    ensures Lookup(r, k) == Some(v)
    ensures forall k' :: k' != k ==> Lookup(r, k') == Lookup(m, k')
    ensures Keys(m) <= Keys(r)
    ensures |r| <= |m| + 1
  {
    if k in Keys(m) then
      var r := seq(|m|, i requires 0 <= i < |m| => if m[i].0 == k then (k, v) else m[i]);
      assert Keys(r) == Keys(m);
      PutInPlace(m, k, v, r);
      r
    else
      var r := m + [(k, v)];
      assert r[..|r| - 1] == m;
      r
  }

  lemma {:induction false} PutInPlace(m: seq<(string, Json)>, k: string, v: Json, r: seq<(string, Json)>)
    requires k in Keys(m)
    requires |r| == |m| && forall i :: 0 <= i < |m| ==> r[i] == (if m[i].0 == k then (k, v) else m[i])
    ensures Lookup(r, k) == Some(v)
    ensures forall k' :: k' != k ==> Lookup(r, k') == Lookup(m, k')
    decreases |m|
  {
    var n := |m| - 1;
    if m[n].0 != k {
      assert Keys(m) == Keys(m[..n]) + [m[n].0];
      PutInPlace(m[..n], k, v, r[..n]);
    } else {
      forall k' | k' != k ensures Lookup(r, k') == Lookup(m, k') {
        PutOthers(m[..n], k, v, r[..n], k');
      }
    }
  }

  lemma {:induction false} PutOthers(m: seq<(string, Json)>, k: string, v: Json, r: seq<(string, Json)>, k': string)
    requires k' != k
    requires |r| == |m| && forall i :: 0 <= i < |m| ==> r[i] == (if m[i].0 == k then (k, v) else m[i])
    ensures Lookup(r, k') == Lookup(m, k')
    decreases |m|
  {
    if m != [] {
      var n := |m| - 1;
      PutOthers(m[..n], k, v, r[..n], k');
    }
  }

  /**
   * array_merge($a, $b) on string-keyed arrays: keys of `b` already in `a` keep their
   * place and take b's value, new keys are appended in b's order.
   */
  function Merge(a: seq<(string, Json)>, b: seq<(string, Json)>): (r: seq<(string, Json)>)
    ensures |a| <= |r| <= |a| + |b|
    ensures b == [] ==> r == a
    decreases |b|
  {
    if b == [] then a else Merge(Put(a, b[0].0, b[0].1), b[1..])
  }

  /** What a key of array_merge($a, $b) holds: b's value when b has the key, a's otherwise. */
  lemma {:induction false} MergeLookup(a: seq<(string, Json)>, b: seq<(string, Json)>, k: string)
    ensures Lookup(Merge(a, b), k) == if k in Keys(b) then Lookup(b, k) else Lookup(a, k)
    decreases |b|
  {
    if b != [] {
      MergeLookup(Put(a, b[0].0, b[0].1), b[1..], k);
      LookupCons(b, k);
    }
  }

  lemma {:induction false} LookupCons(b: seq<(string, Json)>, k: string)
    requires b != []
    ensures Lookup(b, k) == if k in Keys(b[1..]) then Lookup(b[1..], k)
                            else if b[0].0 == k then Some(b[0].1) else None
    decreases |b|
  {
    var n := |b| - 1;
    if n > 0 && b[n].0 != k {
      assert b[..n][1..] == b[1..][..n - 1];
      assert Keys(b[1..]) == Keys(b[1..][..n - 1]) + [b[n].0];
      LookupCons(b[..n], k);
    } else if n == 0 {
      assert Keys(b[1..]) == [];
    }
  }

  /** array_merge never moves or drops the keys of its first argument. */
  lemma {:induction false} MergeKeepsKeys(a: seq<(string, Json)>, b: seq<(string, Json)>)
    ensures Keys(a) <= Keys(Merge(a, b))
    decreases |b|
  {
    if b != [] {
      MergeKeepsKeys(Put(a, b[0].0, b[0].1), b[1..]);
    }
  }

  /** An array of two distinct keys holds each key's own value. */
  lemma LookupPair(k1: string, v1: Json, k2: string, v2: Json)
    requires k1 != k2
    ensures Keys([(k1, v1), (k2, v2)]) == [k1, k2]
    ensures Lookup([(k1, v1), (k2, v2)], k1) == Some(v1) && Lookup([(k1, v1), (k2, v2)], k2) == Some(v2)
  {
    var m := [(k1, v1), (k2, v2)];
    assert m[..1] == [(k1, v1)];
  }

  /** The keys of a four-entry array, in order. */
  lemma KeysFour(m: seq<(string, Json)>)
    requires |m| == 4
    ensures Keys(m) == [m[0].0, m[1].0, m[2].0, m[3].0]
  {
    var r := Keys(m);
    assert r[0] == m[0].0 && r[1] == m[1].0 && r[2] == m[2].0 && r[3] == m[3].0;
  }

  /** An array of four distinct keys holds each key's own value. */
  lemma LookupFour(k1: string, v1: Json, k2: string, v2: Json, k3: string, v3: Json, k4: string, v4: Json)
    requires k1 != k2 && k1 != k3 && k1 != k4 && k2 != k3 && k2 != k4 && k3 != k4
    ensures var m := [(k1, v1), (k2, v2), (k3, v3), (k4, v4)];
            && Lookup(m, k1) == Some(v1) && Lookup(m, k2) == Some(v2)
            && Lookup(m, k3) == Some(v3) && Lookup(m, k4) == Some(v4)
  {
    var m := [(k1, v1), (k2, v2), (k3, v3), (k4, v4)];
    var m3 := m[..3];
    var m2 := m3[..2];
    assert m2 == [(k1, v1), (k2, v2)];
    LookupPair(k1, v1, k2, v2);
    assert Lookup(m3, k3) == Some(v3);
    assert Lookup(m3, k1) == Some(v1) && Lookup(m3, k2) == Some(v2);
  }
}
