/** Small sequence and map utilities shared by the rest of the model:
    `some`, the `filter`s the catalogs and forms use, `reduce` summation and
    summation over the values of an object. */
module Collections {

  datatype Option<+T> = None | Some(value: T)

  /** Some element has key `id` (`s.some(x => key(x) === id)`). */
  predicate HasKey<T>(s: seq<T>, key: T -> int, id: int) {
    exists i :: 0 <= i < |s| && key(s[i]) == id
  }

  /** `s.filter(x => key(x) !== id)`: every element whose key is not `id`,
      in the original order. */
  function RemoveKey<T>(s: seq<T>, key: T -> int, id: int): (r: seq<T>)
    ensures |r| <= |s|
    ensures forall i :: 0 <= i < |r| ==> key(r[i]) != id
    ensures forall i :: 0 <= i < |r| ==> r[i] in s
    ensures forall i :: 0 <= i < |s| && key(s[i]) != id ==> s[i] in r
    decreases |s|
  {
    if s == [] then []
    else (if key(s[0]) != id then [s[0]] else []) + RemoveKey(s[1..], key, id)
  }

  /** `s.filter(x => key(x) === id).length`. */
  function CountKey<T>(s: seq<T>, key: T -> int, id: int): (n: nat)
    ensures n <= |s|
    ensures n == 0 <==> !HasKey(s, key, id)
    decreases |s|
  {
    if s == [] then 0
    else (if key(s[0]) == id then 1 else 0) + CountKey(s[1..], key, id)
  }

  /** Removing drops exactly the counted elements. */
  lemma {:induction false} RemoveKeyLength<T>(s: seq<T>, key: T -> int, id: int)
    ensures |RemoveKey(s, key, id)| == |s| - CountKey(s, key, id)
    decreases |s|
  {
    if s != [] {
      RemoveKeyLength(s[1..], key, id);
    }
  }

  /** Removing a key no element has changes nothing. */
  lemma {:induction false} RemoveKeyAbsent<T>(s: seq<T>, key: T -> int, id: int)
    requires !HasKey(s, key, id)
    ensures RemoveKey(s, key, id) == s
    decreases |s|
  {
    if s != [] {
      assert key(s[0]) != id;
      assert !HasKey(s[1..], key, id) by {
        forall i | 0 <= i < |s[1..]| ensures key(s[1..][i]) != id {
          assert s[1..][i] == s[i + 1];
        }
      }
      RemoveKeyAbsent(s[1..], key, id);
    }
  }

  lemma {:induction false} RemoveKeyAppend<T>(a: seq<T>, b: seq<T>, key: T -> int, id: int)
    ensures RemoveKey(a + b, key, id) == RemoveKey(a, key, id) + RemoveKey(b, key, id)
    decreases |a|
  {
    if a == [] {
      assert a + b == b;
    } else {
      assert (a + b)[1..] == a[1..] + b;
      RemoveKeyAppend(a[1..], b, key, id);
    }
  }

  /** `s.filter(y => y !== x)`: every occurrence of `x` dropped, the rest in order. */
  function Without<T(==)>(s: seq<T>, x: T): (r: seq<T>)
    ensures x !in r
    ensures forall i :: 0 <= i < |r| ==> r[i] in s
    ensures forall i :: 0 <= i < |s| && s[i] != x ==> s[i] in r
    ensures |r| <= |s|
    decreases |s|
  {
    if s == [] then []
    else (if s[0] != x then [s[0]] else []) + Without(s[1..], x)
  }

  /** Dropping a value that does not occur changes nothing. */
  lemma {:induction false} WithoutAbsent<T>(s: seq<T>, x: T)
    requires x !in s
    ensures Without(s, x) == s
    decreases |s|
  {
    if s != [] {
      WithoutAbsent(s[1..], x);
    }
  }

  /** Dropping distributes over concatenation, so the order of the rest is kept. */
  lemma {:induction false} WithoutAppend<T>(a: seq<T>, b: seq<T>, x: T)
    ensures Without(a + b, x) == Without(a, x) + Without(b, x)
    decreases |a|
  {
    if a == [] {
      assert a + b == b;
    } else {
      assert (a + b)[1..] == a[1..] + b;
      WithoutAppend(a[1..], b, x);
    }
  }

  /** `s.reduce((sum, x) => sum + f(x), 0)`: a left fold. */
  function SumOf<T>(s: seq<T>, f: T -> int): int
    decreases |s|
  {
    if s == [] then 0 else SumOf(s[..|s| - 1], f) + f(s[|s| - 1])
  }

  lemma {:induction false} SumOfAppend<T>(a: seq<T>, b: seq<T>, f: T -> int)
    ensures SumOf(a + b, f) == SumOf(a, f) + SumOf(b, f)
    decreases |b|
  {
    if b == [] {
      assert a + b == a;
    } else {
      var n := |b| - 1;
      assert (a + b)[..|a + b| - 1] == a + b[..n];
      SumOfAppend(a, b[..n], f);
    }
  }

  /** Some key of a non-empty map. */
  ghost function PickKey<K>(m: map<K, int>): (k: K)
    requires |m| > 0
    ensures k in m
  {
    var k :| k in m; k
  }

  /** Sum of the values of a map, in no particular key order (the sum over
      `Object.values(...)` of a record). */
  ghost function MapSum<K>(m: map<K, int>): int
    decreases |m|
  {
    if |m| == 0 then 0
    else
      var k := PickKey(m);
      assert (m - {k}).Keys == m.Keys - {k};
      m[k] + MapSum(m - {k})
  }

  /** The sum does not depend on which key is taken out first. */
  lemma {:induction false} MapSumRemove<K>(m: map<K, int>, k: K)
    requires k in m
    ensures MapSum(m) == m[k] + MapSum(m - {k})
    decreases |m|
  {
    var j := PickKey(m);
    if j != k {
      var mj, mk := m - {j}, m - {k};
      assert mj.Keys == m.Keys - {j};
      assert mk.Keys == m.Keys - {k};
      calc {
        MapSum(m);
        m[j] + MapSum(mj);
        { MapSumRemove(mj, k); }
        m[j] + m[k] + MapSum(mj - {k});
        { assert mj - {k} == mk - {j}; }
        m[j] + m[k] + MapSum(mk - {j});
        { MapSumRemove(mk, j); }
        m[k] + MapSum(mk);
      }
    }
  }

  /** Changing one value changes the sum by the difference. */
  lemma MapSumUpdate<K>(m: map<K, int>, k: K, v: int)
    requires k in m
    ensures MapSum(m[k := v]) == MapSum(m) - m[k] + v
  {
    MapSumRemove(m, k);
    MapSumRemove(m[k := v], k);
    assert m[k := v] - {k} == m - {k};
  }

  lemma {:induction false} MapSumZero<K>(m: map<K, int>)
    requires forall k :: k in m ==> m[k] == 0
    ensures MapSum(m) == 0
    decreases |m|
  {
    if |m| != 0 {
      var k := PickKey(m);
      MapSumRemove(m, k);
      MapSumZero(m - {k});
    }
  }

  lemma {:induction false} MapSumNonNegative<K>(m: map<K, int>)
    requires forall k :: k in m ==> m[k] >= 0
    ensures MapSum(m) >= 0
    decreases |m|
  {
    if |m| != 0 {
      var k := PickKey(m);
      MapSumRemove(m, k);
      MapSumNonNegative(m - {k});
    }
  }
}
