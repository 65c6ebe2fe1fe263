/** Rows of a table kept in insertion order, and the three shapes of SQL the
    store functions issue against them: `select ... where key = k`,
    `delete ... where key = k` and `select ... where p limit 1`.
    A key is given as a named function so that the same selection written in
    two places denotes the same value. */
module TableOps {
  import opened Wrappers

  /** The rows whose key is `k`, in table order. */
  function ByKey<T(!new), K(==,!new)>(s: seq<T>, key: T -> K, k: K): (r: seq<T>)
    ensures |r| <= |s|
    ensures forall x :: x in r <==> x in s && key(x) == k
  {
    if s == [] then []
    else if key(s[0]) == k then [s[0]] + ByKey(s[1..], key, k)
    else ByKey(s[1..], key, k)
  }

  /** `delete ... where key = k`: the rows whose key is not `k`, in table order. */
  function WithoutKey<T(!new), K(==,!new)>(s: seq<T>, key: T -> K, k: K): (r: seq<T>)
    ensures |r| <= |s|
    ensures forall x :: x in r <==> x in s && key(x) != k
  {
    if s == [] then []
    else if key(s[0]) == k then WithoutKey(s[1..], key, k)
    else [s[0]] + WithoutKey(s[1..], key, k)
  }

  /** `select ... where p limit 1`: the first row satisfying `p`, if any. */
  function FirstMatch<T>(s: seq<T>, p: T -> bool): (r: Option<T>)
    ensures r.Some? ==> exists i :: 0 <= i < |s| && s[i] == r.value && p(s[i])
    ensures r.Some? ==> p(r.value)
    ensures r.None? <==> forall i :: 0 <= i < |s| ==> !p(s[i])
  {
    if s == [] then None
    else if p(s[0]) then Some(s[0])
    else FirstMatch(s[1..], p)
  }

  /** `update ... set f(row) where p(row)`: the rows satisfying `p` replaced
      by `f` of them, the others kept, in table order. */
  function UpdateWhere<T>(s: seq<T>, p: T -> bool, f: T -> T): (r: seq<T>)
    ensures |r| == |s|
    ensures forall i :: 0 <= i < |s| ==> r[i] == if p(s[i]) then f(s[i]) else s[i]
  {
    seq(|s|, i requires 0 <= i < |s| => if p(s[i]) then f(s[i]) else s[i])
  }

  /** No row has key `k`, so nothing is selected. */
  lemma ByKeyNone<T(!new), K(!new)>(s: seq<T>, key: T -> K, k: K)
    requires forall x :: x in s ==> key(x) != k
    ensures ByKey(s, key, k) == []
  {
  }

  /** Selecting by key distributes over appending rows. */
  lemma {:induction false} ByKeyAppend<T(!new), K(!new)>(a: seq<T>, b: seq<T>, key: T -> K, k: K)
    ensures ByKey(a + b, key, k) == ByKey(a, key, k) + ByKey(b, key, k)
  {
    if a == [] {
      assert a + b == b;
    } else {
      var c := a + b;
      assert c[0] == a[0] && c[1..] == a[1..] + b;
      ByKeyAppend(a[1..], b, key, k);
      ByKeyFirst(a, key, k);
      ByKeyFirst(c, key, k);
    }
  }

  /** One step of the selection: the first row, if it has the key, then the rest. */
  lemma ByKeyFirst<T(!new), K(!new)>(s: seq<T>, key: T -> K, k: K)
    requires s != []
    ensures ByKey(s, key, k) == (if key(s[0]) == k then [s[0]] else []) + ByKey(s[1..], key, k)
  {
  }

  /** After deleting the rows of key `k`, none is left under `k` and the rows
      under every other key are exactly the old ones, in the old order. */
  lemma {:induction false} ByKeyWithoutKey<T(!new), K(!new)>(s: seq<T>, key: T -> K, k: K, k': K)
    ensures ByKey(WithoutKey(s, key, k), key, k') == if k == k' then [] else ByKey(s, key, k')
  {
    if s != [] {
      ByKeyWithoutKey(s[1..], key, k, k');
    }
  }

  /** The invariant "at most one row per key". */
  ghost predicate AtMostOnePerKey<T(!new), K(!new)>(s: seq<T>, key: T -> K)
  {
    forall k :: |ByKey(s, key, k)| <= 1
  }

  /** Deleting every row of key `key(row)` and then inserting `row` leaves
      exactly `row` under that key, leaves every other key as it was, and so
      keeps the invariant. */
  lemma Supersede<T(!new), K(!new)>(s: seq<T>, key: T -> K, row: T)
    ensures ByKey(WithoutKey(s, key, key(row)) + [row], key, key(row)) == [row]
    ensures forall k :: k != key(row) ==>
      ByKey(WithoutKey(s, key, key(row)) + [row], key, k) == ByKey(s, key, k)
    ensures AtMostOnePerKey(s, key) ==> AtMostOnePerKey(WithoutKey(s, key, key(row)) + [row], key)
  {
    var t := WithoutKey(s, key, key(row)) + [row];
    forall k
      ensures ByKey(t, key, k) == if k == key(row) then [row] else ByKey(s, key, k)
    {
      ByKeyAppend(WithoutKey(s, key, key(row)), [row], key, k);
      ByKeyWithoutKey(s, key, key(row), k);
    }
  }

  /** Deleting rows keeps the invariant. */
  lemma DeleteKeepsAtMostOne<T(!new), K(!new)>(s: seq<T>, key: T -> K, k: K)
    requires AtMostOnePerKey(s, key)
    ensures AtMostOnePerKey(WithoutKey(s, key, k), key)
  {
    forall k' ensures |ByKey(WithoutKey(s, key, k), key, k')| <= 1 {
      ByKeyWithoutKey(s, key, k, k');
    }
  }

  /** Under the invariant, two rows with the same key are the same row. */
  lemma {:induction false} AtMostOneSameRow<T(!new), K(!new)>(s: seq<T>, key: T -> K, x: T, y: T)
    requires AtMostOnePerKey(s, key)
    requires x in s && y in s && key(x) == key(y)
    ensures x == y
  {
    var b := ByKey(s, key, key(x));
    assert x in b && y in b;
    assert |b| <= 1;
  }
  /** An update that changes no row's key leaves the number of rows under every key as it was. */
  lemma {:induction false} SameKeysSameCounts<T(!new), K(!new)>(s: seq<T>, s': seq<T>, key: T -> K, k: K)
    requires |s'| == |s|
    requires forall i :: 0 <= i < |s| ==> key(s'[i]) == key(s[i])
    ensures |ByKey(s', key, k)| == |ByKey(s, key, k)|
  {
    if s != [] {
      SameKeysSameCounts(s[1..], s'[1..], key, k);
    }
  }

  /** So such an update keeps the invariant. */
  lemma SameKeysKeepAtMostOne<T(!new), K(!new)>(s: seq<T>, s': seq<T>, key: T -> K)
    requires |s'| == |s|
    requires forall i :: 0 <= i < |s| ==> key(s'[i]) == key(s[i])
    requires AtMostOnePerKey(s, key)
    ensures AtMostOnePerKey(s', key)
  {
    forall k ensures |ByKey(s', key, k)| <= 1 {
      SameKeysSameCounts(s, s', key, k);
    }
  }

  /** Deleting by one key never adds rows under another. */
  lemma {:induction false} WithoutKeyShrinks<T(!new), K(!new), J(!new)>(s: seq<T>, key2: T -> J, j: J, key: T -> K, k: K)
    ensures |ByKey(WithoutKey(s, key2, j), key, k)| <= |ByKey(s, key, k)|
  {
    if s != [] {
      WithoutKeyShrinks(s[1..], key2, j, key, k);
    }
  }

  /** So deleting by any key keeps the invariant of every key. */
  lemma WithoutKeyKeepsAtMostOne<T(!new), K(!new), J(!new)>(s: seq<T>, key2: T -> J, j: J, key: T -> K)
    requires AtMostOnePerKey(s, key)
    ensures AtMostOnePerKey(WithoutKey(s, key2, j), key)
  {
    forall k ensures |ByKey(WithoutKey(s, key2, j), key, k)| <= 1 {
      WithoutKeyShrinks(s, key2, j, key, k);
    }
  }

  /** An update that leaves a lookup's condition alone finds the same row,
      updated when the update touched it. */
  lemma {:induction false} FirstMatchUpdateWhere<T>(s: seq<T>, p: T -> bool, f: T -> T, q: T -> bool)
    requires forall x :: q(f(x)) == q(x)
    ensures FirstMatch(UpdateWhere(s, p, f), q) ==
      if FirstMatch(s, q).None? then None
      else Some(if p(FirstMatch(s, q).value) then f(FirstMatch(s, q).value) else FirstMatch(s, q).value)
  {
    if s != [] {
      assert UpdateWhere(s, p, f)[1..] == UpdateWhere(s[1..], p, f);
      FirstMatchUpdateWhere(s[1..], p, f, q);
    }
  }

  /** Appending a row whose key no row has keeps the invariant. */
  lemma AppendFreshKeepsAtMostOne<T(!new), K(!new)>(s: seq<T>, key: T -> K, row: T)
    requires AtMostOnePerKey(s, key)
    requires forall x :: x in s ==> key(x) != key(row)
    ensures AtMostOnePerKey(s + [row], key)
  {
    forall k ensures |ByKey(s + [row], key, k)| <= 1 {
      ByKeyAppend(s, [row], key, k);
      if k == key(row) {
        ByKeyNone(s, key, k);
      }
    }
  }
}
