/** The `filteredModels.sort(comparator)` step of `searchModels`.
    The comparator decides on the models' keys alone (Catalog.CompareByKeys), so
    the sort is stated for any key function `key` and used with Catalog.KeyOf.
    `Array.prototype.sort` is stable, so the result is the one arrangement that
    is ordered by the comparator and keeps tied models in their input order.
    SortByKey defines that arrangement, SortedStableUnique shows that no other
    arrangement has both properties, and SortInPlace sorts an array in place
    to it, as the source does. */
module PrioritySort {
  import opened Catalog

  /** Ordered by the comparator: no model is followed by one that must precede it. */
  ghost predicate Sorted<T>(s: seq<T>, key: T -> Key)
  {
    forall i, j :: 0 <= i < j < |s| ==> CompareKeys(key(s[i]), key(s[j])) <= 0
  }

  /** The models of `s` whose key is `k`, in their order in `s`. */
  function Tied<T>(s: seq<T>, key: T -> Key, k: Key): seq<T>
  {
    if s == [] then []
    else Tied(s[..|s| - 1], key, k) + (if key(s[|s| - 1]) == k then [s[|s| - 1]] else [])
  }

  /** `t` keeps the relative order of every group of tied models of `s`. */
  ghost predicate SameTies<T>(s: seq<T>, t: seq<T>, key: T -> Key)
  {
    forall k :: Tied(s, key, k) == Tied(t, key, k)
  }

  lemma {:induction false} TiedConcat<T>(a: seq<T>, b: seq<T>, key: T -> Key, k: Key)
    ensures Tied(a + b, key, k) == Tied(a, key, k) + Tied(b, key, k)
    decreases |b|
  {
    if b == [] {
      assert a + b == a;
    } else {
      var b' := b[..|b| - 1];
      assert (a + b)[..|a + b| - 1] == a + b';
      TiedConcat(a, b', key, k);
    }
  }

  /** A model occurs in its own group exactly as often as in the whole sequence. */
  lemma {:induction false} TiedCount<T>(s: seq<T>, key: T -> Key, m: T)
    ensures multiset(Tied(s, key, key(m)))[m] == multiset(s)[m]
  {
    if s != [] {
      var s' := s[..|s| - 1];
      assert s == s' + [s[|s| - 1]];
      TiedCount(s', key, m);
    }
  }

  /** Keeping every group's order keeps the multiset of models. */
  lemma SameTiesPermutation<T>(s: seq<T>, t: seq<T>, key: T -> Key)
    requires SameTies(s, t, key)
    ensures multiset(s) == multiset(t)
  {
    forall m ensures multiset(s)[m] == multiset(t)[m] {
      TiedCount(s, key, m);
      TiedCount(t, key, m);
    }
  }

  /** Inserts `x` into `s` after every model that may come before it, as the
      insertion step of a stable sort does. */
  function Insert<T>(s: seq<T>, x: T, key: T -> Key): seq<T>
  {
    if s == [] || CompareKeys(key(s[|s| - 1]), key(x)) <= 0 then s + [x]
    else Insert(s[..|s| - 1], x, key) + [s[|s| - 1]]
  }

  /** The stable sort by the comparator on keys. */
  function SortByKey<T>(s: seq<T>, key: T -> Key): seq<T>
  {
    if s == [] then [] else Insert(SortByKey(s[..|s| - 1], key), s[|s| - 1], key)
  }

  lemma {:induction false} InsertPermutation<T>(s: seq<T>, x: T, key: T -> Key)
    ensures multiset(Insert(s, x, key)) == multiset(s) + multiset{x}
  {
    if s != [] && CompareKeys(key(s[|s| - 1]), key(x)) > 0 {
      var s' := s[..|s| - 1];
      assert s == s' + [s[|s| - 1]];
      InsertPermutation(s', x, key);
    }
  }

  /** The sort is a permutation of its input. */
  lemma {:induction false} SortByKeyPermutation<T>(s: seq<T>, key: T -> Key)
    ensures multiset(SortByKey(s, key)) == multiset(s)
  {
    if s != [] {
      var s' := s[..|s| - 1];
      assert s == s' + [s[|s| - 1]];
      SortByKeyPermutation(s', key);
      InsertPermutation(SortByKey(s', key), s[|s| - 1], key);
    }
  }

  lemma {:induction false} InsertSorted<T>(s: seq<T>, x: T, key: T -> Key)
    requires Sorted(s, key)
    ensures Sorted(Insert(s, x, key), key)
  {
    if s == [] {
    } else if CompareKeys(key(s[|s| - 1]), key(x)) <= 0 {
      var r := s + [x];
      forall i, j | 0 <= i < j < |r| ensures CompareKeys(key(r[i]), key(r[j])) <= 0 {
        if j == |s| && i < |s| - 1 {
          CompareKeysTransitive(key(s[i]), key(s[|s| - 1]), key(x));
        }
      }
    } else {
      var s', e := s[..|s| - 1], s[|s| - 1];
      InsertSorted(s', x, key);
      InsertPermutation(s', x, key);
      var p := Insert(s', x, key);
      var r := p + [e];
      CompareKeysAntisymmetric(key(e), key(x));
      forall i, j | 0 <= i < j < |r| ensures CompareKeys(key(r[i]), key(r[j])) <= 0 {
        if j == |p| {
          assert r[i] in multiset(p);
          assert r[i] in multiset(s') || r[i] == x;
          if r[i] != x {
            var q :| 0 <= q < |s'| && s'[q] == r[i];
            assert s[q] == r[i];
          }
        }
      }
    }
  }

  /** Inserting `x` appends it to its own group and leaves every other group alone. */
  lemma {:induction false} InsertTies<T>(s: seq<T>, x: T, key: T -> Key, k: Key)
    ensures Tied(Insert(s, x, key), key, k) == Tied(s, key, k) + (if key(x) == k then [x] else [])
  {
    if s == [] || CompareKeys(key(s[|s| - 1]), key(x)) <= 0 {
      TiedConcat(s, [x], key, k);
      assert Tied([x], key, k) == Tied([], key, k) + (if key(x) == k then [x] else []);
    } else {
      var s', e := s[..|s| - 1], s[|s| - 1];
      assert s == s' + [e];
      assert key(e) != key(x);
      var p := Insert(s', x, key);
      assert Insert(s, x, key) == p + [e];
      InsertTies(s', x, key, k);
      assert Tied(p + [e], key, k) == Tied(p, key, k) + (if key(e) == k then [e] else []) by {
        assert (p + [e])[..|p + [e]| - 1] == p;
      }
      assert Tied(s, key, k) == Tied(s', key, k) + (if key(e) == k then [e] else []);
    }
  }

  /** The sort orders its output by the comparator. */
  lemma {:induction false} SortByKeySorted<T>(s: seq<T>, key: T -> Key)
    ensures Sorted(SortByKey(s, key), key)
  {
    if s != [] {
      SortByKeySorted(s[..|s| - 1], key);
      InsertSorted(SortByKey(s[..|s| - 1], key), s[|s| - 1], key);
    }
  }

  /** The sort is stable: tied models keep their input order. */
  lemma {:induction false} SortByKeyStable<T>(s: seq<T>, key: T -> Key)
    ensures SameTies(SortByKey(s, key), s, key)
  {
    if s != [] {
      var s', x := s[..|s| - 1], s[|s| - 1];
      SortByKeyStable(s', key);
      forall k ensures Tied(SortByKey(s, key), key, k) == Tied(s, key, k) {
        InsertTies(SortByKey(s', key), x, key, k);
      }
    }
  }

  /** Two ordered arrangements of the same models end in models with equal keys. */
  lemma LastKeysEqual<T>(s: seq<T>, t: seq<T>, key: T -> Key)
    requires Sorted(s, key) && Sorted(t, key) && multiset(s) == multiset(t)
    requires 0 < |s| == |t|
    ensures key(s[|s| - 1]) == key(t[|t| - 1])
  {
    var n := |s|;
    var a, b := s[n - 1], t[n - 1];
    assert b in multiset(s);
    var p :| 0 <= p < n && s[p] == b;
    assert CompareKeys(key(b), key(a)) <= 0;
    assert a in multiset(t);
    var q :| 0 <= q < n && t[q] == a;
    assert CompareKeys(key(a), key(b)) <= 0;
    CompareKeysAntisymmetric(key(a), key(b));
  }

  /** When the last models share a key, they are the same model (the last of
      their group) and the rest keep the same groups. */
  lemma DropLastTies<T>(s: seq<T>, t: seq<T>, key: T -> Key)
    requires SameTies(s, t, key) && 0 < |s| && 0 < |t|
    requires key(s[|s| - 1]) == key(t[|t| - 1])
    ensures s[|s| - 1] == t[|t| - 1]
    ensures SameTies(s[..|s| - 1], t[..|t| - 1], key)
  {
    var a, b := s[|s| - 1], t[|t| - 1];
    var s', t' := s[..|s| - 1], t[..|t| - 1];
    var ts, tt := Tied(s, key, key(a)), Tied(t, key, key(a));
    assert ts[|ts| - 1] == a && tt[|tt| - 1] == b;
    forall k ensures Tied(s', key, k) == Tied(t', key, k) {
      var x, y := Tied(s', key, k), Tied(t', key, k);
      var e := if key(a) == k then [a] else [];
      assert Tied(s, key, k) == x + e;
      assert Tied(t, key, k) == y + e;
      assert x == (x + e)[..|x|] && y == (y + e)[..|y|];
    }
  }

  /** Ordered and stable determine the result: any stable sort by this
      comparator (such as the engine's `Array.prototype.sort`) gives
      exactly SortByKey. */
  lemma {:induction false} SortedStableUnique<T>(s: seq<T>, t: seq<T>, key: T -> Key)
    requires Sorted(s, key) && Sorted(t, key) && SameTies(s, t, key)
    ensures s == t
    decreases |s|
  {
    SameTiesPermutation(s, t, key);
    assert |s| == |multiset(s)| == |multiset(t)| == |t|;
    if s != [] {
      var n := |s|;
      LastKeysEqual(s, t, key);
      DropLastTies(s, t, key);
      SortedStableUnique(s[..n - 1], t[..n - 1], key);
      assert s == s[..n - 1] + [s[n - 1]] && t == t[..n - 1] + [t[n - 1]];
    }
  }

  /** Every model of `s[lo..hi]` must follow `x`. */
  ghost predicate AllFollow<T>(s: seq<T>, lo: int, hi: int, x: T, key: T -> Key)
    requires 0 <= lo <= hi <= |s|
  {
    forall q :: lo <= q < hi ==> CompareKeys(key(s[q]), key(x)) > 0
  }

  lemma AllFollowExtend<T>(s: seq<T>, lo: int, hi: int, x: T, key: T -> Key)
    requires 0 < lo <= hi <= |s|
    requires AllFollow(s, lo, hi, x, key) && CompareKeys(key(s[lo - 1]), key(x)) > 0
    ensures AllFollow(s, lo - 1, hi, x, key)
  {
  }

  /** With the insertion point known, Insert places `x` there. */
  lemma {:induction false} InsertAt<T>(s: seq<T>, x: T, key: T -> Key, j: nat)
    requires j <= |s|
    requires j == 0 || CompareKeys(key(s[j - 1]), key(x)) <= 0
    requires AllFollow(s, j, |s|, x, key)
    ensures Insert(s, x, key) == s[..j] + [x] + s[j..]
    decreases |s|
  {
    if j < |s| {
      var s', e := s[..|s| - 1], s[|s| - 1];
      assert Insert(s, x, key) == Insert(s', x, key) + [e];
      InsertAt(s', x, key, j);
      assert s'[..j] == s[..j];
      assert s[j..] == s'[j..] + [e];
      calc {
        Insert(s, x, key);
        s'[..j] + [x] + s'[j..] + [e];
        s[..j] + [x] + (s'[j..] + [e]);
      }
    } else {
      assert s[..j] == s && s[j..] == [];
    }
  }

  /** One step of the insertion sort: `a[..i]` is already sorted, and the
      model at `a[i]` is moved left past every model that must follow it. */
  method InsertLast<T>(a: array<T>, i: nat, key: T -> Key)
    requires i < a.Length
    modifies a
    ensures a[..i + 1] == Insert(old(a[..i]), old(a[i]), key)
    ensures a[i + 1..] == old(a[i + 1..])
  {
    ghost var sorted := a[..i];
    var x := a[i];
    var j := i;
    while 0 < j && CompareKeys(key(a[j - 1]), key(x)) > 0
      invariant 0 <= j <= i
      invariant forall p :: 0 <= p < j ==> a[p] == sorted[p]
      invariant a[j] == x
      invariant forall p :: j < p <= i ==> a[p] == sorted[p - 1]
      invariant forall p :: i < p < a.Length ==> a[p] == old(a[p])
      invariant AllFollow(sorted, j, i, x, key)
    {
      AllFollowExtend(sorted, j, i, x, key);
      a[j - 1], a[j] := a[j], a[j - 1];
      j := j - 1;
    }
    InsertAt(sorted, x, key, j);
    var r := sorted[..j] + [x] + sorted[j..];
    forall p | 0 <= p <= i ensures a[p] == r[p] {
      if p < j {
        assert r[p] == sorted[p];
      } else if p > j {
        assert r[p] == sorted[p - 1];
      }
    }
  }

  /** Sorts `a` in place, stably, by the comparator on keys, as
      `filteredModels.sort` does: an insertion sort that moves each model
      left past every model that must follow it. */
  method SortInPlace<T>(a: array<T>, key: T -> Key)
    modifies a
    ensures a[..] == SortByKey(old(a[..]), key)
  {
    ghost var input := a[..];
    var i := 0;
    while i < a.Length
      invariant 0 <= i <= a.Length
      invariant a[..i] == SortByKey(input[..i], key)
      invariant a[i..] == input[i..]
    {
      ghost var before := a[..];
      InsertLast(a, i, key);
      assert input[..i + 1] == input[..i] + [before[i]];
      assert a[i + 1..] == before[i + 1..];
      i := i + 1;
    }
    assert input[..a.Length] == input;
  }
}
