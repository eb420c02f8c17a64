/**
 * The descending sort both leaderboards and the wallet list perform with
 * `array.sort((a, b) => key(b) - key(a))`. `Array.prototype.sort` is stable,
 * so elements with equal keys keep their input order. The in-place algorithm
 * here is insertion sort; `SortDesc` is its functional specification.
 */
module StableSort {
  import opened Seqs

  /** Non-increasing by `key`. */
  ghost predicate SortedDesc<T>(s: seq<T>, key: T -> real)
  {
    forall i, j :: 0 <= i < j < |s| ==> key(s[i]) >= key(s[j])
  }

  /** Places `x` after every element from the right end whose key is at least `key(x)`. */
  function InsertDesc<T>(s: seq<T>, x: T, key: T -> real): seq<T>
  {
    if |s| == 0 then [x]
    else if key(s[|s| - 1]) < key(x) then InsertDesc(s[..|s| - 1], x, key) + [s[|s| - 1]]
    else s + [x]
  }

  /** The stable descending sort of `s`. */
  function SortDesc<T>(s: seq<T>, key: T -> real): seq<T>
  {
    if |s| == 0 then [] else InsertDesc(SortDesc(s[..|s| - 1], key), s[|s| - 1], key)
  }

  /** Selects the elements whose key is `k`. */
  function HasKey<T>(key: T -> real, k: real): T -> bool
  {
    (x: T) => key(x) == k
  }

  lemma {:induction false} InsertDescPermutes<T>(s: seq<T>, x: T, key: T -> real)
    ensures multiset(InsertDesc(s, x, key)) == multiset(s) + multiset{x}
  {
    if |s| > 0 && key(s[|s| - 1]) < key(x) {
      InsertDescPermutes(s[..|s| - 1], x, key);
      assert s == s[..|s| - 1] + [s[|s| - 1]];
    }
  }

  lemma {:induction false} InsertDescSorted<T>(s: seq<T>, x: T, key: T -> real)
    requires SortedDesc(s, key)
    ensures SortedDesc(InsertDesc(s, x, key), key)
  {
    if |s| > 0 && key(s[|s| - 1]) < key(x) {
      var init, last := s[..|s| - 1], s[|s| - 1];
      InsertDescSorted(init, x, key);
      InsertDescPermutes(init, x, key);
      var t := InsertDesc(init, x, key);
      forall i | 0 <= i < |t| ensures key(t[i]) >= key(last) {
        assert t[i] in multiset(init) + multiset{x};
        if t[i] != x {
          var j :| 0 <= j < |init| && init[j] == t[i];
          assert s[j] == t[i];
        }
      }
    }
  }

  /** The result is sorted non-increasingly by key. */
  lemma {:induction false} SortDescSorted<T>(s: seq<T>, key: T -> real)
    ensures SortedDesc(SortDesc(s, key), key)
  {
    if |s| > 0 {
      SortDescSorted(s[..|s| - 1], key);
      InsertDescSorted(SortDesc(s[..|s| - 1], key), s[|s| - 1], key);
    }
  }

  /** The result is a permutation of the input. */
  lemma {:induction false} SortDescPermutes<T>(s: seq<T>, key: T -> real)
    ensures multiset(SortDesc(s, key)) == multiset(s)
  {
    if |s| > 0 {
      SortDescPermutes(s[..|s| - 1], key);
      InsertDescPermutes(SortDesc(s[..|s| - 1], key), s[|s| - 1], key);
      assert s == s[..|s| - 1] + [s[|s| - 1]];
    }
  }

  lemma {:induction false} InsertDescStable<T>(s: seq<T>, x: T, key: T -> real, k: real)
    ensures Filter(InsertDesc(s, x, key), HasKey(key, k)) == Filter(s, HasKey(key, k)) + Filter([x], HasKey(key, k))
  {
    var p := HasKey(key, k);
    if |s| == 0 {
    } else if key(s[|s| - 1]) < key(x) {
      var init, last := s[..|s| - 1], s[|s| - 1];
      InsertDescStable(init, x, key, k);
      FilterConcat(InsertDesc(init, x, key), [last], p);
      FilterConcat(init, [last], p);
      assert s == init + [last];
      // x and last have different keys, so at most one of them has key k
      assert Filter([x], p) == [] || Filter([last], p) == [];
    } else {
      FilterConcat(s, [x], p);
    }
  }

  /** Stability: for every key, the elements with that key appear in their input order. */
  lemma {:induction false} SortDescStable<T>(s: seq<T>, key: T -> real, k: real)
    ensures Filter(SortDesc(s, key), HasKey(key, k)) == Filter(s, HasKey(key, k))
  {
    if |s| > 0 {
      var init, last := s[..|s| - 1], s[|s| - 1];
      SortDescStable(init, key, k);
      InsertDescStable(SortDesc(init, key), last, key, k);
      FilterConcat(init, [last], HasKey(key, k));
      assert s == init + [last];
    }
  }

  /** The first element of a sequence sorted by key carries the largest key. */
  lemma SortedHeadIsMax<T>(s: seq<T>, key: T -> real, j: int)
    requires SortedDesc(s, key) && 0 <= j < |s|
    ensures key(s[0]) >= key(s[j])
  {
  }

  /** A non-empty run of key `k` comes from some element with key `k`. */
  lemma {:induction false} FilterHasKeyWitness<T>(s: seq<T>, key: T -> real, k: real) returns (j: nat)
    requires |Filter(s, HasKey(key, k))| > 0
    ensures j < |s| && key(s[j]) == k
  {
    if key(s[0]) == k {
      j := 0;
    } else {
      var j' := FilterHasKeyWitness(s[1..], key, k);
      j := j' + 1;
    }
  }

  /**
   * Two sequences that are sorted by key and have the same run of elements for
   * every key are equal: a stable descending sort has exactly one possible result.
   */
  lemma {:induction false} SortedRunsDetermine<T>(r: seq<T>, t: seq<T>, key: T -> real)
    requires SortedDesc(r, key) && SortedDesc(t, key)
    requires forall k :: Filter(r, HasKey(key, k)) == Filter(t, HasKey(key, k))
    ensures r == t
    decreases |r| + |t|
  {
    if |r| == 0 || |t| == 0 {
      // an element of the non-empty one has a non-empty run, which the empty one lacks
      var w := if |r| == 0 then t else r;
      if |w| > 0 {
        FilterNonEmpty(w, HasKey(key, key(w[0])), 0);
      }
    } else {
      var kr, kt := key(r[0]), key(t[0]);
      FilterNonEmpty(r, HasKey(key, key(r[0])), 0);
      var jt := FilterHasKeyWitness(t, key, kr);
      SortedHeadIsMax(t, key, jt);
      FilterNonEmpty(t, HasKey(key, key(t[0])), 0);
      var jr := FilterHasKeyWitness(r, key, kt);
      SortedHeadIsMax(r, key, jr);
      assert kr == kt;
      assert Filter(r, HasKey(key, kr))[0] == r[0];
      assert Filter(t, HasKey(key, kt))[0] == t[0];
      forall k ensures Filter(r[1..], HasKey(key, k)) == Filter(t[1..], HasKey(key, k)) {
        if k == kr {
          assert Filter(r[1..], HasKey(key, k)) == Filter(r, HasKey(key, k))[1..];
          assert Filter(t[1..], HasKey(key, k)) == Filter(t, HasKey(key, k))[1..];
        } else {
          assert Filter(r[1..], HasKey(key, k)) == Filter(r, HasKey(key, k));
          assert Filter(t[1..], HasKey(key, k)) == Filter(t, HasKey(key, k));
        }
      }
      SortedRunsDetermine(r[1..], t[1..], key);
    }
  }

  /**
   * Any stable descending sort of `s` (sorted by key, and keeping the input order
   * among equal keys) returns exactly `SortDesc(s, key)`.
   */
  lemma StableSortIsUnique<T>(s: seq<T>, r: seq<T>, key: T -> real)
    requires SortedDesc(r, key)
    requires forall k :: Filter(r, HasKey(key, k)) == Filter(s, HasKey(key, k))
    ensures r == SortDesc(s, key)
  {
    SortDescSorted(s, key);
    forall k ensures Filter(r, HasKey(key, k)) == Filter(SortDesc(s, key), HasKey(key, k)) {
      SortDescStable(s, key, k);
    }
    SortedRunsDetermine(r, SortDesc(s, key), key);
  }

  /**
   * Where `InsertDesc` puts `x`: at position `j`, when every element from `j` on has
   * a smaller key and the element before `j` (if any) does not.
   */
  lemma {:induction false} InsertDescAt<T>(s: seq<T>, j: nat, x: T, key: T -> real)
    requires j <= |s|
    requires forall k :: j <= k < |s| ==> key(s[k]) < key(x)
    requires j == 0 || key(s[j - 1]) >= key(x)
    ensures InsertDesc(s, x, key) == s[..j] + [x] + s[j..]
  {
    if |s| > j {
      var init := s[..|s| - 1];
      InsertDescAt(init, j, x, key);
      assert init[..j] == s[..j] && init[j..] + [s[|s| - 1]] == s[j..];
    }
  }

  /** Moves `a[i]` left into the sorted prefix `a[..i]`, past every element with a smaller key. */
  method InsertInPlace<T>(a: array<T>, i: nat, key: T -> real)
    requires i < a.Length
    modifies a
    ensures a[..i + 1] == InsertDesc(old(a[..i]), old(a[i]), key)
    ensures a[i + 1..] == old(a[i + 1..])
  {
    var x := a[i];
    ghost var done := a[..i];
    var j := i;
    while j > 0 && key(a[j - 1]) < key(x)
      invariant 0 <= j <= i
      invariant forall k :: 0 <= k < j ==> a[k] == done[k]
      invariant forall k :: j < k <= i ==> a[k] == done[k - 1]
      invariant forall k :: i < k < a.Length ==> a[k] == old(a[k])
      invariant forall k :: j <= k < i ==> key(done[k]) < key(x)
    {
      a[j] := a[j - 1];
      j := j - 1;
    }
    a[j] := x;
    InsertDescAt(done, j, x, key);
    ghost var r := done[..j] + [x] + done[j..];
    assert forall k :: 0 <= k <= i ==> a[k] == r[k];
    assert a[..i + 1] == r;
  }

  /** Sorts `a` in place, descending by `key`, keeping equal keys in input order. */
  method SortInPlace<T>(a: array<T>, key: T -> real)
    modifies a
    ensures a[..] == SortDesc(old(a[..]), key)
  {
    ghost var input := a[..];
    var i := 0;
    while i < a.Length
      invariant 0 <= i <= a.Length
      invariant a[..i] == SortDesc(input[..i], key)
      invariant forall k :: i <= k < a.Length ==> a[k] == input[k]
    {
      ghost var before := a[..];
      InsertInPlace(a, i, key);
      assert forall k :: i < k < a.Length ==> a[k] == a[i + 1..][k - i - 1] == before[i + 1..][k - i - 1] == before[k];
      assert input[..i + 1][..i] == input[..i];
      i := i + 1;
    }
    assert input[..a.Length] == input;
  }
}
