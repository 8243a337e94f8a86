/**
 * `list.sort(key=..., reverse=True)` on keys that are already computed:
 * a stable sort into non-increasing key order. Elements with equal keys
 * keep their relative order, as Python guarantees for `reverse=True`.
 */
module StableSort {

  /** An element together with its sort key. */
  datatype Ranked<T> = Ranked(key: int, item: T)

  /** The elements without their keys. */
  function Items<T>(s: seq<Ranked<T>>): (r: seq<T>)
    ensures |r| == |s| && forall i :: 0 <= i < |s| ==> r[i] == s[i].item
  {
    if s == [] then [] else [s[0].item] + Items(s[1..])
  }

  ghost predicate NonIncreasing<T>(s: seq<Ranked<T>>)
  {
    forall i, j :: 0 <= i < j < |s| ==> s[i].key >= s[j].key
  }

  /** The elements whose key is `k`, in their order in `s`. */
  function WithKey<T>(s: seq<Ranked<T>>, k: int): seq<Ranked<T>>
  {
    if s == [] then [] else (if s[0].key == k then [s[0]] else []) + WithKey(s[1..], k)
  }

  /** Put `x` before the first element whose key is not larger than its own. */
  function Insert<T>(x: Ranked<T>, s: seq<Ranked<T>>): seq<Ranked<T>>
  {
    if s == [] || s[0].key <= x.key then [x] + s else [s[0]] + Insert(x, s[1..])
  }

  /** Stable sort into non-increasing key order, by insertion from the back. */
  function SortDesc<T>(s: seq<Ranked<T>>): seq<Ranked<T>>
  {
    if s == [] then [] else Insert(s[0], SortDesc(s[1..]))
  }

  // -----------------------------------------------------------------------
  // Insert
  // -----------------------------------------------------------------------

  lemma {:induction false} InsertSorted<T>(x: Ranked<T>, s: seq<Ranked<T>>)
    requires NonIncreasing(s)
    ensures |Insert(x, s)| == |s| + 1
    ensures Insert(x, s)[0] == if s == [] || s[0].key <= x.key then x else s[0]
    ensures NonIncreasing(Insert(x, s))
  {
    if s != [] && s[0].key > x.key {
      InsertSorted(x, s[1..]);
    }
  }

  lemma {:induction false} InsertPermutes<T>(x: Ranked<T>, s: seq<Ranked<T>>)
    ensures multiset(Insert(x, s)) == multiset(s) + multiset{x}
    ensures multiset(Items(Insert(x, s))) == multiset(Items(s)) + multiset{x.item}
  {
    if s != [] && s[0].key > x.key {
      InsertPermutes(x, s[1..]);
      assert s == [s[0]] + s[1..];
      assert Items(s) == [s[0].item] + Items(s[1..]);
    }
  }

  lemma {:induction false} InsertKeepsTies<T>(x: Ranked<T>, s: seq<Ranked<T>>, k: int)
    ensures WithKey(Insert(x, s), k) == WithKey([x] + s, k)
  {
    if s == [] || s[0].key <= x.key {
    } else {
      InsertKeepsTies(x, s[1..], k);
      var t := Insert(x, s[1..]);
      assert ([s[0]] + t)[1..] == t;
      assert ([x] + s)[1..] == s;
      assert ([x] + s[1..])[1..] == s[1..];
    }
  }

  /** Where `x` lands: after the `m` leading elements with larger keys. */
  lemma {:induction false} InsertSplits<T>(x: Ranked<T>, s: seq<Ranked<T>>, m: nat)
    requires m <= |s|
    requires forall t :: 0 <= t < m ==> s[t].key > x.key
    requires m == |s| || s[m].key <= x.key
    ensures Insert(x, s) == s[..m] + [x] + s[m..]
  {
    if m == 0 {
    } else {
      InsertSplits(x, s[1..], m - 1);
      assert s[..m] == [s[0]] + s[1..][..m - 1];
      assert s[m..] == s[1..][m - 1..];
    }
  }

  // -----------------------------------------------------------------------
  // SortDesc: sorted, a permutation, stable, and the only such arrangement
  // -----------------------------------------------------------------------

  lemma {:induction false} SortDescSorted<T>(s: seq<Ranked<T>>)
    ensures |SortDesc(s)| == |s|
    ensures NonIncreasing(SortDesc(s))
  {
    if s != [] {
      SortDescSorted(s[1..]);
      InsertSorted(s[0], SortDesc(s[1..]));
    }
  }

  lemma {:induction false} SortDescPermutes<T>(s: seq<Ranked<T>>)
    ensures multiset(SortDesc(s)) == multiset(s)
  {
    if s != [] {
      var t := SortDesc(s[1..]);
      SortDescPermutes(s[1..]);
      InsertPermutes(s[0], t);
      assert s == [s[0]] + s[1..];
      assert multiset(s) == multiset{s[0]} + multiset(s[1..]);
    }
  }

  lemma {:induction false} SortDescPermutesItems<T>(s: seq<Ranked<T>>)
    ensures multiset(Items(SortDesc(s))) == multiset(Items(s))
  {
    if s != [] {
      var t := SortDesc(s[1..]);
      SortDescPermutesItems(s[1..]);
      InsertPermutes(s[0], t);
      assert Items(s) == [s[0].item] + Items(s[1..]);
      assert multiset(Items(s)) == multiset{s[0].item} + multiset(Items(s[1..]));
    }
  }

  /** Stability: for every key, the elements with that key appear in their input order. */
  lemma {:induction false} SortDescStable<T>(s: seq<Ranked<T>>, k: int)
    ensures WithKey(SortDesc(s), k) == WithKey(s, k)
  {
    if s != [] {
      SortDescStable(s[1..], k);
      InsertKeepsTies(s[0], SortDesc(s[1..]), k);
      assert ([s[0]] + SortDesc(s[1..]))[1..] == SortDesc(s[1..]);
    }
  }

  lemma {:induction false} WithKeyFound<T>(s: seq<Ranked<T>>, k: int)
    requires WithKey(s, k) != []
    ensures exists i :: 0 <= i < |s| && s[i].key == k
  {
    if s[0].key != k {
      WithKeyFound(s[1..], k);
      var i :| 0 <= i < |s[1..]| && s[1..][i].key == k;
      assert s[i + 1].key == k;
    }
  }

  /**
   * Order and ties determine the arrangement: two non-increasing sequences
   * that list the elements of every key in the same order are equal. So
   * SortDesc's result is the one Python's stable reverse sort produces.
   */
  lemma {:induction false} TiesDetermineOrder<T>(a: seq<Ranked<T>>, b: seq<Ranked<T>>)
    requires NonIncreasing(a) && NonIncreasing(b)
    requires forall k :: WithKey(a, k) == WithKey(b, k)
    ensures a == b
    decreases |a|
  {
    // a non-empty side has a key whose list of ties is non-empty
    if a != [] {
      assert WithKey(a, a[0].key) != [];
    }
    if b != [] {
      assert WithKey(b, b[0].key) != [];
    }
    if a != [] && b != [] {
      var ka, kb := a[0].key, b[0].key;
      assert WithKey(a, ka) != [];
      WithKeyFound(b, ka);
      assert WithKey(b, kb) != [];
      WithKeyFound(a, kb);
      assert ka == kb;
      assert WithKey(a, ka)[0] == a[0];
      assert WithKey(b, ka)[0] == b[0];
      assert WithKey(a, ka) == WithKey(b, ka);
      assert a[0] == b[0];
      forall k
        ensures WithKey(a[1..], k) == WithKey(b[1..], k)
      {
        assert WithKey(a, k) == WithKey(b, k);
        var wa, wb := WithKey(a[1..], k), WithKey(b[1..], k);
        if k == ka {
          assert WithKey(a, k) == [a[0]] + wa;
          assert WithKey(b, k) == [b[0]] + wb;
          assert ([a[0]] + wa)[1..] == wa;
          assert ([b[0]] + wb)[1..] == wb;
        } else {
          assert WithKey(a, k) == [] + wa && [] + wa == wa;
          assert WithKey(b, k) == [] + wb && [] + wb == wb;
        }
      }
      TiesDetermineOrder(a[1..], b[1..]);
      assert a == [a[0]] + a[1..];
      assert b == [b[0]] + b[1..];
    }
  }

  /** Temperatures 10, 30, 20 come out as 30, 20, 10. */
  lemma DescendingExample()
    ensures SortDesc([Ranked(10, "A"), Ranked(30, "B"), Ranked(20, "C")])
         == [Ranked(30, "B"), Ranked(20, "C"), Ranked(10, "A")]
  {
  }

  // -----------------------------------------------------------------------
  // The in-place sort
  // -----------------------------------------------------------------------

  /**
   * Moves `a[i]` into the sorted suffix after it, past the elements with
   * strictly larger keys, shifting them one place to the left.
   */
  method InsertAt<T>(a: array<Ranked<T>>, i: nat)
    requires i < a.Length
    modifies a
    ensures a[..i] == old(a[..i])
    ensures a[i..] == Insert(old(a[i]), old(a[i + 1..]))
  {
    var x := a[i];
    ghost var s := a[i + 1..];
    var j := i;
    while j + 1 < a.Length && a[j + 1].key > x.key
      invariant i <= j < a.Length
      invariant a[..i] == old(a[..i])
      invariant forall t :: i <= t < j ==> a[t] == s[t - i]
      invariant forall t :: j < t < a.Length ==> a[t] == s[t - i - 1]
      invariant forall t :: 0 <= t < j - i ==> s[t].key > x.key
    {
      a[j] := a[j + 1];
      j := j + 1;
    }
    a[j] := x;
    InsertSplits(x, s, j - i);
    assert a[i..] == s[..j - i] + [x] + s[j - i..];
  }

  /** Sorts `a` in place, inserting each element, from the back, into the sorted suffix. */
  method SortDescending<T>(a: array<Ranked<T>>)
    modifies a
    ensures a[..] == SortDesc(old(a[..]))
  {
    ghost var input := a[..];
    var i := a.Length;
    while i > 0
      invariant 0 <= i <= a.Length
      invariant a[..i] == input[..i]
      invariant a[i..] == SortDesc(input[i..])
    {
      i := i - 1;
      assert a[i] == input[i];
      assert input[i..][1..] == input[i + 1..];
      InsertAt(a, i);
      assert a[..i] == input[..i];
    }
    assert input[0..] == input;
  }
}
