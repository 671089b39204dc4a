/** Stable sorting by an integer key, as `sort.SliceStable` and `ORDER BY` do it. */
module StableSort {

  /** Inserts behind every element with the same or a lower key. */
  function InsertBy<T>(s: seq<T>, x: T, key: T -> int): (r: seq<T>)
    ensures |r| == |s| + 1
  {
    if s != [] && key(x) < key(s[|s| - 1]) then InsertBy(s[..|s| - 1], x, key) + [s[|s| - 1]]
    else s + [x]
  }

  function StableBy<T>(s: seq<T>, key: T -> int): (r: seq<T>)
    ensures |r| == |s|
  {
    if s == [] then [] else InsertBy(StableBy(s[..|s| - 1], key), s[|s| - 1], key)
  }

  ghost predicate OrderedBy<T>(s: seq<T>, key: T -> int) {
    forall i, j :: 0 <= i < j < |s| ==> key(s[i]) <= key(s[j])
  }

  lemma {:induction false} InsertAt<T>(s: seq<T>, x: T, key: T -> int, j: nat)
    requires j <= |s| && (j > 0 ==> key(s[j - 1]) <= key(x))
    requires forall k :: j <= k < |s| ==> key(x) < key(s[k])
    ensures InsertBy(s, x, key) == s[..j] + [x] + s[j..]
    decreases |s|
  {
    if j == |s| {
      assert s[..j] == s && s[j..] == [];
    } else {
      var init := s[..|s| - 1];
      InsertAt(init, x, key, j);
      assert init[..j] == s[..j] && init[j..] + [s[|s| - 1]] == s[j..];
    }
  }

  lemma {:induction false} InsertCounts<T>(s: seq<T>, x: T, key: T -> int)
    ensures multiset(InsertBy(s, x, key)) == multiset(s) + multiset{x}
  {
    if s != [] && key(x) < key(s[|s| - 1]) {
      InsertCounts(s[..|s| - 1], x, key);
      assert s == s[..|s| - 1] + [s[|s| - 1]];
    }
  }

  lemma {:induction false} InsertOrders<T>(s: seq<T>, x: T, key: T -> int)
    requires OrderedBy(s, key)
    ensures OrderedBy(InsertBy(s, x, key), key)
  {
    if s != [] && key(x) < key(s[|s| - 1]) {
      var init, last := s[..|s| - 1], s[|s| - 1];
      InsertOrders(init, x, key);
      InsertCounts(init, x, key);
      var r := InsertBy(init, x, key);
      hide InsertBy;
      forall i | 0 <= i < |r| ensures key(r[i]) <= key(last) {
        assert r[i] in multiset(r);
        assert r[i] in multiset(init) || r[i] == x;
      }
      OrderedMore(r, last, key);
    } else {
      if s != [] { forall i | 0 <= i < |s| ensures key(s[i]) <= key(x) { assert key(s[i]) <= key(s[|s| - 1]); } }
      OrderedMore(s, x, key);
    }
  }

  lemma {:induction false} OrderedMore<T>(s: seq<T>, x: T, key: T -> int)
    requires OrderedBy(s, key) && forall i :: 0 <= i < |s| ==> key(s[i]) <= key(x)
    ensures OrderedBy(s + [x], key)
  {
  }

  /** The sorted sequence is in order and has the same elements. */
  lemma {:induction false} StableOrders<T>(s: seq<T>, key: T -> int)
    ensures OrderedBy(StableBy(s, key), key)
    ensures multiset(StableBy(s, key)) == multiset(s)
  {
    if s != [] {
      var init, last := s[..|s| - 1], s[|s| - 1];
      StableOrders(init, key);
      InsertOrders(StableBy(init, key), last, key);
      InsertCounts(StableBy(init, key), last, key);
      hide InsertBy, OrderedBy;
      assert s == init + [last];
    }
  }

  lemma {:induction false} OrderedLess<T>(s: seq<T>, key: T -> int)
    requires s != [] && OrderedBy(s, key)
    ensures OrderedBy(s[..|s| - 1], key)
    ensures |s| > 1 ==> key(s[|s| - 2]) <= key(s[|s| - 1])
  {
  }

  /** What is in order stays as it is. */
  lemma {:induction false} StableOfOrdered<T>(s: seq<T>, key: T -> int)
    requires OrderedBy(s, key)
    ensures StableBy(s, key) == s
  {
    hide OrderedBy, InsertBy;
    if s != [] {
      var init, last := s[..|s| - 1], s[|s| - 1];
      OrderedLess(s, key);
      StableOfOrdered(init, key);
      InsertAt(init, last, key, |init|);
      assert init[..|init|] == init && init[|init|..] == [];
      assert init + [last] + [] == s;
    }
  }

  /** The elements with one key, in their order. */
  function Ties<T>(s: seq<T>, key: T -> int, k: int): seq<T> {
    if s == [] then [] else Ties(s[..|s| - 1], key, k) + if key(s[|s| - 1]) == k then [s[|s| - 1]] else []
  }

  lemma {:induction false} TiesStep<T>(s: seq<T>, x: T, key: T -> int, k: int)
    ensures Ties(s + [x], key, k) == Ties(s, key, k) + if key(x) == k then [x] else []
  {
    assert (s + [x])[..|s|] == s;
  }

  lemma {:induction false} InsertKeepsTies<T>(s: seq<T>, x: T, key: T -> int, k: int)
    ensures Ties(InsertBy(s, x, key), key, k) == Ties(s, key, k) + if key(x) == k then [x] else []
  {
    if s != [] && key(x) < key(s[|s| - 1]) {
      InsertKeepsTies(s[..|s| - 1], x, key, k);
      TiesStep(InsertBy(s[..|s| - 1], x, key), s[|s| - 1], key, k);
    } else {
      TiesStep(s, x, key, k);
    }
  }

  /** Elements with the same key stay in their order. */
  lemma {:induction false} StableKeepsTies<T>(s: seq<T>, key: T -> int, k: int)
    ensures Ties(StableBy(s, key), key, k) == Ties(s, key, k)
  {
    if s != [] {
      StableKeepsTies(s[..|s| - 1], key, k);
      InsertKeepsTies(StableBy(s[..|s| - 1], key), s[|s| - 1], key, k);
    }
  }

  // ---------- In place ----------

  /** The element at `i` moved down to `j`. */
  ghost function Moved<T>(s: seq<T>, i: nat, j: nat): seq<T>
    requires j <= i < |s|
  {
    s[..j] + [s[i]] + s[j..i] + s[i + 1..]
  }

  lemma {:induction false} MovedStep<T>(s: seq<T>, i: nat, j: nat)
    requires 0 < j <= i < |s|
    ensures |Moved(s, i, j)| == |s| && Moved(s, i, j)[j] == s[i] && Moved(s, i, j)[j - 1] == s[j - 1]
    ensures Moved(s, i, j)[j := s[j - 1]][j - 1 := s[i]] == Moved(s, i, j - 1)
  {
  }

  lemma {:induction false} MovedEnds<T>(s: seq<T>, i: nat, j: nat)
    requires j <= i < |s|
    ensures Moved(s, i, i) == s
    ensures Moved(s, i, j) == s[..i][..j] + [s[i]] + s[..i][j..] + s[i + 1..]
  {
  }

  method SwapAt<T>(a: array<T>, j: nat)
    requires 0 < j < a.Length
    modifies a
    ensures a[..] == old(a[..])[j := old(a[j - 1])][j - 1 := old(a[j])]
  {
    a[j], a[j - 1] := a[j - 1], a[j];
  }

  /** Swaps the element at `i` down to its place among the sorted ones before it. */
  method Sink<T>(a: array<T>, i: nat, key: T -> int)
    requires i < a.Length
    modifies a
    ensures a[..] == InsertBy(old(a[..i]), old(a[i]), key) + old(a[i + 1..])
  {
    hide InsertBy, Moved;
    var j := i;
    ghost var s := a[..];
    MovedEnds(s, i, i);
    while j > 0 && key(a[j]) < key(a[j - 1])
      invariant 0 <= j <= i && a[..] == Moved(s, i, j)
      invariant forall k :: j <= k < i ==> key(s[i]) < key(s[k])
    {
      MovedStep(s, i, j);
      SwapAt(a, j);
      j := j - 1;
    }
    if j > 0 { MovedStep(s, i, j); }
    InsertAt(s[..i], s[i], key, j);
    MovedEnds(s, i, j);
    assert s[..i] == old(a[..i]) && s[i + 1..] == old(a[i + 1..]);
  }

  method SortStable<T>(a: array<T>, key: T -> int)
    modifies a
    ensures a[..] == StableBy(old(a[..]), key)
  {
    var i := 0;
    ghost var was := a[..];
    while i < a.Length
      invariant 0 <= i <= a.Length
      invariant a[..] == StableBy(was[..i], key) + was[i..]
    {
      SortStep(was, i, key);
      assert a[..i] == a[..][..i] && a[i] == a[..][i] && a[i + 1..] == a[..][i + 1..];
      Sink(a, i, key);
      i := i + 1;
    }
    assert was[..i] == was && was[i..] == [];
  }

  lemma {:induction false} SortStep<T>(s: seq<T>, i: nat, key: T -> int)
    requires i < |s|
    ensures var r := StableBy(s[..i], key) + s[i..];
      r[..i] == StableBy(s[..i], key) && r[i] == s[i] && r[i + 1..] == s[i + 1..]
    ensures StableBy(s[..i + 1], key) == InsertBy(StableBy(s[..i], key), s[i], key)
  {
    assert s[..i + 1][..i] == s[..i];
  }
}
