/** `sort.Strings`: a sorted sequence is determined by the strings in it. */
module Sorting {
  import opened Text

  ghost predicate Ascending(xs: seq<string>) {
    forall i, j :: 0 <= i < j < |xs| ==> StrLe(xs[i], xs[j])
  }

  ghost predicate Distinct<T>(xs: seq<T>) {
    forall i, j :: 0 <= i < j < |xs| ==> xs[i] != xs[j]
  }

  ghost function Elements<T>(xs: seq<T>): set<T> { set x | x in xs }

  function Insert(x: string, xs: seq<string>): (r: seq<string>)
    ensures multiset(r) == multiset(xs) + multiset{x}
  {
    if |xs| == 0 then [x]
    else if StrLe(x, xs[0]) then [x] + xs
    else
      assert xs == [xs[0]] + xs[1..];
      [xs[0]] + Insert(x, xs[1..])
  }

  function SortStrings(xs: seq<string>): (r: seq<string>)
    ensures multiset(r) == multiset(xs)
  {
    if |xs| == 0 then []
    else
      assert xs == [xs[0]] + xs[1..];
      Insert(xs[0], SortStrings(xs[1..]))
  }

  lemma MultisetMembers<T>(xs: seq<T>, ys: seq<T>)
    requires multiset(xs) == multiset(ys)
    ensures |xs| == |ys|
    ensures forall x :: x in xs <==> x in ys
  {
    assert |multiset(xs)| == |multiset(ys)|;
    forall x ensures x in xs <==> x in ys {
      assert x in xs <==> x in multiset(xs);
      assert x in ys <==> x in multiset(ys);
    }
  }

  lemma {:induction false} InsertAscends(x: string, xs: seq<string>)
    requires Ascending(xs)
    ensures Ascending(Insert(x, xs))
  {
    if |xs| > 0 {
      if StrLe(x, xs[0]) {
        forall j | 0 <= j < |xs| ensures StrLe(x, xs[j]) {
          if j > 0 { StrLeTransitive(x, xs[0], xs[j]); }
        }
      } else {
        StrLeTotal(x, xs[0]);
        InsertAscends(x, xs[1..]);
        var r := Insert(x, xs[1..]);
        forall j | 0 <= j < |r| ensures StrLe(xs[0], r[j]) {
          assert r[j] in multiset(r);
          assert r[j] in multiset(xs[1..]) || r[j] == x;
        }
      }
    }
  }

  /** Sorting puts the strings in order. */
  lemma {:induction false} SortAscends(xs: seq<string>)
    ensures Ascending(SortStrings(xs))
  {
    if |xs| > 0 {
      SortAscends(xs[1..]);
      InsertAscends(xs[0], SortStrings(xs[1..]));
    }
  }

  lemma AscendingHead(xs: seq<string>, ys: seq<string>)
    requires Ascending(xs) && Ascending(ys) && |xs| > 0 && |ys| > 0
    requires xs[0] in ys && ys[0] in xs
    ensures xs[0] == ys[0]
  {
    var i :| 0 <= i < |ys| && ys[i] == xs[0];
    var j :| 0 <= j < |xs| && xs[j] == ys[0];
    if i > 0 && j > 0 {
      StrLeAntisymmetric(xs[0], ys[0]);
    }
  }

  lemma MultisetTail<T>(xs: seq<T>)
    requires |xs| > 0
    ensures multiset(xs[1..]) == multiset(xs) - multiset{xs[0]}
  {
    assert xs == [xs[0]] + xs[1..];
  }

  /** Two ascending sequences of the same strings are the same sequence. */
  lemma {:induction false} AscendingUnique(xs: seq<string>, ys: seq<string>)
    requires Ascending(xs) && Ascending(ys) && multiset(xs) == multiset(ys)
    ensures xs == ys
  {
    MultisetMembers(xs, ys);
    if |xs| > 0 {
      AscendingHead(xs, ys);
      MultisetTail(xs);
      MultisetTail(ys);
      AscendingUnique(xs[1..], ys[1..]);
      assert xs == [xs[0]] + xs[1..] && ys == [ys[0]] + ys[1..];
    }
  }

  lemma {:induction false} DistinctMultiset<T>(xs: seq<T>, x: T)
    requires Distinct(xs)
    ensures multiset(xs)[x] == if x in xs then 1 else 0
  {
    if |xs| > 0 {
      assert xs == [xs[0]] + xs[1..];
      DistinctMultiset(xs[1..], x);
      if x == xs[0] {
        assert x !in xs[1..];
      }
    }
  }

  /** Sorting any two duplicate-free listings of one set gives one answer. */
  lemma SortOfListing(xs: seq<string>, ys: seq<string>)
    requires Distinct(xs) && Distinct(ys) && Elements(xs) == Elements(ys)
    ensures SortStrings(xs) == SortStrings(ys)
  {
    forall x ensures multiset(xs)[x] == multiset(ys)[x] {
      DistinctMultiset(xs, x);
      DistinctMultiset(ys, x);
      assert x in xs <==> x in Elements(xs);
      assert x in ys <==> x in Elements(ys);
    }
    assert multiset(xs) == multiset(ys);
    SortAscends(xs);
    SortAscends(ys);
    AscendingUnique(SortStrings(xs), SortStrings(ys));
  }

  lemma {:induction false} MultisetDistinct<T>(xs: seq<T>)
    requires forall x :: multiset(xs)[x] <= 1
    ensures Distinct(xs)
  {
    if |xs| > 0 {
      MultisetTail(xs);
      MultisetDistinct(xs[1..]);
      assert xs == [xs[0]] + xs[1..];
      assert xs[0] !in multiset(xs[1..]);
      forall i, j | 0 <= i < j < |xs| ensures xs[i] != xs[j] {
        if i > 0 { assert xs[i] == xs[1..][i - 1]; }
        assert xs[j] == xs[1..][j - 1];
      }
    }
  }

  lemma SortKeepsDistinct(xs: seq<string>)
    requires Distinct(xs)
    ensures Distinct(SortStrings(xs))
  {
    forall x ensures multiset(SortStrings(xs))[x] <= 1 { DistinctMultiset(xs, x); }
    MultisetDistinct(SortStrings(xs));
  }

  /** The keys of a map in sorted order, as the program lists them. */
  ghost function SortedKeys<V>(m: map<string, V>): (r: seq<string>)
    ensures Ascending(r) && Distinct(r) && Elements(r) == m.Keys
    ensures forall k :: k in r <==> k in m
  {
    ListingExists(m.Keys);
    var xs :| Distinct(xs) && Elements(xs) == m.Keys;
    SortAscends(xs);
    SortKeepsDistinct(xs);
    MultisetMembers(xs, SortStrings(xs));
    assert forall k :: k in xs <==> k in Elements(xs);
    SortStrings(xs)
  }

  lemma {:induction false} ListingExists(s: set<string>)
    ensures exists xs: seq<string> :: Distinct(xs) && Elements(xs) == s
    decreases s
  {
    if s == {} {
      var xs: seq<string> := [];
      assert Distinct(xs) && Elements(xs) == s;
    } else {
      var x :| x in s;
      ListingExists(s - {x});
      var ys: seq<string> :| Distinct(ys) && Elements(ys) == s - {x};
      var xs := [x] + ys;
      forall y | y in ys ensures y != x { assert y in Elements(ys); }
      assert Distinct(xs);
      assert Elements(xs) == {x} + Elements(ys);
    }
  }

  /** Collecting the keys of a map and sorting them, as the program's loops do. */
  method ListKeysSorted<V>(m: map<string, V>) returns (keys: seq<string>)
    ensures keys == SortedKeys(m)
  {
    var todo := m.Keys;
    keys := [];
    while todo != {}
      invariant todo <= m.Keys && Elements(keys) == m.Keys - todo && Distinct(keys)
      decreases todo
    {
      var k :| k in todo;
      assert k !in Elements(keys);
      assert Elements(keys + [k]) == Elements(keys) + {k};
      todo := todo - {k};
      keys := keys + [k];
    }
    SortedKeysIs(m, keys);
    keys := SortStrings(keys);
  }

  lemma SortedKeysIs<V>(m: map<string, V>, xs: seq<string>)
    requires Distinct(xs) && Elements(xs) == m.Keys
    ensures SortStrings(xs) == SortedKeys(m)
  {
    var r := SortedKeys(m);
    SortOfListing(xs, r);
    SortAscends(r);
    AscendingUnique(SortStrings(r), r);
  }
}
