/** Which operations of a document become endpoints, how often, and in what order. */
module OpenApiListing {
  import opened Text
  import opened Sorting
  import opened Json
  import opened OpenApiOrder
  import opened Positions

  // ---------- The node tree and the decoded value ----------

  function LowerKeys(entries: seq<(string, Node)>): (r: seq<string>)
    ensures |r| == |entries| && forall i :: 0 <= i < |r| ==> r[i] == ToLower(entries[i].0)
  {
    seq(|entries|, i requires 0 <= i < |entries| => ToLower(entries[i].0))
  }

  /** Of several entries with one key, decoding keeps the last. */
  ghost predicate LastEntry(entries: seq<(string, Node)>, i: nat) {
    i < |entries| && forall j :: i < j < |entries| ==> entries[j].0 != entries[i].0
  }

  /** The path items `raw` are what decoding makes of these entries. */
  ghost predicate Decodes(entries: seq<(string, Node)>, raw: map<string, Json>) {
    && (forall p :: p in raw <==> p in Keys(entries))
    && forall i: nat :: LastEntry(entries, i) && entries[i].0 in raw ==> ItemDecodes(entries[i].1, raw[entries[i].0])
  }

  ghost predicate ItemDecodes(node: Node, item: Json) {
    && (node.Mapping? <==> item.Obj?)
    && (node.Mapping? ==> forall key :: key in item.fields <==> key in Keys(Entries(node.content)))
  }

  // ---------- Counting ----------

  function Count<T(==)>(xs: seq<T>, x: T): nat { multiset(xs)[x] }

  lemma {:induction false} CountStep<T>(xs: seq<T>, ys: seq<T>, x: T)
    ensures Count(xs + ys, x) == Count(xs, x) + Count(ys, x)
  {
    assert multiset(xs + ys) == multiset(xs) + multiset(ys);
  }

  lemma {:induction false} CountLast<T>(xs: seq<T>, x: T)
    requires xs != []
    ensures Count(xs, x) == Count(xs[..|xs| - 1], x) + if xs[|xs| - 1] == x then 1 else 0
  {
    assert xs == xs[..|xs| - 1] + [xs[|xs| - 1]];
    CountStep(xs[..|xs| - 1], [xs[|xs| - 1]], x);
  }

  lemma {:induction false} CountIn<T>(xs: seq<T>, x: T)
    ensures x in xs <==> Count(xs, x) > 0
  {
  }

  lemma {:induction false} CountPresent(methods: seq<string>, item: map<string, Json>, m: string)
    ensures Count(Present(methods, item), m) == if m in item then Count(methods, m) else 0
  {
    if methods != [] {
      var init := methods[..|methods| - 1];
      CountPresent(init, item, m);
      CountLast(methods, m);
      CountStep(Present(init, item), if methods[|methods| - 1] in item then [methods[|methods| - 1]] else [], m);
    }
  }

  lemma {:induction false} CountOps(path: string, item: map<string, Json>, methods: seq<string>, pair: Pair)
    ensures Count(OpPairs(path, item, methods), pair) ==
      if pair.0 == path && pair.1 in item && item[pair.1].Obj? then Count(methods, pair.1) else 0
  {
    if methods != [] {
      var init := methods[..|methods| - 1];
      var last := methods[|methods| - 1];
      CountOps(path, item, init, pair);
      CountLast(methods, pair.1);
      CountStep(OpPairs(path, item, init), if last in item && item[last].Obj? then [(path, last)] else [], pair);
    }
  }

  lemma {:induction false} CountPath(raw: map<string, Json>, path: string, methodsByPath: map<string, seq<string>>, pair: Pair)
    requires HttpOnly(methodsByPath)
    ensures Count(PathPairs(raw, path, methodsByPath), pair) ==
      if pair.0 == path && Wanted(raw, pair) then Count(MethodsFor(path, raw[path].fields, methodsByPath), pair.1) else 0
  {
    hide MethodsFor, HttpOnly, OpPairs;
    if path in raw && raw[path].Obj? {
      var methods := MethodsFor(path, raw[path].fields, methodsByPath);
      MethodsForAreHttp(path, raw[path].fields, methodsByPath);
      CountOps(path, raw[path].fields, methods, pair);
      CountIn(methods, pair.1);
      hide Count;
    }
  }

  function Times(a: nat, b: nat): nat { a * b }

  lemma {:induction false} TimesOneMore(a: nat, b: nat)
    ensures Times(a + 1, b) == Times(a, b) + b && Times(0, b) == 0
  {
  }

  lemma {:induction false} CountWanted(raw: map<string, Json>, paths: seq<string>, methodsByPath: map<string, seq<string>>, pair: Pair, b: nat)
    requires HttpOnly(methodsByPath) && Wanted(raw, pair)
    requires b == Count(MethodsFor(pair.0, raw[pair.0].fields, methodsByPath), pair.1)
    ensures Count(PairsOf(raw, paths, methodsByPath), pair) == Times(Count(paths, pair.0), b)
  {
    hide Times, HttpOnly, Wanted, MethodsFor, PathPairs;
    if paths == [] {
      TimesOneMore(0, b);
    } else {
      var init, last := paths[..|paths| - 1], paths[|paths| - 1];
      CountWanted(raw, init, methodsByPath, pair, b);
      CountLast(paths, pair.0);
      CountStep(PairsOf(raw, init, methodsByPath), PathPairs(raw, last, methodsByPath), pair);
      CountPath(raw, last, methodsByPath, pair);
      TimesOneMore(Count(init, pair.0), b);
    }
  }

  lemma {:induction false} CountUnwanted(raw: map<string, Json>, paths: seq<string>, methodsByPath: map<string, seq<string>>, pair: Pair)
    requires HttpOnly(methodsByPath) && !Wanted(raw, pair)
    ensures Count(PairsOf(raw, paths, methodsByPath), pair) == 0
  {
    if paths != [] {
      var init, last := paths[..|paths| - 1], paths[|paths| - 1];
      CountUnwanted(raw, init, methodsByPath, pair);
      CountPath(raw, last, methodsByPath, pair);
      CountStep(PairsOf(raw, init, methodsByPath), PathPairs(raw, last, methodsByPath), pair);
      hide PathPairs, Wanted, Count, HttpOnly;
    }
  }

  /** How often a pair is listed: once for each time its path is listed and its method is. */
  lemma {:induction false} CountPairs(raw: map<string, Json>, paths: seq<string>, methodsByPath: map<string, seq<string>>, pair: Pair)
    requires HttpOnly(methodsByPath)
    ensures Count(PairsOf(raw, paths, methodsByPath), pair) ==
      if Wanted(raw, pair) then Count(paths, pair.0) * Count(MethodsFor(pair.0, raw[pair.0].fields, methodsByPath), pair.1) else 0
  {
    if Wanted(raw, pair) {
      CountWanted(raw, paths, methodsByPath, pair, Count(MethodsFor(pair.0, raw[pair.0].fields, methodsByPath), pair.1));
    } else {
      CountUnwanted(raw, paths, methodsByPath, pair);
    }
  }

  // ---------- Each operation once ----------

  /** Every operation of the document is listed once, and nothing else is. */
  ghost predicate EachOnce(raw: map<string, Json>, pairs: seq<Pair>) {
    forall pair: Pair :: Count(pairs, pair) == if Wanted(raw, pair) then 1 else 0
  }

  /** Then the list is a bijection with the document's operations. */
  lemma {:induction false} EachOnceIsBijection(raw: map<string, Json>, pairs: seq<Pair>)
    requires EachOnce(raw, pairs)
    ensures Distinct(pairs) && forall pair: Pair :: pair in pairs <==> Wanted(raw, pair)
  {
    hide Wanted;
    forall pair: Pair ensures multiset(pairs)[pair] <= 1 && (pair in pairs <==> Wanted(raw, pair)) {
      CountIn(pairs, pair);
      assert Count(pairs, pair) == if Wanted(raw, pair) then 1 else 0;
    }
    MultisetDistinct(pairs);
  }

  lemma {:induction false} LowerOfMethod(m: string)
    requires IsHttpMethod(m)
    ensures ToLower(m) == m
  {
    assert forall i :: 0 <= i < |m| ==> 'a' <= m[i] <= 'z';
  }

  /** The listed methods are the keys that are HTTP methods in lower case. */
  lemma {:induction false} CountMethodKeys(entries: seq<(string, Node)>, m: string)
    ensures Count(MethodKeys(entries), m) == if IsHttpMethod(m) then Count(LowerKeys(entries), m) else 0
  {
    hide IsHttpMethod, ToLower;
    if entries != [] {
      var init := entries[..|entries| - 1];
      var key := ToLower(entries[|entries| - 1].0);
      CountMethodKeys(init, m);
      CountLast(LowerKeys(entries), m);
      assert LowerKeys(entries)[..|entries| - 1] == LowerKeys(init);
      CountStep(MethodKeys(init), if IsHttpMethod(key) then [key] else [], m);
    }
  }

  /** The last mapping under its key. */
  ghost predicate LastMapping(entries: seq<(string, Node)>, i: nat) {
    && i < |entries| && entries[i].1.Mapping?
    && forall j :: i < j < |entries| && entries[j].0 == entries[i].0 ==> !entries[j].1.Mapping?
  }

  /** The HTTP methods that a node lists. */
  function MethodsIn(node: Node): seq<string> { if node.Mapping? then MethodKeys(Entries(node.content)) else [] }

  lemma {:induction false} MethodsOfEntry(entries: seq<(string, Node)>, i: nat)
    requires LastMapping(entries, i)
    ensures entries[i].0 in MethodsByPath(entries) && MethodsByPath(entries)[entries[i].0] == MethodsIn(entries[i].1)
  {
    hide MethodKeys, Entries;
    var last := |entries| - 1;
    if i < last {
      var init := entries[..last];
      forall j | i < j < |init| && init[j].0 == init[i].0 ensures !init[j].1.Mapping? { assert entries[j] == init[j]; }
      MethodsOfEntry(init, i);
    }
  }

  lemma {:induction false} EntryOfMethods(entries: seq<(string, Node)>, p: string) returns (i: nat)
    requires p in MethodsByPath(entries)
    ensures LastMapping(entries, i) && entries[i].0 == p
  {
    hide MethodKeys, Entries;
    var last := |entries| - 1;
    if entries[last].0 == p && entries[last].1.Mapping? {
      i := last;
    } else {
      i := EntryOfMethods(entries[..last], p);
      forall j | i < j < |entries| && entries[j].0 == p ensures !entries[j].1.Mapping? {
        if j < last { assert entries[..last][j] == entries[j]; }
      }
    }
  }

  lemma {:induction false} OneLast(entries: seq<(string, Node)>, i: nat)
    requires LastMapping(entries, i)
    ensures forall j: nat :: LastMapping(entries, j) && entries[j].0 == entries[i].0 ==> j == i
  {
  }

  /** The methods looked for under a path: those of its last mapping, or the usual ones if it lists
      none. */
  function Planned(entries: seq<(string, Node)>, p: string): seq<string> {
    var methods := MethodsByPath(entries);
    if p in methods && methods[p] != [] then methods[p] else HTTP_METHODS
  }

  lemma {:induction false} PlannedAreHttp(entries: seq<(string, Node)>, p: string)
    ensures AllHttp(Planned(entries, p))
  {
    MethodsByPathAreHttp(entries);
  }

  lemma {:induction false} PlannedOnce(entries: seq<(string, Node)>, p: string, m: string)
    requires IsHttpMethod(m)
    ensures Count(Planned(entries, p), m) == 1 <==>
      forall i: nat :: LastMapping(entries, i) && entries[i].0 == p && MethodsIn(entries[i].1) != [] ==>
        Count(LowerKeys(Entries(entries[i].1.content)), m) == 1
  {
    hide IsHttpMethod, MethodKeys, MethodsByPath, LowerKeys, Entries, Count;
    MethodIsOnce(m);
    if p in MethodsByPath(entries) {
      var i := EntryOfMethods(entries, p);
      MethodsOfEntry(entries, i);
      OneLast(entries, i);
      CountMethodKeys(Entries(entries[i].1.content), m);
    } else {
      forall i: nat | LastMapping(entries, i) && entries[i].0 == p ensures p in MethodsByPath(entries) { MethodsOfEntry(entries, i); }
    }
  }

  lemma {:induction false} KeyIsLower(keys: seq<(string, Node)>, m: string)
    requires IsHttpMethod(m) && m in Keys(keys)
    ensures m in LowerKeys(keys)
  {
    LowerOfMethod(m);
    hide IsHttpMethod, ToLower;
    var j :| 0 <= j < |keys| && Keys(keys)[j] == m;
    assert LowerKeys(keys)[j] == m;
  }

  lemma {:induction false} CountOrder(entries: seq<(string, Node)>, raw: map<string, Json>, p: string)
    requires p in raw
    ensures Count(Keys(entries) + SortedKeys(Unlisted(raw, Keys(entries))), p) == 1 <==> Count(Keys(entries), p) <= 1
  {
    var extras := SortedKeys(Unlisted(raw, Keys(entries)));
    CountStep(Keys(entries), extras, p);
    DistinctMultiset(extras, p);
    CountIn(Keys(entries), p);
  }

  /** The path is a key at most once, and the method is a key of its last mapping once, in any case,
      unless that lists no HTTP method at all. */
  ghost predicate ListedOnce(entries: seq<(string, Node)>, pair: Pair) {
    && Count(Keys(entries), pair.0) <= 1
    && forall i: nat :: LastMapping(entries, i) && entries[i].0 == pair.0 && MethodsIn(entries[i].1) != [] ==>
         Count(LowerKeys(Entries(entries[i].1.content)), pair.1) == 1
  }

  lemma {:induction false} TimesOne(a: nat, b: nat)
    ensures a * b == 1 <==> a == 1 && b == 1
  {
    if a > 1 && b > 0 { assert a * b >= a; }
  }

  lemma {:induction false} OnceIff(document: seq<Node>, raw: map<string, Json>, pair: Pair)
    ensures Count(AllPairs(raw, Some(document)), pair) == (if Wanted(raw, pair) then 1 else 0) <==>
            (Wanted(raw, pair) ==> ListedOnce(PathEntries(document), pair))
  {
    var entries := PathEntries(document);
    hide PathEntries, MethodsByPath, Keys, LowerKeys, Entries, MethodsIn, Count, LastMapping, Unlisted, SortedKeys, IsHttpMethod;
    MethodsByPathAreHttp(entries);
    CountPairs(raw, PathOrder(raw, Some(document)), MethodsByPath(entries), pair);
    if Wanted(raw, pair) {
      var item := raw[pair.0].fields;
      CountOrder(entries, raw, pair.0);
      CountPresent(Planned(entries, pair.0), item, pair.1);
      PlannedOnce(entries, pair.0, pair.1);
      TimesOne(Count(PathOrder(raw, Some(document)), pair.0), Count(MethodsFor(pair.0, item, MethodsByPath(entries)), pair.1));
    }
  }

  /** In a document whose order can be read, whatever its decoded paths are, every operation becomes
      one endpoint exactly when each one's path is a key at most once, and its method is listed once
      under that path, in any case, or no HTTP method is. */
  lemma {:induction false} EachOnceIff(document: seq<Node>, raw: map<string, Json>)
    ensures EachOnce(raw, AllPairs(raw, Some(document))) <==>
            forall pair: Pair :: Wanted(raw, pair) ==> ListedOnce(PathEntries(document), pair)
  {
    hide PathEntries, Wanted, ListedOnce, AllPairs, Count;
    forall pair: Pair
      ensures Count(AllPairs(raw, Some(document)), pair) == (if Wanted(raw, pair) then 1 else 0) <==>
              (Wanted(raw, pair) ==> ListedOnce(PathEntries(document), pair))
    {
      OnceIff(document, raw, pair);
    }
  }

  /** Where a path lists HTTP methods it lists all operations it has. */
  ghost predicate Covers(entries: seq<(string, Node)>, raw: map<string, Json>) {
    forall pair: Pair, i: nat :: Wanted(raw, pair) && LastMapping(entries, i) && entries[i].0 == pair.0 && MethodsIn(entries[i].1) != [] ==>
      pair.1 in MethodsIn(entries[i].1)
  }

  /** With distinct path keys, and method keys distinct ignoring case, that is all it takes. */
  lemma {:induction false} DistinctKeysGiveEachOnce(document: seq<Node>, raw: map<string, Json>)
    requires Distinct(Keys(PathEntries(document)))
    requires forall i :: 0 <= i < |PathEntries(document)| && PathEntries(document)[i].1.Mapping? ==>
      Distinct(LowerKeys(Entries(PathEntries(document)[i].1.content)))
    ensures EachOnce(raw, AllPairs(raw, Some(document))) <==> Covers(PathEntries(document), raw)
  {
    var entries := PathEntries(document);
    EachOnceIff(document, raw);
    hide PathEntries, AllPairs, Entries, EachOnce, MethodKeys, LowerKeys, Keys, Wanted;
    forall pair: Pair, i: nat | Wanted(raw, pair) && LastMapping(entries, i) && entries[i].0 == pair.0
      ensures Count(LowerKeys(Entries(entries[i].1.content)), pair.1) == 1 <==> pair.1 in MethodsIn(entries[i].1)
    {
      WantedIsHttp(raw, pair);
      var keys := Entries(entries[i].1.content);
      DistinctMultiset(LowerKeys(keys), pair.1);
      CountMethodKeys(keys, pair.1);
      CountIn(MethodKeys(keys), pair.1);
    }
    forall pair: Pair ensures Count(Keys(entries), pair.0) <= 1 { DistinctMultiset(Keys(entries), pair.0); }
    OnceIffCovers(entries, raw);
  }

  lemma {:induction false} WantedIsHttp(raw: map<string, Json>, pair: Pair)
    requires Wanted(raw, pair)
    ensures IsHttpMethod(pair.1)
  {
  }

  lemma {:induction false} OnceIffCovers(entries: seq<(string, Node)>, raw: map<string, Json>)
    requires forall pair: Pair :: Count(Keys(entries), pair.0) <= 1
    requires forall pair: Pair, i: nat :: Wanted(raw, pair) && LastMapping(entries, i) && entries[i].0 == pair.0 ==>
      (Count(LowerKeys(Entries(entries[i].1.content)), pair.1) == 1 <==> pair.1 in MethodsIn(entries[i].1))
    ensures (forall pair: Pair :: Wanted(raw, pair) ==> ListedOnce(entries, pair)) <==> Covers(entries, raw)
  {
    hide Entries, LowerKeys, Keys, Count, Wanted, MethodsIn, LastMapping;
  }

  /** Decoding gives such paths. */
  lemma {:induction false} DecodesCovers(entries: seq<(string, Node)>, raw: map<string, Json>)
    requires Decodes(entries, raw)
    ensures Covers(entries, raw)
  {
    hide MethodKeys, LowerKeys, Keys;
    forall pair: Pair, i: nat | Wanted(raw, pair) && LastMapping(entries, i) && entries[i].0 == pair.0
      ensures pair.1 in MethodsIn(entries[i].1)
    {
      var j := LastSame(entries, i);
      assert ItemDecodes(entries[j].1, raw[pair.0]);
      var keys := Entries(entries[i].1.content);
      KeyIsLower(keys, pair.1);
      CountIn(LowerKeys(keys), pair.1);
      CountMethodKeys(keys, pair.1);
      CountIn(MethodKeys(keys), pair.1);
    }
  }

  lemma {:induction false} LastSame(entries: seq<(string, Node)>, i: nat) returns (j: nat)
    requires i < |entries|
    ensures LastEntry(entries, j) && entries[j].0 == entries[i].0 && i <= j
    decreases |entries| - i
  {
    if k: nat :| i < k < |entries| && entries[k].0 == entries[i].0 { j := LastSame(entries, k); } else { j := i; }
  }

  /** Where the order cannot be read, every operation becomes one endpoint. */
  lemma {:induction false} UnorderedIsEachOnce(raw: map<string, Json>)
    ensures EachOnce(raw, AllPairs(raw, None))
  {
    hide Wanted, AllPairs, Count;
    forall pair: Pair ensures Count(AllPairs(raw, None), pair) == if Wanted(raw, pair) then 1 else 0 { UnorderedIsOnce(raw, pair); }
  }

  lemma {:induction false} UnorderedIsOnce(raw: map<string, Json>, pair: Pair)
    ensures Count(AllPairs(raw, None), pair) == if Wanted(raw, pair) then 1 else 0
  {
    hide PairsOf, Present, IsHttpMethod, Distinct;
    NoMethodsAreHttp();
    MethodsAreDistinct();
    CountPairs(raw, SortedKeys(raw), map[], pair);
    if Wanted(raw, pair) {
      DistinctMultiset(SortedKeys(raw), pair.0);
      MethodIsOnce(pair.1);
      CountPresent(HTTP_METHODS, raw[pair.0].fields, pair.1);
      TimesOne(Count(SortedKeys(raw), pair.0), Count(Present(HTTP_METHODS, raw[pair.0].fields), pair.1));
    }
  }

  lemma {:induction false} MethodIsOnce(m: string)
    requires IsHttpMethod(m)
    ensures Count(HTTP_METHODS, m) == 1
  {
    MethodsAreDistinct();
    DistinctMultiset(HTTP_METHODS, m);
  }

  lemma {:induction false} MethodsAreDistinct()
    ensures Distinct(HTTP_METHODS)
  {
    assert HTTP_METHODS[0][0] == 'g' && HTTP_METHODS[1][1] == 'o' && HTTP_METHODS[2][1] == 'u' && HTTP_METHODS[3][0] == 'd';
    assert HTTP_METHODS[4][1] == 'a' && HTTP_METHODS[5][0] == 'h' && HTTP_METHODS[6][0] == 'o' && HTTP_METHODS[7][0] == 't';
  }

  // ---------- Document order ----------

  function Tagged(path: string, methods: seq<string>): (r: seq<Pair>)
    ensures |r| == |methods| && forall i :: 0 <= i < |r| ==> r[i] == (path, methods[i])
  {
    seq(|methods|, i requires 0 <= i < |methods| => (path, methods[i]))
  }

  /** All paths with their HTTP methods, as the node tree lists them. */
  function DocumentPairs(entries: seq<(string, Node)>): seq<Pair> {
    if entries == [] then []
    else
      var last := entries[|entries| - 1];
      DocumentPairs(entries[..|entries| - 1])
      + if last.1.Mapping? then Tagged(last.0, MethodKeys(Entries(last.1.content))) else []
  }

  function OnlyWanted(raw: map<string, Json>, pairs: seq<Pair>): seq<Pair> {
    if pairs == [] then []
    else
      var last := pairs[|pairs| - 1];
      OnlyWanted(raw, pairs[..|pairs| - 1]) + if Wanted(raw, last) then [last] else []
  }

  lemma {:induction false} WantedAppend(raw: map<string, Json>, a: seq<Pair>, b: seq<Pair>)
    ensures OnlyWanted(raw, a + b) == OnlyWanted(raw, a) + OnlyWanted(raw, b)
    decreases |b|
  {
    hide Wanted;
    if b == [] {
      assert a + b == a;
    } else {
      var init := b[..|b| - 1];
      assert (a + b)[..|a + b| - 1] == a + init;
      WantedAppend(raw, a, init);
    }
  }

  lemma {:induction false} WantedOfPath(raw: map<string, Json>, path: string, methods: seq<string>)
    requires path in raw && raw[path].Obj? && AllHttp(methods)
    ensures OnlyWanted(raw, Tagged(path, methods)) == OpPairs(path, raw[path].fields, Present(methods, raw[path].fields))
  {
    hide IsHttpMethod;
    if methods != [] {
      var init, last := methods[..|methods| - 1], methods[|methods| - 1];
      var item := raw[path].fields;
      WantedOfPath(raw, path, init);
      assert Tagged(path, methods)[..|methods| - 1] == Tagged(path, init);
      assert IsHttpMethod(last);
      var before, present := Present(init, item), Present(methods, item);
      if last in item {
        OneMoreOp(path, item, present, |before|);
        assert present[..|before|] == before && present[..|before| + 1] == present && present[|before|] == last;
      } else {
        assert present == before;
      }
      assert OpPairs(path, item, present) ==
             OpPairs(path, item, before) + if last in item && item[last].Obj? then [(path, last)] else [];
      assert OnlyWanted(raw, Tagged(path, methods)) ==
             OnlyWanted(raw, Tagged(path, init)) + if Wanted(raw, (path, last)) then [(path, last)] else [];
    }
  }

  lemma {:induction false} NothingWanted(raw: map<string, Json>, pairs: seq<Pair>)
    requires forall i :: 0 <= i < |pairs| ==> !Wanted(raw, pairs[i])
    ensures OnlyWanted(raw, pairs) == []
  {
    hide Wanted;
    if pairs != [] { NothingWanted(raw, pairs[..|pairs| - 1]); }
  }

  lemma {:induction false} MethodNotThere(entries: seq<(string, Node)>, m: string)
    requires MethodKeys(entries) == [] && IsHttpMethod(m)
    ensures m !in Keys(entries)
  {
    hide IsHttpMethod;
    if m in Keys(entries) {
      KeyIsLower(entries, m);
      CountIn(LowerKeys(entries), m);
      CountMethodKeys(entries, m);
    }
  }

  lemma {:induction false} NonePresent(methods: seq<string>, item: map<string, Json>)
    requires forall i :: 0 <= i < |methods| ==> methods[i] !in item
    ensures Present(methods, item) == []
  {
    if methods != [] { NonePresent(methods[..|methods| - 1], item); }
  }

  /** A path item that lists no HTTP method has none, so that trying the usual methods finds
      nothing. */
  lemma {:induction false} FallbackFindsNothing(entries: seq<(string, Node)>, item: map<string, Json>)
    requires MethodKeys(entries) == [] && forall key :: key in item <==> key in Keys(entries)
    ensures Present(HTTP_METHODS, item) == []
  {
    forall i | 0 <= i < |HTTP_METHODS| ensures HTTP_METHODS[i] !in item { MethodNotThere(entries, HTTP_METHODS[i]); }
    NonePresent(HTTP_METHODS, item);
  }

  /** The listed paths with the methods looked for under them. */
  function PlannedPairs(entries: seq<(string, Node)>, paths: seq<string>): seq<Pair> {
    if paths == [] then []
    else
      var last := paths[|paths| - 1];
      PlannedPairs(entries, paths[..|paths| - 1]) + Tagged(last, Planned(entries, last))
  }

  lemma {:induction false} PathAsPlanned(entries: seq<(string, Node)>, raw: map<string, Json>, p: string)
    ensures PathPairs(raw, p, MethodsByPath(entries)) == OnlyWanted(raw, Tagged(p, Planned(entries, p)))
  {
    PlannedAreHttp(entries, p);
    if p in raw && raw[p].Obj? {
      WantedOfPath(raw, p, Planned(entries, p));
    } else {
      NothingWanted(raw, Tagged(p, Planned(entries, p)));
    }
    hide IsHttpMethod, MethodsByPath, OnlyWanted, Tagged, OpPairs;
  }

  lemma {:induction false} PathsAsPlanned(entries: seq<(string, Node)>, raw: map<string, Json>, paths: seq<string>)
    ensures PairsOf(raw, paths, MethodsByPath(entries)) == OnlyWanted(raw, PlannedPairs(entries, paths))
  {
    hide PathPairs, MethodsByPath, Planned, Tagged, Wanted;
    if paths != [] {
      var init, last := paths[..|paths| - 1], paths[|paths| - 1];
      PathsAsPlanned(entries, raw, init);
      PathAsPlanned(entries, raw, last);
      WantedAppend(raw, PlannedPairs(entries, init), Tagged(last, Planned(entries, last)));
      hide OnlyWanted;
    }
  }

  /** Endpoints come in the order of the document, whatever its decoded paths are: path by path as
      listed, with the methods under each as listed, or the usual ones where none are; then the paths
      that are not listed, sorted; less what is no operation. */
  lemma {:induction false} InDocumentOrder(document: seq<Node>, raw: map<string, Json>)
    ensures var entries := PathEntries(document);
      var paths := Keys(entries) + SortedKeys(Unlisted(raw, Keys(entries)));
      AllPairs(raw, Some(document)) == OnlyWanted(raw, PlannedPairs(entries, paths))
  {
    hide PathEntries, MethodsByPath, PlannedPairs, OnlyWanted, PairsOf, Keys, SortedKeys;
    PathsAsPlanned(PathEntries(document), raw, PathOrder(raw, Some(document)));
  }

  /** Where the order cannot be read, endpoints come by sorted paths, with the usual methods in their
      usual order under each, less what is no operation. */
  lemma {:induction false} UnorderedInOrder(raw: map<string, Json>)
    ensures AllPairs(raw, None) == OnlyWanted(raw, PlannedPairs([], SortedKeys(raw))) && forall p :: Planned([], p) == HTTP_METHODS
  {
    hide OnlyWanted, PairsOf, SortedKeys;
    PathsAsPlanned([], raw, SortedKeys(raw));
    hide PlannedPairs;
  }

  /** Methods are listed in the order of their keys: they are the keys that are HTTP methods in any
      case, each in lower case. */
  ghost predicate ListsMethods(entries: seq<(string, Node)>, methods: seq<string>, at: seq<nat>) {
    && AllWanted(entries, AsMethod(), at)
    && |at| == |methods| && forall i :: 0 <= i < |at| ==> at[i] < |entries| && methods[i] == ToLower(entries[at[i]].0)
  }

  ghost function AsMethod(): ((string, Node)) -> bool { (e: (string, Node)) => IsHttpMethod(ToLower(e.0)) }

  lemma {:induction false} MethodKeysInOrder(entries: seq<(string, Node)>) returns (at: seq<nat>)
    ensures ListsMethods(entries, MethodKeys(entries), at)
  {
    hide AllWanted, ToLower, IsHttpMethod;
    if entries == [] {
      at := [];
      NoneWanted(AsMethod());
    } else {
      var init, last := entries[..|entries| - 1], entries[|entries| - 1];
      at := MethodKeysInOrder(init);
      OneMoreWanted(init, last, AsMethod(), at);
      assert init + [last] == entries;
      at := at + if IsHttpMethod(ToLower(last.0)) then [|init|] else [];
    }
  }

  lemma {:induction false} OneMoreDocument(entries: seq<(string, Node)>, n: nat)
    requires n < |entries|
    ensures DocumentPairs(entries[..n + 1]) == DocumentPairs(entries[..n]) + Tagged(entries[n].0, MethodsIn(entries[n].1))
  {
    hide MethodKeys, Entries;
    assert entries[..n + 1][..n] == entries[..n];
    assert Tagged(entries[n].0, []) == [];
  }

  lemma {:induction false} DistinctIsLast(entries: seq<(string, Node)>, n: nat)
    requires Distinct(Keys(entries)) && n < |entries|
    ensures LastEntry(entries, n) && entries[n].0 in Keys(entries)
  {
    assert Keys(entries)[n] == entries[n].0;
    forall j | n < j < |entries| ensures entries[j].0 != entries[n].0 { assert Keys(entries)[j] != Keys(entries)[n]; }
  }

  /** What decoding makes of an entry has no operations besides those it lists. */
  lemma {:induction false} ListedOnly(entries: seq<(string, Node)>, raw: map<string, Json>, n: nat)
    requires Decodes(entries, raw) && Distinct(Keys(entries)) && n < |entries|
    ensures OnlyWanted(raw, Tagged(entries[n].0, Planned(entries, entries[n].0))) == OnlyWanted(raw, Tagged(entries[n].0, MethodsIn(entries[n].1)))
  {
    var p := entries[n].0;
    DistinctIsLast(entries, n);
    assert ItemDecodes(entries[n].1, raw[p]);
    hide IsHttpMethod, MethodKeys, Entries, MethodsByPath, OnlyWanted, Keys;
    if entries[n].1.Mapping? {
      assert LastMapping(entries, n);
      MethodsOfEntry(entries, n);
      if MethodsIn(entries[n].1) == [] {
        FallbackFindsNothing(Entries(entries[n].1.content), raw[p].fields);
        UsualMethodsAreHttp();
        WantedOfPath(raw, p, HTTP_METHODS);
        NoPairs(p, raw[p].fields);
        NothingWanted(raw, Tagged(p, []));
      }
    } else {
      NothingWanted(raw, Tagged(p, Planned(entries, p)));
      NothingWanted(raw, Tagged(p, MethodsIn(entries[n].1)));
    }
  }

  lemma {:induction false} UsualMethodsAreHttp()
    ensures AllHttp(HTTP_METHODS)
  {
  }

  lemma {:induction false} PrefixInOrder(entries: seq<(string, Node)>, raw: map<string, Json>, n: nat)
    requires Decodes(entries, raw) && Distinct(Keys(entries)) && n <= |entries|
    ensures OnlyWanted(raw, PlannedPairs(entries, Keys(entries)[..n])) == OnlyWanted(raw, DocumentPairs(entries[..n]))
  {
    hide Decodes, Wanted, Distinct, Tagged, Planned, MethodsIn;
    if n > 0 {
      PrefixInOrder(entries, raw, n - 1);
      ListedOnly(entries, raw, n - 1);
      OneMoreDocument(entries, n - 1);
      var path := entries[n - 1].0;
      assert Keys(entries)[..n][..n - 1] == Keys(entries)[..n - 1] && Keys(entries)[n - 1] == path;
      assert PlannedPairs(entries, Keys(entries)[..n]) == PlannedPairs(entries, Keys(entries)[..n - 1]) + Tagged(path, Planned(entries, path));
      hide OnlyWanted, DocumentPairs, PlannedPairs;
      WantedAppend(raw, PlannedPairs(entries, Keys(entries)[..n - 1]), Tagged(path, Planned(entries, path)));
      WantedAppend(raw, DocumentPairs(entries[..n - 1]), Tagged(path, MethodsIn(entries[n - 1].1)));
    }
  }

  lemma {:induction false} NoKeys<V>(m: map<string, V>)
    requires forall k :: k !in m
    ensures SortedKeys(m) == []
  {
    hide Ascending, Distinct;
    assert forall i :: 0 <= i < |SortedKeys(m)| ==> SortedKeys(m)[i] in m;
  }

  /** Where the decoded paths are those of the node tree, these are just the paths and methods it
      lists. */
  lemma {:induction false} OnlyListedInOrder(document: seq<Node>, raw: map<string, Json>)
    requires Decodes(PathEntries(document), raw) && Distinct(Keys(PathEntries(document)))
    ensures AllPairs(raw, Some(document)) == OnlyWanted(raw, DocumentPairs(PathEntries(document)))
  {
    hide PathEntries, AllPairs, OnlyWanted, DocumentPairs, PlannedPairs, Distinct, Decodes, SortedKeys;
    var entries := PathEntries(document);
    AllAreListed(entries, raw);
    InDocumentOrder(document, raw);
    PrefixInOrder(entries, raw, |entries|);
    assert Keys(entries)[..|entries|] == Keys(entries) == Keys(entries) + [] && entries[..|entries|] == entries;
  }

  lemma {:induction false} AllAreListed(entries: seq<(string, Node)>, raw: map<string, Json>)
    requires Decodes(entries, raw)
    ensures SortedKeys(Unlisted(raw, Keys(entries))) == []
  {
    hide SortedKeys;
    NoKeys(Unlisted(raw, Keys(entries)));
  }

  // ---------- Two lists of paths ----------

  /** A document with two "paths" members: the order is read from the first, decoding keeps the
      last, and an operation that only the last one has is lost. */
  lemma {:induction false} SecondPathsAreLost()
    ensures
      var item := Mapping([ScalarNode("get"), Mapping([])]);
      var more := Mapping([ScalarNode("get"), Mapping([]), ScalarNode("post"), Mapping([])]);
      var document := [Mapping([ScalarNode("paths"), Mapping([ScalarNode("/a"), item]), ScalarNode("paths"), Mapping([ScalarNode("/a"), more])])];
      var raw := map["/a" := Obj(map["get" := Obj(map[]), "post" := Obj(map[])])];
      Wanted(raw, ("/a", "post")) && ("/a", "post") !in AllPairs(raw, Some(document))
  {
    var item := Mapping([ScalarNode("get"), Mapping([])]);
    var more := Mapping([ScalarNode("get"), Mapping([]), ScalarNode("post"), Mapping([])]);
    var top := [ScalarNode("paths"), Mapping([ScalarNode("/a"), item]), ScalarNode("paths"), Mapping([ScalarNode("/a"), more])];
    var document := [Mapping(top)];
    var raw := map["/a" := Obj(map["get" := Obj(map[]), "post" := Obj(map[])])];
    FirstPaths(Mapping([ScalarNode("/a"), item]), Mapping([ScalarNode("/a"), more]));
    var entries := PathEntries(document);
    assert entries == [("/a", item)];
    OneMethod(Mapping([]));
    assert LastMapping(entries, 0);
    MethodsOfEntry(entries, 0);
    LostUnder(document, raw, "/a", "get", "post");
  }

  lemma {:induction false} FirstPaths(first: Node, second: Node)
    ensures FindEntry(Entries([ScalarNode("paths"), first, ScalarNode("paths"), second]), "paths") == Some(first)
  {
    var entries := Entries([ScalarNode("paths"), first, ScalarNode("paths"), second]);
    assert entries[0] == ("paths", first);
    NoEntries("paths");
    assert entries[..0] == [];
    OneMoreEntry(entries, 0, "paths");
    FoundStays(entries, "paths", 1);
  }

  lemma {:induction false} OneMethod(op: Node)
    ensures MethodsIn(Mapping([ScalarNode("get"), op])) == ["get"]
  {
    var entries := Entries([ScalarNode("get"), op]);
    assert IsHttpMethod("get") by { assert HTTP_METHODS[0] == "get"; }
    LowerOfMethod("get");
    NoEntries("");
    assert entries[..0] == [] && entries[..1] == entries;
    OneMoreMethod(entries, 0);
  }

  /** A method that a path does not list, while it lists another, is not found. */
  lemma {:induction false} LostUnder(document: seq<Node>, raw: map<string, Json>, p: string, listed: string, lost: string)
    requires p in MethodsByPath(PathEntries(document)) && MethodsByPath(PathEntries(document))[p] == [listed]
    requires listed != lost
    ensures (p, lost) !in AllPairs(raw, Some(document))
  {
    hide PathEntries, MethodsByPath, PathOrder, IsHttpMethod, Count, Wanted, Present;
    var entries := PathEntries(document);
    var pair := (p, lost);
    MethodsByPathAreHttp(entries);
    CountPairs(raw, PathOrder(raw, Some(document)), MethodsByPath(entries), pair);
    WantedObj(raw, pair);
    if Wanted(raw, pair) {
      CountPresent([listed], raw[p].fields, lost);
      CountIn([listed], lost);
      assert Count(MethodsFor(p, raw[p].fields, MethodsByPath(entries)), lost) == 0;
    }
    CountIn(AllPairs(raw, Some(document)), pair);
  }

  lemma {:induction false} WantedObj(raw: map<string, Json>, pair: Pair)
    ensures Wanted(raw, pair) ==> pair.0 in raw && raw[pair.0].Obj?
  {
  }
}
