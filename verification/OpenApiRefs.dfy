/** Inlining of `$ref` members in an OpenAPI document.

    The program recurses with no check for cycles, so a call may not return.
    `Halts(doc, v, n)` says that the walk over `v` never follows more than `n`
    references in a row; `ResolveRefs` is what the call returns when it does. */
module OpenApiRefs {
  import opened Text
  import opened Json
  import opened Sorting

  type Document = map<string, Json>

  // ---------- JSON Pointer ----------

  /** The member reached by a list of keys; Null stands for Go's nil, which the
      program uses both for a missing member and for a JSON null. */
  function Walk(v: Json, keys: seq<string>): Json {
    if keys == [] then v
    else if v.Obj? && keys[0] in v.fields then Walk(v.fields[keys[0]], keys[1..])
    else Null
  }

  function Pointer(doc: Document, ref: string): Json {
    if HasPrefix(ref, "#/") then Walk(Obj(doc), Split(ref[2..], '/')) else Null
  }

  method ResolveJsonPointer(doc: Document, ref: string) returns (r: Json)
    ensures r == Pointer(doc, ref)
  {
    if !HasPrefix(ref, "#/") { return Null; }
    var parts := Split(ref[2..], '/');
    var current := Obj(doc);
    var i := 0;
    while i < |parts|
      invariant 0 <= i <= |parts|
      invariant Walk(current, parts[i..]) == Walk(Obj(doc), parts)
    {
      if !current.Obj? { return Null; }
      if parts[i] !in current.fields { return Null; }
      assert parts[i..][1..] == parts[i + 1..];
      current := current.fields[parts[i]];
      i := i + 1;
    }
    return current;
  }

  function PointerTo(keys: seq<string>): string { "#/" + Join(keys, '/') }

  /** The path into a value that takes these keys. */
  function KeySteps(keys: seq<string>): (r: seq<Step>)
    ensures |r| == |keys| && forall i :: 0 <= i < |keys| ==> r[i] == Key(keys[i])
  {
    seq(|keys|, i requires 0 <= i < |keys| => Key(keys[i]))
  }

  lemma {:induction false} WalkReads(v: Json, keys: seq<string>)
    ensures Walk(v, keys) == match Read(v, KeySteps(keys)) case Some(u) => u case None => Null
  {
    if keys != [] {
      assert KeySteps(keys)[1..] == KeySteps(keys[1..]);
      if v.Obj? && keys[0] in v.fields { WalkReads(v.fields[keys[0]], keys[1..]); }
    }
  }

  /** A pointer written from slash-free keys gives what a plain reader finds along all of them, and
      nil if it finds nothing. */
  lemma {:induction false} PointerReaches(doc: Document, keys: seq<string>)
    requires |keys| > 0 && Free(keys, '/')
    ensures Pointer(doc, PointerTo(keys)) == match Read(Obj(doc), KeySteps(keys)) case Some(v) => v case None => Null
  {
    SplitOfJoin(keys, '/');
    assert PointerTo(keys)[2..] == Join(keys, '/');
    assert HasPrefix(PointerTo(keys), "#/");
    WalkReads(Obj(doc), keys);
  }

  /** Whatever a pointer gives, a plain reader finds along some slash-free keys that the pointer is
      written from: a key with a slash in it is out of reach, because `~1` is not decoded. */
  lemma {:induction false} PointerNames(doc: Document, ref: string)
    requires Pointer(doc, ref) != Null
    ensures exists keys ::
      |keys| > 0 && Free(keys, '/') && ref == PointerTo(keys) && Read(Obj(doc), KeySteps(keys)) == Some(Pointer(doc, ref))
  {
    var keys := Split(ref[2..], '/');
    JoinOfSplit(ref[2..], '/');
    assert ref == "#/" + ref[2..];
    assert ref == PointerTo(keys);
    WalkReads(Obj(doc), keys);
  }

  // ---------- Inlining ----------

  /** The reference an object carries: a `$ref` member that is a string. */
  function RefOf(v: Json): Option<string> {
    if v.Obj? && "$ref" in v.fields && v.fields["$ref"].Str? then Some(v.fields["$ref"].s) else None
  }

  predicate Resolves(doc: Document, ref: string) { Pointer(doc, ref) != Null }

  /** What a reference object stands for, if its reference resolves. */
  function Target(doc: Document, v: Json): Option<Json> {
    if RefOf(v).Some? && Resolves(doc, RefOf(v).value) then Some(Pointer(doc, RefOf(v).value)) else None
  }

  /** The reference objects that are followed, and what they stand for: those with a string `$ref`
      member that is written from slash-free keys along which a plain reader finds something. */
  lemma {:induction false} TargetIs(doc: Document, v: Json, t: Json)
    ensures Target(doc, v) == Some(t) <==>
      t != Null && v.Obj? && "$ref" in v.fields &&
      exists keys :: |keys| > 0 && Free(keys, '/') && v.fields["$ref"] == Str(PointerTo(keys)) && Read(Obj(doc), KeySteps(keys)) == Some(t)
  {
    hide Pointer, Free, Read, PointerTo;
    if v.Obj? && "$ref" in v.fields && v.fields["$ref"].Str? {
      var ref := v.fields["$ref"].s;
      if Pointer(doc, ref) != Null { PointerNames(doc, ref); }
      forall keys | |keys| > 0 && Free(keys, '/')
        ensures Pointer(doc, PointerTo(keys)) == match Read(Obj(doc), KeySteps(keys)) case Some(u) => u case None => Null
      {
        PointerReaches(doc, keys);
      }
    }
  }

  ghost predicate Halts(doc: Document, v: Json, n: nat)
    decreases n, v
  {
    if Target(doc, v).Some? then n > 0 && Halts(doc, Target(doc, v).value, n - 1)
    else if RefOf(v).Some? then true
    else
      match v
      case Obj(m) => forall k | k in m :: Halts(doc, m[k], n)
      case Arr(xs) => forall i | 0 <= i < |xs| :: Halts(doc, xs[i], n)
      case _ => true
  }

  function ResolveRefs(doc: Document, v: Json, ghost n: nat): Json
    requires Halts(doc, v, n)
    decreases n, v
  {
    if Target(doc, v).Some? then ResolveRefs(doc, Target(doc, v).value, n - 1)
    else if RefOf(v).Some? then v
    else
      match v
      case Obj(m) => Obj(map k | k in m :: ResolveRefs(doc, m[k], n))
      case Arr(xs) => Arr(seq(|xs|, i requires 0 <= i < |xs| => ResolveRefs(doc, xs[i], n)))
      case _ => v
  }

  lemma {:induction false} HaltsLonger(doc: Document, v: Json, n: nat, m: nat)
    requires Halts(doc, v, n) && n <= m
    ensures Halts(doc, v, m)
    decreases n, v
  {
    if Target(doc, v).Some? {
      HaltsLonger(doc, Target(doc, v).value, n - 1, m - 1);
    } else if RefOf(v).None? {
      match v
      case Obj(fs) => forall k | k in fs ensures Halts(doc, fs[k], m) { HaltsLonger(doc, fs[k], n, m); }
      case Arr(xs) => forall i | 0 <= i < |xs| ensures Halts(doc, xs[i], m) { HaltsLonger(doc, xs[i], n, m); }
      case _ =>
    }
  }

  /** The bound is only a reason for the call to return: it does not affect the result. */
  lemma {:induction false} ResultIgnoresBound(doc: Document, v: Json, n: nat, m: nat)
    requires Halts(doc, v, n) && Halts(doc, v, m)
    ensures ResolveRefs(doc, v, n) == ResolveRefs(doc, v, m)
    decreases n, v
  {
    if Target(doc, v).Some? {
      ResultIgnoresBound(doc, Target(doc, v).value, n - 1, m - 1);
    } else if RefOf(v).None? {
      match v
      case Obj(fs) =>
        forall k | k in fs ensures ResolveRefs(doc, fs[k], n) == ResolveRefs(doc, fs[k], m) {
          ResultIgnoresBound(doc, fs[k], n, m);
        }
        var a, b := ResolveRefs(doc, v, n).fields, ResolveRefs(doc, v, m).fields;
        assert forall k | k in fs :: a[k] == b[k];
      case Arr(xs) =>
        forall i | 0 <= i < |xs| ensures ResolveRefs(doc, xs[i], n) == ResolveRefs(doc, xs[i], m) {
          ResultIgnoresBound(doc, xs[i], n, m);
        }
        var a, b := ResolveRefs(doc, v, n).items, ResolveRefs(doc, v, m).items;
        assert forall i | 0 <= i < |xs| :: a[i] == b[i];
      case _ =>
    }
  }

  // ---------- Termination ----------

  /** The references the walk meets in `v` before following any. */
  ghost function Met(v: Json): set<string> {
    if RefOf(v).Some? then {RefOf(v).value}
    else
      match v
      case Obj(m) => set k, r | k in m && r in Met(m[k]) :: r
      case Arr(xs) => set i, r | 0 <= i < |xs| && r in Met(xs[i]) :: r
      case _ => {}
  }

  /** Every `$ref` string anywhere in `v`. */
  ghost function Refs(v: Json): set<string> {
    (if RefOf(v).Some? then {RefOf(v).value} else {}) +
    match v
    case Obj(m) => set k, r | k in m && r in Refs(m[k]) :: r
    case Arr(xs) => set i, r | 0 <= i < |xs| && r in Refs(xs[i]) :: r
    case _ => {}
  }

  /** A chain of references, each met in what the one before it stands for. */
  ghost predicate Chain(doc: Document, v: Json, p: seq<string>) {
    && (forall k :: 0 <= k < |p| ==> Resolves(doc, p[k]))
    && (|p| > 0 ==> p[0] in Met(v))
    && (forall k :: 0 < k < |p| ==> p[k] in Met(Pointer(doc, p[k - 1])))
  }

  ghost predicate Repeats(p: seq<string>) { exists i, j :: 0 <= i < j < |p| && p[i] == p[j] }

  ghost predicate Cyclic(doc: Document, v: Json) { exists p :: Chain(doc, v, p) && Repeats(p) }

  lemma {:induction false} LongWalkHasChain(doc: Document, v: Json, n: nat) returns (p: seq<string>)
    requires !Halts(doc, v, n)
    ensures Chain(doc, v, p) && |p| == n + 1
    decreases n, v
  {
    if Target(doc, v).Some? {
      var r := RefOf(v).value;
      if n == 0 {
        p := [r];
      } else {
        var q := LongWalkHasChain(doc, Target(doc, v).value, n - 1);
        p := [r] + q;
        forall k | 0 < k < |p| ensures p[k] in Met(Pointer(doc, p[k - 1])) {
          assert p[k] == q[k - 1];
          if k > 1 { assert q[k - 1] in Met(Pointer(doc, q[k - 2])); }
        }
      }
    } else {
      match v
      case Obj(m) =>
        var k :| k in m && !Halts(doc, m[k], n);
        p := LongWalkHasChain(doc, m[k], n);
      case Arr(xs) =>
        var i :| 0 <= i < |xs| && !Halts(doc, xs[i], n);
        p := LongWalkHasChain(doc, xs[i], n);
    }
  }

  lemma {:induction false} ChainBlocks(doc: Document, v: Json, p: seq<string>, n: nat)
    requires Chain(doc, v, p) && |p| > n
    ensures !Halts(doc, v, n)
    decreases n, v
  {
    if RefOf(v).Some? {
      assert p[0] == RefOf(v).value;
      if n > 0 {
        var q := p[1..];
        forall k | 0 < k < |q| ensures q[k] in Met(Pointer(doc, q[k - 1])) {
          assert p[k + 1] in Met(Pointer(doc, p[k]));
        }
        assert q[0] == p[1];
        ChainBlocks(doc, Target(doc, v).value, q, n - 1);
      }
    } else {
      match v
      case Obj(m) =>
        var k :| k in m && p[0] in Met(m[k]);
        ChainBlocks(doc, m[k], p, n);
      case Arr(xs) =>
        var i :| 0 <= i < |xs| && p[0] in Met(xs[i]);
        ChainBlocks(doc, xs[i], p, n);
    }
  }

  /** A repeated reference can be gone round as often as one likes. */
  lemma {:induction false} Pump(doc: Document, v: Json, p: seq<string>, i: nat, j: nat, n: nat)
    returns (q: seq<string>)
    requires Chain(doc, v, p) && i < j < |p| && p[i] == p[j]
    ensures Chain(doc, v, q) && |q| > n
    decreases n + 1 - |p|
  {
    if |p| > n {
      q := p;
    } else {
      var r := p[..j] + p[i..];
      forall k | 0 < k < |r| ensures r[k] in Met(Pointer(doc, r[k - 1])) {
        if k < j { assert r[k] == p[k] && r[k - 1] == p[k - 1]; }
        else if k == j { assert r[k] == p[j] && r[k - 1] == p[j - 1]; }
        else { assert r[k] == p[i + k - j] && r[k - 1] == p[i + k - j - 1]; }
      }
      assert r[i] == p[i] && r[j] == p[i];
      q := Pump(doc, v, r, i, j, n);
    }
  }

  lemma {:induction false} MetAreRefs(v: Json)
    ensures Met(v) <= Refs(v)
  {
    match v
    case Obj(m) => forall k | k in m ensures Met(m[k]) <= Refs(m[k]) { MetAreRefs(m[k]); }
    case Arr(xs) => forall i | 0 <= i < |xs| ensures Met(xs[i]) <= Refs(xs[i]) { MetAreRefs(xs[i]); }
    case _ =>
  }

  lemma {:induction false} WalkKeepsRefs(v: Json, keys: seq<string>)
    ensures Refs(Walk(v, keys)) <= Refs(v)
  {
    if keys != [] && v.Obj? && keys[0] in v.fields {
      WalkKeepsRefs(v.fields[keys[0]], keys[1..]);
    }
  }

  lemma {:induction false} DistinctCount<T>(p: seq<T>)
    requires Distinct(p)
    ensures |Elements(p)| == |p|
  {
    if |p| > 0 {
      DistinctCount(p[1..]);
      assert p[0] !in p[1..];
      assert Elements(p) == {p[0]} + Elements(p[1..]);
    }
  }

  lemma SubsetCount<T>(a: set<T>, b: set<T>)
    requires a <= b
    ensures |a| <= |b|
  {
    assert b == a + (b - a);
  }

  lemma ChainWithin(doc: Document, v: Json, p: seq<string>)
    requires Chain(doc, v, p)
    ensures Elements(p) <= Refs(v) + Refs(Obj(doc))
  {
    forall k | 0 <= k < |p| ensures p[k] in Refs(v) + Refs(Obj(doc)) {
      if k == 0 {
        MetAreRefs(v);
      } else {
        MetAreRefs(Pointer(doc, p[k - 1]));
        WalkKeepsRefs(Obj(doc), Split(p[k - 1][2..], '/'));
      }
    }
  }

  /** The most references that an acyclic walk can follow in a row. */
  ghost function Bound(doc: Document, v: Json): nat { |Refs(v) + Refs(Obj(doc))| }

  lemma CyclicNeverReturns(doc: Document, v: Json, n: nat)
    requires Cyclic(doc, v)
    ensures !Halts(doc, v, n)
  {
    var p :| Chain(doc, v, p) && Repeats(p);
    var i, j :| 0 <= i < j < |p| && p[i] == p[j];
    var q := Pump(doc, v, p, i, j, n);
    ChainBlocks(doc, v, q, n);
  }

  lemma AcyclicReturns(doc: Document, v: Json)
    requires !Cyclic(doc, v)
    ensures Halts(doc, v, Bound(doc, v))
  {
    if !Halts(doc, v, Bound(doc, v)) {
      var p := LongWalkHasChain(doc, v, Bound(doc, v));
      ChainWithin(doc, v, p);
      assert !Repeats(p);
      assert Distinct(p);
      DistinctCount(p);
      SubsetCount(Elements(p), Refs(v) + Refs(Obj(doc)));
    }
  }

  /** The call returns exactly when no chain of references from `v` repeats one,
      and then it follows at most as many in a row as there are different ones. */
  lemma ReturnsIffAcyclic(doc: Document, v: Json)
    ensures (exists n: nat :: Halts(doc, v, n)) <==> !Cyclic(doc, v)
    ensures !Cyclic(doc, v) <==> Halts(doc, v, Bound(doc, v))
  {
    if Cyclic(doc, v) {
      forall n: nat ensures !Halts(doc, v, n) { CyclicNeverReturns(doc, v, n); }
    } else {
      AcyclicReturns(doc, v);
      var n := Bound(doc, v);
      assert Halts(doc, v, n);
    }
  }

  // ---------- Meaning ----------

  /** A reader that follows the references at the head of a value on demand. */
  ghost function Deref(doc: Document, v: Json, n: nat): (u: Json)
    requires Halts(doc, v, n)
    ensures Target(doc, u).None?
    ensures Halts(doc, u, n) && ResolveRefs(doc, u, n) == ResolveRefs(doc, v, n)
    decreases n
  {
    if Target(doc, v).Some? then
      var u := Deref(doc, Target(doc, v).value, n - 1);
      HaltsLonger(doc, u, n - 1, n);
      ResultIgnoresBound(doc, u, n - 1, n);
      u
    else v
  }

  /** The lazy reader along a path. Below a reference object that does not resolve it
      reads the document as written. */
  ghost function LazyRead(doc: Document, v: Json, n: nat, path: seq<Step>): Option<Json>
    requires Halts(doc, v, n)
    decreases |path|
  {
    var u := Deref(doc, v, n);
    if path == [] then Some(u)
    else if RefOf(u).Some? then Read(u, path)
    else
      match Child(u, path[0])
      case None => None
      case Some(c) => LazyRead(doc, c, n, path[1..])
  }

  /** Inlining preserves meaning: along every path, a plain reader of the inlined value
      sees what a lazy reader of the original sees. */
  lemma {:induction false} MeaningPreserved(doc: Document, v: Json, n: nat, path: seq<Step>)
    requires Halts(doc, v, n)
    ensures ShapeAt(ResolveRefs(doc, v, n), path) ==
            (match LazyRead(doc, v, n, path) case None => None case Some(u) => Some(ShapeOf(u)))
    decreases |path|
  {
    var u := Deref(doc, v, n);
    var w := ResolveRefs(doc, u, n);
    assert ShapeOf(w) == ShapeOf(u);
    if path != [] && RefOf(u).None? {
      match Child(u, path[0])
      case None => assert Child(w, path[0]).None?;
      case Some(c) =>
        assert Halts(doc, c, n) && Child(w, path[0]) == Some(ResolveRefs(doc, c, n));
        MeaningPreserved(doc, c, n, path[1..]);
    }
  }

  /** The inlined value is the only value with that meaning. */
  lemma OnlyMeaning(doc: Document, v: Json, n: nat, w: Json)
    requires Halts(doc, v, n)
    requires forall path :: ShapeAt(w, path) ==
               (match LazyRead(doc, v, n, path) case None => None case Some(u) => Some(ShapeOf(u)))
    ensures w == ResolveRefs(doc, v, n)
  {
    forall path ensures ShapeAt(w, path) == ShapeAt(ResolveRefs(doc, v, n), path) {
      MeaningPreserved(doc, v, n, path);
    }
    ShapesDetermine(w, ResolveRefs(doc, v, n));
  }

  // ---------- Normal form and a second pass ----------

  /** No resolvable reference is left except beneath one that does not resolve. */
  ghost predicate Normal(doc: Document, w: Json) {
    && Target(doc, w).None?
    && (RefOf(w).None? ==>
          match w
          case Obj(m) => forall k | k in m :: Normal(doc, m[k])
          case Arr(xs) => forall i | 0 <= i < |xs| :: Normal(doc, xs[i])
          case _ => true)
  }

  /** A value in normal form is left as it is, and no reference is followed. */
  lemma {:induction false} NormalIsFixed(doc: Document, w: Json)
    ensures Normal(doc, w) <==> Halts(doc, w, 0)
    ensures Normal(doc, w) ==> ResolveRefs(doc, w, 0) == w
  {
    match w
    case Obj(m) =>
      forall k | k in m
        ensures Normal(doc, m[k]) <==> Halts(doc, m[k], 0)
        ensures Normal(doc, m[k]) ==> ResolveRefs(doc, m[k], 0) == m[k]
      { NormalIsFixed(doc, m[k]); }
      if Normal(doc, w) && RefOf(w).None? { assert ResolveRefs(doc, w, 0).fields == m; }
    case Arr(xs) =>
      forall i | 0 <= i < |xs|
        ensures Normal(doc, xs[i]) <==> Halts(doc, xs[i], 0)
        ensures Normal(doc, xs[i]) ==> ResolveRefs(doc, xs[i], 0) == xs[i]
      { NormalIsFixed(doc, xs[i]); }
      if Normal(doc, w) { assert ResolveRefs(doc, w, 0).items == xs; }
    case _ =>
  }

  /** A `$ref` member that is not a string but stands for one: the walk turns it into a
      reference. `Plants` says that it plants a reference that resolves. */
  ghost predicate Plants(doc: Document, v: Json, n: nat)
    requires Halts(doc, v, n)
    decreases n, v
  {
    if Target(doc, v).Some? then Plants(doc, Target(doc, v).value, n - 1)
    else if RefOf(v).Some? then false
    else
      match v
      case Obj(m) =>
        if "$ref" in m && Deref(doc, m["$ref"], n).Str? then Resolves(doc, Deref(doc, m["$ref"], n).s)
        else exists k | k in m :: Plants(doc, m[k], n)
      case Arr(xs) => exists i | 0 <= i < |xs| :: Plants(doc, xs[i], n)
      case _ => false
  }

  /** The result is in normal form, and a second pass therefore changes nothing and follows
      no reference, exactly when the walk plants no reference. */
  lemma {:induction false} NormalIffNothingPlanted(doc: Document, v: Json, n: nat)
    requires Halts(doc, v, n)
    ensures Normal(doc, ResolveRefs(doc, v, n)) <==> !Plants(doc, v, n)
    decreases n, v
  {
    if Target(doc, v).Some? {
      NormalIffNothingPlanted(doc, Target(doc, v).value, n - 1);
    } else if RefOf(v).None? {
      var w := ResolveRefs(doc, v, n);
      match v
      case Obj(m) =>
        forall k | k in m ensures Normal(doc, w.fields[k]) <==> !Plants(doc, m[k], n) {
          NormalIffNothingPlanted(doc, m[k], n);
        }
        if "$ref" in m {
          var u := Deref(doc, m["$ref"], n);
          assert w.fields["$ref"] == ResolveRefs(doc, u, n);
          assert w.fields["$ref"].Str? <==> u.Str?;
        }
      case Arr(xs) =>
        forall i | 0 <= i < |xs| ensures Normal(doc, w.items[i]) <==> !Plants(doc, xs[i], n) {
          NormalIffNothingPlanted(doc, xs[i], n);
        }
      case _ =>
    }
  }

  /** A second pass changes nothing and follows no reference exactly when the walk plants none. */
  lemma SecondPassIsIdle(doc: Document, v: Json, n: nat)
    requires Halts(doc, v, n)
    ensures var w := ResolveRefs(doc, v, n);
            (Halts(doc, w, 0) && ResolveRefs(doc, w, 0) == w) <==> !Plants(doc, v, n)
  {
    NormalIffNothingPlanted(doc, v, n);
    NormalIsFixed(doc, ResolveRefs(doc, v, n));
  }

  ghost predicate InlinesTo(doc: Document, v: Json, w: Json) {
    exists m: nat :: Halts(doc, v, m) && ResolveRefs(doc, v, m) == w
  }

  /** The walk plants a resolvable reference, and following it does not lead back to the object
      that it was planted in. */
  ghost predicate PlantsOther(doc: Document, v: Json, n: nat)
    requires Halts(doc, v, n)
    decreases n, v
  {
    if Target(doc, v).Some? then PlantsOther(doc, Target(doc, v).value, n - 1)
    else if RefOf(v).Some? then false
    else
      match v
      case Obj(m) =>
        if "$ref" in m && Deref(doc, m["$ref"], n).Str? then
          var ref := Deref(doc, m["$ref"], n).s;
          Resolves(doc, ref) && !InlinesTo(doc, Pointer(doc, ref), ResolveRefs(doc, v, n))
        else exists k | k in m :: PlantsOther(doc, m[k], n)
      case Arr(xs) => exists i | 0 <= i < |xs| :: PlantsOther(doc, xs[i], n)
      case _ => false
  }

  /** The walk plants a reference to something that cannot be inlined. */
  ghost predicate PlantsCycle(doc: Document, v: Json, n: nat)
    requires Halts(doc, v, n)
    decreases n, v
  {
    if Target(doc, v).Some? then PlantsCycle(doc, Target(doc, v).value, n - 1)
    else if RefOf(v).Some? then false
    else
      match v
      case Obj(m) =>
        if "$ref" in m && Deref(doc, m["$ref"], n).Str? then
          var ref := Deref(doc, m["$ref"], n).s;
          Resolves(doc, ref) && Cyclic(doc, Pointer(doc, ref))
        else exists k | k in m :: PlantsCycle(doc, m[k], n)
      case Arr(xs) => exists i | 0 <= i < |xs| :: PlantsCycle(doc, xs[i], n)
      case _ => false
  }

  ghost predicate Returns(doc: Document, v: Json) { exists n: nat :: Halts(doc, v, n) }

  lemma {:induction false} ChildRefs(v: Json, step: Step)
    requires Child(v, step).Some?
    ensures Refs(Child(v, step).value) <= Refs(v)
  {
    forall r | r in Refs(Child(v, step).value) ensures r in Refs(v) {
      match v
      case Obj(m) => assert step.key in m && r in Refs(m[step.key]);
      case Arr(xs) => assert step.index < |xs| && r in Refs(xs[step.index]);
      case _ =>
    }
  }

  lemma {:induction false} ReturnsUnlessCyclic(doc: Document, v: Json)
    ensures Returns(doc, v) <==> !Cyclic(doc, v)
  {
    hide Cyclic;
    if Cyclic(doc, v) {
      forall n: nat ensures !Halts(doc, v, n) { CyclicNeverReturns(doc, v, n); }
    } else {
      AcyclicReturns(doc, v);
    }
  }

  /** Within a value its own bound does for each child that returns. */
  lemma {:induction false} ChildReturns(doc: Document, v: Json, step: Step)
    requires Child(v, step).Some? && Returns(doc, Child(v, step).value)
    ensures Halts(doc, Child(v, step).value, Bound(doc, v))
  {
    var c := Child(v, step).value;
    hide Refs, Cyclic, Child, Returns;
    ChildRefs(v, step);
    ReturnsUnlessCyclic(doc, c);
    AcyclicReturns(doc, c);
    SubsetCount(Refs(c) + Refs(Obj(doc)), Refs(v) + Refs(Obj(doc)));
    HaltsLonger(doc, c, Bound(doc, c), Bound(doc, v));
  }

  lemma {:induction false} HaltsByChildren(doc: Document, v: Json, n: nat)
    requires RefOf(v).None?
    ensures Halts(doc, v, n) <==> forall step :: Child(v, step).Some? ==> Halts(doc, Child(v, step).value, n)
  {
    match v
    case Obj(m) => assert forall k :: k in m ==> Child(v, Key(k)) == Some(m[k]);
    case Arr(xs) => assert forall i: nat :: i < |xs| ==> Child(v, Index(i)) == Some(xs[i]);
    case _ =>
  }

  /** The children of the result are the results of the children. */
  lemma {:induction false} ResultChild(doc: Document, v: Json, n: nat, step: Step)
    requires Halts(doc, v, n) && RefOf(v).None?
    ensures ShapeOf(ResolveRefs(doc, v, n)) == ShapeOf(v)
    ensures Child(v, step).None? ==> Child(ResolveRefs(doc, v, n), step).None?
    ensures Child(v, step).Some? ==>
      && Halts(doc, Child(v, step).value, n) && Child(v, step).value < v
      && Child(ResolveRefs(doc, v, n), step) == Some(ResolveRefs(doc, Child(v, step).value, n))
  {
  }

  lemma {:induction false} SameChildren(a: Json, b: Json)
    requires ShapeOf(a) == ShapeOf(b) && forall step :: Child(a, step) == Child(b, step)
    ensures a == b
  {
    match a
    case Obj(m) => forall k | k in m ensures m[k] == b.fields[k] { assert Child(a, Key(k)) == Child(b, Key(k)); }
    case Arr(xs) => forall i | 0 <= i < |xs| ensures xs[i] == b.items[i] { assert Child(a, Index(i)) == Child(b, Index(i)); }
    case _ =>
  }

  /** A value that is no reference returns exactly when its children do. */
  lemma {:induction false} ReturnsByChildren(doc: Document, v: Json)
    requires RefOf(v).None?
    ensures Returns(doc, v) <==> forall step :: Child(v, step).Some? ==> Returns(doc, Child(v, step).value)
  {
    hide RefOf, Bound, Halts, Child;
    if n: nat :| Halts(doc, v, n) { HaltsByChildren(doc, v, n); }
    if forall step :: Child(v, step).Some? ==> Returns(doc, Child(v, step).value) {
      forall step | Child(v, step).Some? ensures Halts(doc, Child(v, step).value, Bound(doc, v)) { ChildReturns(doc, v, step); }
      HaltsByChildren(doc, v, Bound(doc, v));
    }
  }

  /** It is left as it is exactly when its children are. */
  lemma {:induction false} FixedByChildren(doc: Document, v: Json)
    requires RefOf(v).None?
    ensures InlinesTo(doc, v, v) <==> forall step :: Child(v, step).Some? ==> InlinesTo(doc, Child(v, step).value, Child(v, step).value)
  {
    hide RefOf, Halts, Child, ResolveRefs, ShapeOf;
    if n: nat :| Halts(doc, v, n) && ResolveRefs(doc, v, n) == v {
      forall step | Child(v, step).Some? ensures InlinesTo(doc, Child(v, step).value, Child(v, step).value) {
        ResultChild(doc, v, n, step);
      }
    }
    if forall step :: Child(v, step).Some? ==> InlinesTo(doc, Child(v, step).value, Child(v, step).value) {
      ReturnsByChildren(doc, v);
      var n: nat :| Halts(doc, v, n);
      forall step ensures Child(ResolveRefs(doc, v, n), step) == Child(v, step) {
        ResultChild(doc, v, n, step);
        if Child(v, step).Some? { FixedAt(doc, Child(v, step).value, n); }
      }
      ResultChild(doc, v, n, Index(0));
      SameChildren(ResolveRefs(doc, v, n), v);
    }
  }

  lemma {:induction false} FixedAt(doc: Document, v: Json, n: nat)
    requires Halts(doc, v, n) && InlinesTo(doc, v, v)
    ensures ResolveRefs(doc, v, n) == v
  {
    var m: nat :| Halts(doc, v, m) && ResolveRefs(doc, v, m) == v;
    ResultIgnoresBound(doc, v, n, m);
  }

  /** A resolvable reference returns when its target does, with the target's result. */
  lemma {:induction false} ByTarget(doc: Document, v: Json, w: Json)
    requires Target(doc, v).Some?
    ensures Returns(doc, v) <==> Returns(doc, Target(doc, v).value)
    ensures InlinesTo(doc, v, w) <==> InlinesTo(doc, Target(doc, v).value, w)
  {
    var t := Target(doc, v).value;
    hide Target;
    if n: nat :| Halts(doc, v, n) { assert Halts(doc, t, n - 1); }
    if n: nat :| Halts(doc, t, n) { assert Halts(doc, v, n + 1); }
    if n: nat :| Halts(doc, v, n) && ResolveRefs(doc, v, n) == w { assert ResolveRefs(doc, t, n - 1) == w; }
    if n: nat :| Halts(doc, t, n) && ResolveRefs(doc, t, n) == w {
      assert Halts(doc, v, n + 1) && ResolveRefs(doc, v, n + 1) == w;
    }
  }

  lemma {:induction false} Dangling(doc: Document, v: Json)
    requires RefOf(v).Some? && Target(doc, v).None?
    ensures InlinesTo(doc, v, v) && Returns(doc, v)
  {
    assert Halts(doc, v, 0) && ResolveRefs(doc, v, 0) == v;
  }

  /** When the result of a walk over something else than a reference is one. */
  lemma {:induction false} PlantedRef(doc: Document, v: Json, n: nat)
    requires Halts(doc, v, n) && RefOf(v).None?
    ensures var w := ResolveRefs(doc, v, n);
      && (RefOf(w).Some? <==> v.Obj? && "$ref" in v.fields && Deref(doc, v.fields["$ref"], n).Str?)
      && (RefOf(w).Some? ==> RefOf(w).value == Deref(doc, v.fields["$ref"], n).s)
  {
    if v.Obj? && "$ref" in v.fields {
      var u := Deref(doc, v.fields["$ref"], n);
      assert ResolveRefs(doc, v, n).fields["$ref"] == ResolveRefs(doc, u, n);
      assert ResolveRefs(doc, u, n).Str? <==> u.Str?;
    }
  }

  /** Otherwise planting happens in a child. */
  lemma {:induction false} PlantsOtherByChildren(doc: Document, v: Json, n: nat)
    requires Halts(doc, v, n) && RefOf(v).None? && RefOf(ResolveRefs(doc, v, n)).None?
    ensures PlantsOther(doc, v, n) <==>
      exists step :: Child(v, step).Some? && Halts(doc, Child(v, step).value, n) && PlantsOther(doc, Child(v, step).value, n)
  {
    PlantedRef(doc, v, n);
    hide ResolveRefs, RefOf, Deref, Resolves, Cyclic, InlinesTo;
    match v
    case Obj(m) => assert forall k :: k in m ==> Child(v, Key(k)) == Some(m[k]);
    case Arr(xs) => assert forall i: nat :: i < |xs| ==> Child(v, Index(i)) == Some(xs[i]);
    case _ =>
  }

  lemma {:induction false} PlantsCycleByChildren(doc: Document, v: Json, n: nat)
    requires Halts(doc, v, n) && RefOf(v).None? && RefOf(ResolveRefs(doc, v, n)).None?
    ensures PlantsCycle(doc, v, n) <==>
      exists step :: Child(v, step).Some? && Halts(doc, Child(v, step).value, n) && PlantsCycle(doc, Child(v, step).value, n)
  {
    PlantedRef(doc, v, n);
    hide ResolveRefs, RefOf, Deref, Resolves, Cyclic, InlinesTo;
    match v
    case Obj(m) => assert forall k :: k in m ==> Child(v, Key(k)) == Some(m[k]);
    case Arr(xs) => assert forall i: nat :: i < |xs| ==> Child(v, Index(i)) == Some(xs[i]);
    case _ =>
  }

  /** A second pass returns and changes nothing exactly when every resolvable reference that the
      first one plants leads back to the object it was planted in. */
  lemma {:induction false} SecondPassUnchangedIff(doc: Document, v: Json, n: nat)
    requires Halts(doc, v, n)
    ensures var w := ResolveRefs(doc, v, n); InlinesTo(doc, w, w) <==> !PlantsOther(doc, v, n)
    decreases n, v
  {
    var w := ResolveRefs(doc, v, n);
    if Target(doc, v).Some? {
      SecondPassUnchangedIff(doc, Target(doc, v).value, n - 1);
    } else if RefOf(v).Some? {
      Dangling(doc, v);
    } else {
      PlantedRef(doc, v, n);
      if RefOf(w).Some? {
        if Target(doc, w).Some? { ByTarget(doc, w, w); } else { Dangling(doc, w); }
      } else {
        hide InlinesTo, PlantsOther, ResolveRefs, Halts, Child, RefOf, ShapeOf, Target;
        FixedByChildren(doc, w);
        PlantsOtherByChildren(doc, v, n);
        forall step ensures Child(v, step).Some? == Child(w, step).Some? { ResultChild(doc, v, n, step); }
        forall step | Child(v, step).Some?
          ensures Halts(doc, Child(v, step).value, n)
          ensures InlinesTo(doc, Child(w, step).value, Child(w, step).value) <==> !PlantsOther(doc, Child(v, step).value, n)
        {
          ResultChild(doc, v, n, step);
          SecondPassUnchangedIff(doc, Child(v, step).value, n);
        }
      }
    }
  }

  /** A second pass returns exactly when the first one plants no reference to a cycle. */
  lemma {:induction false} SecondPassReturnsIff(doc: Document, v: Json, n: nat)
    requires Halts(doc, v, n)
    ensures Returns(doc, ResolveRefs(doc, v, n)) <==> !PlantsCycle(doc, v, n)
    decreases n, v
  {
    hide Cyclic, Returns;
    var w := ResolveRefs(doc, v, n);
    if Target(doc, v).Some? {
      SecondPassReturnsIff(doc, Target(doc, v).value, n - 1);
    } else if RefOf(v).Some? {
      Dangling(doc, v);
    } else {
      PlantedRef(doc, v, n);
      if RefOf(w).Some? {
        if Target(doc, w).Some? {
          ByTarget(doc, w, w);
          ReturnsUnlessCyclic(doc, Target(doc, w).value);
        } else {
          Dangling(doc, w);
        }
      } else {
        hide PlantsCycle, ResolveRefs, Halts, Child, RefOf, ShapeOf, Target;
        ReturnsByChildren(doc, w);
        PlantsCycleByChildren(doc, v, n);
        forall step ensures Child(v, step).Some? == Child(w, step).Some? { ResultChild(doc, v, n, step); }
        forall step | Child(v, step).Some?
          ensures Halts(doc, Child(v, step).value, n)
          ensures Returns(doc, Child(w, step).value) <==> !PlantsCycle(doc, Child(v, step).value, n)
        {
          ResultChild(doc, v, n, step);
          SecondPassReturnsIff(doc, Child(v, step).value, n);
        }
      }
    }
  }

  /** Every `$ref` member is a string, as the OpenAPI Reference Object demands. */
  ghost predicate StringRefs(v: Json) {
    match v
    case Obj(m) => ("$ref" in m ==> m["$ref"].Str?) && forall k | k in m :: StringRefs(m[k])
    case Arr(xs) => forall i | 0 <= i < |xs| :: StringRefs(xs[i])
    case _ => true
  }

  lemma {:induction false} WalkKeepsStringRefs(v: Json, keys: seq<string>)
    requires StringRefs(v)
    ensures StringRefs(Walk(v, keys))
  {
    if keys != [] && v.Obj? && keys[0] in v.fields {
      WalkKeepsStringRefs(v.fields[keys[0]], keys[1..]);
    }
  }

  /** In a document whose `$ref` members are all strings nothing is planted, so inlining is
      idempotent there. */
  lemma {:induction false} StringRefsPlantNothing(doc: Document, v: Json, n: nat)
    requires Halts(doc, v, n) && StringRefs(v) && StringRefs(Obj(doc))
    ensures !Plants(doc, v, n)
    decreases n, v
  {
    if Target(doc, v).Some? {
      WalkKeepsStringRefs(Obj(doc), Split(RefOf(v).value[2..], '/'));
      StringRefsPlantNothing(doc, Target(doc, v).value, n - 1);
    } else if RefOf(v).None? {
      match v
      case Obj(m) => forall k | k in m ensures !Plants(doc, m[k], n) { StringRefsPlantNothing(doc, m[k], n); }
      case Arr(xs) => forall i | 0 <= i < |xs| ensures !Plants(doc, xs[i], n) { StringRefsPlantNothing(doc, xs[i], n); }
      case _ =>
    }
  }

  lemma {:induction false} TopMember(doc: Document, key: string)
    requires key in doc && '/' !in key
    ensures Pointer(doc, "#/" + key) == doc[key]
  {
    PointerReaches(doc, [key]);
    assert PointerTo([key]) == "#/" + key;
    assert Child(Obj(doc), KeySteps([key])[0]) == Some(doc[key]) && KeySteps([key])[1..] == [];
  }

  lemma {:induction false} FollowsOnce(doc: Document, v: Json, t: Json)
    requires Target(doc, v) == Some(t) && Halts(doc, t, 0)
    ensures Halts(doc, v, 1) && ResolveRefs(doc, v, 1) == ResolveRefs(doc, t, 0)
  {
    hide Target;
  }

  /** An object whose `$ref` member is a reference to member "a". */
  const PLANTER := Obj(map["$ref" := Obj(map["$ref" := Str("#/a")])])

  /** Where member "a" is a string, it becomes a reference with that text. */
  lemma {:induction false} Planter(doc: Document, ref: string)
    requires "a" in doc && doc["a"] == Str(ref)
    ensures Halts(doc, PLANTER, 1) && ResolveRefs(doc, PLANTER, 1) == Obj(map["$ref" := Str(ref)])
  {
    var inner := Obj(map["$ref" := Str("#/a")]);
    TopMember(doc, "a");
    assert "#/" + "a" == "#/a";
    hide Pointer;
    assert Target(doc, inner) == Some(Str(ref));
    FollowsOnce(doc, inner, Str(ref));
  }

  /** With other documents a second pass can change the result. */
  lemma {:induction false} SecondPassCanChange()
    ensures exists doc: Document, v, n, w ::
      Halts(doc, v, n) && w == ResolveRefs(doc, v, n) && Halts(doc, w, n) && ResolveRefs(doc, w, n) != w
  {
    var doc: Document := map["a" := Str("#/b"), "b" := Num(1.0)];
    Planter(doc, "#/b");
    var w := ResolveRefs(doc, PLANTER, 1);
    TopMember(doc, "b");
    assert "#/" + "b" == "#/b";
    hide Pointer;
    assert Target(doc, w) == Some(Num(1.0));
    FollowsOnce(doc, w, Num(1.0));
    assert Halts(doc, PLANTER, 1) && Halts(doc, w, 1) && ResolveRefs(doc, w, 1) == Num(1.0) != w;
  }

  /** It can also fail to return. */
  lemma {:induction false} SecondPassCanLoop()
    ensures exists doc: Document, v, n :: Halts(doc, v, n) && Cyclic(doc, ResolveRefs(doc, v, n))
  {
    var loop := Obj(map["$ref" := Str("#/u")]);
    var doc: Document := map["a" := Str("#/u"), "u" := loop];
    Planter(doc, "#/u");
    TopMember(doc, "u");
    assert "#/" + "u" == "#/u";
    hide Pointer;
    var p := ["#/u", "#/u"];
    assert Met(loop) == {"#/u"};
    assert Chain(doc, loop, p) && p[0] == p[1];
  }

  /** And a planted reference may lead back to its object, so that nothing changes although a
      reference is followed. */
  lemma {:induction false} PlantedCanBeUnchanged()
    ensures exists doc: Document, v, n ::
      Halts(doc, v, n) && Plants(doc, v, n) && InlinesTo(doc, ResolveRefs(doc, v, n), ResolveRefs(doc, v, n))
  {
    var doc: Document := map["a" := Str("#/t"), "t" := PLANTER];
    Planter(doc, "#/t");
    var w := ResolveRefs(doc, PLANTER, 1);
    TopMember(doc, "t");
    assert "#/" + "t" == "#/t";
    hide Pointer;
    assert Target(doc, w) == Some(PLANTER);
    ByTarget(doc, w, w);
    assert InlinesTo(doc, PLANTER, w);
    NormalIffNothingPlanted(doc, PLANTER, 1);
  }
}
