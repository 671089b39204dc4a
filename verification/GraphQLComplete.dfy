/** What a selection tree has in it: every field that the limits leave room for. */
module GraphQLComplete {
  import opened Text
  import opened Positions
  import opened GraphQLSelection

  // ---------- Complete selections ----------

  /** The positions of the first `max` fields that are wanted, in order. */
  ghost predicate FirstWanted(fs: seq<Field>, wanted: Field -> bool, max: nat, at: seq<nat>) {
    && |at| <= max
    && (forall i :: 0 <= i < |at| ==> at[i] < |fs| && wanted(fs[at[i]]))
    && (forall i, j :: 0 <= i < j < |at| ==> at[i] < at[j])
    && forall k :: 0 <= k < |fs| && wanted(fs[k]) ==> k in at || (|at| == max && forall i :: 0 <= i < |at| ==> at[i] < k)
  }

  /** The node of a field, apart from what is selected below it. */
  ghost predicate NodeOf(n: SelNode, f: Field) {
    n.fieldName == f.name && n.returnType == Some(f.typ) && n.fragments == map[] && (n.isLeaf <==> n.children == [])
  }

  ghost predicate NodesOf(nodes: seq<SelNode>, fs: seq<Field>, at: seq<nat>) {
    |nodes| == |at| && forall i :: 0 <= i < |at| ==> at[i] < |fs| && NodeOf(nodes[i], fs[at[i]])
  }

  ghost function AsScalar(schema: Schema): Field -> bool { f => IsScalarField(schema, f) }

  ghost function AsObject(schema: Schema): Field -> bool { f => IsObjectField(schema, f) }

  /** The selected fields of one type: the first scalars and enums, and then, where another level may
      follow, the first objects, interfaces and unions. */
  ghost predicate SelectsFields(schema: Schema, fs: seq<Field>, nodes: seq<SelNode>, o: Options) {
    exists scalars, objects :: SelectsAt(schema, fs, nodes, o, scalars, objects)
  }

  ghost predicate SelectsAt(schema: Schema, fs: seq<Field>, nodes: seq<SelNode>, o: Options, scalars: seq<nat>, objects: seq<nat>) {
    && FirstWanted(fs, AsScalar(schema), if o.maxScalars < 1 then 1 else o.maxScalars, scalars)
    && (if o.maxDepth > 1 && o.maxObjects > 0 then FirstWanted(fs, AsObject(schema), o.maxObjects, objects) else objects == [])
    && |scalars| <= |nodes| && NodesOf(nodes[..|scalars|], fs, scalars) && NodesOf(nodes[|scalars|..], fs, objects)
  }

  ghost predicate CompleteFields(schema: Schema, fs: seq<Field>, nodes: seq<SelNode>, o: Options, above: set<string>)
    decreases nodes, 0
  {
    && SelectsFields(schema, fs, nodes, o)
    && forall n | n in nodes :: n.returnType.Some? && Complete(schema, Base(n.returnType.value), n.children, o.Deeper(), above)
  }

  /** `nodes` is all that is selected on a value of type `base` inside the types `above`: nothing where
      the type is being expanded already or no level is left; the fields of an object or an interface;
      and one fragment for each of the first two members of a union that the schema defines. */
  ghost predicate Complete(schema: Schema, base: string, nodes: seq<SelNode>, o: Options, above: set<string>)
    decreases nodes, 1
  {
    if base == "" || base in above || base !in schema || o.maxDepth <= 0 then nodes == []
    else
      match schema[base].kind
      case Object => CompleteFields(schema, schema[base].fields, nodes, o, above + {base})
      case Interface => CompleteFields(schema, schema[base].fields, nodes, o, above + {base})
      case Union =>
        var members := schema[base].members;
        && |nodes| == 1 && nodes[0].fieldName == "" && nodes[0].children == [] && nodes[0].returnType == None && !nodes[0].isLeaf
        && nodes[0].fragments.Keys == (set i | 0 <= i < |members| && i < 2 && members[i] in schema :: members[i])
        && forall m | m in nodes[0].fragments ::
             CompleteFields(schema, schema[m].fields, nodes[0].fragments[m].nodes, o.Deeper(), above + {base})
      case _ => nodes == []
  }

  // ---------- The builder's trees are complete ----------

  ghost function Indices(fs: seq<Field>, wanted: Field -> bool): seq<nat> {
    if fs == [] then []
    else Indices(fs[..|fs| - 1], wanted) + if wanted(fs[|fs| - 1]) then [|fs| - 1] else []
  }

  lemma {:induction false} IndicesAre(fs: seq<Field>, wanted: Field -> bool)
    ensures AllWanted(fs, wanted, Indices(fs, wanted))
  {
    hide AllWanted;
    if fs == [] {
      NoneWanted(wanted);
    } else {
      var init, last := fs[..|fs| - 1], fs[|fs| - 1];
      IndicesAre(init, wanted);
      OneMoreWanted(init, last, wanted, Indices(init, wanted));
      assert init + [last] == fs;
    }
  }

  /** The first of them are the first wanted fields. */
  lemma {:induction false} FirstOnes(fs: seq<Field>, wanted: Field -> bool, max: nat)
    ensures var at := Indices(fs, wanted); FirstWanted(fs, wanted, max, if |at| <= max then at else at[..max])
  {
    IndicesAre(fs, wanted);
    var at := Indices(fs, wanted);
    hide Indices;
    if |at| > max {
      forall k | 0 <= k < |fs| && wanted(fs[k]) ensures k in at[..max] || forall i :: 0 <= i < max ==> at[i] < k {
        var j :| 0 <= j < |at| && at[j] == k;
        if j < max { assert at[..max][j] == k; }
      }
    }
  }

  ghost predicate FieldsAt(xs: seq<Field>, fs: seq<Field>, at: seq<nat>) {
    |xs| == |at| && forall i :: 0 <= i < |at| ==> at[i] < |fs| && xs[i] == fs[at[i]]
  }

  lemma {:induction false} ScalarsAt(schema: Schema, fs: seq<Field>)
    ensures FieldsAt(ScalarFields(schema, fs), fs, Indices(fs, AsScalar(schema)))
  {
    hide IsScalarField;
    if fs != [] { ScalarsAt(schema, fs[..|fs| - 1]); }
  }

  lemma {:induction false} ObjectsAt(schema: Schema, fs: seq<Field>)
    ensures FieldsAt(ObjectFields(schema, fs), fs, Indices(fs, AsObject(schema)))
  {
    hide IsObjectField;
    if fs != [] { ObjectsAt(schema, fs[..|fs| - 1]); }
  }

  lemma {:induction false} ScalarNodesAt(schema: Schema, fs: seq<Field>, max: int) returns (at: seq<nat>)
    ensures FirstWanted(fs, AsScalar(schema), if max < 1 then 1 else max, at)
    ensures NodesOf(ScalarNodes(AtMost(ScalarFields(schema, fs), max)), fs, at)
  {
    ScalarsAt(schema, fs);
    at := Indices(fs, AsScalar(schema));
    FirstOnes(fs, AsScalar(schema), Cap(max));
    hide Indices, ScalarFields, IsScalarField, FirstWanted;
    at := if |at| <= Cap(max) then at else at[..Cap(max)];
  }

  lemma {:induction false} ObjectNodesAt(schema: Schema, fs: seq<Field>, o: Options, above: set<string>) returns (at: seq<nat>)
    requires o.maxDepth > 1 && o.maxObjects > 0
    ensures FirstWanted(fs, AsObject(schema), o.maxObjects, at)
    ensures NodesOf(ObjectNodes(schema, AtMost(ObjectFields(schema, fs), o.maxObjects), o, above), fs, at)
  {
    ObjectsAt(schema, fs);
    at := Indices(fs, AsObject(schema));
    FirstOnes(fs, AsObject(schema), Cap(o.maxObjects));
    hide Indices, ObjectFields, IsObjectField, FirstWanted, SelTree;
    at := if |at| <= Cap(o.maxObjects) then at else at[..Cap(o.maxObjects)];
  }

  lemma {:induction false} ObjSelSelects(schema: Schema, def: Def, o: Options, above: set<string>)
    ensures SelectsFields(schema, def.fields, ObjSel(schema, def, o, above), o)
  {
    var scalars := ScalarNodesAt(schema, def.fields, o.maxScalars);
    var objects: seq<nat> := [];
    if o.maxDepth > 1 && o.maxObjects > 0 { objects := ObjectNodesAt(schema, def.fields, o, above); }
    hide NodesOf, ScalarFields, ObjectFields, ScalarNodes, ObjectNodes, AsScalar, AsObject, FirstWanted;
    var nodes := ObjSel(schema, def, o, above);
    var left := ScalarNodes(AtMost(ScalarFields(schema, def.fields), o.maxScalars));
    var right := if o.maxDepth > 1 && o.maxObjects > 0 then ObjectNodes(schema, AtMost(ObjectFields(schema, def.fields), o.maxObjects), o, above) else [];
    assert nodes == left + right;
    NoNodes(def.fields);
    SamePlaces(left, def.fields, scalars);
    assert nodes[..|scalars|] == left && nodes[|scalars|..] == right;
    assert SelectsAt(schema, def.fields, nodes, o, scalars, objects);
  }

  lemma {:induction false} NoNodes(fs: seq<Field>)
    ensures NodesOf([], fs, [])
  {
  }

  lemma {:induction false} SamePlaces(nodes: seq<SelNode>, fs: seq<Field>, at: seq<nat>)
    requires NodesOf(nodes, fs, at)
    ensures |nodes| == |at|
  {
  }

  /** What a node is made from. */
  lemma {:induction false} BelowNode(schema: Schema, def: Def, o: Options, above: set<string>, n: SelNode)
    requires n in ObjSel(schema, def, o, above)
    ensures n.returnType.Some?
    ensures (n.children == [] && Base(n.returnType.value) in schema && schema[Base(n.returnType.value)].kind in {Scalar, Enum})
         || (o.maxDepth > 1 && n.children == SelTree(schema, n.returnType.value, o.Deeper(), above))
  {
    hide SelTree, ScalarFields, ObjectFields;
    var scalars := AtMost(ScalarFields(schema, def.fields), o.maxScalars);
    var nodes := ObjSel(schema, def, o, above);
    var i :| 0 <= i < |nodes| && nodes[i] == n;
    if i < |scalars| {
      ScalarsOnly(schema, def.fields, scalars[i]);
    }
  }

  lemma {:induction false} ScalarsOnly(schema: Schema, fs: seq<Field>, f: Field)
    requires f in ScalarFields(schema, fs)
    ensures IsScalarField(schema, f)
  {
    hide IsScalarField;
    if fs[|fs| - 1] != f || !IsScalarField(schema, f) { ScalarsOnly(schema, fs[..|fs| - 1], f); }
  }

  /** At every object and interface that the builder enters it selects all fields that the limits leave
      room for, in order, and at every union the fragments on its first members; and so below each. */
  lemma {:induction false} SelTreeIsComplete(schema: Schema, t: GType, o: Options, above: set<string>)
    ensures Complete(schema, Base(t), SelTree(schema, t, o, above), o, above)
    decreases o.Levels(), 1
  {
    var base := Base(t);
    if base != "" && base !in above && base in schema && o.maxDepth > 0 {
      var def := schema[base];
      match def.kind
      case Object => ObjSelIsComplete(schema, def, o, above + {base});
      case Interface => ObjSelIsComplete(schema, def, o, above + {base});
      case Union => UnionIsComplete(schema, t, o, above);
      case _ =>
    }
  }

  lemma {:induction false} UnionIsComplete(schema: Schema, t: GType, o: Options, above: set<string>)
    requires var base := Base(t);
      base != "" && base !in above && base in schema && o.maxDepth > 0 && schema[base].kind == Union
    ensures Complete(schema, Base(t), SelTree(schema, t, o, above), o, above)
    decreases o.Levels(), 0, 1
  {
    hide ObjSel, CompleteFields;
    var base := Base(t);
    var members := schema[base].members;
    var fragments := Fragments(schema, Shown(members), o, above + {base});
    assert SelTree(schema, t, o, above) == [Holder(fragments)];
    forall m | m in fragments ensures CompleteFields(schema, schema[m].fields, fragments[m].nodes, o.Deeper(), above + {base}) {
      ObjSelIsComplete(schema, schema[m], o.Deeper(), above + {base});
    }
    FirstTwo(schema, members);
  }

  lemma {:induction false} FirstTwo(schema: Schema, members: seq<string>)
    ensures (set m | m in Shown(members) && m in schema) ==
            (set i | 0 <= i < |members| && i < 2 && members[i] in schema :: members[i])
  {
    forall m | m in Shown(members) && m in schema
      ensures m in (set i | 0 <= i < |members| && i < 2 && members[i] in schema :: members[i])
    {
      var i :| 0 <= i < |Shown(members)| && Shown(members)[i] == m;
      assert members[i] == m;
    }
    forall i | 0 <= i < |members| && i < 2 && members[i] in schema ensures members[i] in Shown(members) {
      assert Shown(members)[i] == members[i];
    }
  }

  lemma {:induction false} ObjSelIsComplete(schema: Schema, def: Def, o: Options, above: set<string>)
    ensures CompleteFields(schema, def.fields, ObjSel(schema, def, o, above), o, above)
    decreases o.Levels(), 0, 0
  {
    hide SelTree, ObjSel, SelectsFields, Complete;
    ObjSelSelects(schema, def, o, above);
    var nodes := ObjSel(schema, def, o, above);
    forall n | n in nodes
      ensures n.returnType.Some? && Complete(schema, Base(n.returnType.value), n.children, o.Deeper(), above)
    {
      BelowNode(schema, def, o, above, n);
      if o.maxDepth > 1 && n.children == SelTree(schema, n.returnType.value, o.Deeper(), above) {
        SelTreeIsComplete(schema, n.returnType.value, o.Deeper(), above);
      } else {
        NothingBelow(schema, Base(n.returnType.value), o.Deeper(), above);
      }
    }
  }

  lemma {:induction false} NothingBelow(schema: Schema, base: string, o: Options, above: set<string>)
    requires base in schema && schema[base].kind in {Scalar, Enum}
    ensures Complete(schema, base, [], o, above)
  {
  }

  // ---------- There is only one ----------

  lemma {:induction false} NotLess(fs: seq<Field>, wanted: Field -> bool, max: nat, a: seq<nat>, b: seq<nat>, i: nat)
    requires FirstWanted(fs, wanted, max, a) && FirstWanted(fs, wanted, max, b)
    requires i < |a| && i <= |b| && a[..i] == b[..i]
    ensures i < |b| && b[i] <= a[i]
  {
    var k := a[i];
    forall j | 0 <= j < i ensures b[j] < k {
      assert a[..i][j] == b[..i][j];
      assert a[j] < a[i];
    }
    assert wanted(fs[k]);
    if k in b {
      var j :| 0 <= j < |b| && b[j] == k;
      assert j >= i;
    }
  }

  lemma {:induction false} OnlyFirst(fs: seq<Field>, wanted: Field -> bool, max: nat, a: seq<nat>, b: seq<nat>, i: nat)
    requires FirstWanted(fs, wanted, max, a) && FirstWanted(fs, wanted, max, b) && i <= |a| && i <= |b| && a[..i] == b[..i]
    ensures a == b
    decreases |a| - i
  {
    hide FirstWanted;
    if i < |a| {
      NotLess(fs, wanted, max, a, b, i);
      NotLess(fs, wanted, max, b, a, i);
      assert a[..i + 1] == a[..i] + [a[i]] && b[..i + 1] == b[..i] + [b[i]];
      OnlyFirst(fs, wanted, max, a, b, i + 1);
    } else if i < |b| {
      NotLess(fs, wanted, max, b, a, i);
    } else {
      assert a[..i] == a && b[..i] == b;
    }
  }

  /** The same node but for what is selected below. */
  ghost predicate SameHeads(x: SelNode, y: SelNode) {
    x.fieldName == y.fieldName && x.returnType == y.returnType && x.fragments == y.fragments
    && (x.isLeaf <==> x.children == []) && (y.isLeaf <==> y.children == [])
  }

  lemma {:induction false} SelectsSame(schema: Schema, fs: seq<Field>, xs: seq<SelNode>, ys: seq<SelNode>, o: Options)
    requires SelectsFields(schema, fs, xs, o) && SelectsFields(schema, fs, ys, o)
    ensures AllSameHeads(xs, ys)
  {
    hide FirstWanted, NodesOf, AsScalar, AsObject;
    var a, b :| SelectsAt(schema, fs, xs, o, a, b);
    var c, d :| SelectsAt(schema, fs, ys, o, c, d);
    OnlyFirst(fs, AsScalar(schema), if o.maxScalars < 1 then 1 else o.maxScalars, a, c, 0);
    if o.maxDepth > 1 && o.maxObjects > 0 { OnlyFirst(fs, AsObject(schema), o.maxObjects, b, d, 0); }
    hide *;
    assert a == c && b == d;
    SameByPlaces(xs, ys, fs, a, b);
  }

  ghost predicate AllSameHeads(xs: seq<SelNode>, ys: seq<SelNode>) {
    |xs| == |ys| && forall i :: 0 <= i < |xs| ==> SameHeads(xs[i], ys[i])
  }

  lemma {:induction false} NodesSame(xs: seq<SelNode>, ys: seq<SelNode>, fs: seq<Field>, at: seq<nat>)
    requires NodesOf(xs, fs, at) && NodesOf(ys, fs, at)
    ensures AllSameHeads(xs, ys)
  {
    forall i | 0 <= i < |at| ensures SameHeads(xs[i], ys[i]) {
      assert NodeOf(xs[i], fs[at[i]]) && NodeOf(ys[i], fs[at[i]]);
    }
  }

  lemma {:induction false} HeadsAppend(a: seq<SelNode>, b: seq<SelNode>, c: seq<SelNode>, d: seq<SelNode>)
    requires AllSameHeads(a, c) && AllSameHeads(b, d)
    ensures AllSameHeads(a + b, c + d)
  {
    hide SameHeads;
  }

  lemma {:induction false} SameByPlaces(xs: seq<SelNode>, ys: seq<SelNode>, fs: seq<Field>, a: seq<nat>, b: seq<nat>)
    requires |a| <= |xs| && NodesOf(xs[..|a|], fs, a) && NodesOf(xs[|a|..], fs, b)
    requires |a| <= |ys| && NodesOf(ys[..|a|], fs, a) && NodesOf(ys[|a|..], fs, b)
    ensures AllSameHeads(xs, ys)
  {
    hide *;
    var n := |a|;
    NodesSame(xs[..n], ys[..n], fs, a);
    NodesSame(xs[n..], ys[n..], fs, b);
    HeadsAppend(xs[..n], xs[n..], ys[..n], ys[n..]);
    assert xs == xs[..n] + xs[n..] && ys == ys[..n] + ys[n..];
  }

  lemma {:induction false} OnlyFields(schema: Schema, fs: seq<Field>, xs: seq<SelNode>, ys: seq<SelNode>, o: Options, above: set<string>)
    requires CompleteFields(schema, fs, xs, o, above) && CompleteFields(schema, fs, ys, o, above)
    ensures xs == ys
    decreases xs, 0
  {
    SelectsSame(schema, fs, xs, ys, o);
    hide Complete, SelectsFields;
    forall i | 0 <= i < |xs| ensures xs[i] == ys[i] {
      assert SameHeads(xs[i], ys[i]) && xs[i] in xs && ys[i] in ys;
      OnlyComplete(schema, Base(xs[i].returnType.value), xs[i].children, ys[i].children, o.Deeper(), above);
    }
  }

  /** There is at most one complete selection. */
  lemma {:induction false} OnlyComplete(schema: Schema, base: string, xs: seq<SelNode>, ys: seq<SelNode>, o: Options, above: set<string>)
    requires Complete(schema, base, xs, o, above) && Complete(schema, base, ys, o, above)
    ensures xs == ys
    decreases xs, 1
  {
    hide CompleteFields;
    if base != "" && base !in above && base in schema && o.maxDepth > 0 {
      match schema[base].kind
      case Object => OnlyFields(schema, schema[base].fields, xs, ys, o, above + {base});
      case Interface => OnlyFields(schema, schema[base].fields, xs, ys, o, above + {base});
      case Union =>
        var f, g := xs[0].fragments, ys[0].fragments;
        forall m | m in f ensures m in g && f[m] == g[m] {
          OnlyFields(schema, schema[m].fields, f[m].nodes, g[m].nodes, o.Deeper(), above + {base});
        }
        assert f == g;
        assert xs[0] == ys[0];
      case _ =>
    }
  }

  /** It is what the builder makes, and nothing else. */
  lemma {:induction false} CompleteIffBuilt(schema: Schema, t: GType, o: Options, above: set<string>, nodes: seq<SelNode>)
    ensures nodes == SelTree(schema, t, o, above) <==> Complete(schema, Base(t), nodes, o, above)
  {
    hide Complete, SelTree;
    SelTreeIsComplete(schema, t, o, above);
    if Complete(schema, Base(t), nodes, o, above) { OnlyComplete(schema, Base(t), nodes, SelTree(schema, t, o, above), o, above); }
  }
}
