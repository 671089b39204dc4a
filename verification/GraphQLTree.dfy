/** What every selection tree that the builder makes looks like. */
module GraphQLTree {
  import opened Text
  import opened Sorting
  import opened GraphQLSelection

  /** `nodes` is a selection on the type `base`: it only names declared fields with their
      declared types, nests fields at most `depth` deep, and enters no type of `above`
      again through the return type of a field. */
  ghost predicate GoodTree(schema: Schema, base: string, nodes: seq<SelNode>, depth: int, above: set<string>)
    decreases nodes, 1
  {
    && base in schema
    && if schema[base].kind == Union then
         nodes == [] ||
         (&& |nodes| == 1
          && nodes[0] == Holder(nodes[0].fragments)
          && nodes[0].fragments.Keys == (set m | m in Shown(schema[base].members) && m in schema)
          && forall m | m in nodes[0].fragments ::
               GoodFields(schema, schema[m].fields, nodes[0].fragments[m].nodes, depth, above))
       else GoodFields(schema, schema[base].fields, nodes, depth, above)
  }

  ghost predicate GoodFields(schema: Schema, declared: seq<Field>, nodes: seq<SelNode>, depth: int, above: set<string>)
    decreases nodes, 0
  {
    nodes != [] ==> depth >= 1 && forall n | n in nodes :: GoodNode(schema, declared, n, depth, above)
  }

  ghost predicate GoodNode(schema: Schema, declared: seq<Field>, n: SelNode, depth: int, above: set<string>)
    decreases n, 2
  {
    && n.returnType.Some?
    && var f := Field(n.fieldName, n.returnType.value);
    && f in declared
    && (IsScalarField(schema, f) || IsObjectField(schema, f))
    && n == (if IsScalarField(schema, f) then ScalarNode(f) else ObjectNode(f, n.children))
    && (n.children != [] ==>
          && Base(f.typ) !in above
          && GoodTree(schema, Base(f.typ), n.children, depth - 1, above + {Base(f.typ)}))
  }

  lemma {:induction false} ScalarFieldsAre(schema: Schema, fs: seq<Field>, f: Field)
    ensures f in ScalarFields(schema, fs) <==> f in fs && IsScalarField(schema, f)
  {
    if fs != [] {
      ScalarFieldsAre(schema, fs[..|fs| - 1], f);
      assert fs == fs[..|fs| - 1] + [fs[|fs| - 1]];
    }
  }

  lemma {:induction false} ObjectFieldsAre(schema: Schema, fs: seq<Field>, f: Field)
    ensures f in ObjectFields(schema, fs) <==> f in fs && IsObjectField(schema, f)
  {
    if fs != [] {
      ObjectFieldsAre(schema, fs[..|fs| - 1], f);
      assert fs == fs[..|fs| - 1] + [fs[|fs| - 1]];
    }
  }

  /** Whatever the builder returns is a good tree, for every schema however its types refer
      to each other. */
  lemma {:induction false} SelTreeIsGood(schema: Schema, t: GType, o: Options, above: set<string>)
    requires Base(t) in schema
    ensures GoodTree(schema, Base(t), SelTree(schema, t, o, above), o.maxDepth, above + {Base(t)})
    ensures SelTree(schema, t, o, above) != [] ==> Base(t) !in above && o.maxDepth >= 1
    decreases o.Levels(), 1
  {
    var base := Base(t);
    var def := schema[base];
    if base != "" && base !in above && o.maxDepth > 0 {
      match def.kind
      case Object => ObjSelIsGood(schema, def, o, above + {base}, o.maxDepth);
      case Interface => ObjSelIsGood(schema, def, o, above + {base}, o.maxDepth);
      case Union =>
        forall m | m in Shown(def.members) && m in schema
          ensures GoodFields(schema, schema[m].fields,
                             ObjSel(schema, schema[m], o.Deeper(), above + {base}), o.maxDepth, above + {base})
        {
          ObjSelIsGood(schema, schema[m], o.Deeper(), above + {base}, o.maxDepth);
        }
      case _ =>
    }
  }

  lemma {:induction false} ObjSelIsGood(schema: Schema, def: Def, o: Options, above: set<string>, depth: int)
    requires depth >= 1 && depth >= o.maxDepth
    ensures GoodFields(schema, def.fields, ObjSel(schema, def, o, above), depth, above)
    decreases o.Levels(), 0
  {
    hide GoodNode, SelTree, ObjSel;
    var nodes := ObjSel(schema, def, o, above);
    forall n | n in nodes ensures GoodNode(schema, def.fields, n, depth, above) {
      var f := NodeOrigin(schema, def, o, above, n);
      if o.maxDepth > 1 && Base(f.typ) in schema {
        var child := SelTree(schema, f.typ, o.Deeper(), above);
        SelTreeIsGood(schema, f.typ, o.Deeper(), above);
        GoodTreeDeeper(schema, Base(f.typ), child, o.maxDepth - 1, depth - 1, above + {Base(f.typ)});
      }
      NodeIsGood(schema, def.fields, o, above, depth, f, n);
    }
  }

  lemma {:induction false} NodeIsGood(schema: Schema, declared: seq<Field>, o: Options, above: set<string>, depth: int, f: Field, n: SelNode)
    requires f in declared
    requires (IsScalarField(schema, f) && n == ScalarNode(f)) || (o.maxDepth > 1 && IsObjectField(schema, f))
    requires !IsScalarField(schema, f) ==>
      && n == ObjectNode(f, SelTree(schema, f.typ, o.Deeper(), above))
      && (n.children != [] ==> Base(f.typ) !in above)
      && GoodTree(schema, Base(f.typ), n.children, depth - 1, above + {Base(f.typ)})
    ensures GoodNode(schema, declared, n, depth, above)
  {
    hide SelTree, GoodTree;
    assert Field(n.fieldName, n.returnType.value) == f;
  }

  /** Every node comes from one declared field. */
  lemma {:induction false} NodeOrigin(schema: Schema, def: Def, o: Options, above: set<string>, n: SelNode) returns (f: Field)
    requires n in ObjSel(schema, def, o, above)
    ensures f in def.fields
    ensures (IsScalarField(schema, f) && n == ScalarNode(f)) ||
            (o.maxDepth > 1 && IsObjectField(schema, f) && n == ObjectNode(f, SelTree(schema, f.typ, o.Deeper(), above)))
  {
    hide SelTree, ScalarFields, ObjectFields, ScalarNodes, ObjectNodes, IsScalarField, IsObjectField;
    var scalars := AtMost(ScalarFields(schema, def.fields), o.maxScalars);
    var left := ScalarNodes(scalars);
    var nodes := ObjSel(schema, def, o, above);
    var i :| 0 <= i < |nodes| && nodes[i] == n;
    if i < |left| {
      f := scalars[i];
      ScalarFieldsAre(schema, def.fields, f);
    } else {
      var objects := AtMost(ObjectFields(schema, def.fields), o.maxObjects);
      f := objects[i - |left|];
      ObjectFieldsAre(schema, def.fields, f);
    }
  }

  lemma {:induction false} GoodTreeDeeper(schema: Schema, base: string, nodes: seq<SelNode>, d: int, e: int, above: set<string>)
    requires GoodTree(schema, base, nodes, d, above) && d <= e
    ensures GoodTree(schema, base, nodes, e, above)
    decreases nodes, 1
  {
    if schema[base].kind == Union {
      if nodes != [] {
        forall m | m in nodes[0].fragments
          ensures GoodFields(schema, schema[m].fields, nodes[0].fragments[m].nodes, e, above)
        {
          GoodFieldsDeeper(schema, schema[m].fields, nodes[0].fragments[m].nodes, d, e, above);
        }
      }
    } else {
      GoodFieldsDeeper(schema, schema[base].fields, nodes, d, e, above);
    }
  }

  lemma {:induction false} GoodFieldsDeeper(schema: Schema, declared: seq<Field>, nodes: seq<SelNode>, d: int, e: int, above: set<string>)
    requires GoodFields(schema, declared, nodes, d, above) && d <= e
    ensures GoodFields(schema, declared, nodes, e, above)
    decreases nodes, 0
  {
    forall n | n in nodes && n.children != []
      ensures GoodTree(schema, Base(n.returnType.value), n.children, e - 1, above + {Base(n.returnType.value)})
    {
      GoodTreeDeeper(schema, Base(n.returnType.value), n.children, d - 1, e - 1, above + {Base(n.returnType.value)});
    }
  }

  // ---------- Paths from the root ----------

  /** One turn on the way down: into a field, or into the fragment on a member type. */
  datatype Turn = Into(index: nat) | On(member: string)

  ghost predicate IsPath(nodes: seq<SelNode>, path: seq<Turn>) {
    path == [] ||
    match path[0]
    case Into(i) => i < |nodes| && nodes[i].returnType.Some? && IsPath(nodes[i].children, path[1..])
    case On(m) => nodes != [] && m in nodes[0].fragments && IsPath(nodes[0].fragments[m].nodes, path[1..])
  }

  /** The types entered through field return types along a path. */
  ghost function Entered(nodes: seq<SelNode>, path: seq<Turn>): seq<string>
    requires IsPath(nodes, path)
  {
    if path == [] then []
    else
      match path[0]
      case Into(i) =>
        (if nodes[i].children != [] then [Base(nodes[i].returnType.value)] else []) +
        Entered(nodes[i].children, path[1..])
      case On(m) => Entered(nodes[0].fragments[m].nodes, path[1..])
  }

  function FieldTurns(path: seq<Turn>): nat {
    if path == [] then 0 else (if path[0].Into? then 1 else 0) + FieldTurns(path[1..])
  }

  ghost predicate GoodPath(nodes: seq<SelNode>, path: seq<Turn>, depth: int, above: set<string>)
    requires IsPath(nodes, path)
  {
    && FieldTurns(path) <= (if depth < 0 then 0 else depth)
    && Distinct(Entered(nodes, path))
    && forall b :: b in Entered(nodes, path) ==> b !in above
  }

  lemma {:induction false} GoodTreePaths(schema: Schema, base: string, nodes: seq<SelNode>, depth: int, above: set<string>, path: seq<Turn>)
    requires GoodTree(schema, base, nodes, depth, above) && IsPath(nodes, path)
    ensures GoodPath(nodes, path, depth, above)
    decreases nodes, 1
  {
    if path != [] {
      if schema[base].kind == Union {
        var m := path[0].member;
        GoodFieldsPaths(schema, schema[m].fields, nodes[0].fragments[m].nodes, depth, above, path[1..]);
      } else {
        GoodFieldsPaths(schema, schema[base].fields, nodes, depth, above, path);
      }
    }
  }

  lemma {:induction false} FieldsHaveNoFragments(schema: Schema, declared: seq<Field>, nodes: seq<SelNode>, depth: int, above: set<string>)
    requires GoodFields(schema, declared, nodes, depth, above)
    ensures forall i :: 0 <= i < |nodes| ==> nodes[i].fragments == map[]
  {
    forall i | 0 <= i < |nodes| ensures nodes[i].fragments == map[] {
      assert nodes[i] in nodes;
    }
  }

  lemma {:induction false} GoodFieldsPaths(schema: Schema, declared: seq<Field>, nodes: seq<SelNode>, depth: int, above: set<string>, path: seq<Turn>)
    requires GoodFields(schema, declared, nodes, depth, above) && IsPath(nodes, path)
    ensures GoodPath(nodes, path, depth, above)
    decreases nodes, 0
  {
    FieldsHaveNoFragments(schema, declared, nodes, depth, above);
    if path != [] {
      var i := path[0].index;
      assert nodes[i] in nodes;
      GoodNodePaths(schema, declared, nodes[i], depth, above, path[1..]);
    }
  }

  lemma {:induction false} GoodNodePaths(schema: Schema, declared: seq<Field>, n: SelNode, depth: int, above: set<string>, path: seq<Turn>)
    requires GoodNode(schema, declared, n, depth, above) && IsPath(n.children, path)
    ensures n.children == [] ==> path == []
    ensures n.children != [] ==> n.returnType.Some? && Base(n.returnType.value) !in above
    ensures n.children != [] ==> GoodPath(n.children, path, depth - 1, above + {Base(n.returnType.value)})
    decreases n, 2
  {
    GoodNodeFacts(schema, declared, n, depth, above);
    NoPathFromNothing(n.children, path);
    hide GoodNode, GoodTree, IsPath, GoodPath;
    if n.children != [] {
      var b := Base(n.returnType.value);
      GoodTreePaths(schema, b, n.children, depth - 1, above + {b}, path);
    }
  }

  lemma {:induction false} GoodNodeFacts(schema: Schema, declared: seq<Field>, n: SelNode, depth: int, above: set<string>)
    requires GoodNode(schema, declared, n, depth, above)
    ensures n.returnType.Some?
    ensures n.children != [] ==>
      && Base(n.returnType.value) !in above
      && GoodTree(schema, Base(n.returnType.value), n.children, depth - 1, above + {Base(n.returnType.value)})
  {
  }

  lemma {:induction false} NoPathFromNothing(nodes: seq<SelNode>, path: seq<Turn>)
    requires IsPath(nodes, path)
    ensures nodes == [] ==> path == []
  {
  }

  /** On every path of an operation's tree no type is entered twice, the type of the
      operation included, and at most `maxDepth` fields are passed. */
  lemma {:induction false} TypesDoNotRecur(schema: Schema, t: GType, o: Options, path: seq<Turn>)
    requires Base(t) in schema && IsPath(SelTree(schema, t, o, {}), path)
    ensures var tree := SelTree(schema, t, o, {});
            Distinct([Base(t)] + Entered(tree, path)) && FieldTurns(path) <= o.Levels()
  {
    var tree := SelTree(schema, t, o, {});
    SelTreeIsGood(schema, t, o, {});
    GoodTreePaths(schema, Base(t), tree, o.maxDepth, {} + {Base(t)}, path);
  }
}
