/** The selection tree that a GraphQL operation is shown with.

    The program builds it with one `visited` map that all calls share, marking a type
    on entry and clearing it on return. `SelTree` and `ObjSel` are the same tree as a
    function of the set of enclosing types. */
module GraphQLSelection {
  import opened Text

  // ---------- Schemas ----------

  datatype Kind = Scalar | Enum | Object | Interface | Union | InputObject

  datatype GType = Named(name: string, nonNull: bool) | ListOf(elem: GType, nonNull: bool)

  datatype Field = Field(name: string, typ: GType)

  datatype Def = Def(kind: Kind, fields: seq<Field>, members: seq<string>, enumValues: seq<string>)

  type Schema = map<string, Def>

  function Base(t: GType): string {
    match t
    case Named(n, _) => n
    case ListOf(e, _) => Base(e)
  }

  predicate IsScalarField(schema: Schema, f: Field) {
    Base(f.typ) in schema && schema[Base(f.typ)].kind in {Scalar, Enum}
  }

  predicate IsObjectField(schema: Schema, f: Field) {
    Base(f.typ) in schema && schema[Base(f.typ)].kind in {Object, Interface, Union}
  }

  // ---------- Trees ----------

  datatype Options = Options(maxDepth: int, maxScalars: int, maxObjects: int) {
    function Deeper(): Options { this.(maxDepth := maxDepth - 1) }

    function Levels(): nat { if maxDepth < 0 then 0 else maxDepth }
  }

  datatype SelNode = SelNode(
    fieldName: string,
    children: seq<SelNode>,
    fragments: map<string, Sel>,
    isLeaf: bool,
    returnType: Option<GType>)

  datatype Sel = Sel(nodes: seq<SelNode>)

  predicate IsHolder(n: SelNode) { n.fieldName == "" && n.fragments != map[] }

  function ScalarNode(f: Field): SelNode { SelNode(f.name, [], map[], true, Some(f.typ)) }

  function ObjectNode(f: Field, child: seq<SelNode>): SelNode {
    SelNode(f.name, child, map[], |child| == 0, Some(f.typ))
  }

  function Holder(fragments: map<string, Sel>): SelNode { SelNode("", [], fragments, false, None) }

  function ScalarFields(schema: Schema, fs: seq<Field>): seq<Field> {
    if fs == [] then []
    else
      var last := |fs| - 1;
      ScalarFields(schema, fs[..last]) + (if IsScalarField(schema, fs[last]) then [fs[last]] else [])
  }

  function ObjectFields(schema: Schema, fs: seq<Field>): seq<Field> {
    if fs == [] then []
    else
      var last := |fs| - 1;
      ObjectFields(schema, fs[..last]) + (if IsObjectField(schema, fs[last]) then [fs[last]] else [])
  }

  /** The first `max` of them; the program tests the count after adding one. */
  function AtMost<T>(xs: seq<T>, max: int): seq<T> {
    if |xs| <= Cap(max) then xs else xs[..Cap(max)]
  }

  function Cap(max: int): nat { if max < 1 then 1 else max }

  /** The tree below a value of type `t`, inside the types `above`. */
  function SelTree(schema: Schema, t: GType, o: Options, above: set<string>): seq<SelNode>
    decreases o.Levels(), 2, 0
  {
    var base := Base(t);
    if base == "" || base in above || base !in schema || o.maxDepth <= 0 then []
    else
      var def := schema[base];
      match def.kind
      case Object => ObjSel(schema, def, o, above + {base})
      case Interface => ObjSel(schema, def, o, above + {base})
      case Union => [Holder(Fragments(schema, Shown(def.members), o, above + {base}))]
      case _ => []
  }

  /** At most two members of a union are shown. */
  function Shown(members: seq<string>): seq<string> { if |members| > 2 then members[..2] else members }

  /** One fragment for each member that the schema defines. */
  function Fragments(schema: Schema, members: seq<string>, o: Options, above: set<string>): (r: map<string, Sel>)
    requires o.maxDepth > 0
    ensures r.Keys == set m | m in members && m in schema
    ensures forall m :: m in r ==> m in schema && r[m] == Sel(ObjSel(schema, schema[m], o.Deeper(), above))
    decreases o.Levels(), 0, |members|
  {
    if members == [] then map[]
    else
      var last := |members| - 1;
      assert members == members[..last] + [members[last]];
      var before := Fragments(schema, members[..last], o, above);
      if members[last] in schema
      then before[members[last] := Sel(ObjSel(schema, schema[members[last]], o.Deeper(), above))]
      else before
  }

  /** The fields shown of one type: scalars and enums first, then objects. */
  function ObjSel(schema: Schema, def: Def, o: Options, above: set<string>): seq<SelNode>
    decreases o.Levels(), 1, 0
  {
    ScalarNodes(AtMost(ScalarFields(schema, def.fields), o.maxScalars)) +
    if o.maxDepth > 1 && o.maxObjects > 0
    then ObjectNodes(schema, AtMost(ObjectFields(schema, def.fields), o.maxObjects), o, above)
    else []
  }

  function ScalarNodes(fs: seq<Field>): (r: seq<SelNode>)
    ensures |r| == |fs|
    ensures forall i :: 0 <= i < |fs| ==> r[i] == ScalarNode(fs[i])
  {
    if fs == [] then [] else ScalarNodes(fs[..|fs| - 1]) + [ScalarNode(fs[|fs| - 1])]
  }

  function ObjectNodes(schema: Schema, fs: seq<Field>, o: Options, above: set<string>): (r: seq<SelNode>)
    requires o.maxDepth > 1
    ensures |r| == |fs|
    ensures forall i :: 0 <= i < |fs| ==> r[i] == ObjectNode(fs[i], SelTree(schema, fs[i].typ, o.Deeper(), above))
    decreases o.Levels(), 0, |fs|
  {
    if fs == [] then []
    else
      var last := |fs| - 1;
      ObjectNodes(schema, fs[..last], o, above) +
      [ObjectNode(fs[last], SelTree(schema, fs[last].typ, o.Deeper(), above))]
  }

  // ---------- The builder ----------

  lemma {:induction false} ScalarFieldsPrefix(schema: Schema, fs: seq<Field>, i: nat)
    requires i <= |fs|
    ensures ScalarFields(schema, fs[..i]) <= ScalarFields(schema, fs)
  {
    if i < |fs| {
      ScalarFieldsPrefix(schema, fs[..|fs| - 1], i);
      assert fs[..|fs| - 1][..i] == fs[..i];
    } else {
      assert fs[..i] == fs;
    }
  }

  lemma {:induction false} ObjectFieldsPrefix(schema: Schema, fs: seq<Field>, i: nat)
    requires i <= |fs|
    ensures ObjectFields(schema, fs[..i]) <= ObjectFields(schema, fs)
  {
    if i < |fs| {
      ObjectFieldsPrefix(schema, fs[..|fs| - 1], i);
      assert fs[..|fs| - 1][..i] == fs[..i];
    } else {
      assert fs[..i] == fs;
    }
  }

  lemma {:induction false} ScalarFieldsStep(schema: Schema, fs: seq<Field>, i: nat)
    requires i < |fs|
    ensures ScalarFields(schema, fs[..i + 1]) ==
            ScalarFields(schema, fs[..i]) + (if IsScalarField(schema, fs[i]) then [fs[i]] else [])
  {
    assert fs[..i + 1][..i] == fs[..i];
  }

  lemma {:induction false} ScalarNodesStep(fs: seq<Field>, f: Field)
    ensures ScalarNodes(fs + [f]) == ScalarNodes(fs) + [ScalarNode(f)]
  {
    assert (fs + [f])[..|fs|] == fs;
  }

  lemma {:induction false} ObjectFieldsStep(schema: Schema, fs: seq<Field>, i: nat)
    requires i < |fs|
    ensures ObjectFields(schema, fs[..i + 1]) ==
            ObjectFields(schema, fs[..i]) + (if IsObjectField(schema, fs[i]) then [fs[i]] else [])
  {
    assert fs[..i + 1][..i] == fs[..i];
  }

  lemma {:induction false} ObjectNodesStep(schema: Schema, fs: seq<Field>, f: Field, o: Options, above: set<string>)
    requires o.maxDepth > 1
    ensures ObjectNodes(schema, fs + [f], o, above) ==
            ObjectNodes(schema, fs, o, above) + [ObjectNode(f, SelTree(schema, f.typ, o.Deeper(), above))]
  {
    assert (fs + [f])[..|fs|] == fs;
  }

  lemma {:induction false} FragmentsStep(schema: Schema, members: seq<string>, i: nat, o: Options, above: set<string>)
    requires o.maxDepth > 0 && i < |members|
    ensures var before := Fragments(schema, members[..i], o, above);
      Fragments(schema, members[..i + 1], o, above) ==
      if members[i] in schema then before[members[i] := Sel(ObjSel(schema, schema[members[i]], o.Deeper(), above))] else before
  {
    assert members[..i + 1][..i] == members[..i];
  }

  lemma {:induction false} PrefixIsAtMost<T>(p: seq<T>, xs: seq<T>, max: int)
    requires p <= xs && |p| == Cap(max)
    ensures AtMost(xs, max) == p
  {
  }

  method PickScalars(schema: Schema, fs: seq<Field>, o: Options) returns (scalars: seq<SelNode>)
    ensures scalars == ScalarNodes(AtMost(ScalarFields(schema, fs), o.maxScalars))
  {
    scalars := [];
    ghost var picked: seq<Field> := [];
    var i := 0;
    while i < |fs|
      invariant 0 <= i <= |fs|
      invariant picked == ScalarFields(schema, fs[..i]) && scalars == ScalarNodes(picked)
      invariant |picked| < Cap(o.maxScalars)
    {
      ScalarFieldsStep(schema, fs, i);
      if IsScalarField(schema, fs[i]) {
        ScalarNodesStep(picked, fs[i]);
        scalars := scalars + [ScalarNode(fs[i])];
        picked := picked + [fs[i]];
        if |scalars| >= o.maxScalars {
          ScalarFieldsPrefix(schema, fs, i + 1);
          PrefixIsAtMost(picked, ScalarFields(schema, fs), o.maxScalars);
          return;
        }
      }
      i := i + 1;
    }
    assert fs[..i] == fs;
  }

  /** Backtracking over one shared map. */
  class SelectionBuilder {
    const schema: Schema
    var visited: map<string, bool>

    constructor (schema: Schema)
      ensures this.schema == schema && Marked() == {}
    {
      this.schema := schema;
      visited := map[];
    }

    /** The types marked as being expanded. */
    ghost function Marked(): set<string>
      reads this
    {
      set k | k in visited && visited[k]
    }

    method BuildSelectionTree(t: GType, o: Options) returns (r: seq<SelNode>)
      modifies this
      ensures Marked() == old(Marked())
      ensures r == SelTree(schema, t, o, old(Marked()))
      decreases o.Levels(), 1
    {
      var base := Base(t);
      if base == "" { return []; }
      if base in visited && visited[base] {
        assert base in Marked();
        return [];
      }
      ghost var before := Marked();
      visited := visited[base := true];
      assert Marked() == before + {base};
      r := BuildMarked(base, o);
      visited := visited[base := false];
      assert Marked() == before;
    }

    /** The body between marking a type and the deferred reset. */
    method BuildMarked(base: string, o: Options) returns (r: seq<SelNode>)
      requires base in Marked() && base != ""
      modifies this
      ensures Marked() == old(Marked())
      ensures r == SelTree(schema, Named(base, false), o, old(Marked()) - {base})
      decreases o.Levels(), 0, 1
    {
      ghost var above := Marked() - {base};
      assert above + {base} == Marked();
      if base !in schema { return []; }
      var def := schema[base];
      if def.kind == Scalar || def.kind == Enum { return []; }
      if o.maxDepth <= 0 { return []; }
      match def.kind
      case Object => r := BuildObjectSelection(def, o);
      case Interface => r := BuildObjectSelection(def, o);
      case Union =>
        var fragments := BuildFragments(Shown(def.members), o);
        r := [Holder(fragments)];
      case _ => r := [];
    }

    method BuildFragments(shown: seq<string>, o: Options) returns (fragments: map<string, Sel>)
      requires o.maxDepth > 0
      modifies this
      ensures Marked() == old(Marked())
      ensures fragments == Fragments(schema, shown, o, old(Marked()))
      decreases o.Levels(), 0, 0
    {
      hide ObjSel;
      ghost var above := Marked();
      fragments := map[];
      var i := 0;
      while i < |shown|
        invariant 0 <= i <= |shown| && Marked() == above
        invariant fragments == Fragments(schema, shown[..i], o, above)
      {
        FragmentsStep(schema, shown, i, o, above);
        if shown[i] in schema {
          var child := BuildObjectSelection(schema[shown[i]], o.Deeper());
          fragments := fragments[shown[i] := Sel(child)];
        }
        i := i + 1;
      }
      assert shown[..i] == shown;
    }

    method BuildObjectSelection(def: Def, o: Options) returns (r: seq<SelNode>)
      modifies this
      ensures Marked() == old(Marked())
      ensures r == ObjSel(schema, def, o, old(Marked()))
      decreases o.Levels(), 0, 0
    {
      var scalars := PickScalars(schema, def.fields, o);
      var objects := [];
      if o.maxDepth > 1 && o.maxObjects > 0 {
        objects := PickObjects(def.fields, o);
      }
      r := scalars + objects;
    }

    method PickObjects(fs: seq<Field>, o: Options) returns (objects: seq<SelNode>)
      requires o.maxDepth > 1 && o.maxObjects > 0
      modifies this
      ensures Marked() == old(Marked())
      ensures objects == ObjectNodes(schema, AtMost(ObjectFields(schema, fs), o.maxObjects), o, old(Marked()))
      decreases o.Levels(), 0, 0, 0
    {
      ghost var above := Marked();
      objects := [];
      ghost var picked: seq<Field> := [];
      var i := 0;
      while i < |fs|
        invariant 0 <= i <= |fs| && Marked() == above
        invariant picked == ObjectFields(schema, fs[..i]) && objects == ObjectNodes(schema, picked, o, above)
        invariant |picked| < o.maxObjects
      {
        ObjectFieldsStep(schema, fs, i);
        if IsObjectField(schema, fs[i]) {
          var child := BuildSelectionTree(fs[i].typ, o.Deeper());
          ObjectNodesStep(schema, picked, fs[i], o, above);
          objects := objects + [ObjectNode(fs[i], child)];
          picked := picked + [fs[i]];
          if |objects| >= o.maxObjects {
            ObjectFieldsPrefix(schema, fs, i + 1);
            PrefixIsAtMost(picked, ObjectFields(schema, fs), o.maxObjects);
            return;
          }
        }
        i := i + 1;
      }
      assert fs[..i] == fs;
    }
  }
}
