/** The example response shown beside a request: it has the shape of the selection. */
module GraphQLResponse {
  import opened Text
  import opened Sorting
  import opened Json
  import opened GraphQLSelection
  import opened GraphQLTree

  function BuiltinExample(name: string): Option<Json> {
    match name
    case "String" => Some(Str("example"))
    case "ID" => Some(Str("example"))
    case "Int" => Some(Num(123.0))
    case "Float" => Some(Num(123.45))
    case "Boolean" => Some(Bool(true))
    case _ => None
  }

  /** The last of the declared fields with a name, as an index by name keeps it. */
  function LastField(fs: seq<Field>, name: string): Option<Field> {
    if fs == [] then None
    else if fs[|fs| - 1].name == name then Some(fs[|fs| - 1])
    else LastField(fs[..|fs| - 1], name)
  }

  /** The nodes that an example of type `base` is taken from: those of the fragment that
      sorts first when the selection is a union's holder. */
  ghost function ShapeNodes(sel: seq<SelNode>): seq<SelNode> {
    if |sel| == 1 && IsHolder(sel[0]) then
      var keys := SortedKeys(sel[0].fragments);
      FirstKeyExists(sel[0].fragments);
      sel[0].fragments[keys[0]].nodes
    else sel
  }

  lemma {:induction false} FirstKeyExists<V>(m: map<string, V>)
    requires m != map[]
    ensures SortedKeys(m) != []
  {
    var k :| k in m;
    assert k in SortedKeys(m);
  }

  ghost function Example(schema: Schema, t: GType, sel: seq<SelNode>, depth: nat): Json
    decreases depth, 0, t
  {
    match t
    case ListOf(e, _) => Arr([Example(schema, e, sel, depth)])
    case Named(base, _) =>
      if BuiltinExample(base).Some? then BuiltinExample(base).value
      else if base !in schema then Obj(map[])
      else if schema[base].kind == Enum then
        if |schema[base].enumValues| > 0 then Str(schema[base].enumValues[0]) else Str("ENUM_VALUE")
      else if depth == 0 || sel == [] then Obj(map[])
      else ExampleObject(schema, base, ShapeNodes(sel), depth - 1)
  }

  ghost function ExampleObject(schema: Schema, base: string, sel: seq<SelNode>, depth: nat): Json
    decreases depth, 2
  {
    if base !in schema then Obj(map[]) else Obj(ExampleMembers(schema, schema[base].fields, sel, depth))
  }

  ghost function ExampleMembers(schema: Schema, fs: seq<Field>, sel: seq<SelNode>, depth: nat): map<string, Json>
    decreases depth, 1, sel
  {
    if sel == [] then map[]
    else
      var n := sel[|sel| - 1];
      var before := ExampleMembers(schema, fs, sel[..|sel| - 1], depth);
      if n.fieldName == "" || LastField(fs, n.fieldName).None? then before
      else before[n.fieldName := Example(schema, LastField(fs, n.fieldName).value.typ, n.children, depth)]
  }

  // ---------- The program's loops ----------

  method ExampleResponseValue(schema: Schema, t: GType, sel: seq<SelNode>, depth: nat) returns (v: Json)
    ensures v == Example(schema, t, sel, depth)
    decreases depth, 0, t
  {
    match t
    case ListOf(e, _) =>
      var item := ExampleResponseValue(schema, e, sel, depth);
      v := Arr([item]);
    case Named(base, _) =>
      if BuiltinExample(base).Some? { return BuiltinExample(base).value; }
      if base !in schema { return Obj(map[]); }
      var def := schema[base];
      if def.kind == Enum {
        return if |def.enumValues| > 0 then Str(def.enumValues[0]) else Str("ENUM_VALUE");
      }
      if depth == 0 || |sel| == 0 { return Obj(map[]); }
      var nodes := sel;
      if |sel| == 1 && IsHolder(sel[0]) {
        var keys := ListKeysSorted(sel[0].fragments);
        FirstKeyExists(sel[0].fragments);
        nodes := sel[0].fragments[keys[0]].nodes;
      }
      v := ObjectFromSelection(schema, base, nodes, depth - 1);
  }

  method ObjectFromSelection(schema: Schema, base: string, sel: seq<SelNode>, depth: nat) returns (v: Json)
    ensures v == ExampleObject(schema, base, sel, depth)
    decreases depth, 2
  {
    if base !in schema { return Obj(map[]); }
    var index := IndexFields(schema[base].fields);
    var obj: map<string, Json> := map[];
    var i := 0;
    while i < |sel|
      invariant 0 <= i <= |sel|
      invariant obj == ExampleMembers(schema, schema[base].fields, sel[..i], depth)
    {
      assert sel[..i + 1][..i] == sel[..i];
      var n := sel[i];
      if n.fieldName != "" && n.fieldName in index {
        var value := ExampleResponseValue(schema, index[n.fieldName].typ, n.children, depth);
        obj := obj[n.fieldName := value];
      }
      i := i + 1;
    }
    assert sel[..i] == sel;
    v := Obj(obj);
  }

  method IndexFields(fs: seq<Field>) returns (index: map<string, Field>)
    ensures forall name :: name in index <==> LastField(fs, name).Some?
    ensures forall name :: name in index ==> LastField(fs, name) == Some(index[name])
  {
    index := map[];
    var i := 0;
    while i < |fs|
      invariant 0 <= i <= |fs|
      invariant forall name :: name in index <==> LastField(fs[..i], name).Some?
      invariant forall name :: name in index ==> LastField(fs[..i], name) == Some(index[name])
    {
      assert fs[..i + 1][..i] == fs[..i];
      index := index[fs[i].name := fs[i]];
      i := i + 1;
    }
    assert fs[..i] == fs;
  }

  // ---------- The response mirrors the request ----------

  /** What schema validation guarantees: field names differ, unions, scalars and enums have no
      fields, and the built-in names are scalars. */
  ghost predicate ValidShapes(schema: Schema) {
    forall b :: b in schema ==>
      && (forall i, j :: 0 <= i < j < |schema[b].fields| ==> schema[b].fields[i].name != schema[b].fields[j].name)
      && (schema[b].kind in {Union, Scalar, Enum} ==> schema[b].fields == [])
      && (BuiltinExample(b).Some? ==> schema[b].kind == Scalar)
  }

  /** Through the one-element lists that stand for list types. */
  function Unwrap(v: Json): Json {
    if v.Arr? && |v.items| == 1 then Unwrap(v.items[0]) else v
  }

  function ValueAt(v: Json, path: seq<string>): Option<Json>
    decreases |path|
  {
    var u := Unwrap(v);
    if path == [] then Some(u)
    else if u.Obj? && path[0] in u.fields then ValueAt(u.fields[path[0]], path[1..])
    else None
  }

  function LastNode(sel: seq<SelNode>, name: string): Option<SelNode> {
    if sel == [] || name == "" then None
    else if sel[|sel| - 1].fieldName == name then Some(sel[|sel| - 1])
    else LastNode(sel[..|sel| - 1], name)
  }

  /** The selection reached by field names. */
  function SelectionAt(sel: seq<SelNode>, path: seq<string>): Option<seq<SelNode>>
    decreases |path|
  {
    if path == [] then Some(sel)
    else if LastNode(sel, path[0]).None? then None
    else SelectionAt(LastNode(sel, path[0]).value.children, path[1..])
  }

  ghost function Names(sel: seq<SelNode>): set<string> {
    set i | 0 <= i < |sel| && sel[i].fieldName != "" :: sel[i].fieldName
  }

  lemma {:induction false} UnwrapExample(schema: Schema, t: GType, sel: seq<SelNode>, depth: nat)
    ensures Unwrap(Example(schema, t, sel, depth)) == Example(schema, Named(Base(t), false), sel, depth)
  {
    match t
    case ListOf(e, _) => UnwrapExample(schema, e, sel, depth);
    case Named(_, _) =>
  }

  lemma {:induction false} LastNodeIs(sel: seq<SelNode>, name: string)
    ensures LastNode(sel, name).Some? ==> LastNode(sel, name).value in sel && LastNode(sel, name).value.fieldName == name
    ensures LastNode(sel, name).Some? <==> name in Names(sel)
    ensures name in Names(sel) ==> name != ""
  {
    if sel != [] && name != "" {
      LastNodeIs(sel[..|sel| - 1], name);
      assert sel == sel[..|sel| - 1] + [sel[|sel| - 1]];
    }
  }

  lemma {:induction false} LastFieldOfUnique(fs: seq<Field>, f: Field)
    requires f in fs && forall i, j :: 0 <= i < j < |fs| ==> fs[i].name != fs[j].name
    ensures LastField(fs, f.name) == Some(f)
  {
    var last := |fs| - 1;
    var k :| 0 <= k < |fs| && fs[k] == f;
    if k < last {
      assert fs[..last][k] == f;
      LastFieldOfUnique(fs[..last], f);
    }
  }

  /** Each node of a selection whose fields are declared has its example in the object. */
  lemma {:induction false} MembersMirror(schema: Schema, fs: seq<Field>, sel: seq<SelNode>, depth: nat)
    requires forall i, j :: 0 <= i < j < |fs| ==> fs[i].name != fs[j].name
    requires forall n :: n in sel ==> n.returnType.Some? && Field(n.fieldName, n.returnType.value) in fs
    ensures var m := ExampleMembers(schema, fs, sel, depth);
      && m.Keys == Names(sel)
      && forall k :: k in m ==>
           LastNode(sel, k).Some? && LastNode(sel, k).value.returnType.Some? &&
           m[k] == Example(schema, LastNode(sel, k).value.returnType.value, LastNode(sel, k).value.children, depth)
  {
    hide Example, LastField;
    if sel != [] {
      var last := |sel| - 1;
      var n := sel[last];
      assert sel == sel[..last] + [n];
      MembersMirror(schema, fs, sel[..last], depth);
      LastFieldOfUnique(fs, Field(n.fieldName, n.returnType.value));
      NamesStep(sel);
      var before := ExampleMembers(schema, fs, sel[..last], depth);
      var m := ExampleMembers(schema, fs, sel, depth);
      assert m == if n.fieldName == "" then before
                  else before[n.fieldName := Example(schema, n.returnType.value, n.children, depth)];
      forall k | k in m
        ensures LastNode(sel, k).Some? && LastNode(sel, k).value.returnType.Some?
        ensures m[k] == Example(schema, LastNode(sel, k).value.returnType.value, LastNode(sel, k).value.children, depth)
      {
        if k == n.fieldName {
          assert LastNode(sel, k) == Some(n);
        } else {
          assert k in before;
          assert LastNode(sel, k) == LastNode(sel[..last], k);
        }
      }
    }
  }

  lemma {:induction false} NamesStep(sel: seq<SelNode>)
    requires sel != []
    ensures var n := sel[|sel| - 1];
      Names(sel) == Names(sel[..|sel| - 1]) + if n.fieldName == "" then {} else {n.fieldName}
  {
    assert sel == sel[..|sel| - 1] + [sel[|sel| - 1]];
  }

  lemma {:induction false} MembersOfNothing(schema: Schema, sel: seq<SelNode>, depth: nat)
    ensures ExampleMembers(schema, [], sel, depth) == map[]
  {
    if sel != [] { MembersOfNothing(schema, sel[..|sel| - 1], depth); }
  }

  /** The object at the top of an example has exactly the selected field names as members. */
  lemma {:induction false} TopMirrors(schema: Schema, t: GType, sel: seq<SelNode>, depth: nat, d: int, above: set<string>)
    requires ValidShapes(schema) && GoodTree(schema, Base(t), sel, d, above)
    ensures sel == [] ==> !TopOf(schema, t, sel, depth).Obj? || TopOf(schema, t, sel, depth).fields == map[]
    ensures sel != [] && depth == 0 ==> TopOf(schema, t, sel, depth) == Obj(map[])
    ensures sel != [] && depth > 0 ==>
      var top := TopOf(schema, t, sel, depth);
      && top.Obj?
      && top.fields.Keys == Names(sel)
      && forall k :: k in top.fields ==>
           LastNode(sel, k).Some? && LastNode(sel, k).value.returnType.Some? &&
           top.fields[k] == Example(schema, LastNode(sel, k).value.returnType.value, LastNode(sel, k).value.children, depth - 1)
  {
    hide Example, Unwrap, GoodTree, ShapeNodes, BuiltinExample, Names, LastNode, ExampleMembers;
    UnwrapExample(schema, t, sel, depth);
    var base := Base(t);
    if sel == [] {
      NothingSelected(schema, base, depth);
    } else {
      NotALeaf(schema, base, sel, d, above);
      ExampleOfSelection(schema, base, sel, depth);
      if depth > 0 {
        if schema[base].kind == Union {
          MembersOfNothing(schema, ShapeNodes(sel), depth - 1);
          UnionNames(schema, base, sel, d, above);
        } else {
          DeclaredFields(schema, base, sel, d, above);
          MembersMirror(schema, schema[base].fields, sel, depth - 1);
        }
      }
    }
  }

  lemma {:induction false} NothingSelected(schema: Schema, base: string, depth: nat)
    ensures var v := Example(schema, Named(base, false), [], depth); !v.Obj? || v.fields == map[]
  {
  }

  lemma {:induction false} NotALeaf(schema: Schema, base: string, sel: seq<SelNode>, d: int, above: set<string>)
    requires ValidShapes(schema) && GoodTree(schema, base, sel, d, above) && sel != []
    ensures base in schema && BuiltinExample(base).None? && schema[base].kind != Enum
  {
    if schema[base].kind != Union { assert GoodNode(schema, schema[base].fields, sel[0], d, above); }
  }

  lemma {:induction false} ExampleOfSelection(schema: Schema, base: string, sel: seq<SelNode>, depth: nat)
    requires base in schema && BuiltinExample(base).None? && schema[base].kind != Enum && sel != []
    ensures Example(schema, Named(base, false), sel, depth) ==
            Obj(if depth == 0 then map[]
                else ExampleMembers(schema, schema[base].fields, ShapeNodes(sel), depth - 1))
  {
  }

  lemma {:induction false} UnionNames(schema: Schema, base: string, sel: seq<SelNode>, d: int, above: set<string>)
    requires GoodTree(schema, base, sel, d, above) && schema[base].kind == Union
    ensures Names(sel) == {}
  {
  }

  lemma {:induction false} DeclaredFields(schema: Schema, base: string, sel: seq<SelNode>, d: int, above: set<string>)
    requires GoodTree(schema, base, sel, d, above) && schema[base].kind != Union
    ensures ShapeNodes(sel) == sel
    ensures forall n :: n in sel ==> n.returnType.Some? && Field(n.fieldName, n.returnType.value) in schema[base].fields
  {
    forall n | n in sel
      ensures !IsHolder(n) && n.returnType.Some? && Field(n.fieldName, n.returnType.value) in schema[base].fields
    {
      assert GoodNode(schema, schema[base].fields, n, d, above);
    }
    if |sel| == 1 { assert sel[0] in sel; }
  }

  ghost function TopOf(schema: Schema, t: GType, sel: seq<SelNode>, depth: nat): Json {
    Unwrap(Example(schema, t, sel, depth))
  }

  /** Down to `depth` object levels the example mirrors the selection: the same paths lead
      somewhere, and each object's keys are exactly the field names selected there. One level
      further the objects are empty, and no path goes beyond. */
  lemma {:induction false} Mirrors(schema: Schema, t: GType, sel: seq<SelNode>, depth: nat, path: seq<string>, d: int, above: set<string>)
    requires ValidShapes(schema) && GoodTree(schema, Base(t), sel, d, above)
    ensures var at := ValueAt(Example(schema, t, sel, depth), path);
      var there := SelectionAt(sel, path);
      && (|path| <= depth ==> (at.Some? <==> there.Some?))
      && (|path| < depth && there.Some? && there.value != [] ==> at.value.Obj? && at.value.fields.Keys == Names(there.value))
      && (|path| == depth && there.Some? && there.value != [] ==> at.value == Obj(map[]))
      && (|path| > depth ==> at.None?)
    decreases |path|
  {
    hide Example, GoodTree, ShapeNodes, BuiltinExample, Names, LastNode, ExampleMembers, ValidShapes;
    TopMirrors(schema, t, sel, depth, d, above);
    if path != [] {
      LastNodeIs(sel, path[0]);
      if sel != [] && depth > 0 && path[0] in Names(sel) {
        var n := LastNode(sel, path[0]).value;
        ChildIsGood(schema, Base(t), sel, d, above, n);
        Mirrors(schema, n.returnType.value, n.children, depth - 1, path[1..], d - 1, above + {Base(n.returnType.value)});
      }
    }
  }

  lemma {:induction false} HoldersAreNameless(schema: Schema, base: string, sel: seq<SelNode>, d: int, above: set<string>, n: SelNode)
    requires GoodTree(schema, base, sel, d, above) && n in sel
    ensures schema[base].kind == Union ==> n.fieldName == ""
  {
    var i :| 0 <= i < |sel| && sel[i] == n;
  }

  lemma {:induction false} ChildIsGood(schema: Schema, base: string, sel: seq<SelNode>, d: int, above: set<string>, n: SelNode)
    requires GoodTree(schema, base, sel, d, above) && n in sel && n.fieldName != ""
    ensures n.returnType.Some? && Base(n.returnType.value) in schema
    ensures GoodTree(schema, Base(n.returnType.value), n.children, d - 1, above + {Base(n.returnType.value)})
  {
    HoldersAreNameless(schema, base, sel, d, above, n);
    if schema[base].kind != Union {
      assert GoodNode(schema, schema[base].fields, n, d, above);
    }
  }

  /** The example response of an operation mirrors its request for three object levels. */
  lemma {:induction false} ResponseMirrorsRequest(schema: Schema, t: GType, o: Options, path: seq<string>)
    requires ValidShapes(schema) && Base(t) in schema
    ensures var sel := SelTree(schema, t, o, {});
      var at := ValueAt(Example(schema, t, sel, 3), path);
      var there := SelectionAt(sel, path);
      && (|path| <= 3 ==> (at.Some? <==> there.Some?))
      && (|path| < 3 && there.Some? && there.value != [] ==> at.value.Obj? && at.value.fields.Keys == Names(there.value))
      && (|path| == 3 && there.Some? && there.value != [] ==> at.value == Obj(map[]))
      && (|path| > 3 ==> at.None?)
  {
    SelTreeIsGood(schema, t, o, {});
    Mirrors(schema, t, SelTree(schema, t, o, {}), 3, path, o.maxDepth, {} + {Base(t)});
  }

  // ---------- The response has its type ----------

  /** An example of type `t`: a list type is shown as a list of one, a built-in scalar and an enum by
      a fixed value, and any other type by an object whose members have their fields' types. */
  ghost predicate HasType(schema: Schema, t: GType, v: Json)
    decreases v, 0
  {
    match t
    case ListOf(e, _) => v.Arr? && |v.items| == 1 && HasType(schema, e, v.items[0])
    case Named(base, _) =>
      if base == "String" || base == "ID" then v == Str("example")
      else if base == "Int" then v == Num(123.0)
      else if base == "Float" then v == Num(123.45)
      else if base == "Boolean" then v == Bool(true)
      else if base in schema && schema[base].kind == Enum then
        v == Str(if schema[base].enumValues == [] then "ENUM_VALUE" else schema[base].enumValues[0])
      else
        && v.Obj?
        && forall k | k in v.fields :: base in schema && MemberHasType(schema, schema[base].fields, k, v.fields[k])
  }

  ghost predicate MemberHasType(schema: Schema, fs: seq<Field>, name: string, v: Json)
    decreases v, 1
  {
    exists i :: LastNamed(fs, i, name) && HasType(schema, fs[i].typ, v)
  }

  ghost predicate LastNamed(fs: seq<Field>, i: int, name: string) {
    0 <= i < |fs| && fs[i].name == name && forall j :: i < j < |fs| ==> fs[j].name != name
  }

  lemma {:induction false} LastFieldAt(fs: seq<Field>, name: string) returns (i: nat)
    requires LastField(fs, name).Some?
    ensures LastNamed(fs, i, name) && LastField(fs, name) == Some(fs[i])
  {
    if fs[|fs| - 1].name == name { i := |fs| - 1; } else { i := LastFieldAt(fs[..|fs| - 1], name); }
  }

  /** Whatever is selected and however deep it goes, the example of a type has that type. */
  lemma {:induction false} ExampleHasType(schema: Schema, t: GType, sel: seq<SelNode>, depth: nat)
    ensures HasType(schema, t, Example(schema, t, sel, depth))
    decreases depth, 0, t
  {
    match t
    case ListOf(e, _) => ExampleHasType(schema, e, sel, depth);
    case Named(base, nonNull) =>
      if BuiltinExample(base).None? && base in schema && schema[base].kind != Enum && depth > 0 && sel != [] {
        MembersHaveTypes(schema, schema[base].fields, ShapeNodes(sel), depth - 1);
        var m := ExampleMembers(schema, schema[base].fields, ShapeNodes(sel), depth - 1);
        assert Example(schema, t, sel, depth) == Obj(m);
        TypedObject(schema, base, nonNull, m);
      }
  }

  ghost predicate AllTyped(schema: Schema, fs: seq<Field>, m: map<string, Json>) {
    forall k :: k in m ==> MemberHasType(schema, fs, k, m[k])
  }

  lemma {:induction false} TypedMember(schema: Schema, fs: seq<Field>, i: int, name: string, v: Json)
    requires LastNamed(fs, i, name) && HasType(schema, fs[i].typ, v)
    ensures MemberHasType(schema, fs, name, v)
  {
  }

  lemma {:induction false} TypedObject(schema: Schema, base: string, nonNull: bool, m: map<string, Json>)
    requires BuiltinExample(base) == None && base in schema && schema[base].kind != Enum
    requires AllTyped(schema, schema[base].fields, m)
    ensures HasType(schema, Named(base, nonNull), Obj(m))
  {
  }

  /** Each member of an object has the type of the last field with its name. */
  lemma {:induction false} MembersHaveTypes(schema: Schema, fs: seq<Field>, sel: seq<SelNode>, depth: nat)
    ensures AllTyped(schema, fs, ExampleMembers(schema, fs, sel, depth))
    decreases depth, 1, sel
  {
    hide Example, LastNamed, LastField;
    if sel != [] {
      var n := sel[|sel| - 1];
      var before := ExampleMembers(schema, fs, sel[..|sel| - 1], depth);
      var m := ExampleMembers(schema, fs, sel, depth);
      MembersHaveTypes(schema, fs, sel[..|sel| - 1], depth);
      forall k | k in m ensures MemberHasType(schema, fs, k, m[k]) {
        if n.fieldName != "" && LastField(fs, n.fieldName).Some? && k == n.fieldName {
          var i := LastFieldAt(fs, n.fieldName);
          ExampleHasType(schema, fs[i].typ, n.children, depth);
          TypedMember(schema, fs, i, k, m[k]);
        } else {
          assert k in before && m[k] == before[k];
        }
      }
    }
  }
}
