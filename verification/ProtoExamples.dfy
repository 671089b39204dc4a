/** Examples of protobuf messages, generated from the index down to a depth. */
module ProtoExamples {
  import opened Text
  import opened Json
  import opened ProtoIndex

  predicate IsIntegral(t: string) {
    t in {"int32", "int64", "uint32", "uint64", "sint32", "sint64", "fixed32", "fixed64", "sfixed32", "sfixed64"}
  }

  predicate IsTimestamp(t: string) { t in {"google.protobuf.Timestamp", "Timestamp"} }

  predicate IsScalar(t: string) {
    t in {"string", "bytes", "float", "double", "bool"} || IsIntegral(t) || IsTimestamp(t)
  }

  function ExampleScalar(t: string): Json {
    if t == "bytes" then Str("ZXhhbXBsZQ==")
    else if IsIntegral(t) then Num(123.0)
    else if t in {"float", "double"} then Num(123.45)
    else if t == "bool" then Bool(true)
    else if IsTimestamp(t) then Str("2025-01-01T00:00:00Z")
    else Str("example")
  }

  // ---------- Finding a type ----------

  /** The key under which a type is found, if it is. */
  function FindKey(idx: Index, pkg: string, t: string): Option<string> {
    if t in idx then Some(t)
    else if pkg != "" && '.' !in t && Dotted(pkg, t) in idx then Some(Dotted(pkg, t))
    else None
  }

  function ResolveTypeName(idx: Index, pkg: string, raw: string): string {
    var t := Normal(raw);
    if t == "" || IsScalar(t) || t in idx then t
    else if pkg != "" && Dotted(pkg, t) in idx then Dotted(pkg, t)
    else t
  }

  /** A name without dots resolves to the message that examples are made of. */
  lemma {:induction false} ResolvedIsFound(idx: Index, pkg: string, raw: string)
    requires Normal(raw) != "" && !IsScalar(Normal(raw)) && '.' !in Normal(raw)
    ensures FindKey(idx, pkg, Normal(raw)) ==
      if ResolveTypeName(idx, pkg, raw) in idx then Some(ResolveTypeName(idx, pkg, raw)) else None
  {
  }

  /** Any other name resolves to a name in the index if it, or it behind the package, is there, and
      otherwise to itself. */
  lemma {:induction false} ResolvedIffThere(idx: Index, pkg: string, raw: string)
    requires Normal(raw) != "" && !IsScalar(Normal(raw))
    ensures var t := Normal(raw);
      var r := ResolveTypeName(idx, pkg, raw);
      && (r in idx <==> t in idx || (pkg != "" && pkg + "." + t in idx))
      && (t in idx || r !in idx ==> r == t) && (t !in idx && r in idx ==> r == pkg + "." + t)
  {
    assert Dotted(pkg, Normal(raw)) == pkg + "." + Normal(raw);
  }

  // ---------- What an example shows ----------

  /** The last field of a name; an object has one value for all of them. */
  ghost predicate LastOfName(fields: seq<MsgField>, i: nat) {
    i < |fields| && forall j :: i < j < |fields| ==> fields[j].name != fields[i].name
  }

  ghost function NamesOf(fields: seq<MsgField>): set<string> { set i | 0 <= i < |fields| :: fields[i].name }

  ghost predicate Shown(f: MsgField, v: Json, w: Json) { if f.isList then v == Arr([w]) else v == w }

  /** Value `v` shows the type: a scalar's example; an empty object for a type that is not found
      or too deep; and otherwise an object with the message's field names, whose values show
      the fields' types. */
  ghost predicate Shows(idx: Index, pkg: string, typeName: string, depth: int, v: Json)
    decreases if depth > 0 then depth else 0, 0
  {
    var t := Normal(typeName);
    if t != "" && IsScalar(t) then v == ExampleScalar(t)
    else if t == "" || depth <= 0 || FindKey(idx, pkg, t).None? then v == Obj(map[])
    else
      v.Obj? && ObjectShows(idx, pkg, idx[FindKey(idx, pkg, t).value].fields, depth - 1, v.fields)
  }

  ghost predicate ObjectShows(idx: Index, pkg: string, fields: seq<MsgField>, depth: int, m: map<string, Json>)
    decreases if depth > 0 then depth else 0, 2
  {
    && m.Keys == NamesOf(fields)
    && forall i: nat :: LastOfName(fields, i) && fields[i].name in m ==> ValueShows(idx, pkg, fields[i], depth, m[fields[i].name])
  }

  ghost predicate ValueShows(idx: Index, pkg: string, f: MsgField, depth: int, v: Json)
    decreases if depth > 0 then depth else 0, 1
  {
    exists w :: Shown(f, v, w) && Shows(idx, pkg, Normal(f.typeName), depth, w)
  }

  method ExampleValueForType(idx: Index, pkg: string, typeName: string, depth: int) returns (v: Json, ok: bool)
    ensures Shows(idx, pkg, typeName, depth, v)
    ensures var t := Normal(typeName);
      ok <==> t != "" && (IsScalar(t) || depth <= 0 || FindKey(idx, pkg, t).Some?)
    decreases if depth > 0 then depth else 0, 0
  {
    hide Normal, IsScalar, ExampleScalar, ObjectShows;
    var t := Normal(typeName);
    if t == "" { return Obj(map[]), false; }
    if IsScalar(t) { return ExampleScalar(t), true; }
    if depth <= 0 { return Obj(map[]), true; }
    var key := FindKey(idx, pkg, t);
    if key.None? { return Obj(map[]), false; }
    var obj := ExampleObject(idx, pkg, idx[key.value].fields, depth - 1);
    return Obj(obj), true;
  }

  method ExampleObject(idx: Index, pkg: string, fields: seq<MsgField>, depth: int) returns (obj: map<string, Json>)
    ensures ObjectShows(idx, pkg, fields, depth, obj)
    decreases if depth > 0 then depth else 0, 2
  {
    hide Normal, Shows, ObjectShows;
    obj := map[];
    NoFields(idx, pkg, depth);
    var i := 0;
    while i < |fields|
      invariant 0 <= i <= |fields| && ObjectShows(idx, pkg, fields[..i], depth, obj)
    {
      var f := fields[i];
      var val, _ := ExampleValueForType(idx, pkg, Normal(f.typeName), depth);
      var shown := if f.isList then Arr([val]) else val;
      assert Shown(f, shown, val);
      OneMoreField(idx, pkg, fields, i, depth, obj, shown);
      obj := obj[f.name := shown];
      i := i + 1;
    }
    assert fields[..i] == fields;
  }

  lemma {:induction false} NoFields(idx: Index, pkg: string, depth: int)
    ensures ObjectShows(idx, pkg, [], depth, map[])
  {
  }

  lemma {:induction false} OneMoreField(idx: Index, pkg: string, fields: seq<MsgField>, i: nat, depth: int, m: map<string, Json>,
                                        v: Json)
    requires i < |fields| && ObjectShows(idx, pkg, fields[..i], depth, m) && ValueShows(idx, pkg, fields[i], depth, v)
    ensures ObjectShows(idx, pkg, fields[..i + 1], depth, m[fields[i].name := v])
  {
    hide NamesOf, ValueShows, LastOfName;
    NamesStep(fields, i);
    var more := fields[..i + 1];
    var m' := m[fields[i].name := v];
    forall k: nat | LastOfName(more, k) && k < |more| && more[k].name in m'
      ensures ValueShows(idx, pkg, more[k], depth, m'[more[k].name])
    {
      if k < i {
        LastBefore(fields, i, k);
        assert fields[..i][k] == fields[k];
      }
    }
    LastInRange(more);
  }

  lemma {:induction false} LastInRange(fields: seq<MsgField>)
    ensures forall k: nat :: LastOfName(fields, k) ==> k < |fields|
  {
  }

  lemma {:induction false} LastBefore(fields: seq<MsgField>, i: nat, k: nat)
    requires k < i < |fields| && LastOfName(fields[..i + 1], k)
    ensures LastOfName(fields[..i], k) && fields[k].name != fields[i].name
  {
    assert fields[..i + 1][i] == fields[i] && fields[..i + 1][k] == fields[k];
    forall j | k < j < i ensures fields[..i][j].name != fields[..i][k].name { assert fields[..i + 1][j] == fields[j]; }
  }

  lemma {:induction false} NamesStep(fields: seq<MsgField>, i: nat)
    requires i < |fields|
    ensures NamesOf(fields[..i + 1]) == NamesOf(fields[..i]) + {fields[i].name}
  {
    forall n ensures n in NamesOf(fields[..i + 1]) <==> n in NamesOf(fields[..i]) || n == fields[i].name {
      if n in NamesOf(fields[..i + 1]) {
        var j :| 0 <= j < i + 1 && fields[..i + 1][j].name == n;
        if j < i { assert fields[..i][j].name == n; }
      }
      if n in NamesOf(fields[..i]) {
        var j :| 0 <= j < i && fields[..i][j].name == n;
        assert fields[..i + 1][j].name == n;
      }
      assert fields[..i + 1][i].name == fields[i].name;
    }
  }

  // ---------- Depth ----------

  /** At most `n` objects with members, one inside the other. */
  ghost predicate Levels(v: Json, n: int) {
    match v
    case Obj(m) => m == map[] || (n > 0 && forall k :: k in m ==> Levels(m[k], n - 1))
    case Arr(items) => forall i :: 0 <= i < |items| ==> Levels(items[i], n)
    case _ => true
  }

  lemma {:induction false} NameHasLast(fields: seq<MsgField>, name: string) returns (i: nat)
    requires name in NamesOf(fields)
    ensures LastOfName(fields, i) && fields[i].name == name
  {
    var last := |fields| - 1;
    if fields[last].name == name {
      i := last;
    } else {
      var j :| 0 <= j < |fields| && fields[j].name == name;
      assert fields[..last][j].name == name;
      i := NameHasLast(fields[..last], name);
      forall j | i < j < |fields| ensures fields[j].name != fields[i].name {
        if j < last { assert fields[..last][j] == fields[j]; }
      }
    }
  }

  lemma {:induction false} ScalarHasNoLevels(t: string, n: int)
    ensures Levels(ExampleScalar(t), n)
  {
  }

  function Depth(d: int): int { if d > 0 then d else 0 }

  /** An example of depth `depth` has at most that many levels, recursive messages or not. */
  lemma {:induction false} ExampleLevels(idx: Index, pkg: string, typeName: string, depth: int, v: Json)
    requires Shows(idx, pkg, typeName, depth, v)
    ensures Levels(v, Depth(depth))
    decreases Depth(depth), 0
  {
    hide Normal, IsScalar, ExampleScalar, ObjectShows;
    var t := Normal(typeName);
    ScalarHasNoLevels(t, Depth(depth));
    if t != "" && !IsScalar(t) && depth > 0 && FindKey(idx, pkg, t).Some? {
      var fields := idx[FindKey(idx, pkg, t).value].fields;
      forall k | k in v.fields ensures Levels(v.fields[k], depth - 1) {
        var i := ShownBy(idx, pkg, fields, depth - 1, v.fields, k);
        ValueLevels(idx, pkg, fields[i], depth - 1, v.fields[k]);
      }
    }
  }

  lemma {:induction false} ValueLevels(idx: Index, pkg: string, f: MsgField, depth: int, v: Json)
    requires ValueShows(idx, pkg, f, depth, v)
    ensures Levels(v, Depth(depth))
    decreases Depth(depth), 1
  {
    hide Shows;
    var w :| Shown(f, v, w) && Shows(idx, pkg, Normal(f.typeName), depth, w);
    ExampleLevels(idx, pkg, Normal(f.typeName), depth, w);
  }

  /** The field that an object's value shows. */
  lemma {:induction false} ShownBy(idx: Index, pkg: string, fields: seq<MsgField>, depth: int, m: map<string, Json>, k: string)
    returns (i: nat)
    requires ObjectShows(idx, pkg, fields, depth, m) && k in m
    ensures LastOfName(fields, i) && fields[i].name == k && ValueShows(idx, pkg, fields[i], depth, m[k])
  {
    hide NamesOf, ValueShows;
    i := NameHasLast(fields, k);
  }

  /** What a type shows is determined. */
  lemma {:induction false} OneExample(idx: Index, pkg: string, typeName: string, depth: int, v: Json, v': Json)
    requires Shows(idx, pkg, typeName, depth, v) && Shows(idx, pkg, typeName, depth, v')
    ensures v == v'
    decreases Depth(depth), 0
  {
    hide Normal, IsScalar, ExampleScalar, ObjectShows;
    var t := Normal(typeName);
    if t != "" && !IsScalar(t) && depth > 0 && FindKey(idx, pkg, t).Some? {
      var fields := idx[FindKey(idx, pkg, t).value].fields;
      hide Shows, ObjectShows;
      OneObject(idx, pkg, fields, depth - 1, v.fields, v'.fields);
    }
  }

  lemma {:induction false} OneObject(idx: Index, pkg: string, fields: seq<MsgField>, depth: int,
                                     m: map<string, Json>, m': map<string, Json>)
    requires ObjectShows(idx, pkg, fields, depth, m) && ObjectShows(idx, pkg, fields, depth, m')
    ensures m == m'
    decreases Depth(depth), 2
  {
    hide ValueShows, NamesOf;
    forall k | k in m ensures m[k] == m'[k] {
      var i := ShownBy(idx, pkg, fields, depth, m, k);
      OneValue(idx, pkg, fields[i], depth, m[k], m'[k]);
    }
  }

  lemma {:induction false} OneValue(idx: Index, pkg: string, f: MsgField, depth: int, v: Json, v': Json)
    requires ValueShows(idx, pkg, f, depth, v) && ValueShows(idx, pkg, f, depth, v')
    ensures v == v'
    decreases Depth(depth), 1
  {
    hide Shows;
    var w :| Shown(f, v, w) && Shows(idx, pkg, Normal(f.typeName), depth, w);
    var w' :| Shown(f, v', w') && Shows(idx, pkg, Normal(f.typeName), depth, w');
    OneExample(idx, pkg, Normal(f.typeName), depth, w, w');
  }

  // ---------- Along field names ----------

  /** The message that a type name stands for in a package. */
  ghost function MessageOf(idx: Index, pkg: string, t: string): Option<MsgDef> {
    if t in idx then Some(idx[t])
    else if pkg != "" && (forall i :: 0 <= i < |t| ==> t[i] != '.') && pkg + "." + t in idx then Some(idx[pkg + "." + t])
    else None
  }

  ghost predicate Reaches(fields: seq<MsgField>, name: string, f: MsgField) {
    exists i: nat :: LastOfName(fields, i) && fields[i] == f && f.name == name
  }

  /** The fixed example of a built-in type. */
  ghost predicate IsBuiltin(t: string, v: Json) {
    || (t == "string" && v == Str("example"))
    || (t == "bytes" && v == Str("ZXhhbXBsZQ=="))
    || (t == "bool" && v == Bool(true))
    || (t in {"float", "double"} && v == Num(123.45))
    || (t in {"int32", "int64", "uint32", "uint64", "sint32", "sint64", "fixed32", "fixed64", "sfixed32", "sfixed64"} && v == Num(123.0))
    || (t in {"Timestamp", "google.protobuf.Timestamp"} && v == Str("2025-01-01T00:00:00Z"))
  }

  const BUILTINS := {"string", "bytes", "bool", "float", "double", "int32", "int64", "uint32", "uint64", "sint32", "sint64", "fixed32",
                     "fixed64", "sfixed32", "sfixed64", "Timestamp", "google.protobuf.Timestamp"}

  /** Field names on the way down from a message: each but the last of a message type. */
  ghost predicate TypesAlong(idx: Index, pkg: string, t: string, path: seq<string>)
    decreases |path|
  {
    path == [] ||
    (IsMessage(idx, pkg, Normal(t)) &&
     exists f :: Reaches(MessageOf(idx, pkg, Normal(t)).value.fields, path[0], f) && TypesAlong(idx, pkg, Normal(f.typeName), path[1..]))
  }

  ghost predicate IsMessage(idx: Index, pkg: string, t: string) {
    t !in BUILTINS && t != "" && MessageOf(idx, pkg, t) != None
  }

  /** In `v`, an example of type `t`, these field names lead to `u`, of type `tu`; a repeated field goes
      through a list of one. */
  ghost predicate Leads(idx: Index, pkg: string, t: string, v: Json, path: seq<string>, tu: string, u: Json)
    decreases |path|
  {
    if path == [] then Normal(t) == tu && v == u
    else
      IsMessage(idx, pkg, Normal(t)) && v.Obj? && path[0] in v.fields
      && exists f, w :: OneMember(MessageOf(idx, pkg, Normal(t)).value.fields, path[0], v.fields[path[0]], f, w)
           && Leads(idx, pkg, Normal(f.typeName), w, path[1..], tu, u)
  }

  ghost predicate OneMember(fields: seq<MsgField>, name: string, member: Json, f: MsgField, w: Json) {
    Reaches(fields, name, f) && member == if f.isList then Arr([w]) else w
  }

  lemma {:induction false} ScalarIs(t: string)
    ensures IsScalar(t) <==> t in BUILTINS
    ensures IsScalar(t) ==> IsBuiltin(t, ExampleScalar(t))
  {
  }

  /** A name reaches one field. */
  lemma {:induction false} OneReached(fields: seq<MsgField>, name: string, f: MsgField, g: MsgField)
    requires Reaches(fields, name, f) && Reaches(fields, name, g)
    ensures f == g
  {
    var i: nat :| LastOfName(fields, i) && fields[i] == f && f.name == name;
    var j: nat :| LastOfName(fields, j) && fields[j] == g && g.name == name;
    assert i == j;
  }

  lemma {:induction false} FindKeyIs(idx: Index, pkg: string, t: string)
    ensures MessageOf(idx, pkg, t) == match FindKey(idx, pkg, t) case None => None case Some(k) => Some(idx[k])
  {
    assert Dotted(pkg, t) == pkg + "." + t;
    assert '.' in t <==> exists i :: 0 <= i < |t| && t[i] == '.';
  }

  /** What is found at the end. */
  ghost predicate Ends(idx: Index, pkg: string, tu: string, u: Json, levels: int) {
    if tu in BUILTINS then IsBuiltin(tu, u)
    else if tu == "" || levels <= 0 || MessageOf(idx, pkg, tu) == None then u == Obj(map[])
    else u.Obj? && forall name :: name in u.fields <==> exists f :: Reaches(MessageOf(idx, pkg, tu).value.fields, name, f)
  }

  lemma {:induction false} TopEnds(idx: Index, pkg: string, t: string, depth: int, v: Json)
    requires Shows(idx, pkg, t, depth, v)
    ensures Ends(idx, pkg, Normal(t), v, depth)
  {
    var u := Normal(t);
    hide Normal, IsScalar, ExampleScalar, FindKey, ValueShows;
    ScalarIs(u);
    FindKeyIs(idx, pkg, u);
    if u !in BUILTINS && u != "" && depth > 0 && MessageOf(idx, pkg, u) != None {
      assert u != "" && !IsScalar(u);
      NamesReach(MessageOf(idx, pkg, u).value.fields);
    }
  }

  lemma {:induction false} NamesReach(fields: seq<MsgField>)
    ensures forall name :: name in NamesOf(fields) <==> exists f :: Reaches(fields, name, f)
  {
    forall name ensures name in NamesOf(fields) <==> exists f :: Reaches(fields, name, f) {
      if name in NamesOf(fields) {
        var i := NameHasLast(fields, name);
        assert Reaches(fields, name, fields[i]);
      }
    }
  }

  /** One level down there is a member for every field, a list of one if it is repeated. */
  lemma {:induction false} MemberShows(idx: Index, pkg: string, t: string, depth: int, v: Json, name: string, f: MsgField) returns (w: Json)
    requires Shows(idx, pkg, t, depth, v) && depth > 0 && IsMessage(idx, pkg, Normal(t))
    requires Reaches(MessageOf(idx, pkg, Normal(t)).value.fields, name, f)
    ensures v.Obj? && name in v.fields && OneMember(MessageOf(idx, pkg, Normal(t)).value.fields, name, v.fields[name], f, w)
    ensures Shows(idx, pkg, Normal(f.typeName), depth - 1, w)
  {
    var u := Normal(t);
    hide Normal, IsScalar, ExampleScalar, FindKey;
    ScalarIs(u);
    FindKeyIs(idx, pkg, u);
    assert ObjectShows(idx, pkg, MessageOf(idx, pkg, u).value.fields, depth - 1, v.fields);
    var fields := MessageOf(idx, pkg, u).value.fields;
    var i: nat :| LastOfName(fields, i) && fields[i] == f && f.name == name;
    assert fields[i].name in NamesOf(fields);
    assert ValueShows(idx, pkg, fields[i], depth - 1, v.fields[name]);
    w :| Shown(f, v.fields[name], w) && Shows(idx, pkg, Normal(f.typeName), depth - 1, w);
  }

  lemma {:induction false} OneValueOf(fields: seq<MsgField>, name: string, member: Json, f: MsgField, w: Json, f': MsgField, w': Json)
    requires OneMember(fields, name, member, f, w) && OneMember(fields, name, member, f', w')
    ensures f == f' && w == w'
  {
    OneReached(fields, name, f, f');
    assert [w][0] == w && [w'][0] == w';
  }

  /** Along every path of field names that the levels suffice for, there is exactly what the types say:
      the fixed examples of built-in types, lists of one for repeated fields, and objects with just the
      fields of their messages, which are empty once the levels are used up. */
  lemma {:induction false} ExampleAlong(idx: Index, pkg: string, t: string, depth: nat, v: Json, path: seq<string>)
    requires Shows(idx, pkg, t, depth, v) && TypesAlong(idx, pkg, t, path) && |path| <= depth
    ensures exists tu, u :: Leads(idx, pkg, t, v, path, tu, u)
    ensures forall tu, u :: Leads(idx, pkg, t, v, path, tu, u) ==> Ends(idx, pkg, tu, u, depth - |path|)
    decreases |path|
  {
    hide Shows, Ends, Normal, MessageOf, OneMember, Reaches;
    if path == [] {
      TopEnds(idx, pkg, t, depth, v);
      assert Leads(idx, pkg, t, v, path, Normal(t), v);
    } else {
      var fields := MessageOf(idx, pkg, Normal(t)).value.fields;
      var f :| Reaches(fields, path[0], f) && TypesAlong(idx, pkg, Normal(f.typeName), path[1..]);
      var w := MemberShows(idx, pkg, t, depth, v, path[0], f);
      ExampleAlong(idx, pkg, Normal(f.typeName), depth - 1, w, path[1..]);
      var tu, u :| Leads(idx, pkg, Normal(f.typeName), w, path[1..], tu, u);
      assert Leads(idx, pkg, t, v, path, tu, u);
      forall tu, u | Leads(idx, pkg, t, v, path, tu, u) ensures Ends(idx, pkg, tu, u, depth - |path|) {
        var f', w' :| OneMember(fields, path[0], v.fields[path[0]], f', w') && Leads(idx, pkg, Normal(f'.typeName), w', path[1..], tu, u);
        OneValueOf(fields, path[0], v.fields[path[0]], f, w, f', w');
      }
    }
  }
}
