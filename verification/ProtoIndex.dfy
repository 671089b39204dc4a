/** The index of protobuf messages by name, and the examples generated from it. */
module ProtoIndex {
  import opened Text

  datatype Decl =
    | Field(name: string, typeName: string, repeated: bool)
    | Nested(message: Message)
    | Other

  datatype Message = Message(name: string, decls: seq<Decl>)

  datatype File = File(pkg: string, decls: seq<Decl>)

  datatype MsgField = MsgField(name: string, typeName: string, isList: bool)

  datatype MsgDef = MsgDef(fullName: string, fields: seq<MsgField>)

  type Index = map<string, MsgDef>

  // ---------- Names ----------

  /** One leading dot and surrounding blanks do not count in a key. */
  function Normal(key: string): string { TrimSpace(TrimLeading(key, '.')) }

  function Dotted(a: string, b: string): string { a + ['.'] + b }

  function Qualify(pkg: string, t: string): string {
    var u := TrimLeading(TrimSpace(t), '.');
    if pkg == "" || '.' in u then u else Dotted(pkg, u)
  }

  // ---------- Traversal ----------

  /** A message at its place: `full` is its dotted path within the package. */
  datatype Placed = Placed(pkg: string, full: string, message: Message)

  function FullName(prefix: string, name: string): string { if prefix != "" then Dotted(prefix, name) else name }

  /** A message before the messages nested in it. */
  function Walk(pkg: string, prefix: string, m: Message): seq<Placed>
    decreases m, 0
  {
    [Placed(pkg, FullName(prefix, m.name), m)] + WalkDecls(pkg, FullName(prefix, m.name), m.decls)
  }

  function WalkDecls(pkg: string, prefix: string, decls: seq<Decl>): seq<Placed>
    decreases decls, 1
  {
    if decls == [] then []
    else
      WalkDecls(pkg, prefix, decls[..|decls| - 1]) + WalkDecl(pkg, prefix, decls[|decls| - 1])
  }

  function WalkDecl(pkg: string, prefix: string, d: Decl): seq<Placed>
    decreases d, 2
  {
    if d.Nested? then Walk(pkg, prefix, d.message) else []
  }

  function WalkFiles(files: seq<File>): seq<Placed> {
    if files == [] then []
    else
      var last := files[|files| - 1];
      WalkFiles(files[..|files| - 1]) + WalkDecls(last.pkg, "", last.decls)
  }

  function FieldsOf(decls: seq<Decl>): seq<MsgField> {
    if decls == [] then []
    else
      var last := decls[|decls| - 1];
      var before := FieldsOf(decls[..|decls| - 1]);
      if last.Field? && last.name != "" && last.typeName != "" then before + [MsgField(last.name, last.typeName, last.repeated)]
      else before
  }

  function DefOf(p: Placed): MsgDef { MsgDef(Qualify(p.pkg, p.full), FieldsOf(p.message.decls)) }

  function KeysOf(p: Placed): seq<string> {
    [p.message.name, p.full] + if p.pkg != "" then [Dotted(p.pkg, p.message.name), Dotted(p.pkg, p.full)] else []
  }

  // ---------- Filling the index ----------

  function Stored(idx: Index, key: string, def: MsgDef): Index {
    var k := Normal(key);
    if k == "" || k in idx then idx else idx[k := def]
  }

  function StoredAll(idx: Index, keys: seq<string>, def: MsgDef): Index {
    if keys == [] then idx else Stored(StoredAll(idx, keys[..|keys| - 1], def), keys[|keys| - 1], def)
  }

  function Filled(idx: Index, placed: seq<Placed>): Index {
    if placed == [] then idx
    else
      var last := placed[|placed| - 1];
      StoredAll(Filled(idx, placed[..|placed| - 1]), KeysOf(last), DefOf(last))
  }

  lemma {:induction false} FilledAppend(idx: Index, a: seq<Placed>, b: seq<Placed>)
    ensures Filled(idx, a + b) == Filled(Filled(idx, a), b)
    decreases |b|
  {
    hide StoredAll, KeysOf, DefOf;
    if b == [] {
      assert a + b == a;
    } else {
      var init := b[..|b| - 1];
      FilledAppend(idx, a, init);
      assert (a + b)[..|a + b| - 1] == a + init;
    }
  }

  class TypeIndex {
    var idx: Index

    constructor ()
      ensures idx == map[]
    {
      idx := map[];
    }

    /** The first message stored under a key stays. */
    method StoreType(key: string, def: MsgDef)
      modifies this
      ensures idx == Stored(old(idx), key, def)
    {
      var k := Normal(key);
      if k == "" { return; }
      if k !in idx { idx := idx[k := def]; }
    }

    method ExtractMessageFields(m: Message) returns (fields: seq<MsgField>)
      ensures fields == FieldsOf(m.decls)
    {
      fields := [];
      var i := 0;
      while i < |m.decls|
        invariant 0 <= i <= |m.decls| && fields == FieldsOf(m.decls[..i])
      {
        assert m.decls[..i + 1][..i] == m.decls[..i];
        var f := m.decls[i];
        i := i + 1;
        if !f.Field? || f.name == "" || f.typeName == "" { continue; }
        fields := fields + [MsgField(f.name, f.typeName, f.repeated)];
      }
      assert m.decls[..i] == m.decls;
    }

    method IndexMessage(pkg: string, prefix: string, m: Message)
      modifies this
      ensures idx == Filled(old(idx), Walk(pkg, prefix, m))
      decreases m, 0
    {
      hide Stored, FieldsOf, Qualify;
      var full := FullName(prefix, m.name);
      var fields := ExtractMessageFields(m);
      var def := MsgDef(Qualify(pkg, full), fields);
      ghost var p := Placed(pkg, full, m);
      ghost var before := idx;
      StoreType(m.name, def);
      StoreType(full, def);
      if pkg != "" {
        StoreType(Dotted(pkg, m.name), def);
        StoreType(Dotted(pkg, full), def);
      }
      StoredKeys(before, p);
      assert idx == Filled(before, [p]);
      FilledAppend(before, [p], WalkDecls(pkg, full, m.decls));
      IndexNested(pkg, full, m.decls);
    }

    /** The messages among some declarations, in order. */
    method IndexNested(pkg: string, prefix: string, decls: seq<Decl>)
      modifies this
      ensures idx == Filled(old(idx), WalkDecls(pkg, prefix, decls))
      decreases decls, 1
    {
      hide WalkDecl, Filled;
      ghost var before := idx;
      NoneFilled(before);
      var i := 0;
      while i < |decls|
        invariant 0 <= i <= |decls| && idx == Filled(before, WalkDecls(pkg, prefix, decls[..i]))
      {
        assert decls[..i + 1][..i] == decls[..i];
        IndexDecl(pkg, prefix, decls[i]);
        FilledAppend(before, WalkDecls(pkg, prefix, decls[..i]), WalkDecl(pkg, prefix, decls[i]));
        i := i + 1;
      }
      assert decls[..i] == decls;
    }

    method IndexDecl(pkg: string, prefix: string, d: Decl)
      modifies this
      ensures idx == Filled(old(idx), WalkDecl(pkg, prefix, d))
      decreases d, 2
    {
      NoneFilled(idx);
      if d.Nested? { IndexMessage(pkg, prefix, d.message); }
    }
  }

  lemma {:induction false} NoneFilled(idx: Index)
    ensures Filled(idx, []) == idx
  {
  }

  lemma {:induction false} StoredOneMore(idx: Index, keys: seq<string>, key: string, def: MsgDef)
    ensures StoredAll(idx, keys + [key], def) == Stored(StoredAll(idx, keys, def), key, def)
  {
    assert (keys + [key])[..|keys|] == keys;
  }

  lemma {:induction false} StoredKeys(idx: Index, p: Placed)
    ensures Filled(idx, [p]) ==
      var def := DefOf(p);
      var two := Stored(Stored(idx, p.message.name, def), p.full, def);
      if p.pkg == "" then two
      else Stored(Stored(two, Dotted(p.pkg, p.message.name), def), Dotted(p.pkg, p.full), def)
  {
    NoneFilled(idx);
    var def := DefOf(p);
    var a, b, c, d := p.message.name, p.full, Dotted(p.pkg, p.message.name), Dotted(p.pkg, p.full);
    assert [p][..0] == [];
    assert StoredAll(idx, [], def) == idx;
    hide Stored, StoredAll, DefOf, Dotted;
    StoredOneMore(idx, [], a, def);
    StoredOneMore(idx, [a], b, def);
    StoredOneMore(idx, [a, b], c, def);
    StoredOneMore(idx, [a, b, c], d, def);
    assert [] + [a] == [a] && [a] + [b] == [a, b] && [a, b] + [c] == [a, b, c] && [a, b, c] + [d] == [a, b, c, d];
    assert KeysOf(p) == if p.pkg == "" then [a, b] else [a, b, c, d];
  }

  /** All messages of all files, in order. */
  method BuildMergedTypeIndex(files: seq<File>) returns (types: TypeIndex)
    ensures fresh(types) && types.idx == Filled(map[], WalkFiles(files))
  {
    hide Filled, WalkDecls;
    types := new TypeIndex();
    NoneFilled(map[]);
    var i := 0;
    while i < |files|
      invariant 0 <= i <= |files| && types.idx == Filled(map[], WalkFiles(files[..i]))
      invariant fresh(types)
    {
      assert files[..i + 1][..i] == files[..i];
      types.IndexNested(files[i].pkg, "", files[i].decls);
      FilledAppend(map[], WalkFiles(files[..i]), WalkDecls(files[i].pkg, "", files[i].decls));
      i := i + 1;
    }
    assert files[..i] == files;
  }

  // ---------- Who owns a key ----------

  ghost predicate Claims(p: Placed, key: string) {
    key != "" && exists i :: 0 <= i < |KeysOf(p)| && Normal(KeysOf(p)[i]) == key
  }

  ghost predicate Owns(placed: seq<Placed>, i: nat, key: string) {
    i < |placed| && Claims(placed[i], key) && forall j :: 0 <= j < i ==> !Claims(placed[j], key)
  }

  lemma {:induction false} StoredAllIs(idx: Index, keys: seq<string>, def: MsgDef, key: string)
    ensures var r := StoredAll(idx, keys, def);
      var claimed := key != "" && exists i :: 0 <= i < |keys| && Normal(keys[i]) == key;
      && (key in r <==> key in idx || claimed)
      && (key in idx ==> key in r && r[key] == idx[key])
      && (key !in idx && claimed ==> key in r && r[key] == def)
  {
    hide Normal;
    if keys != [] {
      var last := |keys| - 1;
      StoredAllIs(idx, keys[..last], def, key);
      if i :| 0 <= i < |keys| && Normal(keys[i]) == key {
        if i < last { assert keys[..last][i] == keys[i]; }
      }
    }
  }

  lemma {:induction false} PlaceOne(idx: Index, p: Placed, key: string)
    ensures var r := StoredAll(idx, KeysOf(p), DefOf(p));
      && (key in r <==> key in idx || Claims(p, key))
      && (key in idx ==> key in r && r[key] == idx[key])
      && (key !in idx && Claims(p, key) ==> key in r && r[key] == DefOf(p))
  {
    hide KeysOf, DefOf, StoredAll, Normal;
    StoredAllIs(idx, KeysOf(p), DefOf(p), key);
  }

  ghost predicate Claimed(placed: seq<Placed>, key: string) { exists i: nat :: i < |placed| && Claims(placed[i], key) }

  lemma {:induction false} ClaimedStep(placed: seq<Placed>, key: string)
    requires placed != []
    ensures Claimed(placed, key) <==> Claimed(placed[..|placed| - 1], key) || Claims(placed[|placed| - 1], key)
  {
    hide Claims;
    var init := placed[..|placed| - 1];
    if i: nat :| i < |placed| && Claims(placed[i], key) {
      if i < |init| { assert Claims(init[i], key); }
    }
    if i: nat :| i < |init| && Claims(init[i], key) { assert Claims(placed[i], key); }
  }

  /** A key of the index leads to the first message in traversal order that claims it. */
  lemma {:induction false} FirstClaimWins(placed: seq<Placed>, key: string)
    ensures key in Filled(map[], placed) <==> Claimed(placed, key)
    ensures forall i: nat :: Owns(placed, i, key) ==> key in Filled(map[], placed) && Filled(map[], placed)[key] == DefOf(placed[i])
  {
    hide Claims, KeysOf, DefOf, StoredAll;
    if placed != [] {
      var last := |placed| - 1;
      var init := placed[..last];
      FirstClaimWins(init, key);
      PlaceOne(Filled(map[], init), placed[last], key);
      ClaimedStep(placed, key);
      forall i: nat | Owns(placed, i, key)
        ensures key in Filled(map[], placed) && Filled(map[], placed)[key] == DefOf(placed[i])
      {
        OwnsBefore(placed, i, key);
      }
    }
  }

  lemma {:induction false} OwnsBefore(placed: seq<Placed>, i: nat, key: string)
    requires Owns(placed, i, key)
    ensures i < |placed| - 1 ==> Owns(placed[..|placed| - 1], i, key)
    ensures i == |placed| - 1 ==> !Claimed(placed[..|placed| - 1], key)
  {
    hide Claims;
    var init := placed[..|placed| - 1];
    forall j | 0 <= j < |init| ensures init[j] == placed[j] {}
  }

  // ---------- Distinct names ----------

  function LastPart(s: string): string {
    if s == "" || s[|s| - 1] == '.' then "" else LastPart(s[..|s| - 1]) + [s[|s| - 1]]
  }

  ghost predicate Spaceless(s: string) { forall i :: 0 <= i < |s| ==> !IsSpace(s[i]) }

  /** A protobuf identifier, as far as it matters here. */
  ghost predicate CleanName(name: string) { name != "" && '.' !in name && Spaceless(name) }

  ghost predicate CleanPath(s: string) { s != "" && s[0] != '.' && Spaceless(s) }

  ghost predicate CleanPlaced(p: Placed) {
    && CleanName(p.message.name) && CleanPath(p.full) && LastPart(p.full) == p.message.name
    && (p.pkg != "" ==> CleanPath(p.pkg))
  }

  ghost predicate CleanMessage(m: Message)
    decreases m, 0
  {
    CleanName(m.name) && CleanDecls(m.decls)
  }

  ghost predicate CleanDecls(decls: seq<Decl>)
    decreases decls, 1
  {
    forall i :: 0 <= i < |decls| ==> CleanDecl(decls[i])
  }

  ghost predicate CleanDecl(d: Decl)
    decreases d, 2
  {
    d.Nested? ==> CleanMessage(d.message)
  }

  ghost predicate CleanFiles(files: seq<File>) {
    forall i :: 0 <= i < |files| ==> CleanDecls(files[i].decls) && (files[i].pkg != "" ==> CleanPath(files[i].pkg))
  }

  lemma {:induction false} LastPartIs(a: string, b: string)
    requires '.' !in b
    ensures LastPart(b) == b && LastPart(Dotted(a, b)) == b
    decreases |b|
  {
    if b != "" {
      var init := b[..|b| - 1];
      LastPartIs(a, init);
      assert Dotted(a, b)[..|Dotted(a, b)| - 1] == Dotted(a, init);
      assert init + [b[|b| - 1]] == b;
    }
  }

  /** The last part of a dotted path is that of its last component. */
  lemma {:induction false} LastPartOfPath(a: string, b: string)
    requires b != "" && b[0] != '.'
    ensures LastPart(Dotted(a, b)) == LastPart(b)
    decreases |b|
  {
    var init := b[..|b| - 1];
    assert Dotted(a, b)[..|Dotted(a, b)| - 1] == Dotted(a, init);
    if b[|b| - 1] != '.' {
      if init == "" {
        assert Dotted(a, init)[|a|] == '.';
        assert LastPart(init) == "" && LastPart(Dotted(a, init)) == "";
      } else {
        LastPartOfPath(a, init);
      }
    }
  }

  lemma {:induction false} NormalOfClean(s: string)
    requires CleanPath(s)
    ensures Normal(s) == s
  {
    TrimOfUnspaced(s);
  }

  /** A message claims only keys that end in its short name, and claims that name. */
  lemma {:induction false} ClaimsEndInName(p: Placed, key: string)
    requires CleanPlaced(p) && Claims(p, key)
    ensures LastPart(key) == p.message.name
  {
    var i :| 0 <= i < |KeysOf(p)| && Normal(KeysOf(p)[i]) == key;
    KeyEndsInName(p, i);
  }

  lemma {:induction false} KeyEndsInName(p: Placed, i: nat)
    requires CleanPlaced(p) && i < |KeysOf(p)|
    ensures var key := KeysOf(p)[i]; CleanPath(key) && Normal(key) == key && LastPart(key) == p.message.name
  {
    var name := p.message.name;
    LastPartIs(p.pkg, name);
    if p.pkg != "" {
      LastPartOfPath(p.pkg, p.full);
      DottedIsClean(p.pkg, name);
      DottedIsClean(p.pkg, p.full);
    }
    assert CleanPath(name);
    hide LastPart, Dotted, CleanPath, CleanName, Normal;
    NormalOfClean(KeysOf(p)[i]);
  }

  lemma {:induction false} DottedIsClean(a: string, b: string)
    requires CleanPath(a) && Spaceless(b)
    ensures CleanPath(Dotted(a, b))
  {
  }

  lemma {:induction false} ClaimsItsName(p: Placed)
    requires CleanPlaced(p)
    ensures Claims(p, p.message.name)
  {
    KeyEndsInName(p, 0);
  }

  ghost predicate DistinctNames(placed: seq<Placed>) {
    forall i, j :: 0 <= i < j < |placed| ==> placed[i].message.name != placed[j].message.name
  }

  ghost predicate EachOwnsItsKeys(placed: seq<Placed>) {
    forall i: nat, key :: i < |placed| && Claims(placed[i], key) ==> Owns(placed, i, key)
  }

  /** Every message owns all its keys exactly when no two messages share a short name. */
  lemma {:induction false} OwnKeysIff(placed: seq<Placed>)
    requires forall i :: 0 <= i < |placed| ==> CleanPlaced(placed[i])
    ensures EachOwnsItsKeys(placed) <==> DistinctNames(placed)
  {
    hide CleanPlaced, Claims;
    if DistinctNames(placed) {
      forall i: nat, key | i < |placed| && Claims(placed[i], key) ensures Owns(placed, i, key) {
        ClaimsEndInName(placed[i], key);
        forall j | 0 <= j < i ensures !Claims(placed[j], key) {
          if Claims(placed[j], key) { ClaimsEndInName(placed[j], key); }
        }
      }
    }
    if EachOwnsItsKeys(placed) {
      forall i, j | 0 <= i < j < |placed| ensures placed[i].message.name != placed[j].message.name {
        ClaimsItsName(placed[i]);
        ClaimsItsName(placed[j]);
        assert Owns(placed, j, placed[j].message.name);
      }
    }
  }

  lemma {:induction false} WalkIsClean(pkg: string, prefix: string, m: Message)
    requires CleanMessage(m) && (prefix != "" ==> CleanPath(prefix)) && (pkg != "" ==> CleanPath(pkg))
    ensures forall p :: p in Walk(pkg, prefix, m) ==> CleanPlaced(p) && p.pkg == pkg
    decreases m, 0
  {
    LastPartIs(prefix, m.name);
    assert CleanPlaced(Placed(pkg, FullName(prefix, m.name), m));
    hide CleanPlaced;
    WalkDeclsIsClean(pkg, FullName(prefix, m.name), m.decls);
  }

  lemma {:induction false} WalkDeclsIsClean(pkg: string, prefix: string, decls: seq<Decl>)
    requires CleanDecls(decls) && (prefix != "" ==> CleanPath(prefix)) && (pkg != "" ==> CleanPath(pkg))
    ensures forall p :: p in WalkDecls(pkg, prefix, decls) ==> CleanPlaced(p) && p.pkg == pkg
    decreases decls, 1
  {
    hide CleanPlaced, CleanPath;
    if decls != [] {
      var d := decls[|decls| - 1];
      WalkDeclsIsClean(pkg, prefix, decls[..|decls| - 1]);
      WalkDeclIsClean(pkg, prefix, d);
    }
  }

  lemma {:induction false} WalkDeclIsClean(pkg: string, prefix: string, d: Decl)
    requires CleanDecl(d) && (prefix != "" ==> CleanPath(prefix)) && (pkg != "" ==> CleanPath(pkg))
    ensures forall p :: p in WalkDecl(pkg, prefix, d) ==> CleanPlaced(p) && p.pkg == pkg
    decreases d, 2
  {
    hide CleanPlaced, CleanPath;
    if d.Nested? { WalkIsClean(pkg, prefix, d.message); }
  }

  lemma {:induction false} FilesAreClean(files: seq<File>)
    requires CleanFiles(files)
    ensures forall p :: p in WalkFiles(files) ==> CleanPlaced(p)
  {
    hide CleanPlaced, CleanPath, CleanDecls;
    if files != [] {
      var last := files[|files| - 1];
      FilesAreClean(files[..|files| - 1]);
      assert "" == [];
      WalkDeclsIsClean(last.pkg, "", last.decls);
    }
  }

  /** If short names are distinct across all files, every message is found under each of its
      keys. */
  lemma {:induction false} EveryMessageIsFound(files: seq<File>, i: nat, k: nat)
    requires CleanFiles(files) && DistinctNames(WalkFiles(files))
    requires i < |WalkFiles(files)| && k < |KeysOf(WalkFiles(files)[i])|
    ensures var p := WalkFiles(files)[i];
      var idx := Filled(map[], WalkFiles(files));
      KeysOf(p)[k] in idx && idx[KeysOf(p)[k]] == DefOf(p)
  {
    FilesAreClean(files);
    var placed := WalkFiles(files);
    var key := KeysOf(placed[i])[k];
    KeyEndsInName(placed[i], k);
    assert Claims(placed[i], key);
    OwnKeysIff(placed);
    FirstClaimWins(placed, key);
    hide CleanPlaced, Claims, KeysOf, DefOf, Filled, WalkFiles;
    assert Owns(placed, i, key);
  }
}
