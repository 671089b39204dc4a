/** Which message of which file a name in the index leads to. */
module ProtoPlaces {
  import opened Text
  import opened Positions
  import opened ProtoIndex

  // ---------- Places ----------

  /** The message at a place: the position of a declaration, then of one nested in it, and so on. */
  function MessageAt(decls: seq<Decl>, at: seq<nat>): (r: Option<Message>)
    ensures r.Some? ==> at != [] && at[0] < |decls|
    decreases |at|
  {
    if at == [] || at[0] >= |decls| || !decls[at[0]].Nested? then None
    else if |at| == 1 then Some(decls[at[0]].message)
    else MessageAt(decls[at[0]].message.decls, at[1..])
  }

  /** The names on the way to it. */
  function NamesTo(decls: seq<Decl>, at: seq<nat>): seq<string>
    decreases |at|
  {
    if at == [] || at[0] >= |decls| || !decls[at[0]].Nested? then []
    else [decls[at[0]].message.name] + NamesTo(decls[at[0]].message.decls, at[1..])
  }

  /** The order of declarations in the text, with a message before those nested in it. */
  predicate Before(p: seq<nat>, q: seq<nat>) {
    q != [] && (p == [] || p[0] < q[0] || (p[0] == q[0] && Before(p[1..], q[1..])))
  }

  ghost predicate IsPlace(files: seq<File>, p: seq<nat>) {
    p != [] && p[0] < |files| && MessageAt(files[p[0]].decls, p[1..]).Some?
  }

  // ---------- The traversal visits every place, in order ----------

  ghost predicate Ordered(ps: seq<seq<nat>>) { forall i, j :: 0 <= i < j < |ps| ==> Before(ps[i], ps[j]) }

  ghost predicate FromDecl(decls: seq<Decl>, pkg: string, prefix: string, p: Placed, at: seq<nat>) {
    && MessageAt(decls, at) == Some(p.message) && p.pkg == pkg && NamesTo(decls, at) != []
    && p.full == FullName(prefix, Join(NamesTo(decls, at), '.'))
  }

  /** These are all messages below some declarations, in order. */
  ghost predicate Lists(decls: seq<Decl>, pkg: string, prefix: string, placed: seq<Placed>, ps: seq<seq<nat>>) {
    && |ps| == |placed| && Ordered(ps)
    && (forall k :: 0 <= k < |ps| ==> FromDecl(decls, pkg, prefix, placed[k], ps[k]))
    && forall at :: MessageAt(decls, at).Some? ==> at in ps
  }

  function Prefixed(i: nat, ps: seq<seq<nat>>): (r: seq<seq<nat>>)
    ensures |r| == |ps| && forall k :: 0 <= k < |ps| ==> r[k] == [i] + ps[k]
  {
    seq(|ps|, k requires 0 <= k < |ps| => [i] + ps[k])
  }

  lemma {:induction false} PrefixedOrdered(i: nat, ps: seq<seq<nat>>)
    requires Ordered(ps)
    ensures Ordered(Prefixed(i, ps))
  {
    var r := Prefixed(i, ps);
    forall a, b | 0 <= a < b < |r| ensures Before(r[a], r[b]) {
      assert r[a][1..] == ps[a] && r[b][1..] == ps[b];
    }
  }

  lemma {:induction false} AppendOrdered(a: seq<seq<nat>>, b: seq<seq<nat>>, i: nat)
    requires Ordered(a) && Ordered(b)
    requires forall k :: 0 <= k < |a| ==> a[k] != [] && a[k][0] < i
    requires forall k :: 0 <= k < |b| ==> b[k] != [] && b[k][0] == i
    ensures Ordered(a + b)
  {
    forall x, y | 0 <= x < |a| && 0 <= y < |b| ensures Before(a[x], b[y]) {}
    hide Before;
  }

  /** Names below a message. */
  lemma {:induction false} NamesBelow(prefix: string, name: string, rest: seq<string>)
    requires name != "" && rest != []
    ensures FullName(FullName(prefix, name), Join(rest, '.')) == FullName(prefix, Join([name] + rest, '.'))
  {
    JoinStep(name, rest, '.');
    var tail := Join(rest, '.');
    assert Join([name] + rest, '.') == Dotted(name, tail);
    if prefix != "" { assert Dotted(Dotted(prefix, name), tail) == Dotted(prefix, Dotted(name, tail)); }
  }

  /** A place below some declarations. */
  lemma {:induction false} PlaceBelow(decls: seq<Decl>, i: nat, at: seq<nat>)
    requires i < |decls| && decls[i].Nested?
    ensures var m := decls[i].message;
      && MessageAt(decls, [i] + at) == (if at == [] then Some(m) else MessageAt(m.decls, at))
      && NamesTo(decls, [i] + at) == [m.name] + NamesTo(m.decls, at)
  {
    assert ([i] + at)[1..] == at;
  }

  lemma {:induction false} NoNames(decls: seq<Decl>)
    ensures NamesTo(decls, []) == []
  {
  }

  /** The places in one declaration. */
  ghost predicate ListsDecl(decls: seq<Decl>, i: nat, pkg: string, prefix: string, placed: seq<Placed>, ps: seq<seq<nat>>) {
    && |ps| == |placed| && Ordered(ps)
    && (forall k :: 0 <= k < |ps| ==> ps[k] != [] && ps[k][0] == i && FromDecl(decls, pkg, prefix, placed[k], ps[k]))
    && forall at :: MessageAt(decls, at).Some? && at[0] == i ==> at in ps
  }

  lemma {:induction false} DeclListed(pkg: string, prefix: string, decls: seq<Decl>, i: nat) returns (ps: seq<seq<nat>>)
    requires i < |decls| && CleanDecl(decls[i])
    ensures ListsDecl(decls, i, pkg, prefix, WalkDecl(pkg, prefix, decls[i]), ps)
    decreases decls[i], 2
  {
    if decls[i].Nested? {
      var m := decls[i].message;
      var inner := MessageListed(pkg, FullName(prefix, m.name), m);
      ps := MessagePlaces(pkg, prefix, decls, i, inner);
    } else {
      ps := [];
    }
  }

  lemma {:induction false} MessageListed(pkg: string, full: string, m: Message) returns (ps: seq<seq<nat>>)
    requires CleanMessage(m)
    ensures Lists(m.decls, pkg, full, WalkDecls(pkg, full, m.decls), ps)
    decreases m, 1
  {
    ps := DeclsListed(pkg, full, m.decls);
  }

  lemma {:induction false} MessagePlaces(pkg: string, prefix: string, decls: seq<Decl>, i: nat, inner: seq<seq<nat>>) returns (ps: seq<seq<nat>>)
    requires i < |decls| && decls[i].Nested? && decls[i].message.name != ""
    requires var m := decls[i].message;
      var full := FullName(prefix, m.name);
      Lists(m.decls, pkg, full, WalkDecls(pkg, full, m.decls), inner)
    ensures ListsDecl(decls, i, pkg, prefix, WalkDecl(pkg, prefix, decls[i]), ps)
  {
    var m := decls[i].message;
    var full := FullName(prefix, m.name);
    var below := WalkDecls(pkg, full, m.decls);
    var placed := WalkDecl(pkg, prefix, decls[i]);
    assert WalkDecl(pkg, prefix, decls[i]) == Walk(pkg, prefix, m) == [Placed(pkg, full, m)] + below;
    var all := [[]] + inner;
    hide *;
    ps := Prefixed(i, all);
    MessageOrdered(inner, m.decls, pkg, full, below, i);
    assert |all| == |below| + 1 by { SameCount(m.decls, pkg, full, below, inner); }
    forall k | 0 <= k < |ps| ensures ps[k] != [] && ps[k][0] == i && FromDecl(decls, pkg, prefix, placed[k], ps[k]) {
      PlacedBelow(pkg, prefix, decls, i, inner, below, k);
    }
    forall at | MessageAt(decls, at).Some? && at[0] == i ensures at in ps { PlaceIsBelow(pkg, full, decls, i, inner, below, at); }
    PlacesListed(decls, i, pkg, prefix, placed, ps);
  }

  lemma {:induction false} PlacesListed(decls: seq<Decl>, i: nat, pkg: string, prefix: string, placed: seq<Placed>, ps: seq<seq<nat>>)
    requires |ps| == |placed| && Ordered(ps)
    requires forall k :: 0 <= k < |ps| ==> ps[k] != [] && ps[k][0] == i && FromDecl(decls, pkg, prefix, placed[k], ps[k])
    requires forall at :: MessageAt(decls, at).Some? && at[0] == i ==> at in ps
    ensures ListsDecl(decls, i, pkg, prefix, placed, ps)
  {
  }

  lemma {:induction false} SameCount(decls: seq<Decl>, pkg: string, full: string, placed: seq<Placed>, ps: seq<seq<nat>>)
    requires Lists(decls, pkg, full, placed, ps)
    ensures |ps| == |placed|
  {
  }

  lemma {:induction false} MessageOrdered(ps: seq<seq<nat>>, decls: seq<Decl>, pkg: string, full: string, placed: seq<Placed>, i: nat)
    requires Lists(decls, pkg, full, placed, ps)
    ensures Ordered(Prefixed(i, [[]] + ps))
  {
    hide *;
    NothingIsFirst(ps, decls, pkg, full, placed);
    PrefixedOrdered(i, [[]] + ps);
  }

  /** The message of a declaration, and each message below it, has its place. */
  lemma {:induction false} PlacedBelow(pkg: string, prefix: string, decls: seq<Decl>, i: nat, inner: seq<seq<nat>>, below: seq<Placed>, k: nat)
    requires i < |decls| && decls[i].Nested? && decls[i].message.name != ""
    requires var m := decls[i].message; Lists(m.decls, pkg, FullName(prefix, m.name), below, inner)
    requires k <= |inner|
    ensures |below| == |inner|
    ensures var m := decls[i].message;
      var placed := [Placed(pkg, FullName(prefix, m.name), m)] + below;
      var p := Prefixed(i, [[]] + inner)[k];
      p != [] && p[0] == i && FromDecl(decls, pkg, prefix, placed[k], p)
  {
    hide MessageAt, NamesTo, Join, FullName, Ordered;
    var m := decls[i].message;
    var full := FullName(prefix, m.name);
    var at := ([[]] + inner)[k];
    PlaceBelow(decls, i, at);
    NoNames(m.decls);
    if k == 0 {
      JoinOne(m.name, '.');
      assert [m.name] + [] == [m.name];
    } else {
      assert FromDecl(m.decls, pkg, full, below[k - 1], inner[k - 1]);
      assert at == inner[k - 1];
      NamesBelow(prefix, m.name, NamesTo(m.decls, at));
    }
  }

  /** And there are no other places there. */
  lemma {:induction false} PlaceIsBelow(pkg: string, full: string, decls: seq<Decl>, i: nat, inner: seq<seq<nat>>, below: seq<Placed>, at: seq<nat>)
    requires i < |decls| && decls[i].Nested? && Lists(decls[i].message.decls, pkg, full, below, inner)
    requires MessageAt(decls, at).Some? && at[0] == i
    ensures at in Prefixed(i, [[]] + inner)
  {
    hide MessageAt, NamesTo, FromDecl, Ordered;
    var ps := Prefixed(i, [[]] + inner);
    var rest := at[1..];
    assert at == [i] + rest;
    PlaceBelow(decls, i, rest);
    if rest == [] {
      assert ps[0] == at;
    } else {
      var k :| 0 <= k < |inner| && inner[k] == rest;
      assert ps[k + 1] == at;
    }
  }

  lemma {:induction false} NothingIsFirst(ps: seq<seq<nat>>, decls: seq<Decl>, pkg: string, full: string, placed: seq<Placed>)
    requires Lists(decls, pkg, full, placed, ps)
    ensures Ordered([[]] + ps)
  {
    forall k | 0 <= k < |ps| ensures Before([], ps[k]) {
      assert FromDecl(decls, pkg, full, placed[k], ps[k]);
      NoNames(decls);
    }
    hide FromDecl, Before;
  }

  /** The places in the first declarations. */
  ghost predicate ListsFirst(decls: seq<Decl>, n: nat, pkg: string, prefix: string, placed: seq<Placed>, ps: seq<seq<nat>>) {
    && |ps| == |placed| && Ordered(ps)
    && (forall k :: 0 <= k < |ps| ==> ps[k] != [] && ps[k][0] < n && FromDecl(decls, pkg, prefix, placed[k], ps[k]))
    && forall at :: MessageAt(decls, at).Some? && at[0] < n ==> at in ps
  }

  lemma {:induction false} FirstListed(pkg: string, prefix: string, decls: seq<Decl>, n: nat) returns (ps: seq<seq<nat>>)
    requires n <= |decls| && CleanDecls(decls)
    ensures ListsFirst(decls, n, pkg, prefix, WalkDecls(pkg, prefix, decls[..n]), ps)
    decreases decls, 1, n
  {
    if n == 0 {
      ps := [];
    } else {
      var before := FirstListed(pkg, prefix, decls, n - 1);
      assert CleanDecl(decls[n - 1]);
      var last := DeclListed(pkg, prefix, decls, n - 1);
      ps := before + last;
      assert decls[..n][..n - 1] == decls[..n - 1];
      var a, b := WalkDecls(pkg, prefix, decls[..n - 1]), WalkDecl(pkg, prefix, decls[n - 1]);
      assert WalkDecls(pkg, prefix, decls[..n]) == a + b;
      hide *;
      OneMoreDecl(decls, n, pkg, prefix, a, before, b, last);
    }
  }

  lemma {:induction false} OneMoreDecl(decls: seq<Decl>, n: nat, pkg: string, prefix: string, a: seq<Placed>, ps: seq<seq<nat>>, b: seq<Placed>, qs: seq<seq<nat>>)
    requires n > 0 && ListsFirst(decls, n - 1, pkg, prefix, a, ps) && ListsDecl(decls, n - 1, pkg, prefix, b, qs)
    ensures ListsFirst(decls, n, pkg, prefix, a + b, ps + qs)
  {
    hide FromDecl, MessageAt, Ordered;
    AppendOrdered(ps, qs, n - 1);
    forall k | 0 <= k < |ps + qs| ensures (ps + qs)[k] != [] && (ps + qs)[k][0] < n && FromDecl(decls, pkg, prefix, (a + b)[k], (ps + qs)[k]) {
      if k >= |ps| { assert (ps + qs)[k] == qs[k - |ps|] && (a + b)[k] == b[k - |a|]; }
    }
  }

  lemma {:induction false} DeclsListed(pkg: string, prefix: string, decls: seq<Decl>) returns (ps: seq<seq<nat>>)
    requires CleanDecls(decls)
    ensures Lists(decls, pkg, prefix, WalkDecls(pkg, prefix, decls), ps)
    decreases decls, 2
  {
    ps := FirstListed(pkg, prefix, decls, |decls|);
    assert decls[..|decls|] == decls;
    hide WalkDecls, FromDecl, Ordered, CleanDecls;
    forall at | MessageAt(decls, at).Some? ensures at[0] < |decls| {}
  }

  /** A message of a file, and the position it comes from. */
  ghost predicate FromFile(files: seq<File>, p: Placed, place: seq<nat>) {
    && IsPlace(files, place)
    && var f := files[place[0]];
    && p.pkg == f.pkg && MessageAt(f.decls, place[1..]) == Some(p.message)
    && p.full == Join(NamesTo(f.decls, place[1..]), '.')
  }

  /** The traversal visits each message of each file once, in the order of files and declarations. */
  ghost predicate Visits(files: seq<File>, n: nat, placed: seq<Placed>, ps: seq<seq<nat>>) {
    && |ps| == |placed| && Ordered(ps)
    && (forall k :: 0 <= k < |ps| ==> ps[k] != [] && ps[k][0] < n && FromFile(files, placed[k], ps[k]))
    && forall place :: IsPlace(files, place) && place[0] < n ==> place in ps
  }

  lemma {:induction false} OneMoreFile(files: seq<File>, n: nat, a: seq<Placed>, ps: seq<seq<nat>>, b: seq<Placed>, inner: seq<seq<nat>>)
    requires 0 < n <= |files| && Visits(files, n - 1, a, ps) && Lists(files[n - 1].decls, files[n - 1].pkg, "", b, inner)
    ensures Visits(files, n, a + b, ps + Prefixed(n - 1, inner))
  {
    hide Ordered, MessageAt, NamesTo, Join;
    var qs := Prefixed(n - 1, inner);
    PrefixedOrdered(n - 1, inner);
    AppendOrdered(ps, qs, n - 1);
    forall k | 0 <= k < |ps + qs| ensures (ps + qs)[k] != [] && (ps + qs)[k][0] < n && FromFile(files, (a + b)[k], (ps + qs)[k]) {
      if k >= |ps| {
        var at := inner[k - |ps|];
        assert (ps + qs)[k] == [n - 1] + at && ([n - 1] + at)[1..] == at && (a + b)[k] == b[k - |a|];
        assert FromDecl(files[n - 1].decls, files[n - 1].pkg, "", b[k - |a|], at);
      }
    }
    forall place | IsPlace(files, place) && place[0] < n ensures place in ps + qs {
      if place[0] == n - 1 {
        var j :| 0 <= j < |inner| && inner[j] == place[1..];
        assert (ps + qs)[|ps| + j] == [n - 1] + place[1..] == place;
      }
    }
  }

  lemma {:induction false} FilesVisited(files: seq<File>, n: nat) returns (ps: seq<seq<nat>>)
    requires CleanFiles(files) && n <= |files|
    ensures Visits(files, n, WalkFiles(files[..n]), ps)
  {
    hide FromFile, CleanDecls, WalkDecls, Ordered;
    if n == 0 {
      ps := [];
      NothingVisited(files);
    } else {
      var before := FilesVisited(files, n - 1);
      var f := files[n - 1];
      var inner := DeclsListed(f.pkg, "", f.decls);
      assert files[..n][..n - 1] == files[..n - 1];
      var a, b := WalkFiles(files[..n - 1]), WalkDecls(f.pkg, "", f.decls);
      assert WalkFiles(files[..n]) == a + b;
      hide *;
      OneMoreFile(files, n, a, before, b, inner);
      ps := before + Prefixed(n - 1, inner);
    }
  }

  lemma {:induction false} NothingVisited(files: seq<File>)
    ensures Visits(files, 0, WalkFiles(files[..0]), [])
  {
  }

  lemma {:induction false} AllVisited(files: seq<File>) returns (ps: seq<seq<nat>>)
    requires CleanFiles(files)
    ensures Visits(files, |files|, WalkFiles(files), ps)
  {
    hide *;
    ps := FilesVisited(files, |files|);
    assert files[..|files|] == files;
  }

  // ---------- Names ----------

  /** The names of a message: its own, and its path from the file on, alone and after the package. */
  ghost predicate HasName(files: seq<File>, place: seq<nat>, key: string)
    requires IsPlace(files, place)
  {
    var f := files[place[0]];
    var own := MessageAt(f.decls, place[1..]).value.name;
    var path := Join(NamesTo(f.decls, place[1..]), '.');
    key == own || key == path || (f.pkg != "" && (key == Dotted(f.pkg, own) || key == Dotted(f.pkg, path)))
  }

  /** The fields among some declarations that have a name and a type, in order. */
  ghost predicate FieldsAt(decls: seq<Decl>, fields: seq<MsgField>, at: seq<nat>) {
    && AllWanted(decls, AsField(), at)
    && |at| == |fields|
    && forall i :: 0 <= i < |at| ==>
         && at[i] < |decls| && IsField(decls[at[i]])
         && fields[i] == MsgField(decls[at[i]].name, decls[at[i]].typeName, decls[at[i]].repeated)
  }

  ghost function AsField(): Decl -> bool { (d: Decl) => IsField(d) }

  predicate IsField(d: Decl) { d.Field? && d.name != "" && d.typeName != "" }

  /** What the index says of a message. A nested one goes without its package. */
  ghost predicate Defines(files: seq<File>, place: seq<nat>, def: MsgDef)
    requires IsPlace(files, place)
  {
    var f := files[place[0]];
    var path := Join(NamesTo(f.decls, place[1..]), '.');
    && def.fullName == (if f.pkg == "" || '.' in path then path else Dotted(f.pkg, path))
    && exists at :: FieldsAt(MessageAt(f.decls, place[1..]).value.decls, def.fields, at)
  }

  lemma {:induction false} FieldsInOrder(decls: seq<Decl>) returns (at: seq<nat>)
    ensures FieldsAt(decls, FieldsOf(decls), at)
  {
    hide AllWanted;
    if decls == [] {
      at := [];
      NoneWanted(AsField());
    } else {
      var init, last := decls[..|decls| - 1], decls[|decls| - 1];
      at := FieldsInOrder(init);
      OneMoreWanted(init, last, AsField(), at);
      assert init + [last] == decls;
      at := at + if IsField(last) then [|init|] else [];
    }
  }

  lemma {:induction false} DefIs(files: seq<File>, p: Placed, place: seq<nat>)
    requires FromFile(files, p, place) && CleanPlaced(p)
    ensures Defines(files, place, DefOf(p))
  {
    hide MessageAt, NamesTo, Join, LastPart, FieldsOf, FieldsAt, CleanName;
    var at := FieldsInOrder(p.message.decls);
    NormalOfClean(p.full);
    TrimOfUnspaced(p.full);
  }

  lemma {:induction false} ClaimsIs(files: seq<File>, p: Placed, place: seq<nat>, key: string)
    requires FromFile(files, p, place) && CleanPlaced(p)
    ensures Claims(p, key) <==> HasName(files, place, key)
  {
    hide MessageAt, NamesTo, Join;
    FourKeys(p, key);
    hide Claims, CleanPlaced;
  }

  predicate IsName(p: Placed, key: string) {
    || key == p.message.name || key == p.full
    || (p.pkg != "" && (key == Dotted(p.pkg, p.message.name) || key == Dotted(p.pkg, p.full)))
  }

  lemma {:induction false} FourKeys(p: Placed, key: string)
    requires CleanPlaced(p)
    ensures Claims(p, key) <==> IsName(p, key)
  {
    KeysListed(p, key);
    hide LastPart, CleanPlaced, Normal, KeysOf, IsName;
    var keys := KeysOf(p);
    forall i | 0 <= i < |keys| ensures Normal(keys[i]) == keys[i] != "" { KeyEndsInName(p, i); }
    if i :| 0 <= i < |keys| && keys[i] == key { assert Normal(keys[i]) == key; }
  }

  lemma {:induction false} KeysListed(p: Placed, key: string)
    ensures key in KeysOf(p) <==> IsName(p, key)
  {
    hide Dotted;
  }

  /** A name leads to the first message, in the order of files and declarations, that has it. */
  lemma {:induction false} NameLeadsToFirst(files: seq<File>, place: seq<nat>, key: string)
    requires CleanFiles(files) && IsPlace(files, place) && HasName(files, place, key)
    requires forall q :: IsPlace(files, q) && Before(q, place) ==> !HasName(files, q, key)
    ensures var idx := Filled(map[], WalkFiles(files));
      key in idx && Defines(files, place, idx[key])
  {
    var placed := WalkFiles(files);
    var ps := AllVisited(files);
    FilesAreClean(files);
    hide WalkFiles, HasName, CleanFiles, CleanPlaced, Before, Filled, Claims, Defines, DefOf, MessageAt;
    var k := PlaceVisited(files, placed, ps, place);
    assert FromFile(files, placed[k], place) && placed[k] in placed;
    ClaimsIs(files, placed[k], place, key);
    forall j | 0 <= j < k ensures !Claims(placed[j], key) {
      assert FromFile(files, placed[j], ps[j]) && Before(ps[j], ps[k]) && placed[j] in placed;
      ClaimsIs(files, placed[j], ps[j], key);
    }
    assert Owns(placed, k, key);
    FirstClaimWins(placed, key);
    DefIs(files, placed[k], place);
  }

  lemma {:induction false} PlaceVisited(files: seq<File>, placed: seq<Placed>, ps: seq<seq<nat>>, place: seq<nat>) returns (k: nat)
    requires Visits(files, |files|, placed, ps) && IsPlace(files, place)
    ensures k < |ps| && ps[k] == place
  {
    hide FromFile;
    var i :| 0 <= i < |ps| && ps[i] == place;
    k := i;
  }

  /** What no message has for a name is not in the index. */
  lemma {:induction false} OnlyNames(files: seq<File>, key: string)
    requires CleanFiles(files)
    ensures key in Filled(map[], WalkFiles(files)) <==> exists place :: IsPlace(files, place) && HasName(files, place, key)
  {
    var placed := WalkFiles(files);
    var ps := AllVisited(files);
    FilesAreClean(files);
    FirstClaimWins(placed, key);
    hide WalkFiles, HasName, CleanFiles, CleanPlaced, Before, Filled, Claims, MessageAt;
    if i: nat :| i < |placed| && Claims(placed[i], key) {
      assert FromFile(files, placed[i], ps[i]) && placed[i] in placed;
      ClaimsIs(files, placed[i], ps[i], key);
    }
    if place :| IsPlace(files, place) && HasName(files, place, key) {
      var k := PlaceVisited(files, placed, ps, place);
      assert FromFile(files, placed[k], place) && placed[k] in placed;
      ClaimsIs(files, placed[k], place, key);
    }
  }

  function OwnName(files: seq<File>, place: seq<nat>): string
    requires place != [] && place[0] < |files| && MessageAt(files[place[0]].decls, place[1..]).Some?
  {
    MessageAt(files[place[0]].decls, place[1..]).value.name
  }

  /** If no two messages of all files share their own name, every name of every message leads to it. */
  lemma {:induction false} DistinctNamesLead(files: seq<File>, place: seq<nat>, key: string)
    requires CleanFiles(files) && IsPlace(files, place) && HasName(files, place, key)
    requires forall p, q :: IsPlace(files, p) && IsPlace(files, q) && p != q ==> OwnName(files, p) != OwnName(files, q)
    ensures var idx := Filled(map[], WalkFiles(files));
      key in idx && Defines(files, place, idx[key])
  {
    var placed := WalkFiles(files);
    var ps := AllVisited(files);
    FilesAreClean(files);
    hide WalkFiles, HasName, CleanFiles, CleanPlaced, Before, Filled, Claims, Defines, MessageAt, LastPart;
    forall q | IsPlace(files, q) && Before(q, place) ensures !HasName(files, q, key) {
      NotBeforeItself(place);
      if HasName(files, q, key) {
        NamedAlike(files, placed, ps, place, key);
        NamedAlike(files, placed, ps, q, key);
      }
    }
    NameLeadsToFirst(files, place, key);
  }

  lemma {:induction false} NotBeforeItself(p: seq<nat>)
    ensures !Before(p, p)
  {
    if p != [] { NotBeforeItself(p[1..]); }
  }

  /** All names of a message end in its own. */
  lemma {:induction false} NamedAlike(files: seq<File>, placed: seq<Placed>, ps: seq<seq<nat>>, place: seq<nat>, key: string)
    requires Visits(files, |files|, placed, ps) && (forall p :: p in placed ==> CleanPlaced(p))
    requires IsPlace(files, place) && HasName(files, place, key)
    ensures LastPart(key) == OwnName(files, place)
  {
    hide HasName, CleanPlaced, Claims, MessageAt, LastPart;
    var k := PlaceVisited(files, placed, ps, place);
    assert FromFile(files, placed[k], place) && placed[k] in placed;
    ClaimsIs(files, placed[k], place, key);
    ClaimsEndInName(placed[k], key);
  }

  /** A dot in front, and blanks around, make no difference. */
  lemma {:induction false} NormalStrips(key: string, blank: char)
    requires CleanPath(key) && IsSpace(blank)
    ensures Normal(key) == key && Normal("." + key) == key && Normal([blank] + key) == key && Normal(key + [blank]) == key
  {
  }
}
