/** Printing a selection tree as request text, and reading the text back by the grammar
    of selection sets and inline fragments (GraphQL, October 2021, sections 2.4 and 2.8.2). */
module GraphQLPrint {
  import opened Text
  import opened Sorting
  import opened GraphQLSelection
  import opened GraphQLTree

  // ---------- Printing ----------

  function Spaces(n: nat): string {
    if n == 0 then "" else " " + Spaces(n - 1)
  }

  function Braced(child: string, indent: nat): string {
    " {\n" + child + "\n" + Spaces(indent) + "}"
  }

  /** A fragment whose selection is blank keeps its braces. */
  function FragmentText(typ: string, child: string, indent: nat): string {
    Spaces(indent) + "... on " + typ + " {\n" + (if Blank(child) then "" else child + "\n") + Spaces(indent) + "}"
  }

  ghost function Render(nodes: seq<SelNode>, indent: nat): string
    decreases nodes
  {
    if nodes == [] then ""
    else
      var last := |nodes| - 1;
      (if last == 0 then "" else Render(nodes[..last], indent) + "\n") + RenderNode(nodes[last], indent)
  }

  ghost function RenderNode(n: SelNode, indent: nat): string
    decreases n, 1, 0
  {
    if IsHolder(n) then RenderFragments(n, SortedKeys(n.fragments), indent)
    else
      Spaces(indent) + n.fieldName +
      if n.isLeaf || n.children == [] then ""
      else
        var child := Render(n.children, indent + 2);
        if Blank(child) then "" else Braced(child, indent)
  }

  ghost function RenderFragments(n: SelNode, keys: seq<string>, indent: nat): string
    requires forall k :: k in keys ==> k in n.fragments
    decreases n, 0, |keys|
  {
    if keys == [] then ""
    else
      var last := |keys| - 1;
      (if last == 0 then "" else RenderFragments(n, keys[..last], indent) + "\n") +
      FragmentText(keys[last], Render(n.fragments[keys[last]].nodes, indent + 2), indent)
  }

  method RenderSelectionSet(nodes: seq<SelNode>, indent: nat) returns (b: string)
    ensures b == Render(nodes, indent)
    decreases nodes, 1, 0
  {
    hide RenderNode, Render;
    NoNodes(indent);
    b := "";
    var i := 0;
    while i < |nodes|
      invariant 0 <= i <= |nodes| && b == Render(nodes[..i], indent)
    {
      if i > 0 { b := b + "\n"; }
      var piece := RenderOne(nodes[i], indent);
      b := b + piece;
      NextNode(nodes, i, indent);
      i := i + 1;
    }
    assert nodes[..i] == nodes;
  }

  lemma {:induction false} NoNodes(indent: nat)
    ensures Render([], indent) == ""
  {
  }

  lemma {:induction false} NextNode(nodes: seq<SelNode>, i: nat, indent: nat)
    requires i < |nodes|
    ensures Render(nodes[..i + 1], indent) ==
            (if i == 0 then "" else Render(nodes[..i], indent) + "\n") + RenderNode(nodes[i], indent)
  {
    hide RenderNode;
    assert nodes[..i + 1][..i] == nodes[..i];
  }

  method RenderOne(n: SelNode, indent: nat) returns (b: string)
    ensures b == RenderNode(n, indent)
    decreases n, 1, 0
  {
    if IsHolder(n) {
      b := RenderHolder(n, indent);
      return;
    }
    b := Spaces(indent) + n.fieldName;
    if n.isLeaf || n.children == [] { return; }
    var child := RenderSelectionSet(n.children, indent + 2);
    if Blank(child) { return; }
    b := b + Braced(child, indent);
  }

  method RenderHolder(n: SelNode, indent: nat) returns (b: string)
    ensures b == RenderFragments(n, SortedKeys(n.fragments), indent)
    decreases n, 0, 1
  {
    hide FragmentText, Render;
    var keys := ListKeysSorted(n.fragments);
    b := "";
    var i := 0;
    while i < |keys|
      invariant 0 <= i <= |keys|
      invariant b == RenderFragments(n, keys[..i], indent)
    {
      if i > 0 { b := b + "\n"; }
      var piece := RenderFragment(keys[i], n, indent);
      b := b + piece;
      NextFragment(n, keys, i, indent);
      i := i + 1;
    }
    assert keys[..i] == keys;
  }

  method RenderFragment(typ: string, n: SelNode, indent: nat) returns (b: string)
    requires typ in n.fragments
    ensures b == FragmentText(typ, Render(n.fragments[typ].nodes, indent + 2), indent)
    decreases n, 0, 0
  {
    var child := RenderSelectionSet(n.fragments[typ].nodes, indent + 2);
    b := Spaces(indent) + "... on " + typ + " {\n";
    if !Blank(child) { b := b + child + "\n"; }
    b := b + Spaces(indent) + "}";
  }

  lemma {:induction false} NextFragment(n: SelNode, keys: seq<string>, i: nat, indent: nat)
    requires forall k :: k in keys ==> k in n.fragments
    requires i < |keys|
    ensures RenderFragments(n, keys[..i + 1], indent) ==
            (if i == 0 then "" else RenderFragments(n, keys[..i], indent) + "\n") +
            FragmentText(keys[i], Render(n.fragments[keys[i]].nodes, indent + 2), indent)
  {
    assert keys[..i + 1][..i] == keys[..i];
  }

  // ---------- Reading tokens ----------

  datatype Token = Name(text: string) | LBrace | RBrace | Spread

  predicate Ignored(c: char) { c in {' ', '\t', '\n', '\r', ','} }

  predicate NameStart(c: char) { 'a' <= c <= 'z' || 'A' <= c <= 'Z' || c == '_' }

  predicate NameContinue(c: char) { NameStart(c) || '0' <= c <= '9' }

  predicate IsName(s: string) {
    s != "" && NameStart(s[0]) && forall i :: 0 <= i < |s| ==> NameContinue(s[i])
  }

  /** The length of the longest run of name characters at the front. */
  function NameLength(s: string): (n: nat)
    ensures n <= |s|
  {
    if s != "" && NameContinue(s[0]) then 1 + NameLength(s[1..]) else 0
  }

  /** The token at the front of a text and its length. */
  function First(s: string): (r: Option<(Token, nat)>)
    requires s != "" && !Ignored(s[0])
    ensures r.Some? ==> 0 < r.value.1 <= |s|
  {
    if s[0] == '{' then Some((LBrace, 1))
    else if s[0] == '}' then Some((RBrace, 1))
    else if "..." <= s then Some((Spread, 3))
    else if NameStart(s[0]) then Some((Name(s[..NameLength(s)]), NameLength(s)))
    else None
  }

  function Lex(s: string): Option<seq<Token>>
    decreases |s|
  {
    if s == "" then Some([])
    else if Ignored(s[0]) then Lex(s[1..])
    else
      match First(s)
      case None => None
      case Some((t, k)) => if Lex(s[k..]).Some? then Some([t] + Lex(s[k..]).value) else None
  }

  lemma {:induction false} NameLengthOf(a: string, b: string)
    requires b == "" || !NameContinue(b[0])
    ensures NameLength(a + b) == NameLength(a)
  {
    if a == "" {
      assert a + b == b;
    } else {
      assert (a + b)[1..] == a[1..] + b;
      NameLengthOf(a[1..], b);
    }
  }

  lemma {:induction false} FirstUpTo(a: string, c: char, b: string)
    requires Ignored(c) && a != "" && !Ignored(a[0]) && First(a).Some?
    ensures First(a + [c] + b) == First(a)
  {
    var s := a + [c] + b;
    assert s == a + ([c] + b);
    assert s[0] == a[0] && "..."[0] == '.';
    if "..." <= a {
      assert s[..3] == a[..3];
    } else if NameStart(a[0]) {
      NameLengthOf(a, [c] + b);
      assert s[..NameLength(a)] == a[..NameLength(a)];
    }
  }

  lemma {:induction false} LexToken(s: string, t: Token, k: nat, y: seq<Token>)
    requires s != "" && !Ignored(s[0]) && First(s) == Some((t, k)) && Lex(s[k..]) == Some(y)
    ensures Lex(s) == Some([t] + y)
  {
  }

  /** White space ends a token, so texts around it are read one after the other. */
  lemma {:induction false} LexAround(a: string, c: char, b: string, x: seq<Token>, y: seq<Token>)
    requires Ignored(c) && Lex(a) == Some(x) && Lex(b) == Some(y)
    ensures Lex(a + [c] + b) == Some(x + y)
    decreases |a|, 1
  {
    var s := a + [c] + b;
    if a == "" {
      assert s == [c] + b && x + y == y;
    } else if Ignored(a[0]) {
      assert s[1..] == a[1..] + [c] + b;
      LexAround(a[1..], c, b, x, y);
    } else {
      LexAroundToken(a, c, b, x, y);
    }
  }

  lemma {:induction false} LexAroundToken(a: string, c: char, b: string, x: seq<Token>, y: seq<Token>)
    requires a != "" && !Ignored(a[0])
    requires Ignored(c) && Lex(a) == Some(x) && Lex(b) == Some(y)
    ensures Lex(a + [c] + b) == Some(x + y)
    decreases |a|, 0
  {
    hide *;
    var s := a + [c] + b;
    LexHead(a, x);
    var (t, k) := First(a).value;
    var z := Lex(a[k..]).value;
    LexAround(a[k..], c, b, z, y);
    FirstUpTo(a, c, b);
    assert a[k..] + [c] + b == s[k..];
    assert s[0] == a[0];
    LexToken(s, t, k, z + y);
    assert [t] + (z + y) == ([t] + z) + y;
  }

  lemma {:induction false} LexHead(a: string, x: seq<Token>)
    requires a != "" && !Ignored(a[0]) && Lex(a) == Some(x)
    ensures First(a).Some? && Lex(a[First(a).value.1..]).Some?
    ensures x == [First(a).value.0] + Lex(a[First(a).value.1..]).value
  {
  }

  lemma {:induction false} LexSpaces(n: nat, b: string)
    ensures Lex(Spaces(n) + b) == Lex(b)
  {
    if n == 0 {
      assert Spaces(n) + b == b;
    } else {
      assert (Spaces(n) + b)[1..] == Spaces(n - 1) + b;
      LexSpaces(n - 1, b);
    }
  }

  lemma {:induction false} NameLengthAll(s: string)
    requires forall i :: 0 <= i < |s| ==> NameContinue(s[i])
    ensures NameLength(s) == |s|
  {
    if s != "" { NameLengthAll(s[1..]); }
  }

  lemma {:induction false} LexName(s: string)
    requires IsName(s)
    ensures Lex(s) == Some([Name(s)])
  {
    NameLengthAll(s);
    assert s[..|s|] == s;
    assert !("..." <= s) by { assert "..."[0] == '.'; }
    assert First(s) == Some((Name(s), |s|));
    assert s[|s|..] == "";
    LexToken(s, Name(s), |s|, []);
    assert [Name(s)] + [] == [Name(s)];
  }

  // ---------- Reading selections ----------

  datatype Ast = AField(name: string, sels: seq<Ast>) | AFragment(typ: string, sels: seq<Ast>)

  function WithSels(a: Ast, sels: seq<Ast>): Ast {
    match a
    case AField(n, _) => AField(n, sels)
    case AFragment(t, _) => AFragment(t, sels)
  }

  function Bare(a: Ast): Ast { WithSels(a, []) }

  /** How a selection opens: with its name or its fragment, how many tokens that takes,
      and whether braces follow. */
  function Opening(ts: seq<Token>): (r: Option<(Ast, nat, bool)>)
    requires ts != []
    ensures r.Some? ==> 0 < r.value.1 <= |ts|
  {
    if ts[0].Name? && |ts| > 1 && ts[1].LBrace? then Some((AField(ts[0].text, []), 2, true))
    else if ts[0].Name? then Some((AField(ts[0].text, []), 1, false))
    else if ts[0].Spread? && |ts| >= 4 && ts[1] == Name("on") && ts[2].Name? && ts[3].LBrace?
      then Some((AFragment(ts[2].text, []), 4, true))
    else None
  }

  /** Selections up to a closing brace or the end, and what is left. A field's braces hold
      at least one selection; a fragment's may be empty. */
  function ParseSels(ts: seq<Token>): (r: Option<(seq<Ast>, seq<Token>)>)
    ensures r.Some? ==> |r.value.1| <= |ts|
    decreases |ts|
  {
    if ts == [] || ts[0].RBrace? then Some(([], ts))
    else
      match Opening(ts)
      case None => None
      case Some((a, k, braced)) =>
        match ParseSels(ts[k..])
        case None => None
        case Some((sels, left)) =>
          if !braced then Some(([a] + sels, left))
          else if left == [] || (a.AField? && sels == []) then None
          else
            match ParseSels(left[1..])
            case None => None
            case Some((more, rest)) => Some(([WithSels(a, sels)] + more, rest))
  }

  function Parse(s: string): Option<seq<Ast>> {
    match Lex(s)
    case None => None
    case Some(ts) =>
      match ParseSels(ts)
      case None => None
      case Some((sels, rest)) => if rest == [] then Some(sels) else None
  }

  function TokensOf(a: Ast): seq<Token>
    decreases a
  {
    match a
    case AField(n, sels) => [Name(n)] + if sels == [] then [] else [LBrace] + Tokens(sels) + [RBrace]
    case AFragment(t, sels) => [Spread, Name("on"), Name(t), LBrace] + Tokens(sels) + [RBrace]
  }

  function Tokens(sels: seq<Ast>): seq<Token>
    decreases sels
  {
    if sels == [] then [] else TokensOf(sels[0]) + Tokens(sels[1..])
  }

  lemma {:induction false} TokensAppend(a: seq<Ast>, b: seq<Ast>)
    ensures Tokens(a + b) == Tokens(a) + Tokens(b)
  {
    if a == [] {
      assert a + b == b;
    } else {
      assert (a + b)[1..] == a[1..] + b;
      TokensAppend(a[1..], b);
    }
  }

  lemma {:induction false} TokensStart(sels: seq<Ast>, rest: seq<Token>)
    requires rest == [] || rest[0].RBrace?
    ensures var ts := Tokens(sels) + rest; ts == [] || !ts[0].LBrace?
  {
    if sels != [] {
      assert (Tokens(sels) + rest)[0] == TokensOf(sels[0])[0];
    }
  }

  /** The parser reads back what the grammar writes for a list of selections. */
  lemma {:induction false} ParseTokens(sels: seq<Ast>, rest: seq<Token>)
    requires rest == [] || rest[0].RBrace?
    ensures ParseSels(Tokens(sels) + rest) == Some((sels, rest))
    decreases sels
  {
    hide ParseSels;
    if sels == [] {
      ParseNothing(rest);
      assert Tokens(sels) + rest == rest;
    } else {
      var tail := Tokens(sels[1..]) + rest;
      assert Tokens(sels) + rest == TokensOf(sels[0]) + tail;
      ParseTokens(sels[1..], rest);
      TokensStart(sels[1..], rest);
      ParseTokens(sels[0].sels, [RBrace] + tail);
      ParseOne(sels[0], tail, sels[1..], rest);
      assert [sels[0]] + sels[1..] == sels;
    }
  }

  lemma {:induction false} ParseNothing(rest: seq<Token>)
    requires rest == [] || rest[0].RBrace?
    ensures ParseSels(rest) == Some(([], rest))
  {
  }

  lemma {:induction false} ParseOne(a: Ast, tail: seq<Token>, more: seq<Ast>, rest: seq<Token>)
    requires ParseSels(tail) == Some((more, rest)) && (tail == [] || !tail[0].LBrace?)
    requires ParseSels(Tokens(a.sels) + ([RBrace] + tail)) == Some((a.sels, [RBrace] + tail))
    ensures ParseSels(TokensOf(a) + tail) == Some(([a] + more, rest))
  {
    hide Tokens, ParseSels, Opening;
    var ts := TokensOf(a) + tail;
    if a.AFragment? {
      FragmentOpens(ts, a, tail);
      ParseBraced(ts, a, 4, tail, more, rest);
    } else if a.sels == [] {
      assert TokensOf(a) == [Name(a.name)];
      ParseBare(a.name, tail, more, rest);
    } else {
      FieldOpens(ts, a, tail);
      ParseBraced(ts, a, 2, tail, more, rest);
    }
  }

  lemma {:induction false} ParseBare(name: string, tail: seq<Token>, more: seq<Ast>, rest: seq<Token>)
    requires ParseSels(tail) == Some((more, rest)) && (tail == [] || !tail[0].LBrace?)
    ensures ParseSels([Name(name)] + tail) == Some(([AField(name, [])] + more, rest))
  {
    var ts := [Name(name)] + tail;
    assert ts[1..] == tail;
    assert Opening(ts) == Some((AField(name, []), 1, false));
  }

  lemma {:induction false} FieldOpens(ts: seq<Token>, a: Ast, tail: seq<Token>)
    requires a.AField? && a.sels != [] && ts == TokensOf(a) + tail
    ensures ts != [] && ts[0].Name? && Opening(ts) == Some((Bare(a), 2, true))
    ensures ts[2..] == Tokens(a.sels) + ([RBrace] + tail)
  {
    hide Tokens;
    assert ts == [Name(a.name), LBrace] + (Tokens(a.sels) + ([RBrace] + tail));
  }

  lemma {:induction false} FragmentOpens(ts: seq<Token>, a: Ast, tail: seq<Token>)
    requires a.AFragment? && ts == TokensOf(a) + tail
    ensures ts != [] && ts[0].Spread? && Opening(ts) == Some((Bare(a), 4, true))
    ensures ts[4..] == Tokens(a.sels) + ([RBrace] + tail)
  {
    hide Tokens;
    assert ts == [Spread, Name("on"), Name(a.typ), LBrace] + (Tokens(a.sels) + ([RBrace] + tail));
  }

  lemma {:induction false} ParseBraced(ts: seq<Token>, a: Ast, k: nat, tail: seq<Token>, more: seq<Ast>, rest: seq<Token>)
    requires ts != [] && !ts[0].RBrace? && Opening(ts) == Some((Bare(a), k, true))
    requires ts[k..] == Tokens(a.sels) + ([RBrace] + tail)
    requires a.AField? ==> a.sels != []
    requires ParseSels(tail) == Some((more, rest))
    requires ParseSels(Tokens(a.sels) + ([RBrace] + tail)) == Some((a.sels, [RBrace] + tail))
    ensures ParseSels(ts) == Some(([a] + more, rest))
  {
    assert ([RBrace] + tail)[1..] == tail;
  }

  // ---------- From trees to selections and back ----------

  ghost function Abs(nodes: seq<SelNode>): seq<Ast>
    decreases nodes
  {
    if nodes == [] then []
    else Abs(nodes[..|nodes| - 1]) + AbsNode(nodes[|nodes| - 1])
  }

  ghost function AbsNode(n: SelNode): seq<Ast>
    decreases n, 1, 0
  {
    if IsHolder(n) then AbsFragments(n, SortedKeys(n.fragments))
    else [AField(n.fieldName, Abs(n.children))]
  }

  ghost function AbsFragments(n: SelNode, keys: seq<string>): (r: seq<Ast>)
    requires forall k :: k in keys ==> k in n.fragments
    ensures |r| == |keys|
    ensures forall i :: 0 <= i < |keys| ==> r[i] == AFragment(keys[i], Abs(n.fragments[keys[i]].nodes))
    decreases n, 0, |keys|
  {
    if keys == [] then []
    else
      var last := |keys| - 1;
      AbsFragments(n, keys[..last]) + [AFragment(keys[last], Abs(n.fragments[keys[last]].nodes))]
  }

  /** The tree read back: fragments go into one holder, without order. */
  ghost function Rebuild(sels: seq<Ast>): seq<SelNode>
    decreases sels, 1
  {
    if sels != [] && sels[0].AFragment? then [Holder(RebuildMap(sels))]
    else
      seq(|sels|, i requires 0 <= i < |sels| =>
        SelNode(FieldName(sels[i]), Rebuild(sels[i].sels), map[], sels[i].sels == [], None))
  }

  ghost function RebuildMap(sels: seq<Ast>): map<string, Sel>
    decreases sels, 0
  {
    if sels == [] then map[]
    else
      var last := |sels| - 1;
      RebuildMap(sels[..last])[TypeName(sels[last]) := Sel(Rebuild(sels[last].sels))]
  }

  function TypeName(a: Ast): string { if a.AFragment? then a.typ else "" }

  function FieldName(a: Ast): string { if a.AField? then a.name else "" }

  /** The tree without return types. */
  ghost function Erase(nodes: seq<SelNode>): seq<SelNode>
    decreases nodes
  {
    seq(|nodes|, i requires 0 <= i < |nodes| => EraseNode(nodes[i]))
  }

  ghost function EraseNode(n: SelNode): SelNode
    decreases n, 1
  {
    SelNode(n.fieldName, Erase(n.children), EraseFragments(n), n.isLeaf, None)
  }

  ghost function EraseFragments(n: SelNode): map<string, Sel>
    decreases n, 0
  {
    map k | k in n.fragments :: Sel(Erase(n.fragments[k].nodes))
  }

  ghost predicate Printable(nodes: seq<SelNode>)
    decreases nodes, 1
  {
    (&& |nodes| == 1
     && nodes[0] == Holder(nodes[0].fragments)
     && nodes[0].fragments != map[]
     && forall k | k in nodes[0].fragments :: IsName(k) && PrintableFields(nodes[0].fragments[k].nodes))
    || PrintableFields(nodes)
  }

  ghost predicate PrintableFields(nodes: seq<SelNode>)
    decreases nodes, 0
  {
    forall i | 0 <= i < |nodes| :: PrintableField(nodes[i])
  }

  ghost predicate PrintableField(n: SelNode)
    decreases n, 2
  {
    IsName(n.fieldName) && n.fragments == map[] && n.isLeaf == (n.children == []) && Printable(n.children)
  }

  // ---------- The round trip ----------

  lemma {:induction false} NotBlank(a: string, b: string)
    requires !Blank(a) || !Blank(b)
    ensures !Blank(a + b)
  {
    if !Blank(a) {
      var i :| 0 <= i < |a| && !IsSpace(a[i]);
      assert (a + b)[i] == a[i];
    } else {
      var i :| 0 <= i < |b| && !IsSpace(b[i]);
      assert (a + b)[|a| + i] == b[i];
    }
  }

  lemma {:induction false} LexSymbols()
    ensures Lex("{") == Some([LBrace]) && Lex("}") == Some([RBrace]) && Lex("...") == Some([Spread])
    ensures Lex("on") == Some([Name("on")])
  {
    LexToken("{", LBrace, 1, []);
    LexToken("}", RBrace, 1, []);
    LexToken("...", Spread, 3, []);
    LexName("on");
    assert [LBrace] + [] == [LBrace] && [RBrace] + [] == [RBrace] && [Spread] + [] == [Spread];
  }

  /** The braces around a selection, or around nothing. */
  lemma {:induction false} LexBraces(child: string, ts: seq<Token>, indent: nat)
    requires Lex(child) == Some(ts)
    ensures Lex("{" + ['\n'] + (child + ['\n'] + (Spaces(indent) + "}"))) == Some([LBrace] + (ts + [RBrace]))
    ensures Lex("{" + ['\n'] + (Spaces(indent) + "}")) == Some([LBrace] + [RBrace])
  {
    LexSymbols();
    LexSpaces(indent, "}");
    assert Ignored('\n');
    hide *;
    var close := Spaces(indent) + "}";
    LexAround(child, '\n', close, ts, [RBrace]);
    LexAround("{", '\n', child + ['\n'] + close, [LBrace], ts + [RBrace]);
    LexAround("{", '\n', close, [LBrace], [RBrace]);
  }

  lemma {:induction false} NameNotBlank(name: string, before: string, after: string)
    requires IsName(name)
    ensures !Blank(before + name) && !Blank(before + name + after)
  {
    assert !IsSpace(name[0]);
    NotBlank(before, name);
    NotBlank(before + name, after);
  }

  lemma {:induction false} LexBare(name: string, indent: nat)
    requires IsName(name)
    ensures Lex(Spaces(indent) + name) == Some([Name(name)])
  {
    LexName(name);
    LexSpaces(indent, name);
  }

  lemma {:induction false} BracedIs(name: string, child: string, indent: nat)
    ensures Spaces(indent) + name + Braced(child, indent) ==
            Spaces(indent) + (name + [' '] + ("{" + ['\n'] + (child + ['\n'] + (Spaces(indent) + "}"))))
  {
    hide Spaces;
    calc {
      Spaces(indent) + name + Braced(child, indent);
      Spaces(indent) + name + (" {\n" + child + "\n" + Spaces(indent) + "}");
      Spaces(indent) + (name + ([' '] + ("{" + (['\n'] + (child + (['\n'] + (Spaces(indent) + "}")))))));
      Spaces(indent) + (name + [' '] + ("{" + ['\n'] + (child + ['\n'] + (Spaces(indent) + "}"))));
    }
  }

  lemma {:induction false} LexField(name: string, child: string, ts: seq<Token>, indent: nat)
    requires IsName(name) && Lex(child) == Some(ts)
    ensures Lex(Spaces(indent) + name + Braced(child, indent)) == Some([Name(name), LBrace] + ts + [RBrace])
  {
    LexName(name);
    LexBraces(child, ts, indent);
    BracedIs(name, child, indent);
    assert Ignored(' ');
    hide *;
    var braces := "{" + ['\n'] + (child + ['\n'] + (Spaces(indent) + "}"));
    LexAround(name, ' ', braces, [Name(name)], [LBrace] + (ts + [RBrace]));
    LexSpaces(indent, name + [' '] + braces);
    assert [Name(name)] + ([LBrace] + (ts + [RBrace])) == [Name(name), LBrace] + ts + [RBrace];
  }

  /** What a fragment's text puts between its braces. */
  function Inside(child: string, indent: nat): string {
    "{" + ['\n'] + if Blank(child) then Spaces(indent) + "}" else child + ['\n'] + (Spaces(indent) + "}")
  }

  lemma {:induction false} FragmentTextIs(typ: string, child: string, indent: nat)
    ensures FragmentText(typ, child, indent) ==
            Spaces(indent) + ("..." + [' '] + ("on" + [' '] + (typ + [' '] + Inside(child, indent))))
  {
    hide Spaces, Blank;
    var sp := Spaces(indent);
    if Blank(child) {
      assert FragmentText(typ, child, indent) == sp + ("... on " + (typ + (" {\n" + (sp + "}"))));
      assert "... on " + (typ + (" {\n" + (sp + "}"))) ==
             "..." + [' '] + ("on" + [' '] + (typ + [' '] + ("{" + ['\n'] + (sp + "}"))));
    } else {
      assert FragmentText(typ, child, indent) == sp + ("... on " + (typ + (" {\n" + (child + ("\n" + (sp + "}"))))));
      assert "... on " + (typ + (" {\n" + (child + ("\n" + (sp + "}"))))) ==
             "..." + [' '] + ("on" + [' '] + (typ + [' '] + ("{" + ['\n'] + (child + ['\n'] + (sp + "}")))));
    }
  }

  lemma {:induction false} LexInside(child: string, ts: seq<Token>, indent: nat)
    requires Lex(child) == Some(ts) && (Blank(child) ==> ts == [])
    ensures Lex(Inside(child, indent)) == Some([LBrace] + (ts + [RBrace]))
  {
    LexBraces(child, ts, indent);
    hide Lex, Spaces, Blank;
    if Blank(child) {
      assert Inside(child, indent) == "{" + ['\n'] + (Spaces(indent) + "}");
      assert ts + [RBrace] == [RBrace];
    } else {
      assert Inside(child, indent) == "{" + ['\n'] + (child + ['\n'] + (Spaces(indent) + "}"));
    }
  }

  lemma {:induction false} LexFragment(typ: string, child: string, ts: seq<Token>, indent: nat)
    requires IsName(typ) && Lex(child) == Some(ts) && (Blank(child) ==> ts == [])
    ensures Lex(FragmentText(typ, child, indent)) == Some([Spread, Name("on"), Name(typ), LBrace] + ts + [RBrace])
  {
    LexName(typ);
    LexSymbols();
    LexInside(child, ts, indent);
    FragmentTextIs(typ, child, indent);
    assert Ignored(' ');
    hide *;
    var inside := Inside(child, indent);
    var t1 := [LBrace] + (ts + [RBrace]);
    LexAround(typ, ' ', inside, [Name(typ)], t1);
    LexAround("on", ' ', typ + [' '] + inside, [Name("on")], [Name(typ)] + t1);
    var body := "on" + [' '] + (typ + [' '] + inside);
    LexAround("...", ' ', body, [Spread], [Name("on")] + ([Name(typ)] + t1));
    LexSpaces(indent, "..." + [' '] + body);
    FiveTokens(Spread, Name("on"), Name(typ), LBrace, ts + [RBrace]);
    assert [Spread, Name("on"), Name(typ), LBrace] + (ts + [RBrace]) == [Spread, Name("on"), Name(typ), LBrace] + ts + [RBrace];
  }

  lemma {:induction false} FiveTokens(a: Token, b: Token, c: Token, d: Token, rest: seq<Token>)
    ensures [a] + ([b] + ([c] + ([d] + rest))) == [a, b, c, d] + rest
  {
  }

  lemma {:induction false} FragmentNotBlank(typ: string, child: string, indent: nat)
    requires IsName(typ)
    ensures !Blank(FragmentText(typ, child, indent))
  {
    FragmentTextIs(typ, child, indent);
    hide Spaces, Blank;
    var body := "on" + [' '] + (typ + [' '] + Inside(child, indent));
    NameNotBlank("on", "", [' '] + (typ + [' '] + Inside(child, indent)));
    assert "" + "on" + ([' '] + (typ + [' '] + Inside(child, indent))) == body;
    NotBlank("..." + [' '], body);
    NotBlank(Spaces(indent), "..." + [' '] + body);
  }

  /** The tokens of the printed text are those of the tree, at any indent. */
  lemma {:induction false} LexRender(nodes: seq<SelNode>, indent: nat)
    requires Printable(nodes)
    ensures Lex(Render(nodes, indent)) == Some(Tokens(Abs(nodes)))
    ensures nodes != [] <==> !Blank(Render(nodes, indent))
    decreases nodes, 2
  {
    hide Lex, Blank, Tokens, IsName;
    if PrintableFields(nodes) {
      LexRenderFields(nodes, indent);
    } else {
      HolderAlone(nodes, indent);
      LexRenderFragments(nodes[0], SortedKeys(nodes[0].fragments), indent);
    }
  }

  lemma {:induction false} HolderAlone(nodes: seq<SelNode>, indent: nat)
    requires |nodes| == 1 && IsHolder(nodes[0])
    ensures var n := nodes[0];
      && SortedKeys(n.fragments) != []
      && Render(nodes, indent) == RenderFragments(n, SortedKeys(n.fragments), indent)
      && Abs(nodes) == AbsFragments(n, SortedKeys(n.fragments))
  {
    hide RenderFragments, Blank, Spaces;
    var n := nodes[0];
    var k :| k in n.fragments;
    assert k in SortedKeys(n.fragments);
    assert nodes[..0] == [];
    assert Abs(nodes) == [] + AbsNode(n);
    assert Render(nodes, indent) == "" + RenderNode(n, indent);
  }

  lemma {:induction false} LexRenderFields(nodes: seq<SelNode>, indent: nat)
    requires PrintableFields(nodes)
    ensures Lex(Render(nodes, indent)) == Some(Tokens(Abs(nodes)))
    ensures nodes != [] <==> !Blank(Render(nodes, indent))
    decreases nodes, 1
  {
    if nodes != [] {
      var last := |nodes| - 1;
      LexRenderField(nodes[last], indent);
      LexRenderFields(nodes[..last], indent);
      var piece := RenderNode(nodes[last], indent);
      TokensAppend(Abs(nodes[..last]), AbsNode(nodes[last]));
      if last > 0 {
        LexAround(Render(nodes[..last], indent), '\n', piece, Tokens(Abs(nodes[..last])), Tokens(AbsNode(nodes[last])));
        assert Render(nodes, indent) == Render(nodes[..last], indent) + ['\n'] + piece;
        NotBlank(Render(nodes[..last], indent) + ['\n'], piece);
      } else {
        assert nodes[..last] == [];
        assert Render(nodes, indent) == piece;
        assert Tokens(Abs(nodes)) == Tokens(AbsNode(nodes[last]));
      }
    }
  }

  lemma {:induction false} LexRenderField(n: SelNode, indent: nat)
    requires PrintableField(n)
    ensures Lex(RenderNode(n, indent)) == Some(Tokens(AbsNode(n)))
    ensures !Blank(RenderNode(n, indent))
    decreases n, 3
  {
    hide Lex, Blank, IsName, NameStart, Spaces, Abs, Render, Braced;
    var child := Render(n.children, indent + 2);
    LexRender(n.children, indent + 2);
    var ts := Tokens(Abs(n.children));
    FieldTokens(n.fieldName, Abs(n.children));
    if n.children == [] {
      AbsEmpty();
      LexBare(n.fieldName, indent);
      NameNotBlank(n.fieldName, Spaces(indent), "");
      assert RenderNode(n, indent) == Spaces(indent) + n.fieldName + "";
      assert Spaces(indent) + n.fieldName + "" == Spaces(indent) + n.fieldName;
    } else {
      AbsNonEmpty(n.children);
      LexField(n.fieldName, child, ts, indent);
      NameNotBlank(n.fieldName, Spaces(indent), Braced(child, indent));
      assert RenderNode(n, indent) == Spaces(indent) + n.fieldName + Braced(child, indent);
    }
  }

  lemma {:induction false} AbsEmpty()
    ensures Abs([]) == []
  {
  }

  lemma {:induction false} FieldTokens(name: string, sels: seq<Ast>)
    ensures Tokens([AField(name, sels)]) ==
            if sels == [] then [Name(name)] else [Name(name), LBrace] + Tokens(sels) + [RBrace]
  {
    assert Tokens([AField(name, sels)]) == TokensOf(AField(name, sels)) + [];
    if sels != [] {
      assert [Name(name)] + ([LBrace] + Tokens(sels) + [RBrace]) == [Name(name), LBrace] + Tokens(sels) + [RBrace];
    }
  }

  lemma {:induction false} FragmentTokens(typ: string, sels: seq<Ast>)
    ensures Tokens([AFragment(typ, sels)]) == [Spread, Name("on"), Name(typ), LBrace] + Tokens(sels) + [RBrace]
  {
    assert Tokens([AFragment(typ, sels)]) == TokensOf(AFragment(typ, sels)) + [];
  }

  lemma {:induction false} AbsNonEmpty(nodes: seq<SelNode>)
    requires Printable(nodes) && nodes != []
    ensures Abs(nodes) != []
  {
    var n := nodes[|nodes| - 1];
    if IsHolder(n) {
      var k :| k in n.fragments;
      assert k in SortedKeys(n.fragments);
    }
  }

  lemma {:induction false} LexRenderFragments(n: SelNode, keys: seq<string>, indent: nat)
    requires forall k :: k in n.fragments ==> IsName(k) && PrintableFields(n.fragments[k].nodes)
    requires forall k :: k in keys ==> k in n.fragments
    ensures Lex(RenderFragments(n, keys, indent)) == Some(Tokens(AbsFragments(n, keys)))
    ensures keys != [] ==> !Blank(RenderFragments(n, keys, indent))
    decreases n, 0, |keys|
  {
    hide Lex, Blank, IsName, Spaces, FragmentText, Abs, Render, Tokens, PrintableFields, RenderFragments;
    if keys == [] {
      NothingRendered(n, indent);
    } else {
      var last := |keys| - 1;
      LexRenderFragments(n, keys[..last], indent);
      LexRenderLast(n, keys[last], indent);
      NextFragment(n, keys, last, indent);
      assert keys[..last + 1] == keys;
      var nodes := n.fragments[keys[last]].nodes;
      var piece := FragmentText(keys[last], Render(nodes, indent + 2), indent);
      var a := AFragment(keys[last], Abs(nodes));
      assert AbsFragments(n, keys) == AbsFragments(n, keys[..last]) + [a];
      TokensAppend(AbsFragments(n, keys[..last]), [a]);
      if last > 0 {
        var before := RenderFragments(n, keys[..last], indent);
        assert Ignored('\n');
        LexAround(before, '\n', piece, Tokens(AbsFragments(n, keys[..last])), Tokens([a]));
        NotBlank(before + ['\n'], piece);
      } else {
        assert RenderFragments(n, keys, indent) == piece;
        assert AbsFragments(n, keys) == [a];
      }
    }
  }

  lemma {:induction false} NothingRendered(n: SelNode, indent: nat)
    ensures Lex(RenderFragments(n, [], indent)) == Some(Tokens(AbsFragments(n, [])))
  {
  }

  lemma {:induction false} LexRenderLast(n: SelNode, typ: string, indent: nat)
    requires typ in n.fragments && IsName(typ) && PrintableFields(n.fragments[typ].nodes)
    ensures var nodes := n.fragments[typ].nodes;
      var piece := FragmentText(typ, Render(nodes, indent + 2), indent);
      Lex(piece) == Some(Tokens([AFragment(typ, Abs(nodes))])) && !Blank(piece)
    decreases n, 0, 0, 0
  {
    hide Lex, Blank, IsName, Spaces, FragmentText, Abs, Render, Tokens;
    var nodes := n.fragments[typ].nodes;
    var child := Render(nodes, indent + 2);
    LexRenderFields(nodes, indent + 2);
    if nodes == [] {
      AbsEmpty();
      NoTokens();
    }
    LexFragment(typ, child, Tokens(Abs(nodes)), indent);
    FragmentTokens(typ, Abs(nodes));
    FragmentNotBlank(typ, child, indent);
  }

  lemma {:induction false} NoTokens()
    ensures Tokens([]) == []
  {
  }

  /** Nothing but return types is lost on the way to selections. */
  lemma {:induction false} RebuildAbs(nodes: seq<SelNode>)
    requires Printable(nodes)
    ensures Rebuild(Abs(nodes)) == Erase(nodes)
    decreases nodes, 2
  {
    if PrintableFields(nodes) {
      RebuildFields(nodes);
    } else {
      RebuildHolder(nodes);
    }
  }

  lemma {:induction false} RebuildHolder(nodes: seq<SelNode>)
    requires Printable(nodes) && !PrintableFields(nodes)
    ensures Rebuild(Abs(nodes)) == Erase(nodes)
    decreases nodes, 1
  {
    hide Abs, Render, RenderFragments, Rebuild, RebuildMap, Erase, PrintableFields, IsName, AbsFragments;
    HolderAlone(nodes, 0);
    EraseHolder(nodes);
    var n := nodes[0];
    var keys := SortedKeys(n.fragments);
    RebuildFragments(n, keys);
    assert RebuildMap(AbsFragments(n, keys)) == EraseFragments(n);
    RebuildOfFragments(AbsFragments(n, keys));
  }

  lemma {:induction false} RebuildOfFragments(sels: seq<Ast>)
    requires sels != [] && sels[0].AFragment?
    ensures Rebuild(sels) == [Holder(RebuildMap(sels))]
  {
  }

  lemma {:induction false} EraseHolder(nodes: seq<SelNode>)
    requires |nodes| == 1 && nodes[0] == Holder(nodes[0].fragments)
    ensures Erase(nodes) == [Holder(EraseFragments(nodes[0]))]
  {
    assert Erase(nodes) == [EraseNode(nodes[0])];
    assert Erase(nodes[0].children) == [];
  }

  lemma {:induction false} RebuildFragments(n: SelNode, keys: seq<string>)
    requires forall k :: k in n.fragments ==> PrintableFields(n.fragments[k].nodes)
    requires forall k :: k in keys ==> k in n.fragments
    ensures var m := RebuildMap(AbsFragments(n, keys));
      && (forall k :: k in m <==> k in keys)
      && forall k :: k in m ==> m[k] == Sel(Erase(n.fragments[k].nodes))
    decreases n, 0, |keys|
  {
    hide Abs, Rebuild, Erase, PrintableFields;
    if keys != [] {
      var last := |keys| - 1;
      RebuildFragments(n, keys[..last]);
      RebuildFields(n.fragments[keys[last]].nodes);
      var sels := AbsFragments(n, keys);
      assert sels[..last] == AbsFragments(n, keys[..last]);
      assert RebuildMap(sels) == RebuildMap(sels[..last])[keys[last] := Sel(Rebuild(sels[last].sels))];
    }
  }

  lemma {:induction false} RebuildFields(nodes: seq<SelNode>)
    requires PrintableFields(nodes)
    ensures Rebuild(Abs(nodes)) == Erase(nodes)
    decreases nodes, 1
  {
    AbsFields(nodes);
    forall i | 0 <= i < |nodes| ensures Rebuild(Abs(nodes[i].children)) == Erase(nodes[i].children) {
      RebuildAbs(nodes[i].children);
    }
    var sels := Abs(nodes);
    forall i | 0 <= i < |nodes| ensures Rebuild(sels)[i] == EraseNode(nodes[i]) {
      assert PrintableField(nodes[i]);
      if nodes[i].children != [] { AbsNonEmpty(nodes[i].children); }
    }
  }

  lemma {:induction false} AbsFields(nodes: seq<SelNode>)
    requires PrintableFields(nodes)
    ensures |Abs(nodes)| == |nodes|
    ensures forall i :: 0 <= i < |nodes| ==> Abs(nodes)[i] == AField(nodes[i].fieldName, Abs(nodes[i].children))
  {
    hide Printable;
    if nodes != [] {
      var last := |nodes| - 1;
      assert PrintableField(nodes[last]);
      AbsFields(nodes[..last]);
      assert Abs(nodes) == Abs(nodes[..last]) + AbsNode(nodes[last]);
    }
  }

  /** Printing and reading undo each other on every printable tree, at any indent. */
  lemma {:induction false} RoundTrip(nodes: seq<SelNode>, indent: nat)
    requires Printable(nodes)
    ensures Parse(Render(nodes, indent)).Some?
    ensures Rebuild(Parse(Render(nodes, indent)).value) == Erase(nodes)
  {
    LexRender(nodes, indent);
    ParseTokens(Abs(nodes), []);
    RebuildAbs(nodes);
    hide Lex, Abs, Render, Tokens, Rebuild, Erase, ParseSels;
    assert Tokens(Abs(nodes)) + [] == Tokens(Abs(nodes));
  }

  // ---------- The builder's trees are printable ----------

  /** What schema validation guarantees: names are names, and a union has members, all defined. */
  ghost predicate ValidSchema(schema: Schema) {
    forall b :: b in schema ==>
      && IsName(b)
      && (forall i :: 0 <= i < |schema[b].fields| ==> IsName(schema[b].fields[i].name))
      && (schema[b].kind == Union ==>
            |schema[b].members| > 0 && forall i :: 0 <= i < |schema[b].members| ==> schema[b].members[i] in schema)
  }

  lemma {:induction false} GoodTreePrintable(schema: Schema, base: string, nodes: seq<SelNode>, depth: int, above: set<string>)
    requires ValidSchema(schema) && GoodTree(schema, base, nodes, depth, above)
    ensures Printable(nodes)
    decreases nodes, 1
  {
    if schema[base].kind == Union {
      if nodes != [] {
        var n := nodes[0];
        var first := schema[base].members[0];
        assert first == Shown(schema[base].members)[0];
        assert first in n.fragments;
        forall m | m in n.fragments ensures IsName(m) && PrintableFields(n.fragments[m].nodes) {
          GoodFieldsPrintable(schema, schema[m].fields, n.fragments[m].nodes, depth, above);
        }
      }
    } else {
      GoodFieldsPrintable(schema, schema[base].fields, nodes, depth, above);
    }
  }

  lemma {:induction false} GoodFieldsPrintable(schema: Schema, declared: seq<Field>, nodes: seq<SelNode>, depth: int, above: set<string>)
    requires ValidSchema(schema) && GoodFields(schema, declared, nodes, depth, above)
    requires forall i :: 0 <= i < |declared| ==> IsName(declared[i].name)
    ensures PrintableFields(nodes)
    decreases nodes, 0
  {
    forall i | 0 <= i < |nodes| ensures PrintableField(nodes[i]) {
      assert nodes[i] in nodes;
      var n := nodes[i];
      if n.children != [] {
        GoodTreePrintable(schema, Base(n.returnType.value), n.children, depth - 1, above + {Base(n.returnType.value)});
      } else {
        assert PrintableFields(n.children);
      }
    }
  }

  /** The text shown for an operation reads back as the tree that the builder made. */
  lemma {:induction false} RequestReadsBack(schema: Schema, t: GType, o: Options, indent: nat)
    requires ValidSchema(schema) && Base(t) in schema
    ensures var tree := SelTree(schema, t, o, {});
      Parse(Render(tree, indent)).Some? && Rebuild(Parse(Render(tree, indent)).value) == Erase(tree)
  {
    SelTreeIsGood(schema, t, o, {});
    GoodTreePrintable(schema, Base(t), SelTree(schema, t, o, {}), o.maxDepth, {} + {Base(t)});
    RoundTrip(SelTree(schema, t, o, {}), indent);
  }
}
