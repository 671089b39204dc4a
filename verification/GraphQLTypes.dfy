/** Printing type references and reading them back by their grammar (GraphQL, October 2021,
    section 2.11). */
module GraphQLTypes {
  import opened Text
  import opened GraphQLSelection
  import opened GraphQLPrint

  function FormatType(t: GType): string {
    match t
    case Named(name, nonNull) => if nonNull then name + ['!'] else name
    case ListOf(elem, nonNull) =>
      var inner := ['['] + FormatType(elem) + [']'];
      if nonNull then inner + ['!'] else inner
  }

  ghost predicate NamedTypes(t: GType) {
    match t
    case Named(name, _) => IsName(name)
    case ListOf(elem, _) => NamedTypes(elem)
  }

  /** What follows a type: an exclamation mark, or not. */
  function Marked(s: string): (r: (bool, string))
    ensures |r.1| <= |s|
  {
    if s != "" && s[0] == '!' then (true, s[1..]) else (false, s)
  }

  /** The type at the front of a text, and what follows it. */
  function ReadType(s: string): (r: Option<(GType, string)>)
    ensures r.Some? ==> |r.value.1| < |s|
    decreases |s|
  {
    if s == "" then None
    else if s[0] == '[' then
      match ReadType(s[1..])
      case None => None
      case Some((elem, rest)) =>
        if rest == "" || rest[0] != ']' then None
        else Some((ListOf(elem, Marked(rest[1..]).0), Marked(rest[1..]).1))
    else if NameStart(s[0]) then
      var n := NameLength(s);
      Some((Named(s[..n], Marked(s[n..]).0), Marked(s[n..]).1))
    else None
  }

  ghost predicate Ends(rest: string) { rest == "" || (!NameContinue(rest[0]) && rest[0] != '!') }

  lemma {:induction false} MarkRead(nonNull: bool, rest: string)
    requires Ends(rest)
    ensures Marked((if nonNull then ['!'] else []) + rest) == (nonNull, rest)
  {
    assert [] + rest == rest && (['!'] + rest)[1..] == rest;
  }

  lemma {:induction false} ReadsBack(t: GType, rest: string)
    requires NamedTypes(t) && Ends(rest)
    ensures ReadType(FormatType(t) + rest) == Some((t, rest))
  {
    var mark := if t.nonNull then ['!'] else [];
    match t
    case Named(name, nonNull) =>
      var s := name + (mark + rest);
      assert FormatType(t) + rest == s;
      NameLengthAll(name);
      NameLengthOf(name, mark + rest);
      assert s[..|name|] == name && s[|name|..] == mark + rest;
      assert s[0] == name[0];
    case ListOf(elem, nonNull) =>
      var after := [']'] + (mark + rest);
      var s := ['['] + (FormatType(elem) + after);
      assert FormatType(t) + rest == s;
      ReadsBack(elem, after);
      assert s[1..] == FormatType(elem) + after && after[1..] == mark + rest && after[0] == ']' && s[0] == '[';
      MarkRead(nonNull, rest);
  }

  /** Different types print differently. */
  lemma {:induction false} FormatIsInjective(a: GType, b: GType)
    requires NamedTypes(a) && NamedTypes(b) && FormatType(a) == FormatType(b)
    ensures a == b
  {
    ReadsBack(a, "");
    ReadsBack(b, "");
    assert FormatType(a) + "" == FormatType(a) && FormatType(b) + "" == FormatType(b);
  }
}
