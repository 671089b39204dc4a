/** Rules that map the attributes of a signed-in user to a role.

    Regular expressions, and the printing of values that are not strings, are parameters. */
module RoleMap {
  import opened Text
  import opened Sorting
  import opened StableSort

  /** A decoded attribute. */
  datatype Attr =
    | Nil
    | Str(s: string)
    | Strs(strs: seq<string>)
    | Items(items: seq<Attr>)
    | Map(fields: map<string, Attr>)
    | Scalar(text: string)

  datatype Operator =
    | Equals | NotEquals | Contains | NotContains | StartsWith | EndsWith | Exists | NotExists | Regex
    | Unknown(name: string)

  datatype Role = Admin | Editor | Viewer | OtherRole(name: string)

  datatype Rule = Rule(id: string, priority: int, key: string, op: Operator, value: string, role: Role)

  /** Regular expressions and the default printing of a value. */
  datatype Env = Env(compiles: string -> bool, matches: (string, string) -> bool, show: Attr -> string)

  // ---------- Looking up ----------

  /** `strings.SplitN` into at most two parts. */
  function SplitTwo(s: string, sep: char): (parts: seq<string>)
    ensures |parts| == 1 || |parts| == 2
    ensures |parts| == 1 ==> sep !in s && parts[0] == s
    ensures |parts| == 2 ==> s == parts[0] + [sep] + parts[1] && sep !in parts[0]
  {
    if s == "" then [s]
    else if s[0] == sep then ["", s[1..]]
    else
      var rest := SplitTwo(s[1..], sep);
      [[s[0]] + rest[0]] + rest[1..]
  }

  function Lookup(attrs: map<string, Attr>, key: string): Attr
    decreases |key|
  {
    if key in attrs then attrs[key]
    else
      var parts := SplitTwo(key, '.');
      if parts[0] !in attrs then Nil
      else
        var val := attrs[parts[0]];
        if |parts| == 1 then val
        else if val.Map? then Lookup(val.fields, parts[1])
        else Nil
  }

  /** The return for a key of one part comes too late: such a key was found before, or is
      not there. */
  lemma {:induction false} OnePartIsDone(attrs: map<string, Attr>, key: string)
    requires key !in attrs && |SplitTwo(key, '.')| == 1
    ensures SplitTwo(key, '.')[0] !in attrs
  {
  }

  /** The value at a nested path. */
  function AtPath(attrs: map<string, Attr>, path: seq<string>): Attr
    requires path != []
    decreases |path|
  {
    if path[0] !in attrs then Nil
    else if |path| == 1 then attrs[path[0]]
    else if attrs[path[0]].Map? then AtPath(attrs[path[0]].fields, path[1..])
    else Nil
  }

  /** The first map on the way down a path that has the rest of the path as a literal key. */
  function Shadow(attrs: map<string, Attr>, path: seq<string>): Option<Attr>
    requires path != []
    decreases |path|
  {
    if |path| == 1 then None
    else if Join(path, '.') in attrs then Some(attrs[Join(path, '.')])
    else if path[0] in attrs && attrs[path[0]].Map? then Shadow(attrs[path[0]].fields, path[1..])
    else None
  }

  lemma {:induction false} SplitTwoAt(a: string, b: string)
    requires '.' !in a
    ensures SplitTwo(a + ['.'] + b, '.') == [a, b]
  {
    if a == "" {
      assert (a + ['.'] + b)[1..] == b;
    } else {
      assert (a + ['.'] + b)[1..] == a[1..] + ['.'] + b;
      SplitTwoAt(a[1..], b);
      assert [a[0]] + a[1..] == a;
    }
  }

  /** Looking up a dotted key goes down the nested maps, unless a map on the way has the rest
      of the key as a literal key: then the first such map answers. */
  lemma {:induction false} LookupIs(attrs: map<string, Attr>, path: seq<string>)
    requires path != [] && Free(path, '.')
    ensures Lookup(attrs, Join(path, '.')) ==
      if Shadow(attrs, path).Some? then Shadow(attrs, path).value else AtPath(attrs, path)
    decreases |path|
  {
    var key := Join(path, '.');
    if |path| == 1 {
      assert SplitTwo(key, '.')[0] == key;
    } else if key !in attrs {
      SplitTwoAt(path[0], Join(path[1..], '.'));
      if path[0] in attrs && attrs[path[0]].Map? { LookupIs(attrs[path[0]].fields, path[1..]); }
    }
  }

  /** Every key reads its dotted path exactly when it is not shadowed by another value. */
  lemma {:induction false} LookupReadsPathIff(attrs: map<string, Attr>, key: string)
    ensures var path := Split(key, '.');
      Lookup(attrs, key) == AtPath(attrs, path) <==>
      Shadow(attrs, path).None? || Shadow(attrs, path).value == AtPath(attrs, path)
  {
    JoinOfSplit(key, '.');
    LookupIs(attrs, Split(key, '.'));
  }

  /** Maps nested along a path, with a value at its end. */
  function Nest(path: seq<string>, v: Attr): map<string, Attr>
    requires path != []
  {
    map[path[0] := if |path| == 1 then v else Map(Nest(path[1..], v))]
  }

  /** Looking up undoes nesting. */
  lemma {:induction false} LookupOfNested(path: seq<string>, v: Attr)
    requires path != [] && Free(path, '.')
    ensures Lookup(Nest(path, v), Join(path, '.')) == v
  {
    LookupIs(Nest(path, v), path);
    NestedAt(path, v);
  }

  lemma {:induction false} NestedAt(path: seq<string>, v: Attr)
    requires path != [] && Free(path, '.')
    ensures AtPath(Nest(path, v), path) == v && Shadow(Nest(path, v), path) == None
  {
    if |path| > 1 {
      NestedAt(path[1..], v);
      assert Join(path, '.')[|path[0]|] == '.';
      assert Join(path, '.') != path[0];
    }
  }

  // ---------- One rule ----------

  /** The strings in a value: nil items are left out, other items are printed. */
  function Texts(env: Env, items: seq<Attr>): seq<string> {
    if items == [] then []
    else
      var last := items[|items| - 1];
      Texts(env, items[..|items| - 1]) + if last.Nil? then [] else if last.Str? then [last.s] else [env.show(last)]
  }

  function StringValues(env: Env, raw: Attr): seq<string> {
    match raw
    case Nil => []
    case Str(s) => [s]
    case Strs(strs) => strs
    case Items(items) => Texts(env, items)
    case _ => [env.show(raw)]
  }

  /** The string test of an operator, before negation. */
  predicate Test(env: Env, op: Operator, text: string, value: string) {
    match op
    case Equals => text == value
    case NotEquals => text == value
    case Contains => Text.Contains(text, value)
    case NotContains => Text.Contains(text, value)
    case StartsWith => HasPrefix(text, value)
    case EndsWith => HasSuffix(text, value)
    case Regex => env.matches(value, text)
    case _ => false
  }

  predicate SomeText(env: Env, r: Rule, values: seq<string>) {
    exists i :: 0 <= i < |values| && Test(env, r.op, values[i], r.value)
  }

  /** What a rule says: it matches, it does not, or it cannot be evaluated. */
  datatype Verdict = Yes | No | Bad

  function Judge(env: Env, r: Rule, attrs: map<string, Attr>): Verdict {
    var raw := Lookup(attrs, r.key);
    var found := SomeText(env, r, StringValues(env, raw));
    if r.op.Unknown? || (r.op.Regex? && !env.compiles(r.value)) then Bad
    else
      var holds :=
        if r.op.Exists? then raw != Nil
        else if r.op.NotExists? then raw == Nil
        else if r.op.NotEquals? || r.op.NotContains? then raw != Nil && !found
        else found;
      if holds then Yes else No
  }

  method ListValues(env: Env, raw: Attr) returns (values: seq<string>)
    ensures values == StringValues(env, raw)
  {
    match raw {
      case Nil => values := [];
      case Str(s) => values := [s];
      case Strs(strs) => values := strs;
      case Items(items) =>
        values := [];
        var i := 0;
        while i < |items|
          invariant 0 <= i <= |items| && values == Texts(env, items[..i])
        {
          assert items[..i + 1][..i] == items[..i];
          var item := items[i];
          i := i + 1;
          if item.Nil? { continue; }
          if item.Str? {
            values := values + [item.s];
            continue;
          }
          values := values + [env.show(item)];
        }
        assert items[..i] == items;
      case _ => values := [env.show(raw)];
    }
  }

  method AnyText(env: Env, r: Rule, values: seq<string>) returns (found: bool)
    ensures found == SomeText(env, r, values)
  {
    for i := 0 to |values|
      invariant forall k :: 0 <= k < i ==> !Test(env, r.op, values[k], r.value)
    {
      if Test(env, r.op, values[i], r.value) { return true; }
    }
    return false;
  }

  method MatchRule(env: Env, r: Rule, attrs: map<string, Attr>) returns (verdict: Verdict)
    ensures verdict == Judge(env, r, attrs)
  {
    hide Lookup, StringValues, SomeText;
    var raw := Lookup(attrs, r.key);
    var present := raw != Nil;
    var values := ListValues(env, raw);
    var found := false;
    match r.op {
      case Exists => return if present then Yes else No;
      case NotExists => return if present then No else Yes;
      case Unknown(_) => return Bad;
      case NotEquals =>
        if !present { return No; }
        found := AnyText(env, r, values);
        return if found then No else Yes;
      case NotContains =>
        if !present { return No; }
        found := AnyText(env, r, values);
        return if found then No else Yes;
      case Regex =>
        if !env.compiles(r.value) { return Bad; }
        found := AnyText(env, r, values);
      case _ => found := AnyText(env, r, values);
    }
    return if found then Yes else No;
  }

  ghost predicate IsText(env: Env, item: Attr, x: string) { item != Nil && if item.Str? then item == Str(x) else env.show(item) == x }

  /** A string that a value has, or that one of its items has. */
  ghost predicate HasText(env: Env, raw: Attr, x: string) {
    match raw
    case Nil => false
    case Str(s) => x == s
    case Strs(strs) => exists i :: 0 <= i < |strs| && strs[i] == x
    case Items(items) => exists i :: 0 <= i < |items| && IsText(env, items[i], x)
    case _ => x == env.show(raw)
  }

  lemma {:induction false} TextsAre(env: Env, items: seq<Attr>, x: string)
    ensures x in Texts(env, items) <==> HasText(env, Items(items), x)
  {
    hide IsText;
    if items != [] {
      var init, last := items[..|items| - 1], items[|items| - 1];
      TextsAre(env, init, x);
      LastText(env, last, x);
      assert items == init + [last];
      if i :| 0 <= i < |items| && IsText(env, items[i], x) {
        if i < |init| { assert IsText(env, init[i], x); }
      }
      if i :| 0 <= i < |init| && IsText(env, init[i], x) { assert IsText(env, items[i], x); }
    }
  }

  lemma {:induction false} LastText(env: Env, last: Attr, x: string)
    ensures x in (if last.Nil? then [] else if last.Str? then [last.s] else [env.show(last)]) <==> IsText(env, last, x)
  {
  }

  lemma {:induction false} ValuesAre(env: Env, raw: Attr, x: string)
    ensures x in StringValues(env, raw) <==> HasText(env, raw, x)
  {
    if raw.Items? { TextsAre(env, raw.items, x); }
  }

  ghost predicate OccursAt(s: string, p: string, i: int) { 0 <= i <= |s| - |p| && s[i..i + |p|] == p }

  /** Whether a text passes an operator's test. */
  ghost predicate Passes(env: Env, op: Operator, x: string, value: string) {
    match op
    case Equals => x == value
    case Contains => exists i :: OccursAt(x, value, i)
    case StartsWith => |value| <= |x| && x[..|value|] == value
    case EndsWith => |value| <= |x| && x[|x| - |value|..] == value
    case Regex => env.matches(value, x)
    case _ => false
  }

  ghost predicate SomePasses(env: Env, op: Operator, raw: Attr, value: string) {
    exists x :: HasText(env, raw, x) && Passes(env, op, x, value)
  }

  /** What each operator means: the positive ones ask for a text that passes, the negative ones for a
      value without such a text, and only an unknown operator or a broken expression cannot be
      evaluated. */
  ghost function Meaning(env: Env, r: Rule, raw: Attr): Verdict {
    var yes := match r.op
      case Exists => raw != Nil
      case NotExists => raw == Nil
      case NotEquals => raw != Nil && !SomePasses(env, Equals, raw, r.value)
      case NotContains => raw != Nil && !SomePasses(env, Contains, raw, r.value)
      case _ => SomePasses(env, r.op, raw, r.value);
    if r.op.Unknown? || (r.op == Regex && !env.compiles(r.value)) then Bad else if yes then Yes else No
  }

  function Positive(op: Operator): Operator { if op == NotEquals then Equals else if op == NotContains then Contains else op }

  lemma {:induction false} ContainsIs(s: string, p: string)
    ensures Text.Contains(s, p) <==> exists i :: OccursAt(s, p, i)
  {
    if p <= s { assert OccursAt(s, p, 0); }
    if i :| OccursAt(s, p, i) {
      if i > 0 { assert OccursAt(s[1..], p, i - 1); } else { assert p <= s; }
    }
    if s != "" {
      ContainsIs(s[1..], p);
      if i :| OccursAt(s[1..], p, i) { assert OccursAt(s, p, i + 1); }
    }
  }

  lemma {:induction false} TestIs(env: Env, op: Operator, x: string, value: string)
    ensures Test(env, op, x, value) <==> Passes(env, Positive(op), x, value)
  {
    ContainsIs(x, value);
  }

  lemma {:induction false} SomeTextIs(env: Env, r: Rule, raw: Attr)
    ensures SomeText(env, r, StringValues(env, raw)) <==> SomePasses(env, Positive(r.op), raw, r.value)
  {
    var values := StringValues(env, raw);
    hide StringValues, HasText, Test, Passes, Positive;
    if i :| 0 <= i < |values| && Test(env, r.op, values[i], r.value) {
      ValuesAre(env, raw, values[i]);
      TestIs(env, r.op, values[i], r.value);
    }
    if x :| HasText(env, raw, x) && Passes(env, Positive(r.op), x, r.value) {
      ValuesAre(env, raw, x);
      TestIs(env, r.op, x, r.value);
      var i :| 0 <= i < |values| && values[i] == x;
    }
  }

  /** A rule's verdict is its operator's meaning for the value under its key. */
  lemma {:induction false} VerdictIs(env: Env, r: Rule, attrs: map<string, Attr>)
    ensures Judge(env, r, attrs) == Meaning(env, r, Lookup(attrs, r.key))
  {
    SomeTextIs(env, r, Lookup(attrs, r.key));
    hide Lookup, SomeText, SomePasses, StringValues;
  }

  // ---------- Validation ----------

  predicate TakesValue(op: Operator) { !op.Exists? && !op.NotExists? }

  /** Whether a rule is accepted. */
  predicate ValidateRule(env: Env, r: Rule) {
    && TrimSpace(r.key) != ""
    && !r.op.Unknown?
    && (TakesValue(r.op) ==> r.value != "")
    && (r.op.Regex? ==> env.compiles(r.value))
    && !r.role.OtherRole?
  }

  /** Accepted are the rules that have a key, a role that exists and a value if they take one, and
      that can be evaluated for every user. */
  lemma {:induction false} AcceptedIff(env: Env, r: Rule)
    ensures ValidateRule(env, r) <==>
      && (exists i :: 0 <= i < |r.key| && !IsSpace(r.key[i]))
      && r.role in {Admin, Editor, Viewer}
      && (r.op == Exists || r.op == NotExists || r.value != "")
      && forall attrs :: Judge(env, r, attrs) != Bad
  {
    BlankTrims(r.key);
    assert (forall attrs :: Judge(env, r, attrs) != Bad) ==> Judge(env, r, map[]) != Bad;
    hide Lookup, StringValues, SomeText, TrimSpace;
  }

  lemma {:induction false} BlankTrims(s: string)
    ensures TrimSpace(s) == "" <==> forall i :: 0 <= i < |s| ==> IsSpace(s[i])
  {
    TrimLeftBlank(s);
    hide TrimLeft;
  }

  lemma {:induction false} TrimLeftBlank(s: string)
    ensures TrimLeft(s) == "" <==> forall i :: 0 <= i < |s| ==> IsSpace(s[i])
    ensures TrimLeft(s) != "" ==> TrimRight(TrimLeft(s)) != ""
  {
    if s != "" && IsSpace(s[0]) {
      TrimLeftBlank(s[1..]);
      forall i | 0 < i < |s| ensures s[i] == s[1..][i - 1] {}
    } else if s != "" {
      TrimRightKeeps(s);
    }
  }

  lemma {:induction false} TrimRightKeeps(s: string)
    requires s != "" && !IsSpace(s[0])
    ensures TrimRight(s) != ""
  {
    if IsSpace(s[|s| - 1]) { TrimRightKeeps(s[..|s| - 1]); }
  }

  // ---------- Resolving ----------

  function PriorityOf(r: Rule): int { r.priority }

  /** The verdict of a rule for one user. */
  type Verdicts = Rule -> Verdict

  function FirstDecisive(s: seq<Rule>, v: Verdicts): Option<Rule> {
    if s == [] then None
    else
      var before := FirstDecisive(s[..|s| - 1], v);
      if before.Some? then before else if v(s[|s| - 1]) == No then None else Some(s[|s| - 1])
  }

  /** Of the rules that do not say no, the one with the least priority number; of several such,
      the first. */
  ghost predicate Decides(rules: seq<Rule>, v: Verdicts, i: nat) {
    && i < |rules| && v(rules[i]) != No
    && forall j :: 0 <= j < |rules| && v(rules[j]) != No ==>
         rules[i].priority < rules[j].priority || (rules[i].priority == rules[j].priority && i <= j)
  }

  /** The outcome of a resolution: no role if the deciding rule cannot be evaluated. */
  ghost predicate Resolved(rules: seq<Rule>, v: Verdicts, default': Role, outcome: Option<Role>) {
    && (forall i: nat :: Decides(rules, v, i) ==> outcome == if v(rules[i]) == Yes then Some(rules[i].role) else None)
    && ((forall i :: 0 <= i < |rules| ==> v(rules[i]) == No) ==> outcome == Some(default'))
  }

  /** Where the inserted rule stands among the decisive ones. */
  lemma {:induction false} InsertDecides(s: seq<Rule>, x: Rule, v: Verdicts)
    requires OrderedBy(s, PriorityOf)
    ensures FirstDecisive(InsertBy(s, x, PriorityOf), v) ==
      var before := FirstDecisive(s, v);
      if v(x) == No || (before.Some? && before.value.priority <= x.priority) then before else Some(x)
  {
    if s != [] && x.priority < s[|s| - 1].priority {
      var init := s[..|s| - 1];
      InsertDecides(init, x, v);
      var r := InsertBy(init, x, PriorityOf);
      assert (r + [s[|s| - 1]])[..|r|] == r;
    } else {
      assert (s + [x])[..|s|] == s;
      FirstIsThere(s, v);
    }
  }

  lemma {:induction false} FirstIsThere(s: seq<Rule>, v: Verdicts)
    ensures FirstDecisive(s, v).Some? ==> FirstDecisive(s, v).value in s
  {
    if s != [] { FirstIsThere(s[..|s| - 1], v); }
  }

  /** The index that decides, if any does. */
  function Best(rules: seq<Rule>, v: Verdicts): (r: Option<nat>)
    ensures r.Some? ==> r.value < |rules|
  {
    if rules == [] then None
    else
      var last := |rules| - 1;
      var before := Best(rules[..last], v);
      if v(rules[last]) == No || (before.Some? && rules[before.value].priority <= rules[last].priority) then before
      else Some(last)
  }

  lemma {:induction false} BestDecides(rules: seq<Rule>, v: Verdicts)
    ensures Best(rules, v).Some? ==> Decides(rules, v, Best(rules, v).value)
    ensures Best(rules, v).None? ==> forall i :: 0 <= i < |rules| ==> v(rules[i]) == No
  {
    if rules != [] {
      var init := rules[..|rules| - 1];
      BestDecides(init, v);
      forall i | 0 <= i < |init| ensures init[i] == rules[i] {}
    }
  }

  lemma {:induction false} SortedFirstIsBest(rules: seq<Rule>, v: Verdicts)
    ensures FirstDecisive(StableBy(rules, PriorityOf), v) == match Best(rules, v) case None => None case Some(i) => Some(rules[i])
  {
    if rules != [] {
      var init := rules[..|rules| - 1];
      SortedFirstIsBest(init, v);
      StableOrders(init, PriorityOf);
      InsertDecides(StableBy(init, PriorityOf), rules[|rules| - 1], v);
    }
  }

  lemma {:induction false} BestResolves(rules: seq<Rule>, v: Verdicts, default': Role)
    ensures Resolved(rules, v, default', match Best(rules, v) case None => Some(default')
                                         case Some(i) => if v(rules[i]) == Yes then Some(rules[i].role) else None)
  {
    BestDecides(rules, v);
  }

  lemma {:induction false} DecisiveStays(s: seq<Rule>, v: Verdicts, i: nat)
    requires i <= |s| && FirstDecisive(s[..i], v).Some?
    ensures FirstDecisive(s, v) == FirstDecisive(s[..i], v)
    decreases |s|
  {
    if i == |s| {
      assert s[..i] == s;
    } else {
      assert s[..|s| - 1][..i] == s[..i];
      DecisiveStays(s[..|s| - 1], v, i);
    }
  }

  /** The first sorted rule that does not say no. */
  method FirstMatch(env: Env, sorted: array<Rule>, attrs: map<string, Attr>, default': Role) returns (outcome: Option<Role>)
    ensures outcome ==
      match FirstDecisive(sorted[..], r => Judge(env, r, attrs))
      case None => Some(default')
      case Some(r) => if Judge(env, r, attrs) == Yes then Some(r.role) else None
  {
    hide Judge;
    ghost var v: Verdicts := r => Judge(env, r, attrs);
    ghost var s := sorted[..];
    var i := 0;
    while i < sorted.Length
      invariant 0 <= i <= |s| && s == sorted[..]
      invariant FirstDecisive(s[..i], v) == None
    {
      assert s[..i + 1][..i] == s[..i];
      var verdict := MatchRule(env, sorted[i], attrs);
      if verdict != No {
        DecisiveStays(s, v, i + 1);
        return if verdict == Yes then Some(sorted[i].role) else None;
      }
      i := i + 1;
    }
    assert s[..i] == s;
    return Some(default');
  }

  /** Sorts a copy and takes the first rule that matches; the caller's rules stay as they are. */
  method Resolve(env: Env, rules: array<Rule>, attrs: map<string, Attr>, default': Role) returns (outcome: Option<Role>)
    ensures Resolved(rules[..], r => Judge(env, r, attrs), default', outcome)
  {
    hide Judge, StableBy, FirstDecisive, Resolved;
    var sorted := new Rule[rules.Length](i requires 0 <= i < rules.Length reads rules => rules[i]);
    assert sorted[..] == rules[..];
    SortStable(sorted, PriorityOf);
    ghost var v: Verdicts := r => Judge(env, r, attrs);
    SortedFirstIsBest(rules[..], v);
    BestResolves(rules[..], v, default');
    outcome := FirstMatch(env, sorted, attrs, default');
  }

  // ---------- What a caller can rely on ----------

  /** The outcome is determined by the rules. */
  lemma {:induction false} OneOutcome(rules: seq<Rule>, v: Verdicts, default': Role, a: Option<Role>, b: Option<Role>)
    requires Resolved(rules, v, default', a) && Resolved(rules, v, default', b)
    ensures a == b
  {
    BestDecides(rules, v);
  }

  /** Accepted rules always resolve, and to a role that exists. */
  lemma {:induction false} AcceptedRulesResolve(env: Env, rules: seq<Rule>, attrs: map<string, Attr>, default': Role, outcome: Option<Role>)
    requires Resolved(rules, r => Judge(env, r, attrs), default', outcome)
    requires forall i :: 0 <= i < |rules| ==> ValidateRule(env, rules[i])
    ensures outcome.Some? && (outcome.value == default' || outcome.value in {Admin, Editor, Viewer})
  {
    var v: Verdicts := r => Judge(env, r, attrs);
    BestDecides(rules, v);
    hide Lookup, StringValues, SomeText, Blank, TrimSpace;
    var best := Best(rules, v);
    if best.Some? {
      assert ValidateRule(env, rules[best.value]);
    }
  }

  ghost predicate DistinctPriorities(rules: seq<Rule>) {
    forall i, j :: 0 <= i < j < |rules| ==> rules[i].priority != rules[j].priority
  }

  /** With distinct priorities the order in which the rules come does not matter. */
  lemma {:induction false} OrderDoesNotMatter(rules: seq<Rule>, rules': seq<Rule>, v: Verdicts, default': Role, outcome: Option<Role>)
    requires multiset(rules) == multiset(rules') && DistinctPriorities(rules) && Resolved(rules, v, default', outcome)
    ensures Resolved(rules', v, default', outcome)
  {
    MultisetMembers(rules, rules');
    BestDecides(rules, v);
    BestDecides(rules', v);
    BestResolves(rules, v, default');
    BestResolves(rules', v, default');
    var a, b := Best(rules, v), Best(rules', v);
    if a.Some? {
      assert rules[a.value] in rules';
      SameDecider(rules, rules', v, a.value, b.value);
    } else {
      forall i | 0 <= i < |rules'| ensures v(rules'[i]) == No { assert rules'[i] in rules; }
    }
  }

  lemma {:induction false} SameDecider(rules: seq<Rule>, rules': seq<Rule>, v: Verdicts, i: nat, j: nat)
    requires (forall r :: r in rules <==> r in rules') && DistinctPriorities(rules) && Decides(rules, v, i) && Decides(rules', v, j)
    ensures rules[i] == rules'[j]
  {
    assert rules'[j] in rules && rules[i] in rules';
    var k :| 0 <= k < |rules| && rules[k] == rules'[j];
    var l :| 0 <= l < |rules'| && rules'[l] == rules[i];
    assert rules[i].priority == rules[k].priority;
  }
}
