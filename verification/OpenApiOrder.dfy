/** The endpoints of an OpenAPI document, in the order in which the document lists them.

    A document comes as its YAML node tree, which keeps the order of keys, and as the decoded
    value, which does not. */
module OpenApiOrder {
  import opened Text
  import opened Sorting
  import opened Json

  /** A mapping's content alternates keys and values. */
  datatype Node = ScalarNode(value: string) | Mapping(content: seq<Node>) | Listing(content: seq<Node>)

  type Pair = (string, string)

  const HTTP_METHODS := ["get", "post", "put", "delete", "patch", "head", "options", "trace"]

  predicate IsHttpMethod(s: string) { s in HTTP_METHODS }

  // ---------- The document's order ----------

  function ValueOf(n: Node): string { if n.ScalarNode? then n.value else "" }

  /** The keys and values of a mapping; a last key without a value does not count. */
  function Entries(content: seq<Node>): (r: seq<(string, Node)>)
    ensures |r| == |content| / 2
    ensures forall i :: 0 <= i < |r| ==> r[i] == (ValueOf(content[2 * i]), content[2 * i + 1])
  {
    seq(|content| / 2, i requires 0 <= i < |content| / 2 => (ValueOf(content[2 * i]), content[2 * i + 1]))
  }

  /** The keys that are HTTP methods in any case, in lower case. */
  function MethodKeys(entries: seq<(string, Node)>): seq<string> {
    if entries == [] then []
    else
      var key := ToLower(entries[|entries| - 1].0);
      MethodKeys(entries[..|entries| - 1]) + if IsHttpMethod(key) then [key] else []
  }

  function Keys(entries: seq<(string, Node)>): (r: seq<string>)
    ensures |r| == |entries| && forall i :: 0 <= i < |r| ==> r[i] == entries[i].0
  {
    seq(|entries|, i requires 0 <= i < |entries| => entries[i].0)
  }

  /** For each path whose item is a mapping, the methods of the last such item. */
  function MethodsByPath(entries: seq<(string, Node)>): map<string, seq<string>> {
    if entries == [] then map[]
    else
      var last := entries[|entries| - 1];
      var before := MethodsByPath(entries[..|entries| - 1]);
      if last.1.Mapping? then before[last.0 := MethodKeys(Entries(last.1.content))] else before
  }

  function FindEntry(entries: seq<(string, Node)>, key: string): Option<Node> {
    if entries == [] then None
    else
      var before := FindEntry(entries[..|entries| - 1], key);
      if before.Some? then before
      else if entries[|entries| - 1].0 == key then Some(entries[|entries| - 1].1)
      else None
  }

  /** The entries under "paths" of the document's top mapping. */
  function PathEntries(document: seq<Node>): seq<(string, Node)> {
    if document == [] || !document[0].Mapping? then []
    else
      var paths := FindEntry(Entries(document[0].content), "paths");
      if paths.None? || !paths.value.Mapping? then [] else Entries(paths.value.content)
  }

  method MappingValue(m: Node, key: string) returns (value: Option<Node>)
    ensures value == if m.Mapping? then FindEntry(Entries(m.content), key) else None
  {
    if !m.Mapping? { return None; }
    ghost var entries := Entries(m.content);
    hide FindEntry, Entries;
    NoEntries(key);
    var i := 0;
    ghost var n := 0;
    while i + 1 < |m.content|
      invariant 0 <= i <= |m.content| && i == 2 * n && n <= |entries|
      invariant FindEntry(entries[..n], key) == None
    {
      OneMoreEntry(entries, n, key);
      if ValueOf(m.content[i]) == key {
        FoundStays(entries, key, n + 1);
        return Some(m.content[i + 1]);
      }
      i, n := i + 2, n + 1;
    }
    assert entries[..n] == entries;
    return None;
  }

  lemma {:induction false} NoEntries(key: string)
    ensures FindEntry([], key) == None && MethodKeys([]) == [] && Keys([]) == [] && MethodsByPath([]) == map[]
  {
  }

  lemma {:induction false} OneMoreEntry(entries: seq<(string, Node)>, n: nat, key: string)
    requires n < |entries|
    ensures FindEntry(entries[..n + 1], key) ==
      var before := FindEntry(entries[..n], key);
      if before.Some? then before else if entries[n].0 == key then Some(entries[n].1) else None
  {
    assert entries[..n + 1][..n] == entries[..n];
  }

  lemma {:induction false} OneMoreMethod(entries: seq<(string, Node)>, n: nat)
    requires n < |entries|
    ensures var key := ToLower(entries[n].0);
      MethodKeys(entries[..n + 1]) == MethodKeys(entries[..n]) + if IsHttpMethod(key) then [key] else []
  {
    assert entries[..n + 1][..n] == entries[..n];
  }

  lemma {:induction false} OneMorePath(entries: seq<(string, Node)>, n: nat)
    requires n < |entries|
    ensures Keys(entries[..n + 1]) == Keys(entries[..n]) + [entries[n].0]
    ensures MethodsByPath(entries[..n + 1]) ==
      if entries[n].1.Mapping? then MethodsByPath(entries[..n])[entries[n].0 := MethodKeys(Entries(entries[n].1.content))]
      else MethodsByPath(entries[..n])
  {
    hide MethodKeys;
    assert entries[..n + 1][..n] == entries[..n];
  }

  lemma {:induction false} FoundStays(entries: seq<(string, Node)>, key: string, k: nat)
    requires k <= |entries| && FindEntry(entries[..k], key).Some?
    ensures FindEntry(entries, key) == FindEntry(entries[..k], key)
    decreases |entries|
  {
    if k == |entries| {
      assert entries[..k] == entries;
    } else {
      assert entries[..|entries| - 1][..k] == entries[..k];
      FoundStays(entries[..|entries| - 1], key, k);
    }
  }

  method ListMethodKeys(content: seq<Node>) returns (methods: seq<string>)
    ensures methods == MethodKeys(Entries(content))
  {
    ghost var entries := Entries(content);
    hide IsHttpMethod, ToLower, MethodKeys, Entries;
    NoEntries("");
    methods := [];
    var j := 0;
    ghost var n := 0;
    while j + 1 < |content|
      invariant 0 <= j <= |content| && j == 2 * n && n <= |entries|
      invariant methods == MethodKeys(entries[..n])
    {
      OneMoreMethod(entries, n);
      var key := ToLower(ValueOf(content[j]));
      if IsHttpMethod(key) { methods := methods + [key]; }
      j, n := j + 2, n + 1;
    }
    assert entries[..n] == entries;
  }

  method ParseDocumentOrder(document: seq<Node>) returns (paths: seq<string>, methodsByPath: map<string, seq<string>>)
    ensures paths == Keys(PathEntries(document)) && methodsByPath == MethodsByPath(PathEntries(document))
  {
    hide FindEntry, MethodKeys, MethodsByPath, Entries, Keys;
    NoEntries("");
    if document == [] { return [], map[]; }
    var found := MappingValue(document[0], "paths");
    if found.None? || !found.value.Mapping? { return [], map[]; }
    paths, methodsByPath := ListPaths(found.value.content);
  }

  method ListPaths(content: seq<Node>) returns (paths: seq<string>, methodsByPath: map<string, seq<string>>)
    ensures paths == Keys(Entries(content)) && methodsByPath == MethodsByPath(Entries(content))
  {
    ghost var entries := Entries(content);
    hide MethodKeys, MethodsByPath, Entries, Keys;
    NoEntries("");
    paths, methodsByPath := [], map[];
    var i := 0;
    ghost var n := 0;
    while i + 1 < |content|
      invariant 0 <= i <= |content| && i == 2 * n && n <= |entries|
      invariant paths == Keys(entries[..n]) && methodsByPath == MethodsByPath(entries[..n])
    {
      OneMorePath(entries, n);
      var path := ValueOf(content[i]);
      paths := paths + [path];
      var item := content[i + 1];
      if item.Mapping? {
        var methods := ListMethodKeys(item.content);
        methodsByPath := methodsByPath[path := methods];
      }
      i, n := i + 2, n + 1;
    }
    assert entries[..n] == entries;
  }

  // ---------- The endpoints ----------

  function Present(methods: seq<string>, item: map<string, Json>): seq<string> {
    if methods == [] then []
    else
      var last := methods[|methods| - 1];
      Present(methods[..|methods| - 1], item) + if last in item then [last] else []
  }

  /** The methods of a path item: the document's, if it lists any, or else the usual ones. */
  function MethodsFor(path: string, item: map<string, Json>, methodsByPath: map<string, seq<string>>): seq<string> {
    if path in methodsByPath && methodsByPath[path] != [] then Present(methodsByPath[path], item)
    else Present(HTTP_METHODS, item)
  }

  /** Whether the document has an operation there. */
  predicate Wanted(raw: map<string, Json>, pair: Pair) {
    && pair.0 in raw && raw[pair.0].Obj? && IsHttpMethod(pair.1)
    && pair.1 in raw[pair.0].fields && raw[pair.0].fields[pair.1].Obj?
  }

  function OpPairs(path: string, item: map<string, Json>, methods: seq<string>): seq<Pair> {
    if methods == [] then []
    else
      var last := methods[|methods| - 1];
      OpPairs(path, item, methods[..|methods| - 1]) + if last in item && item[last].Obj? then [(path, last)] else []
  }

  function PathPairs(raw: map<string, Json>, path: string, methodsByPath: map<string, seq<string>>): seq<Pair> {
    if path !in raw || !raw[path].Obj? then []
    else OpPairs(path, raw[path].fields, MethodsFor(path, raw[path].fields, methodsByPath))
  }

  function PairsOf(raw: map<string, Json>, paths: seq<string>, methodsByPath: map<string, seq<string>>): seq<Pair> {
    if paths == [] then []
    else PairsOf(raw, paths[..|paths| - 1], methodsByPath) + PathPairs(raw, paths[|paths| - 1], methodsByPath)
  }

  datatype Endpoint = Endpoint(operationId: string, verb: string, path: string, order: nat)

  function OperationId(raw: map<string, Json>, pair: Pair): string
    requires Wanted(raw, pair)
  {
    var op := raw[pair.0].fields[pair.1].fields;
    if "operationId" in op && op["operationId"].Str? && op["operationId"].s != "" then op["operationId"].s
    else ToUpper(pair.1) + " " + pair.0
  }

  /** The path items that the node tree does not list. */
  function Unlisted(raw: map<string, Json>, listed: seq<string>): map<string, Json> { map p | p in raw && p !in listed :: raw[p] }

  /** The paths in the order in which endpoints are made: the document's, then any others
      sorted; or all sorted, when the order cannot be read. */
  ghost function PathOrder(raw: map<string, Json>, document: Option<seq<Node>>): seq<string> {
    if document.None? then SortedKeys(raw)
    else
      var listed := Keys(PathEntries(document.value));
      listed + SortedKeys(Unlisted(raw, listed))
  }

  function OrderedMethods(document: Option<seq<Node>>): map<string, seq<string>> {
    if document.None? then map[] else MethodsByPath(PathEntries(document.value))
  }

  ghost function AllPairs(raw: map<string, Json>, document: Option<seq<Node>>): seq<Pair> {
    PairsOf(raw, PathOrder(raw, document), OrderedMethods(document))
  }

  /** Endpoints for these pairs, in their order, numbered from `first`. */
  ghost predicate Lists(raw: map<string, Json>, es: seq<Endpoint>, pairs: seq<Pair>) {
    && |es| == |pairs|
    && forall k :: 0 <= k < |pairs| ==>
         && Wanted(raw, pairs[k])
         && es[k] == Endpoint(OperationId(raw, pairs[k]), ToUpper(pairs[k].1), pairs[k].0, k)
  }

  method MethodsForPathItem(path: string, item: map<string, Json>, methodsByPath: map<string, seq<string>>) returns (methods: seq<string>)
    ensures methods == MethodsFor(path, item, methodsByPath)
  {
    if path in methodsByPath && |methodsByPath[path]| > 0 {
      methods := ListPresent(methodsByPath[path], item);
    } else {
      methods := ListPresent(HTTP_METHODS, item);
    }
  }

  method ListPresent(methods: seq<string>, item: map<string, Json>) returns (present: seq<string>)
    ensures present == Present(methods, item)
  {
    present := [];
    for i := 0 to |methods|
      invariant present == Present(methods[..i], item)
    {
      assert methods[..i + 1][..i] == methods[..i];
      if methods[i] in item { present := present + [methods[i]]; }
    }
    assert methods[..|methods|] == methods;
  }

  // ---------- Making the endpoints ----------

  predicate AllHttp(methods: seq<string>) { forall i :: 0 <= i < |methods| ==> IsHttpMethod(methods[i]) }

  predicate HttpOnly(methodsByPath: map<string, seq<string>>) { forall p :: p in methodsByPath ==> AllHttp(methodsByPath[p]) }

  lemma {:induction false} MethodKeysAreHttp(entries: seq<(string, Node)>)
    ensures AllHttp(MethodKeys(entries))
  {
    hide IsHttpMethod;
    if entries != [] { MethodKeysAreHttp(entries[..|entries| - 1]); }
  }

  lemma {:induction false} MethodsByPathAreHttp(entries: seq<(string, Node)>)
    ensures HttpOnly(MethodsByPath(entries))
  {
    hide AllHttp;
    if entries != [] {
      var last := entries[|entries| - 1];
      MethodsByPathAreHttp(entries[..|entries| - 1]);
      if last.1.Mapping? { MethodKeysAreHttp(Entries(last.1.content)); }
    }
  }

  lemma {:induction false} PresentAreHttp(methods: seq<string>, item: map<string, Json>)
    requires AllHttp(methods)
    ensures AllHttp(Present(methods, item)) && forall i :: 0 <= i < |Present(methods, item)| ==> Present(methods, item)[i] in item
  {
    hide IsHttpMethod;
    if methods != [] { PresentAreHttp(methods[..|methods| - 1], item); }
  }

  lemma {:induction false} MethodsForAreHttp(path: string, item: map<string, Json>, methodsByPath: map<string, seq<string>>)
    requires HttpOnly(methodsByPath)
    ensures AllHttp(MethodsFor(path, item, methodsByPath))
  {
    hide Present;
    assert AllHttp(HTTP_METHODS);
    PresentAreHttp(HTTP_METHODS, item);
    if path in methodsByPath { PresentAreHttp(methodsByPath[path], item); }
  }

  /** The endpoints of one path, after those made so far. */
  method AddPathEndpoints(raw: map<string, Json>, path: string, methods: seq<string>, es: seq<Endpoint>, ghost pairs: seq<Pair>)
    returns (r: seq<Endpoint>)
    requires path in raw && raw[path].Obj? && AllHttp(methods) && Lists(raw, es, pairs)
    ensures Lists(raw, r, pairs + OpPairs(path, raw[path].fields, methods))
  {
    hide IsHttpMethod, OperationId, ToUpper, Lists, OpPairs;
    var item := raw[path].fields;
    r := es;
    NoPairs(path, item);
    assert pairs + [] == pairs;
    for i := 0 to |methods|
      invariant Lists(raw, r, pairs + OpPairs(path, item, methods[..i]))
    {
      OneMoreOp(path, item, methods, i);
      var m := methods[i];
      if m in item && item[m].Obj? {
        var pair := (path, m);
        ghost var before := pairs + OpPairs(path, item, methods[..i]);
        assert pairs + OpPairs(path, item, methods[..i + 1]) == before + [pair];
        ListsOneMore(raw, r, before, pair);
        r := r + [Endpoint(OperationId(raw, pair), ToUpper(m), path, |r|)];
      } else {
        assert OpPairs(path, item, methods[..i + 1]) == OpPairs(path, item, methods[..i]);
      }
    }
    assert methods[..|methods|] == methods;
  }

  lemma {:induction false} NoPairs(path: string, item: map<string, Json>)
    ensures OpPairs(path, item, []) == []
  {
  }

  lemma {:induction false} OneMoreOp(path: string, item: map<string, Json>, methods: seq<string>, i: nat)
    requires i < |methods|
    ensures OpPairs(path, item, methods[..i + 1]) ==
      OpPairs(path, item, methods[..i]) + if methods[i] in item && item[methods[i]].Obj? then [(path, methods[i])] else []
  {
    assert methods[..i + 1][..i] == methods[..i];
  }

  lemma {:induction false} ListsOneMore(raw: map<string, Json>, es: seq<Endpoint>, pairs: seq<Pair>, pair: Pair)
    requires Lists(raw, es, pairs) && Wanted(raw, pair)
    ensures Lists(raw, es + [Endpoint(OperationId(raw, pair), ToUpper(pair.1), pair.0, |es|)], pairs + [pair])
  {
    hide Wanted, OperationId, ToUpper;
  }

  lemma {:induction false} OneMorePathItem(raw: map<string, Json>, paths: seq<string>, methodsByPath: map<string, seq<string>>, i: nat)
    requires i < |paths|
    ensures PairsOf(raw, paths[..i + 1], methodsByPath) ==
      PairsOf(raw, paths[..i], methodsByPath) + PathPairs(raw, paths[i], methodsByPath)
  {
    assert paths[..i + 1][..i] == paths[..i];
  }

  method AddEndpoints(raw: map<string, Json>, paths: seq<string>, methodsByPath: map<string, seq<string>>) returns (es: seq<Endpoint>)
    requires HttpOnly(methodsByPath)
    ensures Lists(raw, es, PairsOf(raw, paths, methodsByPath))
  {
    hide Lists, PairsOf, OpPairs, MethodsFor, HttpOnly, AllHttp;
    es := [];
    NothingListed(raw, methodsByPath);
    for i := 0 to |paths|
      invariant Lists(raw, es, PairsOf(raw, paths[..i], methodsByPath))
    {
      OneMorePathItem(raw, paths, methodsByPath, i);
      var path := paths[i];
      if path in raw && raw[path].Obj? {
        var methods := MethodsForPathItem(path, raw[path].fields, methodsByPath);
        MethodsForAreHttp(path, raw[path].fields, methodsByPath);
        es := AddPathEndpoints(raw, path, methods, es, PairsOf(raw, paths[..i], methodsByPath));
      } else {
        assert PairsOf(raw, paths[..i + 1], methodsByPath) == PairsOf(raw, paths[..i], methodsByPath);
      }
    }
    assert paths[..|paths|] == paths;
  }

  /** One endpoint for each operation found, in order. */
  method ParseSpecEndpoints(doc: map<string, Json>, document: Option<seq<Node>>) returns (es: seq<Endpoint>)
    ensures Lists(Paths(doc), es, AllPairs(Paths(doc), document))
    ensures forall k :: 0 <= k < |es| ==> Describes(doc, es[k], k) && es[k].operationId != ""
  {
    hide PathEntries, Keys, MethodsByPath, Lists, SortedKeys, PairsOf, HttpOnly, MethodKeys, Describes;
    var raw := Paths(doc);
    if document.None? {
      var order := ListKeysSorted(raw);
      NoMethodsAreHttp();
      es := AddEndpoints(raw, order, map[]);
    } else {
      var order, methodsByPath := ParseDocumentOrder(document.value);
      MethodsByPathAreHttp(PathEntries(document.value));
      var extras := ListKeysSorted(Unlisted(raw, order));
      es := AddEndpoints(raw, order + extras, methodsByPath);
    }
    forall k | 0 <= k < |es| ensures Describes(doc, es[k], k) && es[k].operationId != "" {
      ListedDescribes(doc, es, AllPairs(raw, document), k);
    }
  }

  /** The HTTP methods, as path items have them and as endpoints do. */
  const VERBS := {("get", "GET"), ("post", "POST"), ("put", "PUT"), ("delete", "DELETE"), ("patch", "PATCH"), ("head", "HEAD"),
                  ("options", "OPTIONS"), ("trace", "TRACE")}

  /** The endpoint with number `k` of a document: its path has an operation with its method, and its id
      is the operation's own, if that is a non-empty string, or else method and path. */
  ghost predicate Describes(doc: map<string, Json>, e: Endpoint, k: nat) {
    && e.order == k
    && "paths" in doc && doc["paths"].Obj?
    && var items := doc["paths"].fields;
    && e.path in items && items[e.path].Obj?
    && exists m :: DescribesMethod(items[e.path].fields, e, m)
  }

  ghost predicate DescribesMethod(item: map<string, Json>, e: Endpoint, m: string) {
    && (m, e.verb) in VERBS && m in item && item[m].Obj?
    && var op := item[m].fields;
    && (forall id :: id != "" && "operationId" in op && op["operationId"] == Str(id) ==> e.operationId == id)
    && ((forall id :: id != "" && "operationId" in op ==> op["operationId"] != Str(id)) ==> e.operationId == e.verb + " " + e.path)
  }

  lemma {:induction false} UpperIs(m: string)
    ensures m in HTTP_METHODS <==> (m, ToUpper(m)) in VERBS
  {
    assert ToUpper("get") == "GET" && ToUpper("post") == "POST" && ToUpper("put") == "PUT" && ToUpper("delete") == "DELETE";
    assert ToUpper("patch") == "PATCH" && ToUpper("head") == "HEAD" && ToUpper("options") == "OPTIONS" && ToUpper("trace") == "TRACE";
    hide ToUpper;
  }

  lemma {:induction false} ListedDescribes(doc: map<string, Json>, es: seq<Endpoint>, pairs: seq<Pair>, k: nat)
    requires Lists(Paths(doc), es, pairs) && k < |es|
    ensures Describes(doc, es[k], k) && es[k].operationId != ""
  {
    UpperIs(pairs[k].1);
    hide ToUpper;
    assert Wanted(Paths(doc), pairs[k]);
    var op := Paths(doc)[pairs[k].0].fields[pairs[k].1].fields;
    if "operationId" in op && op["operationId"].Str? { assert op["operationId"] == Str(op["operationId"].s); }
    assert DescribesMethod(Paths(doc)[pairs[k].0].fields, es[k], pairs[k].1);
  }

  lemma {:induction false} NoMethodsAreHttp()
    ensures HttpOnly(map[])
  {
  }

  lemma {:induction false} NothingListed(raw: map<string, Json>, methodsByPath: map<string, seq<string>>)
    ensures Lists(raw, [], PairsOf(raw, [], methodsByPath))
  {
  }

  /** The path items of a document; a document without them has no endpoints. */
  function Paths(doc: map<string, Json>): map<string, Json> {
    if "paths" in doc && doc["paths"].Obj? then doc["paths"].fields else map[]
  }
}
