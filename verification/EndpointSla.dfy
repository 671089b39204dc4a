/** SLAs set by users on endpoints, carried over when a new spec replaces the endpoints. */
module EndpointSla {
  import opened Text

  datatype Sla = Sla(thresholds: seq<string>)

  /** An endpoint row; `body` stands for the columns that come from the spec and that
      nothing here looks into. */
  datatype Endpoint = Endpoint(
    operationId: string,
    verb: string,
    path: string,
    body: string,
    order: int,
    sla: Option<Sla>,
    createdBy: string,
    updatedBy: Option<string>,
    commitHash: Option<string>,
    versionId: Option<string>)

  function SlaKey(e: Endpoint): string {
    if e.operationId != "" then "op:" + e.operationId
    else "mp:" + ToUpper(e.verb) + " " + e.path
  }

  /** The SLA of the last endpoint that has one under this key. */
  function LastSla(es: seq<Endpoint>, key: string): Option<Sla> {
    if es == [] then None
    else
      var e := es[|es| - 1];
      if e.sla.Some? && SlaKey(e) == key then e.sla else LastSla(es[..|es| - 1], key)
  }

  function WithSla(existing: seq<Endpoint>, e: Endpoint): Endpoint {
    var kept := LastSla(existing, SlaKey(e));
    if kept.Some? then e.(sla := kept) else e
  }

  function Preserved(existing: seq<Endpoint>, latest: seq<Endpoint>): (r: seq<Endpoint>)
    ensures |r| == |latest|
    ensures forall i :: 0 <= i < |latest| ==> r[i] == WithSla(existing, latest[i])
  {
    seq(|latest|, i requires 0 <= i < |latest| => WithSla(existing, latest[i]))
  }

  /** The fresh endpoints are changed in place. */
  method PreserveEndpointSlas(existing: seq<Endpoint>, latest: array<Endpoint>)
    modifies latest
    ensures latest[..] == Preserved(existing, old(latest[..]))
  {
    var byKey := SlasByKey(existing);
    var i := 0;
    while i < latest.Length
      invariant 0 <= i <= latest.Length
      invariant forall k :: 0 <= k < i ==> latest[k] == WithSla(existing, old(latest[k]))
      invariant forall k :: i <= k < latest.Length ==> latest[k] == old(latest[k])
    {
      var key := SlaKey(latest[i]);
      if key in byKey { latest[i] := latest[i].(sla := Some(byKey[key])); }
      i := i + 1;
    }
  }

  method SlasByKey(existing: seq<Endpoint>) returns (byKey: map<string, Sla>)
    ensures forall key :: LastSla(existing, key) == if key in byKey then Some(byKey[key]) else None
  {
    byKey := map[];
    var i := 0;
    while i < |existing|
      invariant 0 <= i <= |existing|
      invariant forall key :: LastSla(existing[..i], key) == if key in byKey then Some(byKey[key]) else None
    {
      assert existing[..i + 1][..i] == existing[..i];
      if existing[i].sla.Some? { byKey := byKey[SlaKey(existing[i]) := existing[i].sla.value]; }
      i := i + 1;
    }
    assert existing[..i] == existing;
  }

  // ---------- The key ----------

  /** A method that goes on, after a space, with the beginning of the other's path. */
  ghost predicate RunsInto(x: string, p: string, y: string, q: string) {
    exists m: string :: x == y + " " + m && q == m + " " + p
  }

  lemma {:induction false} SpacedLonger(x: string, p: string, y: string, q: string)
    requires |x| >= |y|
    ensures x + " " + p == y + " " + q <==> (x == y && p == q) || RunsInto(x, p, y, q)
  {
    var s, t := x + " " + p, y + " " + q;
    if s == t {
      assert x == s[..|x|] && y == t[..|y|];
      if |x| == |y| {
        assert p == s[|x| + 1..] && q == t[|y| + 1..];
      } else {
        assert x[..|y|] == y && x[|y|] == t[|y|] == ' ';
        var m := x[|y| + 1..];
        assert x == y + " " + m;
        assert q == t[|y| + 1..] && m + " " + p == s[|y| + 1..];
      }
    }
    if m: string :| x == y + " " + m && q == m + " " + p {
      assert y + " " + m + " " + p == y + " " + (m + " " + p);
    }
  }

  /** Two endpoints share a key exactly when both have the same operation id; or when neither has
      one and, with methods in upper case, method and path are the same, or one's method runs into
      the other's path. */
  lemma {:induction false} SlaKeyIdentifies(a: Endpoint, b: Endpoint)
    ensures SlaKey(a) == SlaKey(b) <==>
      if a.operationId != "" || b.operationId != "" then a.operationId == b.operationId
      else
        var x, y := ToUpper(a.verb), ToUpper(b.verb);
        (x == y && a.path == b.path) || RunsInto(x, a.path, y, b.path) || RunsInto(y, b.path, x, a.path)
  {
    hide ToUpper;
    var ka, kb := SlaKey(a), SlaKey(b);
    if a.operationId != "" && b.operationId != "" {
      assert ka[3..] == a.operationId && kb[3..] == b.operationId;
    } else if a.operationId == "" && b.operationId == "" {
      var x, y := ToUpper(a.verb), ToUpper(b.verb);
      assert ka[3..] == x + " " + a.path && kb[3..] == y + " " + b.path;
      assert ka == "mp:" + (x + " " + a.path) && kb == "mp:" + (y + " " + b.path);
      if |x| >= |y| {
        SpacedLonger(x, a.path, y, b.path);
        RunsLonger(y, b.path, x, a.path);
      } else {
        SpacedLonger(y, b.path, x, a.path);
        RunsLonger(x, a.path, y, b.path);
      }
    } else {
      assert ka[0] != kb[0];
    }
  }

  lemma {:induction false} RunsLonger(x: string, p: string, y: string, q: string)
    ensures RunsInto(x, p, y, q) ==> |x| > |y| && ' ' in x
  {
    if m: string :| x == y + " " + m && q == m + " " + p { assert x[|y|] == ' '; }
  }

  /** Methods without spaces identify endpoints together with their paths. */
  lemma {:induction false} SpacelessIdentifies(a: Endpoint, b: Endpoint)
    requires a.operationId == "" && b.operationId == "" && ' ' !in a.verb && ' ' !in b.verb
    ensures SlaKey(a) == SlaKey(b) <==> ToUpper(a.verb) == ToUpper(b.verb) && a.path == b.path
  {
    UpperHasNoSpace(a.verb);
    UpperHasNoSpace(b.verb);
    var x, y := ToUpper(a.verb), ToUpper(b.verb);
    hide ToUpper;
    SlaKeyIdentifies(a, b);
    RunsLonger(x, a.path, y, b.path);
    RunsLonger(y, b.path, x, a.path);
  }

  lemma {:induction false} UpperHasNoSpace(s: string)
    requires ' ' !in s
    ensures ' ' !in ToUpper(s)
  {
  }

  /** An edit can give an endpoint a method that does not. */
  lemma {:induction false} SpacedMethodsCollide(a: Endpoint, b: Endpoint)
    requires a.operationId == "" && b.operationId == ""
    requires a.verb == "GET /A" && a.path == "b" && b.verb == "GET" && b.path == "/A b"
    ensures SlaKey(a) == SlaKey(b) && a.path != b.path
  {
    assert ToUpper(a.verb) == "GET /A" && ToUpper(b.verb) == "GET";
    hide ToUpper;
    assert "GET /A" == "GET" + " " + "/A" && "/A b" == "/A" + " " + "b";
    assert RunsInto("GET /A", "b", "GET", "/A b");
    SlaKeyIdentifies(a, b);
  }

  // ---------- What carrying over does ----------

  ghost predicate HasKey(es: seq<Endpoint>, key: string) { exists i :: 0 <= i < |es| && SlaKey(es[i]) == key }

  ghost predicate DistinctKeys(es: seq<Endpoint>) {
    forall i, j :: 0 <= i < j < |es| ==> SlaKey(es[i]) != SlaKey(es[j])
  }

  /** Only SLAs change; one changes exactly when an old endpoint with its key has one. */
  lemma {:induction false} OnlySlasChange(existing: seq<Endpoint>, latest: seq<Endpoint>, i: nat)
    requires i < |latest|
    ensures var r := Preserved(existing, latest)[i];
      && r.(sla := None) == latest[i].(sla := None)
      && SlaKey(r) == SlaKey(latest[i])
      && r.sla == if LastSla(existing, SlaKey(latest[i])).Some? then LastSla(existing, SlaKey(latest[i])) else latest[i].sla
  {
  }

  lemma {:induction false} LastSlaExists(es: seq<Endpoint>, key: string)
    ensures LastSla(es, key).Some? <==> exists i :: 0 <= i < |es| && SlaKey(es[i]) == key && es[i].sla.Some?
    ensures LastSla(es, key).Some? ==> exists i :: 0 <= i < |es| && SlaKey(es[i]) == key && es[i].sla == LastSla(es, key)
  {
    if es != [] {
      LastSlaExists(es[..|es| - 1], key);
      assert es == es[..|es| - 1] + [es[|es| - 1]];
      if exists i :: 0 <= i < |es| && SlaKey(es[i]) == key && es[i].sla.Some? {
        var i :| 0 <= i < |es| && SlaKey(es[i]) == key && es[i].sla.Some?;
        if i < |es| - 1 { assert es[..|es| - 1][i] == es[i]; }
      }
    }
  }

  /** With distinct keys the SLA found under an endpoint's key is its own. */
  lemma {:induction false} OwnSla(es: seq<Endpoint>, i: nat)
    requires i < |es| && DistinctKeys(es) && es[i].sla.Some?
    ensures LastSla(es, SlaKey(es[i])) == es[i].sla
  {
    LastSlaExists(es, SlaKey(es[i]));
    var j :| 0 <= j < |es| && SlaKey(es[j]) == SlaKey(es[i]) && es[j].sla == LastSla(es, SlaKey(es[i]));
    assert j == i;
  }

  /** One publish keeps the SLA under a key that the new endpoints have. */
  lemma {:induction false} PublishKeepsSla(existing: seq<Endpoint>, latest: seq<Endpoint>, key: string)
    requires LastSla(existing, key).Some? && HasKey(latest, key)
    ensures var r := Preserved(existing, latest);
      && LastSla(r, key) == LastSla(existing, key) && HasKey(r, key)
      && forall i :: 0 <= i < |r| && SlaKey(r[i]) == key ==> r[i].sla == LastSla(existing, key)
  {
    var r := Preserved(existing, latest);
    forall i | 0 <= i < |r|
      ensures SlaKey(r[i]) == SlaKey(latest[i])
      ensures SlaKey(r[i]) == key ==> r[i].sla == LastSla(existing, key)
    {
      OnlySlasChange(existing, latest, i);
    }
    var i :| 0 <= i < |latest| && SlaKey(latest[i]) == key;
    assert SlaKey(r[i]) == key;
    LastSlaExists(r, key);
  }

  /** The working copy after publishing one list of endpoints after the other. */
  function Republished(working: seq<Endpoint>, lists: seq<seq<Endpoint>>): seq<Endpoint> {
    if lists == [] then working
    else Preserved(Republished(working, lists[..|lists| - 1]), lists[|lists| - 1])
  }

  /** An endpoint keeps its SLA through any number of publishes whose endpoints all have
      its key. */
  lemma {:induction false} SlaSurvives(working: seq<Endpoint>, i: nat, lists: seq<seq<Endpoint>>)
    requires i < |working| && DistinctKeys(working) && working[i].sla.Some?
    requires forall k :: 0 <= k < |lists| ==> HasKey(lists[k], SlaKey(working[i]))
    ensures var key := SlaKey(working[i]);
      var r := Republished(working, lists);
      && LastSla(r, key) == working[i].sla
      && (exists j :: 0 <= j < |r| && SlaKey(r[j]) == key && r[j].sla == working[i].sla)
      && forall j :: 0 <= j < |r| && SlaKey(r[j]) == key ==> r[j].sla == working[i].sla
  {
    var key := SlaKey(working[i]);
    if lists == [] {
      OwnSla(working, i);
    } else {
      var last := |lists| - 1;
      SlaSurvives(working, i, lists[..last]);
      PublishKeepsSla(Republished(working, lists[..last]), lists[last], key);
    }
  }
}
