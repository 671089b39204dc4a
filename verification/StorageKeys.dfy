/** Object-storage keys. For ids without slashes no two objects share a key. */
module StorageKeys {
  import opened Text

  predicate SlashFree(s: string) { '/' !in s }

  function DiagramContentKey(org: string, id: string): string {
    org + "/diagrams/" + id + "/content.json"
  }

  function DiagramVersionKey(org: string, id: string, version: string): string {
    org + "/diagrams/" + id + "/versions/" + version + ".json"
  }

  function ApiGroupSpecKey(org: string, service: string, group: string): string {
    org + "/services/" + service + "/api-groups/" + group + "/spec"
  }

  function ApiGroupVersionSpecKey(org: string, service: string, group: string, version: string): string {
    org + "/services/" + service + "/api-groups/" + group + "/versions/" + version + "/spec"
  }

  /** What a key is the key of. */
  datatype Slot =
    | Content(org: string, id: string)
    | Version(org: string, id: string, version: string)
    | Spec(org: string, service: string, group: string)
    | VersionSpec(org: string, service: string, group: string, version: string)

  function KeyOf(slot: Slot): string {
    match slot
    case Content(o, d) => DiagramContentKey(o, d)
    case Version(o, d, v) => DiagramVersionKey(o, d, v)
    case Spec(o, s, g) => ApiGroupSpecKey(o, s, g)
    case VersionSpec(o, s, g, v) => ApiGroupVersionSpecKey(o, s, g, v)
  }

  predicate Clean(slot: Slot) {
    match slot
    case Content(o, d) => SlashFree(o) && SlashFree(d)
    case Version(o, d, v) => SlashFree(o) && SlashFree(d) && SlashFree(v)
    case Spec(o, s, g) => SlashFree(o) && SlashFree(s) && SlashFree(g)
    case VersionSpec(o, s, g, v) => SlashFree(o) && SlashFree(s) && SlashFree(g) && SlashFree(v)
  }

  function Parts(slot: Slot): seq<string> {
    match slot
    case Content(o, d) => [o, "diagrams", d, "content.json"]
    case Version(o, d, v) => [o, "diagrams", d, "versions", v + ".json"]
    case Spec(o, s, g) => [o, "services", s, "api-groups", g, "spec"]
    case VersionSpec(o, s, g, v) => [o, "services", s, "api-groups", g, "versions", v, "spec"]
  }

  lemma {:induction false} ContentKeyIs(o: string, d: string)
    ensures DiagramContentKey(o, d) == Join([o, "diagrams", d, "content.json"], '/')
  {
    JoinOne("content.json", '/');
    JoinStep(d, ["content.json"], '/');
    JoinStep("diagrams", [d, "content.json"], '/');
    JoinStep(o, ["diagrams", d, "content.json"], '/');
    hide Join;
    assert [d] + ["content.json"] == [d, "content.json"];
    assert ["diagrams"] + [d, "content.json"] == ["diagrams", d, "content.json"];
    assert [o] + ["diagrams", d, "content.json"] == [o, "diagrams", d, "content.json"];
  }

  lemma {:induction false} VersionKeyIs(o: string, d: string, v: string)
    ensures DiagramVersionKey(o, d, v) == Join([o, "diagrams", d, "versions", v + ".json"], '/')
  {
    var last := v + ".json";
    JoinOne(last, '/');
    JoinStep("versions", [last], '/');
    JoinStep(d, ["versions", last], '/');
    JoinStep("diagrams", [d, "versions", last], '/');
    JoinStep(o, ["diagrams", d, "versions", last], '/');
    hide Join;
    assert ["versions"] + [last] == ["versions", last];
    assert [d] + ["versions", last] == [d, "versions", last];
    assert ["diagrams"] + [d, "versions", last] == ["diagrams", d, "versions", last];
    assert [o] + ["diagrams", d, "versions", last] == [o, "diagrams", d, "versions", last];
  }

  lemma {:induction false} SpecTail(g: string, tail: seq<string>, o: string, s: string)
    requires |tail| > 0
    ensures Join([o, "services", s, "api-groups", g] + tail, '/') ==
            o + "/services/" + s + "/api-groups/" + g + "/" + Join(tail, '/')
  {
    JoinStep(g, tail, '/');
    JoinStep("api-groups", [g] + tail, '/');
    JoinStep(s, ["api-groups"] + ([g] + tail), '/');
    JoinStep("services", [s] + (["api-groups"] + ([g] + tail)), '/');
    JoinStep(o, ["services"] + ([s] + (["api-groups"] + ([g] + tail))), '/');
    hide Join;
    assert [o] + (["services"] + ([s] + (["api-groups"] + ([g] + tail)))) == [o, "services", s, "api-groups", g] + tail;
  }

  lemma {:induction false} SpecKeyIs(o: string, s: string, g: string)
    ensures ApiGroupSpecKey(o, s, g) == Join([o, "services", s, "api-groups", g, "spec"], '/')
  {
    SpecTail(g, ["spec"], o, s);
    JoinOne("spec", '/');
    hide Join;
    assert [o, "services", s, "api-groups", g] + ["spec"] == [o, "services", s, "api-groups", g, "spec"];
  }

  lemma {:induction false} VersionSpecKeyIs(o: string, s: string, g: string, v: string)
    ensures ApiGroupVersionSpecKey(o, s, g, v) == Join([o, "services", s, "api-groups", g, "versions", v, "spec"], '/')
  {
    SpecTail(g, ["versions", v, "spec"], o, s);
    JoinStep("versions", [v, "spec"], '/');
    JoinStep(v, ["spec"], '/');
    JoinOne("spec", '/');
    hide Join;
    assert ["versions"] + [v, "spec"] == ["versions", v, "spec"];
    assert [v] + ["spec"] == [v, "spec"];
    assert [o, "services", s, "api-groups", g] + ["versions", v, "spec"] ==
           [o, "services", s, "api-groups", g, "versions", v, "spec"];
  }

  lemma {:induction false} KeyParts(slot: Slot)
    requires Clean(slot)
    ensures Split(KeyOf(slot), '/') == Parts(slot)
  {
    hide Join, Split;
    SplitOfJoin(Parts(slot), '/');
    match slot
    case Content(o, d) => ContentKeyIs(o, d);
    case Version(o, d, v) => VersionKeyIs(o, d, v);
    case Spec(o, s, g) => SpecKeyIs(o, s, g);
    case VersionSpec(o, s, g, v) => VersionSpecKeyIs(o, s, g, v);
  }

  lemma {:induction false} PartsDiffer(a: Slot, b: Slot)
    requires Parts(a) == Parts(b)
    ensures a == b
  {
    assert |Parts(a)| == |Parts(b)|;
    match a
    case Content(o, d) =>
      assert o == Parts(b)[0] && d == Parts(b)[2];
    case Version(o, d, v) =>
      assert o == Parts(b)[0] && d == Parts(b)[2] && v + ".json" == Parts(b)[4];
      assert v == (v + ".json")[..|v|] && |v| == |Parts(b)[4]| - 5;
      assert b.version == (b.version + ".json")[..|b.version|];
    case Spec(o, s, g) =>
      assert o == Parts(b)[0] && s == Parts(b)[2] && g == Parts(b)[4];
    case VersionSpec(o, s, g, v) =>
      assert o == Parts(b)[0] && s == Parts(b)[2] && g == Parts(b)[4] && v == Parts(b)[6];
  }

  /** Keys are injective, and the four kinds are disjoint. */
  lemma {:induction false} KeysDiffer(a: Slot, b: Slot)
    requires Clean(a) && Clean(b) && KeyOf(a) == KeyOf(b)
    ensures a == b
  {
    KeyParts(a);
    KeyParts(b);
    PartsDiffer(a, b);
  }
}
