/** API groups: a working copy of a spec with its endpoints, and published versions.

    Every call to storage or to the store may fail; `Faults` says which of a request's calls
    do. `Handle` is what one request does, and `ApiGroupHandler` below does it step by step.
    Hashing, parsing and fresh ids are parameters. */
module ApiGroups {
  import opened Text
  import opened StorageKeys
  import opened VersionNumbers
  import opened EndpointSla
  import opened Sorting
  import opened StableSort

  type Hash = string -> string

  /** A spec and a protocol give endpoints, or an error. */
  type Parser = (string, string) -> Option<seq<Endpoint>>

  datatype Group = Group(
    serviceId: string,
    orgId: string,
    name: string,
    version: string,
    protocol: string,
    specKey: Option<string>,
    specHash: Option<string>,
    commitHash: Option<string>,
    deleted: bool)

  datatype GroupVersion = GroupVersion(
    id: string,
    groupId: string,
    number: nat,
    tag: string,
    specKey: string,
    specHash: string,
    isAuto: bool,
    commitHash: Option<string>)

  datatype State = State(
    groups: map<string, Group>,
    versions: seq<GroupVersion>,
    working: map<string, seq<Endpoint>>,
    snapshots: map<string, seq<Endpoint>>,
    blobs: map<string, string>)

  datatype Faults = Faults(row: bool, uploadWorking: bool, uploadVersion: bool, download: bool, list: bool, commit: bool)

  const NoFaults := Faults(false, false, false, false, false, false)

  datatype Status = Done | BadRequest | NotFound | Failed

  datatype Outcome = Outcome(state: State, status: Status)

  /** The arguments of one publish; `group` is the handler's edited copy of the row. */
  datatype Publish = Publish(
    gid: string,
    group: Group,
    service: string,
    spec: string,
    endpoints: Option<seq<Endpoint>>,
    tag: Option<string>,
    isAuto: bool,
    actor: string,
    commitHash: Option<string>,
    vid: string)

  // ---------- Publishing ----------

  function WorkingOf(s: State, gid: string): seq<Endpoint> { if gid in s.working then s.working[gid] else [] }

  function StampOf(v: GroupVersion): Stamp { Stamp(v.groupId, v.number) }

  function IdOf(v: GroupVersion): string { v.id }

  function Stamps(vs: seq<GroupVersion>): seq<Stamp> { StampsOf(vs, StampOf) }

  function FindVersion(vs: seq<GroupVersion>, id: string): Option<GroupVersion> { Find(vs, id, IdOf) }

  /** The working copy has one live row per method and path. */
  predicate UniqueRoutes(es: seq<Endpoint>) {
    forall i, j :: 0 <= i < j < |es| ==> es[i].verb != es[j].verb || es[i].path != es[j].path
  }

  function OrderOf(e: Endpoint): int { e.order }

  /** Rows in the order in which the store lists them. */
  function Listed(es: seq<Endpoint>): (r: seq<Endpoint>)
    ensures |r| == |es|
  {
    StableBy(es, OrderOf)
  }

  /** A list of endpoints as the store gives it. */
  ghost predicate Tidy(es: seq<Endpoint>) { UniqueRoutes(es) && OrderedBy(es, OrderOf) }

  function Snapshot(es: seq<Endpoint>, vid: string, actor: string): (r: seq<Endpoint>)
    ensures |r| == |es|
    ensures forall i :: 0 <= i < |es| ==> r[i] == es[i].(versionId := Some(vid), updatedBy := Some(actor))
  {
    seq(|es|, i requires 0 <= i < |es| => es[i].(versionId := Some(vid), updatedBy := Some(actor)))
  }

  function Stamped(es: seq<Endpoint>, commitHash: Option<string>): (r: seq<Endpoint>)
    ensures |r| == |es|
    ensures forall i :: 0 <= i < |es| ==> r[i] == es[i].(commitHash := commitHash)
  {
    seq(|es|, i requires 0 <= i < |es| => es[i].(commitHash := commitHash))
  }

  /** The endpoints that a publish installs: with SLAs carried over, unless listing the old
      ones fails. */
  function Installed(s: State, p: Publish, es: seq<Endpoint>, listFails: bool): seq<Endpoint> {
    var stamped := Stamped(es, p.commitHash);
    if listFails then stamped else Preserved(WorkingOf(s, p.gid), stamped)
  }

  function Numbered(s: State, p: Publish, specKey: string, specHash: string): GroupVersion {
    var n := Latest(Stamps(s.versions), p.gid) + 1;
    GroupVersion(p.vid, p.gid, n, if p.tag.Some? then p.tag.value else "v" + Decimal(n), specKey, specHash, p.isAuto, p.commitHash)
  }

  /** The store's transaction: replace the endpoints, number and insert the version, copy the
      endpoints into it, and update the group's row; all of it or nothing. */
  function Commit(s: State, p: Publish, g: Group, es: Option<seq<Endpoint>>, v: GroupVersion): State {
    var working := if es.Some? then Listed(es.value) else WorkingOf(s, p.gid);
    s.(working := s.working[p.gid := working],
       versions := s.versions + [v],
       snapshots := s.snapshots[p.vid := Snapshot(working, p.vid, p.actor)],
       groups := s.groups[p.gid := g.(version := v.tag)])
  }

  function PublishSpec(h: Hash, parse: Parser, s: State, p: Publish, f: Faults): Outcome {
    var vKey := ApiGroupVersionSpecKey(p.group.orgId, p.service, p.gid, p.vid);
    var wKey := ApiGroupSpecKey(p.group.orgId, p.service, p.gid);
    if f.uploadWorking then Outcome(s, Failed)
    else
      var s1 := s.(blobs := s.blobs[wKey := p.spec]);
      if f.uploadVersion then Outcome(s1, Failed)
      else
        var s2 := s1.(blobs := s1.blobs[vKey := p.spec]);
        var parsed := if p.endpoints.Some? then p.endpoints else parse(p.spec, p.group.protocol);
        if parsed.None? then Outcome(s2, Failed)
        else
          var es := Installed(s, p, parsed.value, f.list);
          if f.commit || !UniqueRoutes(es) then Outcome(s2, Failed)
          else
            var g := p.group.(specKey := Some(wKey), specHash := Some(h(p.spec)));
            Outcome(Commit(s2, p, g, Some(es), Numbered(s, p, vKey, h(p.spec))), Done)
  }

  /** Publishing without a spec takes the working copy as it is. */
  function PublishAsIs(s: State, p: Publish, f: Faults): Outcome {
    var vKey := ApiGroupVersionSpecKey(p.group.orgId, p.service, p.gid, p.vid);
    if p.group.specKey.None? || p.group.specHash.None? then Outcome(s, Failed)
    else if f.download || p.group.specKey.value !in s.blobs || f.uploadVersion then Outcome(s, Failed)
    else
      var s1 := s.(blobs := s.blobs[vKey := s.blobs[p.group.specKey.value]]);
      var es := if p.endpoints.Some? then Some(Installed(s, p, p.endpoints.value, f.list)) else None;
      if f.commit || (es.Some? && !UniqueRoutes(es.value)) then Outcome(s1, Failed)
      else Outcome(Commit(s1, p, p.group, es, Numbered(s, p, vKey, p.group.specHash.value)), Done)
  }

  function PublishVersion(h: Hash, parse: Parser, s: State, p: Publish, f: Faults): Outcome {
    if p.spec != "" then PublishSpec(h, parse, s, p, f) else PublishAsIs(s, p, f)
  }

  // ---------- Requests ----------

  /** Which endpoint row an edit addresses. */
  datatype Place = Working(gid: string, index: nat) | InVersion(vid: string, index: nat)

  datatype Patch = Patch(operationId: Option<string>, verb: Option<string>, path: Option<string>, body: Option<string>,
                         order: Option<int>, sla: Option<Sla>)

  datatype Request =
    | Create(gid: string, service: string, org: string, name: string, version: string, protocol: string, spec: string,
             actor: string, vid: string)
    | Update(gid: string, service: string, newName: Option<string>, newVersion: Option<string>,
             newProtocol: Option<string>, newSpec: Option<string>, actor: string, vid: string)
    | Sync(gid: string, service: string, name: string, version: string, protocol: string, spec: string,
           commitHash: Option<string>, actor: string, vid: string)
    | SyncNew(gid: string, service: string, org: string, name: string, version: string, protocol: string, spec: string,
              commitHash: Option<string>, actor: string, vid: string)
    | Release(gid: string, service: string, tag: Option<string>, spec: string, actor: string, vid: string)
    | Restore(gid: string, service: string, versionId: string, actor: string, vid: string)
    | Delete(gid: string)
    | EditEndpoint(place: Place, patch: Patch, actor: string)

  predicate Live(s: State, gid: string) { gid in s.groups && !s.groups[gid].deleted }

  function Protocol(p: string): string { if p == "" then "REST" else p }

  /** An explicit version names the release. */
  function TagOf(version: string): Option<string> { if version == "" then None else Some(version) }

  /** A snapshot row copied back to the working copy. */
  function Restored(e: Endpoint, actor: string): Endpoint {
    e.(versionId := None, createdBy := actor, updatedBy := None)
  }

  function RestoredAll(es: seq<Endpoint>, actor: string): (r: seq<Endpoint>)
    ensures |r| == |es|
    ensures forall i :: 0 <= i < |es| ==> r[i] == Restored(es[i], actor)
  {
    seq(|es|, i requires 0 <= i < |es| => Restored(es[i], actor))
  }

  function Patched(e: Endpoint, p: Patch, actor: string): Endpoint {
    e.(operationId := if p.operationId.Some? then p.operationId.value else e.operationId,
       verb := if p.verb.Some? then p.verb.value else e.verb,
       path := if p.path.Some? then p.path.value else e.path,
       body := if p.body.Some? then p.body.value else e.body,
       order := if p.order.Some? then p.order.value else e.order,
       sla := if p.sla.Some? then p.sla else e.sla,
       updatedBy := Some(actor))
  }

  function HandleNew(h: Hash, parse: Parser, s: State, gid: string, g: Group, p: Publish, f: Faults): Outcome {
    if f.row then Outcome(s, Failed)
    else
      var s1 := s.(groups := s.groups[gid := g]);
      if p.spec == "" then Outcome(s1, Done) else PublishVersion(h, parse, s1, p, f)
  }

  function HandleUpdate(h: Hash, parse: Parser, s: State, r: Request, f: Faults): Outcome
    requires r.Update?
  {
    if !Live(s, r.gid) then Outcome(s, NotFound)
    else
      var old' := s.groups[r.gid];
      var g := old'.(name := if r.newName.Some? then r.newName.value else old'.name,
                     version := if r.newVersion.Some? then r.newVersion.value else old'.version,
                     protocol := if r.newProtocol.Some? then r.newProtocol.value else old'.protocol,
                     commitHash := None);
      if r.newSpec.Some? && r.newSpec.value != "" && g.specHash != Some(h(r.newSpec.value)) then
        var tag := if r.newVersion.Some? then TagOf(r.newVersion.value) else None;
        PublishVersion(h, parse, s, Publish(r.gid, g, r.service, r.newSpec.value, None, tag, true, r.actor, None, r.vid), f)
      else if f.row then Outcome(s, Failed)
      else Outcome(s.(groups := s.groups[r.gid := g]), Done)
  }

  function HandleSync(h: Hash, parse: Parser, s: State, r: Request, f: Faults): Outcome
    requires r.Sync?
  {
    if r.name == "" then Outcome(s, BadRequest)
    else if !Live(s, r.gid) then Outcome(s, NotFound)
    else if r.spec != "" && s.groups[r.gid].specHash == Some(h(r.spec)) then Outcome(s, Done)
    else
      var tag := TagOf(r.version);
      var old' := s.groups[r.gid];
      var g := old'.(name := r.name, protocol := Protocol(r.protocol), commitHash := r.commitHash,
                     version := if tag.Some? then tag.value else old'.version);
      if r.spec != "" then
        PublishVersion(h, parse, s, Publish(r.gid, g, r.service, r.spec, None, tag, true, r.actor, r.commitHash, r.vid), f)
      else if f.row then Outcome(s, Failed)
      else Outcome(s.(groups := s.groups[r.gid := g]), Done)
  }

  function HandleRestore(h: Hash, parse: Parser, s: State, r: Request, f: Faults): Outcome
    requires r.Restore?
  {
    var found := FindVersion(s.versions, r.versionId);
    if !Live(s, r.gid) || found.None? || found.value.groupId != r.gid then Outcome(s, NotFound)
    else
      var v := found.value;
      if f.download || v.specKey !in s.blobs || v.id !in s.snapshots then Outcome(s, Failed)
      else
        var g := s.groups[r.gid].(commitHash := None);
        PublishVersion(h, parse, s,
                       Publish(r.gid, g, r.service, s.blobs[v.specKey], Some(RestoredAll(s.snapshots[v.id], r.actor)),
                               None, true, r.actor, None, r.vid), f)
  }

  function HandleEdit(s: State, r: Request, f: Faults): Outcome
    requires r.EditEndpoint?
  {
    match r.place
    case Working(gid, i) =>
      if gid !in s.working || i >= |s.working[gid]| then Outcome(s, NotFound)
      else
        var es := s.working[gid][i := Patched(s.working[gid][i], r.patch, r.actor)];
        if f.row || !UniqueRoutes(es) then Outcome(s, Failed)
        else Outcome(s.(working := s.working[gid := Listed(es)]), Done)
    case InVersion(vid, i) =>
      if vid !in s.snapshots || i >= |s.snapshots[vid]| then Outcome(s, NotFound)
      else if f.row then Outcome(s, Failed)
      else
        var es := s.snapshots[vid][i := Patched(s.snapshots[vid][i], r.patch, r.actor)];
        Outcome(s.(snapshots := s.snapshots[vid := Listed(es)]), Done)
  }

  function Handle(h: Hash, parse: Parser, s: State, r: Request, f: Faults): Outcome {
    match r
    case Create(gid, service, org, name, version, protocol, spec, actor, vid) =>
      if name == "" then Outcome(s, BadRequest)
      else
        var g := Group(service, org, name, if version == "" then "v1" else version, Protocol(protocol), None, None, None, false);
        HandleNew(h, parse, s, gid, g, Publish(gid, g, service, spec, None, TagOf(version), true, actor, None, vid), f)
    case Update(_, _, _, _, _, _, _, _) => HandleUpdate(h, parse, s, r, f)
    case Sync(_, _, _, _, _, _, _, _, _) => HandleSync(h, parse, s, r, f)
    case SyncNew(gid, service, org, name, version, protocol, spec, commitHash, actor, vid) =>
      if name == "" then Outcome(s, BadRequest)
      else
        var g := Group(service, org, name, if version == "" then "v1" else version, Protocol(protocol), None, None, None, false);
        HandleNew(h, parse, s, gid, g, Publish(gid, g, service, spec, None, TagOf(version), true, actor, commitHash, vid), f)
    case Release(gid, service, tag, spec, actor, vid) =>
      if !Live(s, gid) then Outcome(s, NotFound)
      else
        var g := s.groups[gid].(commitHash := None);
        var t := if tag == Some("") then None else tag;
        PublishVersion(h, parse, s, Publish(gid, g, service, spec, None, t, false, actor, None, vid), f)
    case Restore(_, _, _, _, _) => HandleRestore(h, parse, s, r, f)
    case Delete(gid) =>
      if f.row then Outcome(s, Failed)
      else if !Live(s, gid) then Outcome(s, Done)
      else Outcome(s.(groups := s.groups[gid := s.groups[gid].(deleted := true)]), Done)
    case EditEndpoint(_, _, _) => HandleEdit(s, r, f)
  }

  // ---------- What holds whatever fails ----------

  ghost predicate SpecKeyed(key: string, org: string, gid: string, service: string) {
    SlashFree(service) && key == ApiGroupSpecKey(org, service, gid)
  }

  ghost predicate VersionKeyed(v: GroupVersion, org: string, service: string) {
    SlashFree(service) && v.specKey == ApiGroupVersionSpecKey(org, service, v.groupId, v.id)
  }

  ghost predicate NonEmptyBlob(s: State, key: string) { key in s.blobs && s.blobs[key] != "" }

  ghost predicate GroupSound(s: State, gid: string, g: Group) {
    && SlashFree(gid) && SlashFree(g.orgId)
    && (g.specKey.Some? <==> g.specHash.Some?)
    && (g.specKey.Some? ==>
          (exists service :: SpecKeyed(g.specKey.value, g.orgId, gid, service)) && NonEmptyBlob(s, g.specKey.value))
  }

  ghost predicate VersionSound(s: State, v: GroupVersion) {
    && SlashFree(v.id) && v.groupId in s.groups
    && (exists service :: VersionKeyed(v, s.groups[v.groupId].orgId, service))
    && NonEmptyBlob(s, v.specKey)
    && v.id in s.snapshots && Tidy(s.snapshots[v.id])
  }

  /** Keys and rows fit together, version blobs are there and not empty, each group's versions
      are numbered 1 to n, and lists of endpoints are in order with no route twice. */
  ghost predicate Sound(s: State) {
    && (forall gid :: gid in s.groups ==> GroupSound(s, gid, s.groups[gid]))
    && (forall i :: 0 <= i < |s.versions| ==> VersionSound(s, s.versions[i]))
    && (forall i, j :: 0 <= i < j < |s.versions| ==> s.versions[i].id != s.versions[j].id)
    && WellNumbered(Stamps(s.versions))
    && (forall gid :: gid in s.working ==> gid in s.groups && Tidy(s.working[gid]))
  }

  /** The versions of `s` are in `t` as they were: row, endpoints and blob. */
  ghost predicate KeptIn(s: State, t: State) {
    && s.versions <= t.versions
    && forall i :: 0 <= i < |s.versions| ==> SameVersion(s, t, s.versions[i])
  }

  ghost predicate SameVersion(s: State, t: State, v: GroupVersion) {
    && (v.id in s.snapshots ==> v.id in t.snapshots && t.snapshots[v.id] == s.snapshots[v.id])
    && (v.specKey in s.blobs ==> v.specKey in t.blobs && t.blobs[v.specKey] == s.blobs[v.specKey])
  }

  ghost predicate UnusedVersion(s: State, vid: string) {
    SlashFree(vid) && forall i :: 0 <= i < |s.versions| ==> s.versions[i].id != vid
  }

  lemma {:induction false} KeptTrans(s: State, t: State, u: State)
    requires Sound(s) && KeptIn(s, t) && KeptIn(t, u)
    ensures KeptIn(s, u)
  {
    hide Sound, Tidy;
    forall i | 0 <= i < |s.versions| ensures SameVersion(s, u, s.versions[i]) {
      assert SameVersion(s, t, s.versions[i]);
      assert t.versions[i] == s.versions[i];
      assert SameVersion(t, u, t.versions[i]);
    }
  }

  lemma {:induction false} KeptSelf(s: State)
    ensures KeptIn(s, s)
  {
  }

  // ---------- One change at a time ----------

  /** Uploading to a group's spec key, or to the key of an unused version, disturbs no version. */
  lemma {:induction false} UploadIsSafe(s: State, slot: Slot, content: string)
    requires Sound(s) && Clean(slot) && content != ""
    requires slot.Spec? || (slot.VersionSpec? && UnusedVersion(s, slot.version))
    ensures Sound(s.(blobs := s.blobs[KeyOf(slot) := content]))
    ensures KeptIn(s, s.(blobs := s.blobs[KeyOf(slot) := content]))
  {
    hide Tidy, WellNumbered, Stamps;
    var t := s.(blobs := s.blobs[KeyOf(slot) := content]);
    forall gid | gid in t.groups ensures GroupSound(t, gid, t.groups[gid]) { assert GroupSound(s, gid, s.groups[gid]); }
    forall i | 0 <= i < |t.versions| ensures VersionSound(t, t.versions[i]) && SameVersion(s, t, s.versions[i]) {
      VersionKeyIsNot(s, s.versions[i], slot);
    }
  }

  lemma {:induction false} VersionKeyIsNot(s: State, v: GroupVersion, slot: Slot)
    requires Sound(s) && v in s.versions && Clean(slot)
    requires slot.Spec? || (slot.VersionSpec? && UnusedVersion(s, slot.version))
    ensures VersionSound(s, v) && v.specKey != KeyOf(slot)
  {
    hide Tidy, WellNumbered, Stamps;
    var i :| 0 <= i < |s.versions| && s.versions[i] == v;
    assert VersionSound(s, v);
    assert GroupSound(s, v.groupId, s.groups[v.groupId]);
    var org := s.groups[v.groupId].orgId;
    var service :| VersionKeyed(v, org, service);
    if v.specKey == KeyOf(slot) { KeysDiffer(VersionSpec(org, service, v.groupId, v.id), slot); }
  }

  /** Writing a sound group row disturbs no version. */
  lemma {:induction false} RowIsSafe(s: State, gid: string, g: Group)
    requires Sound(s) && GroupSound(s, gid, g)
    requires gid in s.groups ==> g.orgId == s.groups[gid].orgId
    ensures Sound(s.(groups := s.groups[gid := g])) && KeptIn(s, s.(groups := s.groups[gid := g]))
  {
    hide Tidy, WellNumbered, Stamps, ApiGroupSpecKey, ApiGroupVersionSpecKey;
    var t := s.(groups := s.groups[gid := g]);
    forall x | x in t.groups ensures GroupSound(t, x, t.groups[x]) { if x != gid { assert GroupSound(s, x, s.groups[x]); } }
    forall i | 0 <= i < |t.versions| ensures VersionSound(t, t.versions[i]) {
      var v := s.versions[i];
      assert VersionSound(s, v);
      var service :| VersionKeyed(v, s.groups[v.groupId].orgId, service);
      assert VersionKeyed(v, t.groups[v.groupId].orgId, service);
    }
  }

  lemma {:induction false} WorkingIsSafe(s: State, gid: string, es: seq<Endpoint>)
    requires Sound(s) && gid in s.groups && Tidy(es)
    ensures Sound(s.(working := s.working[gid := es])) && KeptIn(s, s.(working := s.working[gid := es]))
  {
    hide Tidy, WellNumbered, Stamps, ApiGroupSpecKey, ApiGroupVersionSpecKey;
    var t := s.(working := s.working[gid := es]);
    forall x | x in t.groups ensures GroupSound(t, x, t.groups[x]) { assert GroupSound(s, x, s.groups[x]); }
    forall i | 0 <= i < |t.versions| ensures VersionSound(t, t.versions[i]) { assert VersionSound(s, s.versions[i]); }
  }

  lemma {:induction false} StampsStep(vs: seq<GroupVersion>, v: GroupVersion)
    requires WellNumbered(Stamps(vs)) && v.number == Latest(Stamps(vs), v.groupId) + 1
    ensures WellNumbered(Stamps(vs + [v]))
    ensures Numbers(Stamps(vs + [v]), v.groupId) == Numbers(Stamps(vs), v.groupId) + [v.number]
  {
    assert (vs + [v])[..|vs|] == vs;
    NextNumber(Stamps(vs), Stamp(v.groupId, v.number));
  }

  /** Inserting the next version with its endpoints disturbs no version. */
  lemma {:induction false} InsertIsSafe(s: State, v: GroupVersion, es: seq<Endpoint>)
    requires Sound(s) && UnusedVersion(s, v.id) && v.groupId in s.groups
    requires (exists service :: VersionKeyed(v, s.groups[v.groupId].orgId, service)) && NonEmptyBlob(s, v.specKey)
    requires v.number == Latest(Stamps(s.versions), v.groupId) + 1 && Tidy(es)
    ensures Sound(s.(versions := s.versions + [v], snapshots := s.snapshots[v.id := es]))
    ensures KeptIn(s, s.(versions := s.versions + [v], snapshots := s.snapshots[v.id := es]))
  {
    hide Tidy, WellNumbered, Stamps, Latest, ApiGroupSpecKey, ApiGroupVersionSpecKey;
    StampsStep(s.versions, v);
    var t := s.(versions := s.versions + [v], snapshots := s.snapshots[v.id := es]);
    forall x | x in t.groups ensures GroupSound(t, x, t.groups[x]) { assert GroupSound(s, x, s.groups[x]); }
    forall i | 0 <= i < |t.versions| ensures VersionSound(t, t.versions[i]) {
      if i < |s.versions| { assert VersionSound(s, s.versions[i]); }
    }
  }

  // ---------- Publishing ----------

  /** What a handler passes to a publish. */
  ghost predicate PublishOk(s: State, p: Publish) {
    && p.gid in s.groups && p.group.orgId == s.groups[p.gid].orgId
    && GroupSound(s, p.gid, p.group)
    && SlashFree(p.service) && UnusedVersion(s, p.vid)
  }

  lemma {:induction false} SnapshotIsTidy(es: seq<Endpoint>, vid: string, actor: string)
    requires Tidy(es)
    ensures Tidy(Snapshot(es, vid, actor))
  {
  }

  /** Every pair of rows has two different places in the sorted list. */
  lemma {:induction false} ListedIsTidy(es: seq<Endpoint>)
    requires UniqueRoutes(es)
    ensures Tidy(Listed(es))
  {
    StableOrders(es, OrderOf);
    RoutesOfPermutation(es, Listed(es));
  }

  lemma {:induction false} RoutesOfPermutation(es: seq<Endpoint>, r: seq<Endpoint>)
    requires UniqueRoutes(es) && multiset(r) == multiset(es)
    ensures UniqueRoutes(r)
  {
    forall e ensures multiset(es)[e] <= 1 { CountOfUnique(es, e); }
    MultisetDistinct(r);
    MultisetMembers(es, r);
    forall i, j | 0 <= i < j < |r| ensures r[i].verb != r[j].verb || r[i].path != r[j].path {
      assert r[i] in es && r[j] in es;
      var a :| 0 <= a < |es| && es[a] == r[i];
      var b :| 0 <= b < |es| && es[b] == r[j];
      assert a != b;
    }
  }

  lemma {:induction false} CountOfUnique(es: seq<Endpoint>, e: Endpoint)
    requires UniqueRoutes(es)
    ensures multiset(es)[e] <= 1
  {
    assert Distinct(es);
    DistinctMultiset(es, e);
  }

  lemma {:induction false} WorkingIsTidy(s: State, gid: string)
    requires Sound(s)
    ensures Tidy(WorkingOf(s, gid))
  {
  }

  /** The transaction keeps everything sound and touches no other version. */
  lemma {:induction false} CommitIsSafe(s: State, p: Publish, g: Group, es: Option<seq<Endpoint>>, v: GroupVersion)
    requires Sound(s) && p.gid in s.groups && GroupSound(s, p.gid, g) && g.orgId == s.groups[p.gid].orgId
    requires UnusedVersion(s, p.vid) && v.id == p.vid && v.groupId == p.gid
    requires (exists service :: VersionKeyed(v, g.orgId, service)) && NonEmptyBlob(s, v.specKey)
    requires v.number == Latest(Stamps(s.versions), p.gid) + 1
    requires es.Some? ==> UniqueRoutes(es.value)
    ensures Sound(Commit(s, p, g, es, v)) && KeptIn(s, Commit(s, p, g, es, v))
  {
    WorkingIsTidy(s, p.gid);
    var working := if es.Some? then Listed(es.value) else WorkingOf(s, p.gid);
    if es.Some? { ListedIsTidy(es.value); }
    SnapshotIsTidy(working, p.vid, p.actor);
    hide Sound, Tidy, Listed, UniqueRoutes, KeptIn, Snapshot, ApiGroupSpecKey, ApiGroupVersionSpecKey, Stamps;
    var s1 := s.(working := s.working[p.gid := working]);
    WorkingIsSafe(s, p.gid, working);
    var s2 := s1.(versions := s1.versions + [v], snapshots := s1.snapshots[v.id := Snapshot(working, p.vid, p.actor)]);
    InsertIsSafe(s1, v, Snapshot(working, p.vid, p.actor));
    KeptTrans(s, s1, s2);
    var row := g.(version := v.tag);
    RowIsSafe(s2, p.gid, row);
    KeptTrans(s, s2, s2.(groups := s2.groups[p.gid := row]));
    assert Commit(s, p, g, es, v) == s2.(groups := s2.groups[p.gid := row]);
  }

  /** Blobs that are not empty stay so when others are added. */
  lemma {:induction false} GroupSoundWith(s: State, t: State, gid: string, g: Group)
    requires GroupSound(s, gid, g) && forall key :: NonEmptyBlob(s, key) ==> NonEmptyBlob(t, key)
    ensures GroupSound(t, gid, g)
  {
  }

  lemma {:induction false} PublishSpecIsSafe(h: Hash, parse: Parser, s: State, p: Publish, f: Faults)
    requires Sound(s) && PublishOk(s, p) && p.spec != ""
    ensures var t := PublishSpec(h, parse, s, p, f).state; Sound(t) && KeptIn(s, t)
  {
    hide Sound, KeptIn, UniqueRoutes, Commit, Decimal, Installed, Stamps;
    var org := p.group.orgId;
    KeptSelf(s);
    var wKey := ApiGroupSpecKey(org, p.service, p.gid);
    var vKey := ApiGroupVersionSpecKey(org, p.service, p.gid, p.vid);
    var s1 := s.(blobs := s.blobs[wKey := p.spec]);
    UploadIsSafe(s, Spec(org, p.service, p.gid), p.spec);
    var s2 := s1.(blobs := s1.blobs[vKey := p.spec]);
    UploadIsSafe(s1, VersionSpec(org, p.service, p.gid, p.vid), p.spec);
    KeptTrans(s, s1, s2);
    var g := p.group.(specKey := Some(wKey), specHash := Some(h(p.spec)));
    assert SpecKeyed(wKey, org, p.gid, p.service);
    var parsed := if p.endpoints.Some? then p.endpoints else parse(p.spec, p.group.protocol);
    if parsed.Some? {
      var es := Installed(s, p, parsed.value, f.list);
      var v := Numbered(s, p, vKey, h(p.spec));
      assert VersionKeyed(v, org, p.service);
      if UniqueRoutes(es) {
        CommitIsSafe(s2, p, g, Some(es), v);
        KeptTrans(s, s2, Commit(s2, p, g, Some(es), v));
      }
    }
  }

  lemma {:induction false} PublishAsIsIsSafe(s: State, p: Publish, f: Faults)
    requires Sound(s) && PublishOk(s, p)
    ensures var t := PublishAsIs(s, p, f).state; Sound(t) && KeptIn(s, t)
  {
    hide Sound, KeptIn, UniqueRoutes, Commit, Decimal, Installed, Stamps;
    KeptSelf(s);
    if p.group.specKey.Some? && p.group.specHash.Some? && !f.download && !f.uploadVersion {
      var org := p.group.orgId;
      var vKey := ApiGroupVersionSpecKey(org, p.service, p.gid, p.vid);
      var content := s.blobs[p.group.specKey.value];
      var s1 := s.(blobs := s.blobs[vKey := content]);
      UploadIsSafe(s, VersionSpec(org, p.service, p.gid, p.vid), content);
      var es := if p.endpoints.Some? then Some(Installed(s, p, p.endpoints.value, f.list)) else None;
      var v := Numbered(s, p, vKey, p.group.specHash.value);
      assert VersionKeyed(v, org, p.service);
      GroupSoundWith(s, s1, p.gid, p.group);
      if es.None? || UniqueRoutes(es.value) {
        CommitIsSafe(s1, p, p.group, es, v);
        KeptTrans(s, s1, Commit(s1, p, p.group, es, v));
      }
    }
  }

  lemma {:induction false} PublishIsSafe(h: Hash, parse: Parser, s: State, p: Publish, f: Faults)
    requires Sound(s) && PublishOk(s, p)
    ensures var t := PublishVersion(h, parse, s, p, f).state; Sound(t) && KeptIn(s, t)
  {
    hide PublishSpec, PublishAsIs, Sound, KeptIn, PublishOk;
    if p.spec != "" { PublishSpecIsSafe(h, parse, s, p, f); } else { PublishAsIsIsSafe(s, p, f); }
  }

  // ---------- Requests and runs ----------

  /** Ids that a request makes up are new, path ids have no slashes, and endpoint edits address
      rows of the working copy. */
  ghost predicate Proper(s: State, r: Request) {
    match r
    case Create(gid, service, org, _, _, _, _, _, vid) =>
      gid !in s.groups && SlashFree(gid) && SlashFree(service) && SlashFree(org) && UnusedVersion(s, vid)
    case SyncNew(gid, service, org, _, _, _, _, _, _, vid) =>
      gid !in s.groups && SlashFree(gid) && SlashFree(service) && SlashFree(org) && UnusedVersion(s, vid)
    case Update(_, service, _, _, _, _, _, vid) => SlashFree(service) && UnusedVersion(s, vid)
    case Sync(_, service, _, _, _, _, _, _, vid) => SlashFree(service) && UnusedVersion(s, vid)
    case Release(_, service, _, _, _, vid) => SlashFree(service) && UnusedVersion(s, vid)
    case Restore(_, service, _, _, vid) => SlashFree(service) && UnusedVersion(s, vid)
    case Delete(_) => true
    case EditEndpoint(place, _, _) => place.Working?
  }

  lemma {:induction false} RowSound(s: State, gid: string)
    requires Sound(s) && gid in s.groups
    ensures GroupSound(s, gid, s.groups[gid])
  {
  }

  /** Handlers change no column that the row's soundness depends on. */
  lemma {:induction false} EditedRowSound(s: State, gid: string, g: Group)
    requires Sound(s) && gid in s.groups
    requires g.orgId == s.groups[gid].orgId && g.specKey == s.groups[gid].specKey && g.specHash == s.groups[gid].specHash
    ensures GroupSound(s, gid, g)
  {
    RowSound(s, gid);
  }

  lemma {:induction false} EditedPublishOk(s: State, p: Publish)
    requires Sound(s) && p.gid in s.groups && SlashFree(p.service) && UnusedVersion(s, p.vid)
    requires p.group.orgId == s.groups[p.gid].orgId
    requires p.group.specKey == s.groups[p.gid].specKey && p.group.specHash == s.groups[p.gid].specHash
    ensures PublishOk(s, p)
  {
    hide Sound, UnusedVersion;
    EditedRowSound(s, p.gid, p.group);
  }

  lemma {:induction false} HandleNewIsSafe(h: Hash, parse: Parser, s: State, gid: string, g: Group, p: Publish, f: Faults)
    requires Sound(s) && gid !in s.groups && SlashFree(gid) && SlashFree(g.orgId) && g.specKey.None? && g.specHash.None?
    requires p.gid == gid && p.group == g && SlashFree(p.service) && UnusedVersion(s, p.vid)
    ensures var t := HandleNew(h, parse, s, gid, g, p, f).state; Sound(t) && KeptIn(s, t)
  {
    hide Sound, KeptIn, PublishVersion;
    KeptSelf(s);
    var s1 := s.(groups := s.groups[gid := g]);
    RowIsSafe(s, gid, g);
    if p.spec != "" {
      PublishIsSafe(h, parse, s1, p, f);
      KeptTrans(s, s1, PublishVersion(h, parse, s1, p, f).state);
    }
  }

  lemma {:induction false} UpdateIsSafe(h: Hash, parse: Parser, s: State, r: Request, f: Faults)
    requires r.Update? && Sound(s) && Proper(s, r)
    ensures var t := HandleUpdate(h, parse, s, r, f).state; Sound(t) && KeptIn(s, t)
  {
    hide Sound, KeptIn, PublishVersion, GroupSound;
    KeptSelf(s);
    if Live(s, r.gid) {
      var old' := s.groups[r.gid];
      var g := old'.(name := if r.newName.Some? then r.newName.value else old'.name,
                     version := if r.newVersion.Some? then r.newVersion.value else old'.version,
                     protocol := if r.newProtocol.Some? then r.newProtocol.value else old'.protocol,
                     commitHash := None);
      EditedRowSound(s, r.gid, g);
      RowIsSafe(s, r.gid, g);
      if r.newSpec.Some? {
        var tag := if r.newVersion.Some? then TagOf(r.newVersion.value) else None;
        PublishIsSafe(h, parse, s, Publish(r.gid, g, r.service, r.newSpec.value, None, tag, true, r.actor, None, r.vid), f);
      }
    }
  }

  lemma {:induction false} SyncIsSafe(h: Hash, parse: Parser, s: State, r: Request, f: Faults)
    requires r.Sync? && Sound(s) && Proper(s, r)
    ensures var t := HandleSync(h, parse, s, r, f).state; Sound(t) && KeptIn(s, t)
  {
    hide Sound, KeptIn, PublishVersion, GroupSound;
    KeptSelf(s);
    if Live(s, r.gid) {
      var tag := TagOf(r.version);
      var old' := s.groups[r.gid];
      var g := old'.(name := r.name, protocol := Protocol(r.protocol), commitHash := r.commitHash,
                     version := if tag.Some? then tag.value else old'.version);
      EditedRowSound(s, r.gid, g);
      RowIsSafe(s, r.gid, g);
      PublishIsSafe(h, parse, s, Publish(r.gid, g, r.service, r.spec, None, tag, true, r.actor, r.commitHash, r.vid), f);
    }
  }

  lemma {:induction false} RestoreIsSafe(h: Hash, parse: Parser, s: State, r: Request, f: Faults)
    requires r.Restore? && Sound(s) && Proper(s, r)
    ensures var t := HandleRestore(h, parse, s, r, f).state; Sound(t) && KeptIn(s, t)
  {
    hide Sound, KeptIn, PublishVersion, GroupSound, FindVersion;
    KeptSelf(s);
    var found := FindVersion(s.versions, r.versionId);
    if Live(s, r.gid) && found.Some? && found.value.specKey in s.blobs && found.value.id in s.snapshots {
      var v := found.value;
      var g := s.groups[r.gid].(commitHash := None);
      EditedRowSound(s, r.gid, g);
      PublishIsSafe(h, parse, s,
                    Publish(r.gid, g, r.service, s.blobs[v.specKey], Some(RestoredAll(s.snapshots[v.id], r.actor)),
                            None, true, r.actor, None, r.vid), f);
    }
  }

  /** Whatever the request and whichever of its calls fail, rows, keys, numbers and routes stay
      sound, and every published version keeps its row, its endpoints and its blob. */
  lemma {:induction false} HandleIsSafe(h: Hash, parse: Parser, s: State, r: Request, f: Faults)
    requires Sound(s) && Proper(s, r)
    ensures var t := Handle(h, parse, s, r, f).state; Sound(t) && KeptIn(s, t)
  {
    hide Sound, KeptIn, PublishVersion, GroupSound, HandleNew, HandleUpdate, HandleSync, HandleRestore, UniqueRoutes;
    KeptSelf(s);
    match r
    case Create(gid, service, org, name, version, protocol, spec, actor, vid) =>
      var g := Group(service, org, name, if version == "" then "v1" else version, Protocol(protocol), None, None, None, false);
      HandleNewIsSafe(h, parse, s, gid, g, Publish(gid, g, service, spec, None, TagOf(version), true, actor, None, vid), f);
    case SyncNew(gid, service, org, name, version, protocol, spec, commitHash, actor, vid) =>
      var g := Group(service, org, name, if version == "" then "v1" else version, Protocol(protocol), None, None, None, false);
      HandleNewIsSafe(h, parse, s, gid, g, Publish(gid, g, service, spec, None, TagOf(version), true, actor, commitHash, vid), f);
    case Update(_, _, _, _, _, _, _, _) => UpdateIsSafe(h, parse, s, r, f);
    case Sync(_, _, _, _, _, _, _, _, _) => SyncIsSafe(h, parse, s, r, f);
    case Release(gid, service, tag, spec, actor, vid) =>
      if Live(s, gid) {
        var g := s.groups[gid].(commitHash := None);
        EditedRowSound(s, gid, g);
        var t := if tag == Some("") then None else tag;
        PublishIsSafe(h, parse, s, Publish(gid, g, service, spec, None, t, false, actor, None, vid), f);
      }
    case Restore(_, _, _, _, _) => RestoreIsSafe(h, parse, s, r, f);
    case Delete(gid) =>
      if Live(s, gid) {
        EditedRowSound(s, gid, s.groups[gid].(deleted := true));
        RowIsSafe(s, gid, s.groups[gid].(deleted := true));
      }
    case EditEndpoint(place, patch, actor) => EditIsSafe(s, r, f);
  }

  lemma {:induction false} EditIsSafe(s: State, r: Request, f: Faults)
    requires r.EditEndpoint? && r.place.Working? && Sound(s)
    ensures var t := HandleEdit(s, r, f).state; Sound(t) && KeptIn(s, t)
  {
    WorkingHasGroup(s, r.place.gid);
    hide Sound, KeptIn, UniqueRoutes, Patched;
    KeptSelf(s);
    var gid, i := r.place.gid, r.place.index;
    if gid in s.working && i < |s.working[gid]| {
      var es := s.working[gid][i := Patched(s.working[gid][i], r.patch, r.actor)];
      if UniqueRoutes(es) {
        ListedIsTidy(es);
        WorkingIsSafe(s, gid, Listed(es));
      }
    }
  }

  lemma {:induction false} WorkingHasGroup(s: State, gid: string)
    requires Sound(s)
    ensures gid in s.working ==> gid in s.groups
  {
  }

  function Run(h: Hash, parse: Parser, s: State, steps: seq<(Request, Faults)>): State {
    if steps == [] then s
    else
      var last := steps[|steps| - 1];
      Handle(h, parse, Run(h, parse, s, steps[..|steps| - 1]), last.0, last.1).state
  }

  ghost predicate ProperRun(h: Hash, parse: Parser, s: State, steps: seq<(Request, Faults)>) {
    forall i :: 0 <= i < |steps| ==> Proper(Run(h, parse, s, steps[..i]), steps[i].0)
  }

  lemma {:induction false} ProperPrefix(h: Hash, parse: Parser, s: State, steps: seq<(Request, Faults)>)
    requires steps != [] && ProperRun(h, parse, s, steps)
    ensures ProperRun(h, parse, s, steps[..|steps| - 1])
    ensures Proper(Run(h, parse, s, steps[..|steps| - 1]), steps[|steps| - 1].0)
  {
    hide Run, Proper;
    var init := steps[..|steps| - 1];
    forall i | 0 <= i < |init| ensures Proper(Run(h, parse, s, init[..i]), init[i].0) {
      assert init[..i] == steps[..i];
      assert Proper(Run(h, parse, s, steps[..i]), steps[i].0);
    }
  }

  /** Over every run, with any calls failing, published versions never change and numbers stay
      1 to n. */
  lemma {:induction false} RunIsSafe(h: Hash, parse: Parser, s: State, steps: seq<(Request, Faults)>)
    requires Sound(s) && ProperRun(h, parse, s, steps)
    ensures var t := Run(h, parse, s, steps); Sound(t) && KeptIn(s, t)
  {
    hide Sound, KeptIn, Proper, Handle;
    if steps == [] {
      KeptSelf(s);
    } else {
      var last := |steps| - 1;
      ProperPrefix(h, parse, s, steps);
      RunIsSafe(h, parse, s, steps[..last]);
      var t := Run(h, parse, s, steps[..last]);
      HandleIsSafe(h, parse, t, steps[last].0, steps[last].1);
      KeptTrans(s, t, Handle(h, parse, t, steps[last].0, steps[last].1).state);
    }
  }
}
