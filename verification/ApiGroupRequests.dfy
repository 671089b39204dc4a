/** What each request to an API group leaves behind, column by column. */
module ApiGroupRequests {
  import opened Text
  import opened StorageKeys
  import opened VersionNumbers
  import opened EndpointSla
  import opened StableSort
  import opened ApiGroups
  import opened ApiGroupHashes
  import opened ApiGroupRestores

  // ---------- What changes and what does not ----------

  ghost predicate OtherGroupsSame(s: State, t: State, gid: string) {
    forall g :: g != gid ==> (g in t.groups <==> g in s.groups) && (g in s.groups ==> t.groups[g] == s.groups[g])
  }

  ghost predicate OtherEndpointsSame(s: State, t: State, gid: string) {
    forall g :: g != gid ==> WorkingOf(t, g) == WorkingOf(s, g)
  }

  ghost predicate OtherSnapshotsSame(s: State, t: State, vid: string) {
    forall v :: v != vid ==> (v in t.snapshots <==> v in s.snapshots) && (v in s.snapshots ==> t.snapshots[v] == s.snapshots[v])
  }

  ghost predicate BlobsSameBut(s: State, t: State, keys: set<string>) {
    forall key :: key !in keys ==> (key in t.blobs <==> key in s.blobs) && (key in s.blobs ==> t.blobs[key] == s.blobs[key])
  }

  ghost predicate OnlyBlobs(s: State, t: State, keys: set<string>) {
    t.groups == s.groups && t.versions == s.versions && t.working == s.working && t.snapshots == s.snapshots && BlobsSameBut(s, t, keys)
  }

  /** A row of a version: the working row, with the version's id and who released it. */
  ghost predicate CopiedRow(r: Endpoint, e: Endpoint, vid: string, actor: string) {
    && r.operationId == e.operationId && r.verb == e.verb && r.path == e.path && r.body == e.body && r.order == e.order
    && r.sla == e.sla && r.createdBy == e.createdBy && r.commitHash == e.commitHash
    && r.versionId == Some(vid) && r.updatedBy == Some(actor)
  }

  ghost function Added(s: State, t: State): GroupVersion
    requires |t.versions| > |s.versions|
  {
    t.versions[|s.versions|]
  }

  /** There is one version more: the group's next one, named as given or after its number, with a copy
      of the working endpoints and with this spec in its blob. */
  ghost predicate AddsVersion(s: State, t: State, gid: string, vid: string, actor: string, tag: Option<string>, spec: string) {
    && |t.versions| == |s.versions| + 1 && t.versions[..|s.versions|] == s.versions
    && var v := Added(s, t);
    && v.id == vid && v.groupId == gid && v.number == CountOf(s.versions, gid, StampOf) + 1
    && (tag != None ==> Some(v.tag) == tag) && (tag == None ==> v.tag == "v" + Decimal(v.number))
    && v.specKey in t.blobs && t.blobs[v.specKey] == spec
    && vid in t.snapshots && |t.snapshots[vid]| == |WorkingOf(t, gid)|
    && (forall k :: 0 <= k < |t.snapshots[vid]| ==> CopiedRow(t.snapshots[vid][k], WorkingOf(t, gid)[k], vid, actor))
    && OtherSnapshotsSame(s, t, vid)
  }

  lemma {:induction false} NextIsCount(s: State, gid: string)
    requires Sound(s)
    ensures Latest(Stamps(s.versions), gid) == CountOf(s.versions, gid, StampOf)
  {
    hide Sound, Latest, Numbers, StampsOf, CountOf;
    NumbersCount(s, gid);
    CountIsNumbers(s.versions, gid, StampOf);
  }

  lemma {:induction false} CommitAdds(s: State, s1: State, p: Publish, g: Group, es: Option<seq<Endpoint>>, v: GroupVersion, spec: string)
    requires s1 == s.(blobs := s1.blobs) && v.id == p.vid && v.groupId == p.gid && v.number == CountOf(s.versions, p.gid, StampOf) + 1
    requires v.specKey in s1.blobs && s1.blobs[v.specKey] == spec
    requires p.tag != None ==> Some(v.tag) == p.tag
    requires p.tag == None ==> v.tag == "v" + Decimal(v.number)
    ensures var t := Commit(s1, p, g, es, v);
      && AddsVersion(s, t, p.gid, p.vid, p.actor, p.tag, spec) && Added(s, t) == v
      && WorkingOf(t, p.gid) == (if es == None then WorkingOf(s, p.gid) else Listed(es.value))
      && OtherEndpointsSame(s, t, p.gid) && OtherGroupsSame(s, t, p.gid) && t.blobs == s1.blobs
      && p.gid in t.groups && t.groups[p.gid] == g.(version := v.tag)
  {
    hide CountOf, Decimal, Listed;
  }

  // ---------- A release of the working copy ----------

  /** Whether the working copy can be released as it is. */
  predicate HasSpec(s: State, g: Group) {
    g.specKey.Some? && g.specHash.Some? && g.specKey.value in s.blobs
  }

  /** A release without a spec makes the working copy the group's next version, and leaves its
      endpoints and its spec as they are. */
  lemma {:induction false} ReleaseLeaves(h: Hash, parse: Parser, s: State, r: Request, f: Faults)
    requires Sound(s) && r.Release? && Proper(s, r) && r.spec == ""
    ensures var o := Handle(h, parse, s, r, f);
      var t := o.state;
      && (!Live(s, r.gid) ==> o.status == NotFound && t == s)
      && (Live(s, r.gid) ==>
            var g := s.groups[r.gid];
            if HasSpec(s, g) && !f.download && !f.uploadVersion && !f.commit then
              && o.status == Done
              && AddsVersion(s, t, r.gid, r.vid, r.actor, if r.tag == Some("") then None else r.tag, s.blobs[g.specKey.value])
              && var v := Added(s, t);
              && Some(v.specHash) == g.specHash && !v.isAuto && v.commitHash == None
              && WorkingOf(t, r.gid) == WorkingOf(s, r.gid) && OtherEndpointsSame(s, t, r.gid)
              && BlobsSameBut(s, t, {v.specKey}) && g.specKey.value in t.blobs && t.blobs[g.specKey.value] == s.blobs[g.specKey.value]
              && r.gid in t.groups && t.groups[r.gid] == g.(version := v.tag, commitHash := None) && OtherGroupsSame(s, t, r.gid)
            else
              o.status == Failed && OnlyBlobs(s, t, {ApiGroupVersionSpecKey(g.orgId, r.service, r.gid, r.vid)}))
  {
    hide Sound, Proper, PublishAsIs, ApiGroupVersionSpecKey, CountOf, Decimal, AddsVersion, OtherEndpointsSame, OtherGroupsSame, BlobsSameBut;
    if Live(s, r.gid) {
      var g := s.groups[r.gid].(commitHash := None);
      var t := if r.tag == Some("") then None else r.tag;
      var p := Publish(r.gid, g, r.service, r.spec, None, t, false, r.actor, None, r.vid);
      assert Handle(h, parse, s, r, f) == PublishAsIs(s, p, f);
      ReleaseOk(s, r);
      AsIsLeaves(s, p, f);
    }
  }

  lemma {:induction false} ReleaseOk(s: State, r: Request)
    requires Sound(s) && r.Release? && Proper(s, r) && Live(s, r.gid)
    ensures var g := s.groups[r.gid];
      && SlashFree(r.service) && SlashFree(r.vid) && SlashFree(r.gid) && SlashFree(g.orgId)
      && (g.specKey.Some? ==> g.specKey.value != ApiGroupVersionSpecKey(g.orgId, r.service, r.gid, r.vid))
  {
    RowSound(s, r.gid);
    var g := s.groups[r.gid];
    hide Sound;
    if g.specKey.Some? {
      SpecKeyIsNoVersion(s, r.gid, g, Publish(r.gid, g, r.service, r.spec, None, None, false, r.actor, None, r.vid));
    }
  }

  lemma {:induction false} AsIsLeaves(s: State, p: Publish, f: Faults)
    requires Sound(s) && p.endpoints == None
    requires var vKey := ApiGroupVersionSpecKey(p.group.orgId, p.service, p.gid, p.vid); p.group.specKey.Some? ==> p.group.specKey.value != vKey
    ensures var o := PublishAsIs(s, p, f);
      var t := o.state;
      var g := p.group;
      var vKey := ApiGroupVersionSpecKey(g.orgId, p.service, p.gid, p.vid);
      && if HasSpec(s, g) && !f.download && !f.uploadVersion && !f.commit then
           && o.status == Done
           && AddsVersion(s, t, p.gid, p.vid, p.actor, p.tag, s.blobs[g.specKey.value])
           && var v := Added(s, t);
           && Some(v.specHash) == g.specHash && v.isAuto == p.isAuto && v.commitHash == p.commitHash
           && WorkingOf(t, p.gid) == WorkingOf(s, p.gid) && OtherEndpointsSame(s, t, p.gid)
           && BlobsSameBut(s, t, {v.specKey}) && g.specKey.value in t.blobs && t.blobs[g.specKey.value] == s.blobs[g.specKey.value]
           && p.gid in t.groups && t.groups[p.gid] == g.(version := v.tag) && OtherGroupsSame(s, t, p.gid)
         else o.status == Failed && OnlyBlobs(s, t, {vKey})
  {
    NextIsCount(s, p.gid);
    hide Sound, Latest, Stamps, Commit, ApiGroupVersionSpecKey, CountOf, Decimal, AddsVersion, OtherEndpointsSame, OtherGroupsSame, Installed;
    var vKey := ApiGroupVersionSpecKey(p.group.orgId, p.service, p.gid, p.vid);
    if HasSpec(s, p.group) {
      var content := s.blobs[p.group.specKey.value];
      var s1 := s.(blobs := s.blobs[vKey := content]);
      var v := Numbered(s, p, vKey, p.group.specHash.value);
      CommitAdds(s, s1, p, p.group, None, v, content);
    }
  }

  // ---------- Publishing a spec ----------

  /** A new endpoint in the working copy: stamped with the commit, and with the SLA of the last
      endpoint before under its key that has one, if they could be listed. */
  ghost predicate PublishedRow(w: Endpoint, e: Endpoint, before: seq<Endpoint>, commitHash: Option<string>, listFails: bool) {
    && w.operationId == e.operationId && w.verb == e.verb && w.path == e.path && w.body == e.body && w.order == e.order
    && w.createdBy == e.createdBy && w.updatedBy == e.updatedBy && w.versionId == e.versionId
    && w.commitHash == commitHash
    && (forall k: nat :: LastAt(before, SlaKey(e), k) && !listFails ==> w.sla == before[k].sla)
    && (listFails || (forall k: nat :: !LastAt(before, SlaKey(e), k)) ==> w.sla == e.sla)
  }

  /** The working copy has these endpoints, in order. */
  ghost predicate Installs(ws: seq<Endpoint>, es: seq<Endpoint>, before: seq<Endpoint>, commitHash: Option<string>, listFails: bool) {
    && OrderedBy(ws, OrderOf)
    && exists rows: seq<Endpoint> ::
         && |rows| == |es| && multiset(ws) == multiset(rows) && (OrderedBy(es, OrderOf) ==> ws == rows)
         && forall k :: 0 <= k < |es| ==> PublishedRow(rows[k], es[k], before, commitHash, listFails)
  }

  lemma {:induction false} InstalledRow(before: seq<Endpoint>, e: Endpoint, commitHash: Option<string>, listFails: bool)
    ensures var stamped := e.(commitHash := commitHash);
      PublishedRow(if listFails then stamped else WithSla(before, stamped), e, before, commitHash, listFails)
  {
    var key := SlaKey(e);
    assert SlaKey(e.(commitHash := commitHash)) == key;
    forall k: nat | LastAt(before, key, k) ensures LastSla(before, key) == before[k].sla && before[k].sla.Some? { LastSlaAt(before, key, k); }
    if LastSla(before, key).Some? { LastSlaFound(before, key); }
    hide LastSla, SlaKey, LastAt;
  }

  lemma {:induction false} InstalledInstalls(s: State, p: Publish, es: seq<Endpoint>, listFails: bool)
    ensures Installs(Listed(Installed(s, p, es, listFails)), es, WorkingOf(s, p.gid), p.commitHash, listFails)
    ensures UniqueRoutes(Installed(s, p, es, listFails)) <==> UniqueRoutes(es)
  {
    hide StableBy, OrderedBy, PublishedRow, WithSla;
    var rows := Installed(s, p, es, listFails);
    var before := WorkingOf(s, p.gid);
    forall k | 0 <= k < |es| ensures PublishedRow(rows[k], es[k], before, p.commitHash, listFails) {
      InstalledRow(before, es[k], p.commitHash, listFails);
    }
    StableOrders(rows, OrderOf);
    SameRows(rows, es, before, p.commitHash, listFails);
    if OrderedBy(es, OrderOf) { StableOfOrdered(rows, OrderOf); }
  }

  lemma {:induction false} SameRows(rows: seq<Endpoint>, es: seq<Endpoint>, before: seq<Endpoint>, commitHash: Option<string>, listFails: bool)
    requires |rows| == |es| && forall k :: 0 <= k < |es| ==> PublishedRow(rows[k], es[k], before, commitHash, listFails)
    ensures UniqueRoutes(rows) <==> UniqueRoutes(es)
    ensures OrderedBy(es, OrderOf) ==> OrderedBy(rows, OrderOf)
  {
    hide LastAt, SlaKey;
    forall k | 0 <= k < |es| ensures rows[k].verb == es[k].verb && rows[k].path == es[k].path && rows[k].order == es[k].order {
      assert PublishedRow(rows[k], es[k], before, commitHash, listFails);
    }
    hide PublishedRow;
    if OrderedBy(es, OrderOf) {
      forall i, j | 0 <= i < j < |rows| ensures OrderOf(rows[i]) <= OrderOf(rows[j]) { assert OrderOf(es[i]) <= OrderOf(es[j]); }
    }
  }

  /** A publish of a spec gets done when its calls do, the spec parses and no route comes twice. Then
      the spec is the group's blob and the version's, and the endpoints are those of the spec, or the
      given ones. Otherwise at most those two blobs have changed. */
  ghost predicate PublishLeaves(h: Hash, parse: Parser, s: State, p: Publish, f: Faults, o: Outcome) {
    var t := o.state;
    var es := if p.endpoints != None then p.endpoints else parse(p.spec, p.group.protocol);
    var wKey := ApiGroupSpecKey(p.group.orgId, p.service, p.gid);
    if !f.uploadWorking && !f.uploadVersion && !f.commit && es != None && UniqueRoutes(es.value) then
      && o.status == Done
      && AddsVersion(s, t, p.gid, p.vid, p.actor, p.tag, p.spec)
      && var v := Added(s, t);
      && v.specHash == h(p.spec) && v.isAuto == p.isAuto && v.commitHash == p.commitHash
      && BlobsSameBut(s, t, {wKey, v.specKey}) && wKey in t.blobs && t.blobs[wKey] == p.spec
      && p.gid in t.groups && t.groups[p.gid] == p.group.(version := v.tag, specKey := Some(wKey), specHash := Some(h(p.spec)))
      && OtherGroupsSame(s, t, p.gid) && OtherEndpointsSame(s, t, p.gid)
      && Installs(WorkingOf(t, p.gid), es.value, WorkingOf(s, p.gid), p.commitHash, f.list)
    else
      o.status == Failed && OnlyBlobs(s, t, {wKey, ApiGroupVersionSpecKey(p.group.orgId, p.service, p.gid, p.vid)})
  }

  lemma {:induction false} SpecDone(h: Hash, parse: Parser, s: State, p: Publish, f: Faults, es: seq<Endpoint>)
    requires p.spec != "" && (if p.endpoints.Some? then p.endpoints else parse(p.spec, p.group.protocol)) == Some(es)
    requires !f.uploadWorking && !f.uploadVersion && !f.commit && UniqueRoutes(es)
    ensures var vKey := ApiGroupVersionSpecKey(p.group.orgId, p.service, p.gid, p.vid);
      var wKey := ApiGroupSpecKey(p.group.orgId, p.service, p.gid);
      var s2 := s.(blobs := s.blobs[wKey := p.spec][vKey := p.spec]);
      var g := p.group.(specKey := Some(wKey), specHash := Some(h(p.spec)));
      PublishVersion(h, parse, s, p, f) == Outcome(Commit(s2, p, g, Some(Installed(s, p, es, f.list)), Numbered(s, p, vKey, h(p.spec))), Done)
  {
    InstalledInstalls(s, p, es, f.list);
    hide Installs, Commit, Installed, UniqueRoutes, Stamps, Latest, Decimal, ApiGroupSpecKey, ApiGroupVersionSpecKey;
  }

  lemma {:induction false} SpecFails(h: Hash, parse: Parser, s: State, p: Publish, f: Faults)
    requires p.spec != ""
    requires var es := if p.endpoints.Some? then p.endpoints else parse(p.spec, p.group.protocol);
      f.uploadWorking || f.uploadVersion || f.commit || es == None || !UniqueRoutes(es.value)
    ensures var o := PublishVersion(h, parse, s, p, f);
      && o.status == Failed
      && OnlyBlobs(s, o.state, {ApiGroupSpecKey(p.group.orgId, p.service, p.gid), ApiGroupVersionSpecKey(p.group.orgId, p.service, p.gid, p.vid)})
  {
    var es := if p.endpoints.Some? then p.endpoints else parse(p.spec, p.group.protocol);
    hide Installs, OnlyBlobs, Commit, Installed, UniqueRoutes, Numbered, ApiGroupSpecKey, ApiGroupVersionSpecKey;
    if es.Some? { InstalledInstalls(s, p, es.value, f.list); }
    var wKey := ApiGroupSpecKey(p.group.orgId, p.service, p.gid);
    var vKey := ApiGroupVersionSpecKey(p.group.orgId, p.service, p.gid, p.vid);
    TwoBlobs(s, wKey, vKey, p.spec);
    var t := PublishVersion(h, parse, s, p, f).state;
    assert t == s || t == s.(blobs := s.blobs[wKey := p.spec]) || t == s.(blobs := s.blobs[wKey := p.spec][vKey := p.spec]);
  }

  lemma {:induction false} TwoBlobs(s: State, a: string, b: string, spec: string)
    ensures OnlyBlobs(s, s, {a, b}) && OnlyBlobs(s, s.(blobs := s.blobs[a := spec]), {a, b})
    ensures OnlyBlobs(s, s.(blobs := s.blobs[a := spec][b := spec]), {a, b})
  {
  }

  lemma {:induction false} SpecLeaves(h: Hash, parse: Parser, s: State, p: Publish, f: Faults)
    requires Sound(s) && PublishOk(s, p) && p.spec != ""
    ensures PublishLeaves(h, parse, s, p, f, PublishVersion(h, parse, s, p, f))
  {
    hide Sound, GroupSound, PublishVersion, Latest, Stamps, Commit, ApiGroupSpecKey, ApiGroupVersionSpecKey, CountOf, Decimal, AddsVersion,
         OtherEndpointsSame, OtherGroupsSame, Installed, Listed, Installs, UniqueRoutes, OnlyBlobs;
    var vKey := ApiGroupVersionSpecKey(p.group.orgId, p.service, p.gid, p.vid);
    var wKey := ApiGroupSpecKey(p.group.orgId, p.service, p.gid);
    var parsed := if p.endpoints.Some? then p.endpoints else parse(p.spec, p.group.protocol);
    if !f.uploadWorking && !f.uploadVersion && !f.commit && parsed.Some? && UniqueRoutes(parsed.value) {
      NextIsCount(s, p.gid);
      OkGroup(s, p);
      WorkingKeyIsNoVersion(p);
      InstalledInstalls(s, p, parsed.value, f.list);
      SpecDone(h, parse, s, p, f, parsed.value);
      var s2 := s.(blobs := s.blobs[wKey := p.spec][vKey := p.spec]);
      var g := p.group.(specKey := Some(wKey), specHash := Some(h(p.spec)));
      CommitAdds(s, s2, p, g, Some(Installed(s, p, parsed.value, f.list)), Numbered(s, p, vKey, h(p.spec)), p.spec);
    } else {
      SpecFails(h, parse, s, p, f);
    }
  }

  // ---------- The requests that publish a spec ----------

  /** A sync needs a name and a live group. It does nothing for the recorded spec, publishes another
      one, and without a spec only sets the columns. */
  lemma {:induction false} SyncLeaves(h: Hash, parse: Parser, s: State, r: Request, f: Faults)
    requires Sound(s) && r.Sync? && Proper(s, r)
    ensures var o := Handle(h, parse, s, r, f);
      && (r.name == "" ==> o == Outcome(s, BadRequest))
      && (r.name != "" && !Live(s, r.gid) ==> o == Outcome(s, NotFound))
      && (r.name != "" && Live(s, r.gid) ==>
            var old' := s.groups[r.gid];
            var tag := if r.version == "" then None else Some(r.version);
            var g := old'.(name := r.name, protocol := if r.protocol == "" then "REST" else r.protocol,
                           version := if r.version == "" then old'.version else r.version, commitHash := r.commitHash);
            if r.spec != "" && old'.specHash == Some(h(r.spec)) then o == Outcome(s, Done)
            else if r.spec != "" then
              PublishLeaves(h, parse, s, Publish(r.gid, g, r.service, r.spec, None, tag, true, r.actor, r.commitHash, r.vid), f, o)
            else if f.row then o == Outcome(s, Failed)
            else o == Outcome(s.(groups := s.groups[r.gid := g]), Done))
  {
    hide Sound, PublishOk, PublishVersion, PublishLeaves;
    if r.name != "" && Live(s, r.gid) && r.spec != "" {
      var old' := s.groups[r.gid];
      var tag := if r.version == "" then None else Some(r.version);
      var g := old'.(name := r.name, protocol := if r.protocol == "" then "REST" else r.protocol,
                     version := if r.version == "" then old'.version else r.version, commitHash := r.commitHash);
      var p := Publish(r.gid, g, r.service, r.spec, None, tag, true, r.actor, r.commitHash, r.vid);
      EditedPublishOk(s, p);
      SpecLeaves(h, parse, s, p, f);
    }
  }

  /** An update of a live group sets the columns that it has; a spec of a new hash is published. */
  lemma {:induction false} UpdateLeaves(h: Hash, parse: Parser, s: State, r: Request, f: Faults)
    requires Sound(s) && r.Update? && Proper(s, r)
    ensures var o := Handle(h, parse, s, r, f);
      && (!Live(s, r.gid) ==> o == Outcome(s, NotFound))
      && (Live(s, r.gid) ==>
            var old' := s.groups[r.gid];
            var tag := if r.newVersion == Some("") then None else r.newVersion;
            var g := old'.(name := if r.newName == None then old'.name else r.newName.value,
                           version := if r.newVersion == None then old'.version else r.newVersion.value,
                           protocol := if r.newProtocol == None then old'.protocol else r.newProtocol.value, commitHash := None);
            if r.newSpec != None && r.newSpec != Some("") && old'.specHash != Some(h(r.newSpec.value)) then
              PublishLeaves(h, parse, s, Publish(r.gid, g, r.service, r.newSpec.value, None, tag, true, r.actor, None, r.vid), f, o)
            else if f.row then o == Outcome(s, Failed)
            else o == Outcome(s.(groups := s.groups[r.gid := g]), Done))
  {
    hide Sound, PublishOk, PublishVersion, PublishLeaves;
    if Live(s, r.gid) && r.newSpec.Some? && r.newSpec.value != "" {
      var old' := s.groups[r.gid];
      var tag := if r.newVersion == Some("") then None else r.newVersion;
      var g := old'.(name := if r.newName == None then old'.name else r.newName.value,
                     version := if r.newVersion == None then old'.version else r.newVersion.value,
                     protocol := if r.newProtocol == None then old'.protocol else r.newProtocol.value, commitHash := None);
      var p := Publish(r.gid, g, r.service, r.newSpec.value, None, tag, true, r.actor, None, r.vid);
      EditedPublishOk(s, p);
      SpecLeaves(h, parse, s, p, f);
    }
  }

  /** Creating a group needs a name. It makes the row, and publishes a spec if there is one. */
  ghost predicate CreationLeaves(h: Hash, parse: Parser, s: State, r: Request, commitHash: Option<string>, f: Faults, o: Outcome)
    requires r.Create? || r.SyncNew?
  {
    && (r.name == "" ==> o == Outcome(s, BadRequest))
    && (r.name != "" ==>
          var tag := if r.version == "" then None else Some(r.version);
          var g := Group(r.service, r.org, r.name, if r.version == "" then "v1" else r.version,
                         if r.protocol == "" then "REST" else r.protocol, None, None, None, false);
          var s1 := s.(groups := s.groups[r.gid := g]);
          if f.row then o == Outcome(s, Failed)
          else if r.spec == "" then o == Outcome(s1, Done)
          else PublishLeaves(h, parse, s1, Publish(r.gid, g, r.service, r.spec, None, tag, true, r.actor, commitHash, r.vid), f, o))
  }

  lemma {:induction false} CreateLeaves(h: Hash, parse: Parser, s: State, r: Request, f: Faults)
    requires Sound(s) && r.Create? && Proper(s, r)
    ensures CreationLeaves(h, parse, s, r, None, f, Handle(h, parse, s, r, f))
  {
    hide Sound, PublishOk, PublishVersion, PublishLeaves;
    var tag := if r.version == "" then None else Some(r.version);
    var g := Group(r.service, r.org, r.name, if r.version == "" then "v1" else r.version,
                   if r.protocol == "" then "REST" else r.protocol, None, None, None, false);
    var s1 := s.(groups := s.groups[r.gid := g]);
    var p := Publish(r.gid, g, r.service, r.spec, None, tag, true, r.actor, None, r.vid);
    RowIsSafe(s, r.gid, g);
    EditedPublishOk(s1, p);
    if r.spec != "" { SpecLeaves(h, parse, s1, p, f); }
  }

  lemma {:induction false} SyncNewLeaves(h: Hash, parse: Parser, s: State, r: Request, f: Faults)
    requires Sound(s) && r.SyncNew? && Proper(s, r)
    ensures CreationLeaves(h, parse, s, r, r.commitHash, f, Handle(h, parse, s, r, f))
  {
    hide Sound, PublishOk, PublishVersion, PublishLeaves;
    var tag := if r.version == "" then None else Some(r.version);
    var g := Group(r.service, r.org, r.name, if r.version == "" then "v1" else r.version,
                   if r.protocol == "" then "REST" else r.protocol, None, None, None, false);
    var s1 := s.(groups := s.groups[r.gid := g]);
    var p := Publish(r.gid, g, r.service, r.spec, None, tag, true, r.actor, r.commitHash, r.vid);
    RowIsSafe(s, r.gid, g);
    EditedPublishOk(s1, p);
    if r.spec != "" { SpecLeaves(h, parse, s1, p, f); }
  }

  /** A release with a spec publishes it, under the given name, as no automatic version. */
  lemma {:induction false} SpecReleaseLeaves(h: Hash, parse: Parser, s: State, r: Request, f: Faults)
    requires Sound(s) && r.Release? && Proper(s, r) && r.spec != ""
    ensures var o := Handle(h, parse, s, r, f);
      && (!Live(s, r.gid) ==> o == Outcome(s, NotFound))
      && (Live(s, r.gid) ==>
            var tag := if r.tag == Some("") then None else r.tag;
            PublishLeaves(h, parse, s, Publish(r.gid, s.groups[r.gid].(commitHash := None), r.service, r.spec, None, tag, false, r.actor, None,
                                               r.vid), f, o))
  {
    hide Sound, PublishOk, PublishVersion, PublishLeaves;
    if Live(s, r.gid) {
      var tag := if r.tag == Some("") then None else r.tag;
      var p := Publish(r.gid, s.groups[r.gid].(commitHash := None), r.service, r.spec, None, tag, false, r.actor, None, r.vid);
      EditedPublishOk(s, p);
      SpecLeaves(h, parse, s, p, f);
    }
  }

  /** A row of a version, as a restore puts it back. */
  ghost predicate CopiedBack(w: Endpoint, e: Endpoint, actor: string) {
    && w.operationId == e.operationId && w.verb == e.verb && w.path == e.path && w.body == e.body && w.order == e.order && w.sla == e.sla
    && w.commitHash == e.commitHash && w.createdBy == actor && w.updatedBy == None && w.versionId == None
  }

  /** A restore publishes the version's spec with copies of the version's endpoints, as an automatic
      version named after its number. */
  lemma {:induction false} RestoreLeaves(h: Hash, parse: Parser, s: State, i: nat, r: Request, f: Faults) returns (es: seq<Endpoint>)
    requires Sound(s) && i < |s.versions| && r.Restore? && Proper(s, r) && r.versionId == s.versions[i].id
    ensures var v := s.versions[i];
      var o := Handle(h, parse, s, r, f);
      && v.id in s.snapshots && v.specKey in s.blobs
      && |es| == |s.snapshots[v.id]| && (forall k :: 0 <= k < |es| ==> CopiedBack(es[k], s.snapshots[v.id][k], r.actor))
      && (!Live(s, r.gid) || v.groupId != r.gid ==> o == Outcome(s, NotFound))
      && (Live(s, r.gid) && v.groupId == r.gid ==>
            if f.download then o == Outcome(s, Failed)
            else PublishLeaves(h, parse, s, Publish(r.gid, s.groups[r.gid].(commitHash := None), r.service, s.blobs[v.specKey], Some(es), None, true,
                                                    r.actor, None, r.vid), f, o))
  {
    hide Sound, PublishOk, PublishVersion, PublishLeaves, Proper, FindVersion;
    VersionIsThere(s, i);
    var v := s.versions[i];
    es := RestoredAll(s.snapshots[v.id], r.actor);
    if Live(s, r.gid) && v.groupId == r.gid && !f.download {
      var p := RestorePublish(s, r, v);
      RestorePublishOk(s, r, v);
      RestoreIsPublish(h, parse, s, r, f, v);
      SpecLeaves(h, parse, s, p, f);
    }
  }

  lemma {:induction false} RestoreOfNothing(h: Hash, parse: Parser, s: State, r: Request, f: Faults)
    requires r.Restore? && forall i :: 0 <= i < |s.versions| ==> s.versions[i].id != r.versionId
    ensures Handle(h, parse, s, r, f) == Outcome(s, NotFound)
  {
    NothingFound(s.versions, r.versionId);
    hide FindVersion, PublishVersion;
  }

  lemma {:induction false} NothingFound(vs: seq<GroupVersion>, id: string)
    requires forall i :: 0 <= i < |vs| ==> vs[i].id != id
    ensures FindVersion(vs, id) == None
  {
    if vs != [] { NothingFound(vs[..|vs| - 1], id); }
  }

  // ---------- Deleting, and editing endpoints ----------

  /** Deleting only marks a live row. */
  lemma {:induction false} DeleteLeaves(h: Hash, parse: Parser, s: State, gid: string, f: Faults)
    ensures var o := Handle(h, parse, s, Delete(gid), f);
      var t := o.state;
      && o.status == (if f.row then Failed else Done)
      && (f.row || gid !in s.groups ==> t == s)
      && (!f.row && gid in s.groups ==>
            && gid in t.groups && t.groups[gid].deleted && t.groups[gid].(deleted := s.groups[gid].deleted) == s.groups[gid]
            && OtherGroupsSame(s, t, gid)
            && t.versions == s.versions && t.working == s.working && t.snapshots == s.snapshots && t.blobs == s.blobs)
  {
    if gid in s.groups && s.groups[gid].deleted { assert s.groups[gid := s.groups[gid]] == s.groups; }
  }

  /** A row with the columns of a patch. */
  ghost predicate EditedRow(w: Endpoint, e: Endpoint, p: Patch, actor: string) {
    && w.operationId == (if p.operationId == None then e.operationId else p.operationId.value)
    && w.verb == (if p.verb == None then e.verb else p.verb.value) && w.path == (if p.path == None then e.path else p.path.value)
    && w.body == (if p.body == None then e.body else p.body.value) && w.order == (if p.order == None then e.order else p.order.value)
    && w.sla == (if p.sla == None then e.sla else p.sla)
    && w.updatedBy == Some(actor) && w.createdBy == e.createdBy && w.commitHash == e.commitHash && w.versionId == e.versionId
  }

  /** The list has one row changed, and is in order again. */
  ghost predicate EditedList(ws: seq<Endpoint>, es: seq<Endpoint>, k: nat, p: Patch, actor: string) {
    && k < |es| && OrderedBy(ws, OrderOf)
    && exists w: Endpoint :: EditedRow(w, es[k], p, actor) && multiset(ws) == multiset(es[k := w]) && (OrderedBy(es[k := w], OrderOf) ==> ws == es[k := w])
  }

  lemma {:induction false} OnlyPatched(e: Endpoint, p: Patch, actor: string)
    ensures forall w: Endpoint :: EditedRow(w, e, p, actor) <==> w == Patched(e, p, actor)
  {
  }

  lemma {:induction false} PatchedListed(es: seq<Endpoint>, k: nat, p: Patch, actor: string)
    requires k < |es|
    ensures EditedList(Listed(es[k := Patched(es[k], p, actor)]), es, k, p, actor)
  {
    var w := Patched(es[k], p, actor);
    OnlyPatched(es[k], p, actor);
    assert EditedRow(w, es[k], p, actor);
    hide Patched, EditedRow, StableBy, OrderedBy;
    StableOrders(es[k := w], OrderOf);
    var ws := Listed(es[k := w]);
    if OrderedBy(es[k := w], OrderOf) {
      StableOfOrdered(es[k := w], OrderOf);
      assert ws == es[k := w];
    }
    assert multiset(ws) == multiset(es[k := w]) && OrderedBy(ws, OrderOf);
  }

  lemma {:induction false} EditLeaves(h: Hash, parse: Parser, s: State, gid: string, k: nat, patch: Patch, actor: string, f: Faults)
    requires gid in s.working && k < |s.working[gid]|
    ensures var o := Handle(h, parse, s, EditEndpoint(Working(gid, k), patch, actor), f);
      var t := o.state;
      && t.groups == s.groups && t.versions == s.versions && t.snapshots == s.snapshots && t.blobs == s.blobs && OtherEndpointsSame(s, t, gid)
      && (o.status == Done ==> EditedList(WorkingOf(t, gid), s.working[gid], k, patch, actor))
      && (o.status != Done ==> o == Outcome(s, Failed))
      && (o.status == Done <==> !f.row && exists w: Endpoint :: EditedRow(w, s.working[gid][k], patch, actor) && UniqueRoutes(s.working[gid][k := w]))
  {
    hide Listed, UniqueRoutes, EditedList, EditedRow, Patched;
    OnlyPatched(s.working[gid][k], patch, actor);
    assert EditedRow(Patched(s.working[gid][k], patch, actor), s.working[gid][k], patch, actor);
    PatchedListed(s.working[gid], k, patch, actor);
  }

  predicate RowThere(s: State, place: Place) {
    match place
    case Working(gid, k) => gid in s.working && k < |s.working[gid]|
    case InVersion(vid, k) => vid in s.snapshots && k < |s.snapshots[vid]|
  }

  lemma {:induction false} EditOfNothing(h: Hash, parse: Parser, s: State, place: Place, patch: Patch, actor: string, f: Faults)
    ensures Handle(h, parse, s, EditEndpoint(place, patch, actor), f).status == NotFound <==> !RowThere(s, place)
    ensures !RowThere(s, place) ==> Handle(h, parse, s, EditEndpoint(place, patch, actor), f).state == s
  {
    hide Listed, UniqueRoutes, Patched;
  }

  /** Rows of versions are edited in the same way. */
  lemma {:induction false} VersionEditLeaves(h: Hash, parse: Parser, s: State, vid: string, k: nat, patch: Patch, actor: string, f: Faults)
    requires vid in s.snapshots && k < |s.snapshots[vid]|
    ensures var o := Handle(h, parse, s, EditEndpoint(InVersion(vid, k), patch, actor), f);
      var t := o.state;
      && t.groups == s.groups && t.versions == s.versions && t.working == s.working && t.blobs == s.blobs && OtherSnapshotsSame(s, t, vid)
      && (f.row ==> o == Outcome(s, Failed))
      && (!f.row ==> o.status == Done && vid in t.snapshots && EditedList(t.snapshots[vid], s.snapshots[vid], k, patch, actor))
  {
    hide Listed, EditedList, EditedRow, Patched;
    PatchedListed(s.snapshots[vid], k, patch, actor);
  }
}
