/** The API-group handlers, step by step over the tables and the object storage they share. */
module ApiGroupHandlers {
  import opened Text
  import opened StorageKeys
  import opened VersionNumbers
  import opened EndpointSla
  import opened ApiGroups

  class ApiGroupHandler {
    const h: Hash
    const parse: Parser
    var groups: map<string, Group>
    var versions: seq<GroupVersion>
    var working: map<string, seq<Endpoint>>
    var snapshots: map<string, seq<Endpoint>>
    var blobs: map<string, string>

    constructor (h: Hash, parse: Parser)
      ensures this.h == h && this.parse == parse && Stores() == State(map[], [], map[], map[], map[])
    {
      this.h, this.parse := h, parse;
      groups, versions, working, snapshots, blobs := map[], [], map[], map[], map[];
    }

    ghost function Stores(): State
      reads this
    {
      State(groups, versions, working, snapshots, blobs)
    }

    // ---------- Storage and store calls ----------

    method UploadSpec(key: string, content: string, fails: bool) returns (ok: bool)
      modifies this`blobs
      ensures ok == !fails
      ensures blobs == if fails then old(blobs) else old(blobs)[key := content]
    {
      if fails { return false; }
      blobs := blobs[key := content];
      return true;
    }

    method DownloadSpec(key: string, fails: bool) returns (content: Option<string>)
      ensures content == if fails || key !in blobs then None else Some(blobs[key])
    {
      if fails || key !in blobs { return None; }
      return Some(blobs[key]);
    }

    method ListEndpoints(gid: string) returns (es: seq<Endpoint>)
      ensures es == WorkingOf(Stores(), gid)
    {
      es := if gid in working then working[gid] else [];
    }

    method WriteRow(gid: string, g: Group, fails: bool) returns (ok: bool)
      modifies this`groups
      ensures ok == !fails
      ensures groups == if fails then old(groups) else old(groups)[gid := g]
    {
      if fails { return false; }
      groups := groups[gid := g];
      return true;
    }

    /** Inserts the rows one by one; a route that is already there ends the transaction. */
    method InsertEndpoints(es: seq<Endpoint>) returns (ok: bool)
      ensures ok == UniqueRoutes(es)
    {
      var i := 0;
      while i < |es|
        invariant 0 <= i <= |es| && UniqueRoutes(es[..i])
      {
        var j := 0;
        while j < i
          invariant 0 <= j <= i
          invariant forall k :: 0 <= k < j ==> es[k].verb != es[i].verb || es[k].path != es[i].path
        {
          if es[j].verb == es[i].verb && es[j].path == es[i].path { return false; }
          j := j + 1;
        }
        i := i + 1;
      }
      assert es[..i] == es;
      return true;
    }

    /** The store's transaction. On failure nothing has changed. */
    method StorePublish(p: Publish, g: Group, es: Option<seq<Endpoint>>, specKey: string, specHash: string, fails: bool)
      returns (ok: bool)
      modifies this
      ensures blobs == old(blobs)
      ensures ok == !(fails || (es.Some? && !UniqueRoutes(es.value)))
      ensures ok ==> Stores() == Commit(old(Stores()), p, g, es, Numbered(old(Stores()), p, specKey, specHash))
      ensures !ok ==> Stores() == old(Stores())
    {
      hide UniqueRoutes, Decimal;
      var rows := ListEndpoints(p.gid);
      if es.Some? {
        var inserted := InsertEndpoints(es.value);
        if !inserted { return false; }
        rows := Listed(es.value);
      }
      if fails { return false; }
      var number := Latest(Stamps(versions), p.gid) + 1;
      var tag := if p.tag.Some? then p.tag.value else "v" + Decimal(number);
      versions := versions + [GroupVersion(p.vid, p.gid, number, tag, specKey, specHash, p.isAuto, p.commitHash)];
      working := working[p.gid := rows];
      snapshots := snapshots[p.vid := Snapshot(rows, p.vid, p.actor)];
      groups := groups[p.gid := g.(version := tag)];
      return true;
    }

    // ---------- Publishing ----------

    /** Stamps the new endpoints with the commit and carries SLAs over to them, in place. */
    method PrepareEndpoints(p: Publish, es: seq<Endpoint>, listFails: bool) returns (prepared: array<Endpoint>)
      ensures fresh(prepared) && prepared[..] == Installed(Stores(), p, es, listFails)
    {
      prepared := new Endpoint[|es|](i requires 0 <= i < |es| => es[i]);
      var i := 0;
      while i < prepared.Length
        invariant 0 <= i <= prepared.Length
        invariant forall k :: 0 <= k < i ==> prepared[k] == es[k].(commitHash := p.commitHash)
        invariant forall k :: i <= k < prepared.Length ==> prepared[k] == es[k]
      {
        prepared[i] := prepared[i].(commitHash := p.commitHash);
        i := i + 1;
      }
      assert prepared[..] == Stamped(es, p.commitHash);
      if !listFails {
        var existing := ListEndpoints(p.gid);
        PreserveEndpointSlas(existing, prepared);
      }
    }

    method PublishApiGroupVersion(p: Publish, f: Faults) returns (status: Status)
      modifies this
      ensures Outcome(Stores(), status) == PublishVersion(h, parse, old(Stores()), p, f)
    {
      hide UniqueRoutes, Commit, Numbered, Installed, ApiGroupSpecKey, ApiGroupVersionSpecKey;
      var g := p.group;
      var vKey := ApiGroupVersionSpecKey(g.orgId, p.service, p.gid, p.vid);
      var hash: string;
      var es := p.endpoints;
      if p.spec != "" {
        hash := h(p.spec);
        var wKey := ApiGroupSpecKey(g.orgId, p.service, p.gid);
        var ok := UploadSpec(wKey, p.spec, f.uploadWorking);
        if !ok { return Failed; }
        ok := UploadSpec(vKey, p.spec, f.uploadVersion);
        if !ok { return Failed; }
        g := g.(specKey := Some(wKey), specHash := Some(hash));
        if es.None? {
          es := parse(p.spec, g.protocol);
          if es.None? { return Failed; }
        }
      } else {
        if g.specKey.None? || g.specHash.None? { return Failed; }
        var content := DownloadSpec(g.specKey.value, f.download);
        if content.None? { return Failed; }
        var ok := UploadSpec(vKey, content.value, f.uploadVersion);
        if !ok { return Failed; }
        hash := g.specHash.value;
      }
      if es.Some? {
        var prepared := PrepareEndpoints(p, es.value, f.list);
        SameInstalled(old(Stores()), Stores(), p, es.value, f.list);
        es := Some(prepared[..]);
      }
      ghost var before := Stores();
      SameNumbered(old(Stores()), before, p, vKey, hash);
      var ok := StorePublish(p, g, es, vKey, hash, f.commit);
      return if ok then Done else Failed;
    }

    // ---------- Requests ----------

    method CreateApiGroup(gid: string, service: string, org: string, name: string, version: string, protocol: string,
                          spec: string, actor: string, vid: string, f: Faults)
      returns (status: Status)
      modifies this
      ensures Outcome(Stores(), status)
           == Handle(h, parse, old(Stores()), Create(gid, service, org, name, version, protocol, spec, actor, vid), f)
    {
      hide PublishVersion;
      if name == "" { return BadRequest; }
      var protocol' := if protocol == "" then "REST" else protocol;
      var tag: Option<string> := None;
      var version' := version;
      if version != "" { tag := Some(version); } else { version' := "v1"; }
      var g := Group(service, org, name, version', protocol', None, None, None, false);
      var ok := WriteRow(gid, g, f.row);
      if !ok { return Failed; }
      status := Done;
      if spec != "" {
        status := PublishApiGroupVersion(Publish(gid, g, service, spec, None, tag, true, actor, None, vid), f);
      }
    }

    method UpdateApiGroup(gid: string, service: string, newName: Option<string>, newVersion: Option<string>,
                          newProtocol: Option<string>, newSpec: Option<string>, actor: string, vid: string, f: Faults)
      returns (status: Status)
      modifies this
      ensures Outcome(Stores(), status)
           == Handle(h, parse, old(Stores()), Update(gid, service, newName, newVersion, newProtocol, newSpec, actor, vid), f)
    {
      hide PublishVersion;
      if gid !in groups || groups[gid].deleted { return NotFound; }
      var g := groups[gid];
      if newName.Some? { g := g.(name := newName.value); }
      if newVersion.Some? { g := g.(version := newVersion.value); }
      if newProtocol.Some? { g := g.(protocol := newProtocol.value); }
      g := g.(commitHash := None);
      if newSpec.Some? && newSpec.value != "" {
        var newHash := h(newSpec.value);
        if g.specHash.None? || newHash != g.specHash.value {
          var tag: Option<string> := None;
          if newVersion.Some? && newVersion.value != "" { tag := newVersion; }
          status := PublishApiGroupVersion(Publish(gid, g, service, newSpec.value, None, tag, true, actor, None, vid), f);
          return;
        }
      }
      var ok := WriteRow(gid, g, f.row);
      return if ok then Done else Failed;
    }

    method SyncApiGroup(gid: string, service: string, name: string, version: string, protocol: string, spec: string,
                        commitHash: Option<string>, actor: string, vid: string, f: Faults)
      returns (status: Status, versionCreated: bool)
      modifies this
      ensures Outcome(Stores(), status)
           == Handle(h, parse, old(Stores()), Sync(gid, service, name, version, protocol, spec, commitHash, actor, vid), f)
      ensures versionCreated ==> status == Done && spec != "" && old(Stores()).groups[gid].specHash != Some(h(spec))
      ensures |versions| == |old(versions)| + if versionCreated then 1 else 0
    {
      hide PublishVersion;
      if name == "" { return BadRequest, false; }
      var newHash := h(spec);
      if gid !in groups || groups[gid].deleted { return NotFound, false; }
      var g := groups[gid];
      if spec != "" && g.specHash.Some? && newHash == g.specHash.value { return Done, false; }
      g := g.(name := name, protocol := if protocol == "" then "REST" else protocol, commitHash := commitHash);
      var tag: Option<string> := None;
      if version != "" {
        tag := Some(version);
        g := g.(version := version);
      }
      if spec != "" {
        var p := Publish(gid, g, service, spec, None, tag, true, actor, commitHash, vid);
        DoneAddsVersion(h, parse, Stores(), p, f);
        status := PublishApiGroupVersion(p, f);
        return status, status == Done;
      }
      var ok := WriteRow(gid, g, f.row);
      return if ok then Done else Failed, false;
    }

    method SyncNewApiGroup(gid: string, service: string, org: string, name: string, version: string, protocol: string,
                           spec: string, commitHash: Option<string>, actor: string, vid: string, f: Faults)
      returns (status: Status)
      modifies this
      ensures Outcome(Stores(), status)
           == Handle(h, parse, old(Stores()), SyncNew(gid, service, org, name, version, protocol, spec, commitHash, actor, vid), f)
    {
      hide PublishVersion;
      if name == "" { return BadRequest; }
      var g := Group(service, org, name, "v1", if protocol == "" then "REST" else protocol, None, None, None, false);
      var tag: Option<string> := None;
      if version != "" {
        tag := Some(version);
        g := g.(version := version);
      }
      var ok := WriteRow(gid, g, f.row);
      if !ok { return Failed; }
      status := Done;
      if spec != "" {
        status := PublishApiGroupVersion(Publish(gid, g, service, spec, None, tag, true, actor, commitHash, vid), f);
      }
    }

    /** An explicit release; without a spec the working copy is taken as it is. */
    method CreateApiGroupVersion(gid: string, service: string, tag: Option<string>, spec: string, actor: string, vid: string, f: Faults)
      returns (status: Status)
      modifies this
      ensures Outcome(Stores(), status) == Handle(h, parse, old(Stores()), Release(gid, service, tag, spec, actor, vid), f)
    {
      hide PublishVersion;
      if gid !in groups || groups[gid].deleted { return NotFound; }
      var g := groups[gid];
      var given: Option<string> := None;
      if tag.Some? && tag.value != "" { given := tag; }
      g := g.(commitHash := None);
      status := PublishApiGroupVersion(Publish(gid, g, service, spec, None, given, false, actor, None, vid), f);
    }

    method RestoreApiGroupVersion(gid: string, service: string, versionId: string, actor: string, vid: string, f: Faults)
      returns (status: Status)
      modifies this
      ensures Outcome(Stores(), status) == Handle(h, parse, old(Stores()), Restore(gid, service, versionId, actor, vid), f)
    {
      hide PublishVersion, FindVersion;
      if gid !in groups || groups[gid].deleted { return NotFound; }
      var g := groups[gid];
      var found := GetVersion(versionId);
      if found.None? || found.value.groupId != gid { return NotFound; }
      var v := found.value;
      var spec := DownloadSpec(v.specKey, f.download);
      if spec.None? || v.id !in snapshots { return Failed; }
      var snapshot := snapshots[v.id];
      var copies: seq<Endpoint> := [];
      var i := 0;
      while i < |snapshot|
        invariant 0 <= i <= |snapshot| && |copies| == i
        invariant forall k :: 0 <= k < i ==> copies[k] == Restored(snapshot[k], actor)
      {
        var e := snapshot[i];
        e := e.(versionId := None);
        e := e.(createdBy := actor, updatedBy := None);
        copies := copies + [e];
        i := i + 1;
      }
      assert copies == RestoredAll(snapshot, actor);
      g := g.(commitHash := None);
      status := PublishApiGroupVersion(Publish(gid, g, service, spec.value, Some(copies), None, true, actor, None, vid), f);
    }

    method GetVersion(id: string) returns (found: Option<GroupVersion>)
      ensures found == FindVersion(versions, id)
    {
      var i := |versions|;
      assert versions[..i] == versions;
      while i > 0
        invariant 0 <= i <= |versions| && FindVersion(versions[..i], id) == FindVersion(versions, id)
      {
        assert versions[..i][..i - 1] == versions[..i - 1];
        i := i - 1;
        if versions[i].id == id { return Some(versions[i]); }
      }
      return None;
    }

    method DeleteApiGroup(gid: string, f: Faults) returns (status: Status)
      modifies this
      ensures Outcome(Stores(), status) == Handle(h, parse, old(Stores()), Delete(gid), f)
    {
      if f.row { return Failed; }
      if gid in groups && !groups[gid].deleted { groups := groups[gid := groups[gid].(deleted := true)]; }
      return Done;
    }

    /** Edits an endpoint row, of the working copy or of a version: it is found by its id alone. */
    method UpdateApiEndpoint(place: Place, patch: Patch, actor: string, f: Faults) returns (status: Status)
      modifies this
      ensures Outcome(Stores(), status) == Handle(h, parse, old(Stores()), EditEndpoint(place, patch, actor), f)
    {
      var es: seq<Endpoint> := [];
      match place {
        case Working(gid, _) => if gid in working { es := working[gid]; }
        case InVersion(vid, _) => if vid in snapshots { es := snapshots[vid]; }
      }
      if place.index >= |es| { return NotFound; }
      var e := es[place.index];
      if patch.operationId.Some? { e := e.(operationId := patch.operationId.value); }
      if patch.verb.Some? { e := e.(verb := patch.verb.value); }
      if patch.path.Some? { e := e.(path := patch.path.value); }
      if patch.body.Some? { e := e.(body := patch.body.value); }
      if patch.order.Some? { e := e.(order := patch.order.value); }
      if patch.sla.Some? { e := e.(sla := patch.sla); }
      e := e.(updatedBy := Some(actor));
      assert e == Patched(es[place.index], patch, actor);
      es := es[place.index := e];
      if f.row { return Failed; }
      match place {
        case Working(gid, _) =>
          if !UniqueRoutes(es) { return Failed; }
          working := working[gid := Listed(es)];
        case InVersion(vid, _) => snapshots := snapshots[vid := Listed(es)];
      }
      return Done;
    }
  }

  lemma {:induction false} DoneAddsVersion(h: Hash, parse: Parser, s: State, p: Publish, f: Faults)
    ensures var o := PublishVersion(h, parse, s, p, f); |o.state.versions| == |s.versions| + if o.status == Done then 1 else 0
  {
    hide UniqueRoutes, Numbered, Installed, Snapshot, ApiGroupSpecKey, ApiGroupVersionSpecKey;
  }

  lemma {:induction false} SameInstalled(s: State, t: State, p: Publish, es: seq<Endpoint>, listFails: bool)
    requires t.working == s.working
    ensures Installed(t, p, es, listFails) == Installed(s, p, es, listFails)
  {
  }

  lemma {:induction false} SameNumbered(s: State, t: State, p: Publish, specKey: string, specHash: string)
    requires t.versions == s.versions
    ensures Numbered(t, p, specKey, specHash) == Numbered(s, p, specKey, specHash)
  {
  }
}
