/** Hashes and blobs: they agree after every request that succeeds, and after a publish that
    fails exactly when the group's own blob was not replaced by other content. */
module ApiGroupHashes {
  import opened Text
  import opened StorageKeys
  import opened VersionNumbers
  import opened EndpointSla
  import opened StableSort
  import opened ApiGroups

  // ---------- Hashes agree after successful requests ----------

  ghost predicate RowHash(h: Hash, s: State, g: Group) {
    g.specKey.Some? && g.specHash.Some? ==> g.specKey.value in s.blobs && h(s.blobs[g.specKey.value]) == g.specHash.value
  }

  ghost predicate VersionHash(h: Hash, s: State, v: GroupVersion) {
    v.specKey in s.blobs && h(s.blobs[v.specKey]) == v.specHash
  }

  /** A group's hash is that of the blob at its spec key, and a version's that of its own. */
  ghost predicate HashesAgree(h: Hash, s: State) {
    && (forall gid :: gid in s.groups ==> RowHash(h, s, s.groups[gid]))
    && (forall i :: 0 <= i < |s.versions| ==> VersionHash(h, s, s.versions[i]))
  }

  lemma {:induction false} OldHashesAgree(h: Hash, s: State, t: State, v: GroupVersion)
    requires HashesAgree(h, s) && KeptIn(s, t) && t.versions == s.versions + [v] && VersionHash(h, t, v)
    ensures forall i :: 0 <= i < |t.versions| ==> VersionHash(h, t, t.versions[i])
  {
    hide Tidy, UniqueRoutes;
    forall i | 0 <= i < |t.versions| ensures VersionHash(h, t, t.versions[i]) {
      if i < |s.versions| {
        assert VersionHash(h, s, s.versions[i]);
        assert SameVersion(s, t, s.versions[i]);
      }
    }
  }

  /** The spec key of another group is neither of the keys that a publish writes. */
  lemma {:induction false} OtherSpecKey(s: State, gid: string, p: Publish)
    requires Sound(s) && PublishOk(s, p) && gid in s.groups && gid != p.gid && s.groups[gid].specKey.Some?
    ensures s.groups[gid].specKey.value != ApiGroupSpecKey(p.group.orgId, p.service, p.gid)
    ensures s.groups[gid].specKey.value != ApiGroupVersionSpecKey(p.group.orgId, p.service, p.gid, p.vid)
  {
    hide Tidy, UniqueRoutes, WellNumbered, Listed, Stamps;
    var g := s.groups[gid];
    assert GroupSound(s, gid, g);
    var service :| SpecKeyed(g.specKey.value, g.orgId, gid, service);
    var mine := Spec(g.orgId, service, gid);
    if g.specKey.value == ApiGroupSpecKey(p.group.orgId, p.service, p.gid) {
      KeysDiffer(mine, Spec(p.group.orgId, p.service, p.gid));
    }
    if g.specKey.value == ApiGroupVersionSpecKey(p.group.orgId, p.service, p.gid, p.vid) {
      KeysDiffer(mine, VersionSpec(p.group.orgId, p.service, p.gid, p.vid));
    }
  }

  /** No spec key is a version key. */
  lemma {:induction false} SpecKeyIsNoVersion(s: State, gid: string, g: Group, p: Publish)
    requires GroupSound(s, gid, g) && g.specKey.Some?
    requires SlashFree(p.group.orgId) && SlashFree(p.service) && SlashFree(p.gid) && SlashFree(p.vid)
    ensures g.specKey.value != ApiGroupVersionSpecKey(p.group.orgId, p.service, p.gid, p.vid)
  {
    var service :| SpecKeyed(g.specKey.value, g.orgId, gid, service);
    if g.specKey.value == ApiGroupVersionSpecKey(p.group.orgId, p.service, p.gid, p.vid) {
      KeysDiffer(Spec(g.orgId, service, gid), VersionSpec(p.group.orgId, p.service, p.gid, p.vid));
    }
  }

  /** What a successful publish of a spec leaves behind. */
  lemma {:induction false} PublishedSpec(h: Hash, parse: Parser, s: State, p: Publish, f: Faults)
    requires Sound(s) && PublishOk(s, p) && p.spec != ""
    ensures PublishSpec(h, parse, s, p, f).status == Done ==>
      var t := PublishSpec(h, parse, s, p, f).state;
      var wKey := ApiGroupSpecKey(p.group.orgId, p.service, p.gid);
      var vKey := ApiGroupVersionSpecKey(p.group.orgId, p.service, p.gid, p.vid);
      var parsed := if p.endpoints.Some? then p.endpoints else parse(p.spec, p.group.protocol);
      && parsed.Some?
      && t.blobs == s.blobs[wKey := p.spec][vKey := p.spec] && wKey != vKey
      && t.groups.Keys == s.groups.Keys
      && t.groups[p.gid].specKey == Some(wKey) && t.groups[p.gid].specHash == Some(h(p.spec))
      && (forall gid :: gid in s.groups && gid != p.gid ==> t.groups[gid] == s.groups[gid])
      && WorkingOf(t, p.gid) == Listed(Installed(s, p, parsed.value, f.list))
      && |t.versions| == |s.versions| + 1 && t.versions == s.versions + [t.versions[|s.versions|]]
      && t.versions[|s.versions|].specKey == vKey && t.versions[|s.versions|].specHash == h(p.spec)
      && t.versions[|s.versions|].id == p.vid && t.versions[|s.versions|].groupId == p.gid
      && t.versions[|s.versions|].number == Latest(Stamps(s.versions), p.gid) + 1
      && p.vid in t.snapshots && t.snapshots[p.vid] == Snapshot(WorkingOf(t, p.gid), p.vid, p.actor)
  {
    hide Tidy, UniqueRoutes, WellNumbered, Listed, Stamps, Latest, Decimal, Installed, ApiGroupSpecKey, ApiGroupVersionSpecKey;
    RowSound(s, p.gid);
    if ApiGroupSpecKey(p.group.orgId, p.service, p.gid) == ApiGroupVersionSpecKey(p.group.orgId, p.service, p.gid, p.vid) {
      KeysDiffer(Spec(p.group.orgId, p.service, p.gid), VersionSpec(p.group.orgId, p.service, p.gid, p.vid));
    }
  }

  /** A publish writes no keys but its own two. */
  ghost predicate BlobsKeptBut(s: State, t: State, p: Publish) {
    forall key :: key in s.blobs ==>
      || key == ApiGroupSpecKey(p.group.orgId, p.service, p.gid)
      || key == ApiGroupVersionSpecKey(p.group.orgId, p.service, p.gid, p.vid)
      || (key in t.blobs && t.blobs[key] == s.blobs[key])
  }

  /** Rows agree after a publish that leaves other rows, and the blobs at their keys, alone. */
  lemma {:induction false} OtherRowsAgree(h: Hash, s: State, t: State, p: Publish)
    requires Sound(s) && HashesAgree(h, s) && PublishOk(s, p)
    requires t.groups.Keys == s.groups.Keys && RowHash(h, t, t.groups[p.gid])
    requires forall gid :: gid in s.groups && gid != p.gid ==> t.groups[gid] == s.groups[gid]
    requires BlobsKeptBut(s, t, p)
    ensures forall gid :: gid in t.groups ==> RowHash(h, t, t.groups[gid])
  {
    hide Sound, PublishOk, ApiGroupSpecKey, ApiGroupVersionSpecKey;
    forall gid | gid in t.groups ensures RowHash(h, t, t.groups[gid]) {
      if gid != p.gid {
        assert RowHash(h, s, s.groups[gid]);
        if s.groups[gid].specKey.Some? { OtherSpecKey(s, gid, p); }
      }
    }
  }

  /** One more version, and no other row or blob touched. */
  ghost predicate AddsOne(s: State, t: State, p: Publish) {
    && t.groups.Keys == s.groups.Keys && p.gid in t.groups && BlobsKeptBut(s, t, p)
    && |t.versions| == |s.versions| + 1 && t.versions[..|s.versions|] == s.versions
    && forall gid :: gid in s.groups && gid != p.gid ==> t.groups[gid] == s.groups[gid]
  }

  lemma {:induction false} HashesFollow(h: Hash, s: State, t: State, p: Publish)
    requires Sound(s) && HashesAgree(h, s) && PublishOk(s, p) && KeptIn(s, t) && AddsOne(s, t, p)
    requires RowHash(h, t, t.groups[p.gid]) && VersionHash(h, t, t.versions[|s.versions|])
    ensures HashesAgree(h, t)
  {
    hide Sound, KeptIn, PublishOk, BlobsKeptBut, RowHash, VersionHash;
    var v := t.versions[|s.versions|];
    assert t.versions == s.versions + [v];
    OtherRowsAgree(h, s, t, p);
    OldHashesAgree(h, s, t, v);
  }

  lemma {:induction false} SpecKeepsBlobs(h: Hash, parse: Parser, s: State, p: Publish, f: Faults)
    requires PublishSpec(h, parse, s, p, f).status == Done
    ensures BlobsKeptBut(s, PublishSpec(h, parse, s, p, f).state, p)
  {
    hide UniqueRoutes, Numbered, Installed, Listed, Snapshot, ApiGroupSpecKey, ApiGroupVersionSpecKey;
  }

  lemma {:induction false} SpecHashesFit(h: Hash, parse: Parser, s: State, p: Publish, f: Faults)
    requires PublishOk(s, p) && PublishSpec(h, parse, s, p, f).status == Done
    ensures var t := PublishSpec(h, parse, s, p, f).state;
      && p.gid in t.groups && RowHash(h, t, t.groups[p.gid])
      && |t.versions| == |s.versions| + 1 && VersionHash(h, t, t.versions[|s.versions|])
  {
    OkGroup(s, p);
    WorkingKeyIsNoVersion(p);
    hide PublishOk, GroupSound, UniqueRoutes, Stamps, Latest, Decimal, Installed, Listed, Snapshot, ApiGroupSpecKey, ApiGroupVersionSpecKey;
  }

  lemma {:induction false} SpecAddsOne(h: Hash, parse: Parser, s: State, p: Publish, f: Faults)
    requires PublishOk(s, p) && PublishSpec(h, parse, s, p, f).status == Done
    ensures AddsOne(s, PublishSpec(h, parse, s, p, f).state, p)
  {
    OkGroup(s, p);
    SpecKeepsBlobs(h, parse, s, p, f);
    hide PublishOk, GroupSound, UniqueRoutes, Numbered, Installed, Listed, Snapshot, BlobsKeptBut, ApiGroupSpecKey, ApiGroupVersionSpecKey;
  }

  lemma {:induction false} PublishSpecHashes(h: Hash, parse: Parser, s: State, p: Publish, f: Faults)
    requires Sound(s) && HashesAgree(h, s) && PublishOk(s, p) && p.spec != ""
    ensures PublishSpec(h, parse, s, p, f).status == Done ==> HashesAgree(h, PublishSpec(h, parse, s, p, f).state)
  {
    hide *;
    if PublishSpec(h, parse, s, p, f).status == Done {
      SpecAddsOne(h, parse, s, p, f);
      SpecHashesFit(h, parse, s, p, f);
      PublishSpecIsSafe(h, parse, s, p, f);
      HashesFollow(h, s, PublishSpec(h, parse, s, p, f).state, p);
    }
  }

  lemma {:induction false} OkGroup(s: State, p: Publish)
    requires PublishOk(s, p)
    ensures p.gid in s.groups && GroupSound(s, p.gid, p.group)
    ensures SlashFree(p.group.orgId) && SlashFree(p.service) && SlashFree(p.gid) && SlashFree(p.vid)
  {
  }

  /** A publish without a spec seals the blob at the row's key under the row's hash. */
  lemma {:induction false} AsIsAddsOne(h: Hash, s: State, p: Publish, f: Faults)
    requires PublishOk(s, p) && PublishAsIs(s, p, f).status == Done
    requires p.group.specKey == s.groups[p.gid].specKey && p.group.specHash == s.groups[p.gid].specHash
    ensures var t := PublishAsIs(s, p, f).state;
      && AddsOne(s, t, p) && t.versions[|s.versions|].id == p.vid
      && (RowHash(h, t, t.groups[p.gid]) <==> RowHash(h, s, s.groups[p.gid]))
      && (VersionHash(h, t, t.versions[|s.versions|]) <==> RowHash(h, s, s.groups[p.gid]))
  {
    OkGroup(s, p);
    hide PublishOk, GroupSound, UniqueRoutes, Stamps, Latest, Decimal, Installed, Snapshot, ApiGroupSpecKey, ApiGroupVersionSpecKey;
    if p.group.specKey.Some? { SpecKeyIsNoVersion(s, p.gid, p.group, p); }
  }

  lemma {:induction false} PublishAsIsHashes(h: Hash, s: State, p: Publish, f: Faults)
    requires Sound(s) && HashesAgree(h, s) && PublishOk(s, p)
    requires p.group.specKey == s.groups[p.gid].specKey && p.group.specHash == s.groups[p.gid].specHash
    ensures PublishAsIs(s, p, f).status == Done ==> HashesAgree(h, PublishAsIs(s, p, f).state)
  {
    OkGroup(s, p);
    HashOfRow(h, s, p.gid);
    hide *;
    if PublishAsIs(s, p, f).status == Done {
      AsIsAddsOne(h, s, p, f);
      PublishAsIsIsSafe(s, p, f);
      HashesFollow(h, s, PublishAsIs(s, p, f).state, p);
    }
  }

  lemma {:induction false} PublishDoneOrFailed(h: Hash, parse: Parser, s: State, p: Publish, f: Faults)
    ensures PublishVersion(h, parse, s, p, f).status in {Done, Failed}
  {
    hide UniqueRoutes, Commit, Numbered, Installed, ApiGroupSpecKey, ApiGroupVersionSpecKey;
  }

  lemma {:induction false} PublishHashes(h: Hash, parse: Parser, s: State, p: Publish, f: Faults)
    requires Sound(s) && HashesAgree(h, s) && PublishOk(s, p)
    requires p.group.specKey == s.groups[p.gid].specKey && p.group.specHash == s.groups[p.gid].specHash
    ensures PublishVersion(h, parse, s, p, f).status != Failed ==> HashesAgree(h, PublishVersion(h, parse, s, p, f).state)
  {
    PublishDoneOrFailed(h, parse, s, p, f);
    hide PublishSpec, PublishAsIs, Sound, HashesAgree, PublishOk;
    if p.spec != "" { PublishSpecHashes(h, parse, s, p, f); } else { PublishAsIsHashes(h, s, p, f); }
  }

  lemma {:induction false} RowHashes(h: Hash, s: State, gid: string, g: Group)
    requires HashesAgree(h, s)
    requires if gid in s.groups then g.specKey == s.groups[gid].specKey && g.specHash == s.groups[gid].specHash
             else g.specKey.None?
    ensures HashesAgree(h, s.(groups := s.groups[gid := g]))
  {
    var t := s.(groups := s.groups[gid := g]);
    forall x | x in t.groups ensures RowHash(h, t, t.groups[x]) {
      if x in s.groups { assert RowHash(h, s, s.groups[x]); }
    }
    forall i | 0 <= i < |t.versions| ensures VersionHash(h, t, t.versions[i]) { assert VersionHash(h, s, s.versions[i]); }
  }

  lemma {:induction false} OtherTablesHashes(h: Hash, s: State, t: State)
    requires HashesAgree(h, s) && t.groups == s.groups && t.versions == s.versions && t.blobs == s.blobs
    ensures HashesAgree(h, t)
  {
    forall x | x in t.groups ensures RowHash(h, t, t.groups[x]) { assert RowHash(h, s, s.groups[x]); }
    forall i | 0 <= i < |t.versions| ensures VersionHash(h, t, t.versions[i]) { assert VersionHash(h, s, s.versions[i]); }
  }

  /** A request that succeeds, or that is turned down, leaves hashes and blobs in agreement. */
  lemma {:induction false} HandleKeepsHashes(h: Hash, parse: Parser, s: State, r: Request, f: Faults)
    requires Sound(s) && HashesAgree(h, s) && Proper(s, r)
    ensures Handle(h, parse, s, r, f).status != Failed ==> HashesAgree(h, Handle(h, parse, s, r, f).state)
  {
    match r
    case Create(_, _, _, _, _, _, _, _, _) => NewHashes(h, parse, s, r, f);
    case SyncNew(_, _, _, _, _, _, _, _, _, _) => NewHashes(h, parse, s, r, f);
    case Update(_, _, _, _, _, _, _, _) => UpdateHashes(h, parse, s, r, f);
    case Sync(_, _, _, _, _, _, _, _, _) => SyncHashes(h, parse, s, r, f);
    case Release(gid, service, tag, spec, actor, vid) =>
      hide Sound, HashesAgree, PublishVersion, GroupSound, PublishOk, UnusedVersion;
      if Live(s, gid) {
        var g := s.groups[gid].(commitHash := None);
        var t := if tag == Some("") then None else tag;
        var p := Publish(gid, g, service, spec, None, t, false, actor, None, vid);
        EditedPublishOk(s, p);
        PublishHashes(h, parse, s, p, f);
      }
    case Restore(_, _, _, _, _) => RestoreHashes(h, parse, s, r, f);
    case Delete(gid) =>
      if Live(s, gid) { RowHashes(h, s, gid, s.groups[gid].(deleted := true)); }
    case EditEndpoint(_, _, _) => OtherTablesHashes(h, s, HandleEdit(s, r, f).state);
  }

  lemma {:induction false} NewHashes(h: Hash, parse: Parser, s: State, r: Request, f: Faults)
    requires r.Create? || r.SyncNew?
    requires Sound(s) && HashesAgree(h, s) && Proper(s, r)
    ensures Handle(h, parse, s, r, f).status != Failed ==> HashesAgree(h, Handle(h, parse, s, r, f).state)
  {
    if r.name != "" {
      hide Sound, HashesAgree, PublishVersion;
      var version := if r.version == "" then "v1" else r.version;
      var g := Group(r.service, r.org, r.name, version, Protocol(r.protocol), None, None, None, false);
      RowIsSafe(s, r.gid, g);
      RowHashes(h, s, r.gid, g);
      if r.spec != "" {
        var commitHash := if r.SyncNew? then r.commitHash else None;
        var p := Publish(r.gid, g, r.service, r.spec, None, TagOf(r.version), true, r.actor, commitHash, r.vid);
        EditedPublishOk(s.(groups := s.groups[r.gid := g]), p);
        PublishHashes(h, parse, s.(groups := s.groups[r.gid := g]), p, f);
      }
    }
  }

  lemma {:induction false} UpdateHashes(h: Hash, parse: Parser, s: State, r: Request, f: Faults)
    requires r.Update? && Sound(s) && HashesAgree(h, s) && Proper(s, r)
    ensures HandleUpdate(h, parse, s, r, f).status != Failed ==> HashesAgree(h, HandleUpdate(h, parse, s, r, f).state)
  {
    hide Sound, HashesAgree, PublishVersion, GroupSound, PublishOk, UnusedVersion;
    if Live(s, r.gid) {
      var old' := s.groups[r.gid];
      var g := old'.(name := if r.newName.Some? then r.newName.value else old'.name,
                     version := if r.newVersion.Some? then r.newVersion.value else old'.version,
                     protocol := if r.newProtocol.Some? then r.newProtocol.value else old'.protocol,
                     commitHash := None);
      RowHashes(h, s, r.gid, g);
      if r.newSpec.Some? && r.newSpec.value != "" && g.specHash != Some(h(r.newSpec.value)) {
        var tag := if r.newVersion.Some? then TagOf(r.newVersion.value) else None;
        var p := Publish(r.gid, g, r.service, r.newSpec.value, None, tag, true, r.actor, None, r.vid);
        EditedPublishOk(s, p);
        PublishHashes(h, parse, s, p, f);
      }
    }
  }

  lemma {:induction false} SyncHashes(h: Hash, parse: Parser, s: State, r: Request, f: Faults)
    requires r.Sync? && Sound(s) && HashesAgree(h, s) && Proper(s, r)
    ensures HandleSync(h, parse, s, r, f).status != Failed ==> HashesAgree(h, HandleSync(h, parse, s, r, f).state)
  {
    hide Sound, HashesAgree, PublishVersion, GroupSound, PublishOk, UnusedVersion;
    if r.name != "" && Live(s, r.gid) && !(r.spec != "" && s.groups[r.gid].specHash == Some(h(r.spec))) {
      var tag := TagOf(r.version);
      var old' := s.groups[r.gid];
      var g := old'.(name := r.name, protocol := Protocol(r.protocol), commitHash := r.commitHash,
                     version := if tag.Some? then tag.value else old'.version);
      RowHashes(h, s, r.gid, g);
      if r.spec != "" {
        var p := Publish(r.gid, g, r.service, r.spec, None, tag, true, r.actor, r.commitHash, r.vid);
        EditedPublishOk(s, p);
        PublishHashes(h, parse, s, p, f);
      }
    }
  }

  lemma {:induction false} RestoreHashes(h: Hash, parse: Parser, s: State, r: Request, f: Faults)
    requires r.Restore? && Sound(s) && HashesAgree(h, s) && Proper(s, r)
    ensures HandleRestore(h, parse, s, r, f).status != Failed ==> HashesAgree(h, HandleRestore(h, parse, s, r, f).state)
  {
    hide Sound, HashesAgree, PublishVersion, GroupSound, PublishOk, UnusedVersion, FindVersion;
    var found := FindVersion(s.versions, r.versionId);
    if HandleRestore(h, parse, s, r, f).status != Failed && Live(s, r.gid) && found.Some? && found.value.groupId == r.gid {
      var v := found.value;
      var g := s.groups[r.gid].(commitHash := None);
      var p := Publish(r.gid, g, r.service, s.blobs[v.specKey], Some(RestoredAll(s.snapshots[v.id], r.actor)),
                       None, true, r.actor, None, r.vid);
      EditedPublishOk(s, p);
      PublishHashes(h, parse, s, p, f);
    }
  }

  ghost predicate NothingFailed(h: Hash, parse: Parser, s: State, steps: seq<(Request, Faults)>) {
    forall i :: 0 <= i < |steps| ==>
      Handle(h, parse, Run(h, parse, s, steps[..i]), steps[i].0, steps[i].1).status != Failed
  }

  /** Over every run of requests that succeed or are turned down, hashes agree with blobs. */
  lemma {:induction false} RunKeepsHashes(h: Hash, parse: Parser, s: State, steps: seq<(Request, Faults)>)
    requires Sound(s) && HashesAgree(h, s) && ProperRun(h, parse, s, steps) && NothingFailed(h, parse, s, steps)
    ensures HashesAgree(h, Run(h, parse, s, steps))
  {
    hide Sound, HashesAgree, Proper, Handle;
    if steps != [] {
      var last := |steps| - 1;
      ProperPrefix(h, parse, s, steps);
      NothingFailedPrefix(h, parse, s, steps);
      RunIsSafe(h, parse, s, steps[..last]);
      RunKeepsHashes(h, parse, s, steps[..last]);
      HandleKeepsHashes(h, parse, Run(h, parse, s, steps[..last]), steps[last].0, steps[last].1);
    }
  }

  lemma {:induction false} NothingFailedPrefix(h: Hash, parse: Parser, s: State, steps: seq<(Request, Faults)>)
    requires steps != [] && NothingFailed(h, parse, s, steps)
    ensures NothingFailed(h, parse, s, steps[..|steps| - 1])
    ensures Handle(h, parse, Run(h, parse, s, steps[..|steps| - 1]), steps[|steps| - 1].0, steps[|steps| - 1].1).status != Failed
  {
    hide Run, Handle;
    var init := steps[..|steps| - 1];
    forall i | 0 <= i < |init|
      ensures Handle(h, parse, Run(h, parse, s, init[..i]), init[i].0, init[i].1).status != Failed
    {
      assert init[..i] == steps[..i];
      assert Handle(h, parse, Run(h, parse, s, steps[..i]), steps[i].0, steps[i].1).status != Failed;
    }
  }

  // ---------- When a publish fails ----------

  /** What a failed publish can leave behind: uploaded blobs, and nothing else. */
  lemma {:induction false} FailedPublish(h: Hash, parse: Parser, s: State, p: Publish, f: Faults)
    requires PublishOk(s, p) && PublishVersion(h, parse, s, p, f).status == Failed
    ensures var t := PublishVersion(h, parse, s, p, f).state;
      var wKey := ApiGroupSpecKey(p.group.orgId, p.service, p.gid);
      && t == s.(blobs := t.blobs) && BlobsKeptBut(s, t, p)
      && if p.spec != "" && !f.uploadWorking then wKey in t.blobs && t.blobs[wKey] == p.spec
         else wKey in s.blobs ==> wKey in t.blobs && t.blobs[wKey] == s.blobs[wKey]
  {
    OkGroup(s, p);
    WorkingKeyIsNoVersion(p);
    hide PublishOk, GroupSound, UniqueRoutes, Commit, Numbered, Installed, ApiGroupSpecKey, ApiGroupVersionSpecKey;
  }

  lemma {:induction false} WorkingKeyIsNoVersion(p: Publish)
    requires SlashFree(p.group.orgId) && SlashFree(p.service) && SlashFree(p.gid) && SlashFree(p.vid)
    ensures ApiGroupSpecKey(p.group.orgId, p.service, p.gid) != ApiGroupVersionSpecKey(p.group.orgId, p.service, p.gid, p.vid)
  {
    if ApiGroupSpecKey(p.group.orgId, p.service, p.gid) == ApiGroupVersionSpecKey(p.group.orgId, p.service, p.gid, p.vid) {
      KeysDiffer(Spec(p.group.orgId, p.service, p.gid), VersionSpec(p.group.orgId, p.service, p.gid, p.vid));
    }
  }

  /** Whether a publish of a spec gets through: its uploads and its transaction succeed, the spec
      parses, and no route comes twice. */
  predicate GetsThrough(parse: Parser, s: State, p: Publish, f: Faults) {
    var parsed := if p.endpoints.Some? then p.endpoints else parse(p.spec, p.group.protocol);
    !f.uploadWorking && !f.uploadVersion && !f.commit && parsed.Some? && UniqueRoutes(Installed(s, p, parsed.value, f.list))
  }

  lemma {:induction false} DoneIffThrough(h: Hash, parse: Parser, s: State, p: Publish, f: Faults)
    requires p.spec != ""
    ensures PublishVersion(h, parse, s, p, f).status == if GetsThrough(parse, s, p, f) then Done else Failed
  {
    hide UniqueRoutes, Commit, Numbered, Installed, ApiGroupSpecKey, ApiGroupVersionSpecKey;
  }

  /** The publish leaves the blob at the row's key alone, or content of the row's hash there. */
  predicate SparesBlob(h: Hash, p: Publish, f: Faults) {
    || p.spec == "" || f.uploadWorking
    || p.group.specKey != Some(ApiGroupSpecKey(p.group.orgId, p.service, p.gid))
    || p.group.specHash == Some(h(p.spec))
  }

  lemma {:induction false} FailedPublishHashes(h: Hash, parse: Parser, s: State, p: Publish, f: Faults)
    requires Sound(s) && HashesAgree(h, s) && PublishOk(s, p)
    requires p.group.specKey == s.groups[p.gid].specKey && p.group.specHash == s.groups[p.gid].specHash
    requires PublishVersion(h, parse, s, p, f).status == Failed
    ensures var t := PublishVersion(h, parse, s, p, f).state;
      && t.groups == s.groups
      && (HashesAgree(h, t) <==> SparesBlob(h, p, f)) && (RowHash(h, t, s.groups[p.gid]) <==> SparesBlob(h, p, f))
  {
    OkGroup(s, p);
    FailedPublish(h, parse, s, p, f);
    PublishIsSafe(h, parse, s, p, f);
    var g := s.groups[p.gid];
    HashOfRow(h, s, p.gid);
    RowSound(s, p.gid);
    if g.specKey.Some? { SpecKeyIsNoVersion(s, p.gid, g, p); }
    hide Sound, KeptIn, PublishOk, PublishVersion, ApiGroupSpecKey, ApiGroupVersionSpecKey;
    var t := PublishVersion(h, parse, s, p, f).state;
    if RowHash(h, t, g) {
      SameVersionHashes(h, s, t);
      OtherRowsAgree(h, s, t, p);
    }
  }

  /** A publish keeps hashes and blobs in agreement exactly when it gets through, or spares the
      blob at the key that the group's row points to. */
  lemma {:induction false} PublishKeepsHashesIff(h: Hash, parse: Parser, s: State, p: Publish, f: Faults)
    requires Sound(s) && HashesAgree(h, s) && PublishOk(s, p)
    requires p.group.specKey == s.groups[p.gid].specKey && p.group.specHash == s.groups[p.gid].specHash
    ensures var t := PublishVersion(h, parse, s, p, f).state;
      && (HashesAgree(h, t) <==> SparesBlob(h, p, f) || GetsThrough(parse, s, p, f))
      && p.gid in t.groups && (RowHash(h, t, t.groups[p.gid]) <==> SparesBlob(h, p, f) || GetsThrough(parse, s, p, f))
  {
    OkGroup(s, p);
    PublishDoneOrFailed(h, parse, s, p, f);
    if p.spec != "" { DoneIffThrough(h, parse, s, p, f); }
    hide Sound, PublishOk, HashesAgree, PublishVersion, RowHash, GetsThrough, GroupSound;
    if PublishVersion(h, parse, s, p, f).status == Failed {
      FailedPublishHashes(h, parse, s, p, f);
    } else {
      PublishHashes(h, parse, s, p, f);
      PublishKeepsGroup(h, parse, s, p, f);
      HashOfRow(h, PublishVersion(h, parse, s, p, f).state, p.gid);
    }
  }

  lemma {:induction false} PublishKeepsGroup(h: Hash, parse: Parser, s: State, p: Publish, f: Faults)
    requires PublishOk(s, p)
    ensures p.gid in PublishVersion(h, parse, s, p, f).state.groups
  {
    hide UniqueRoutes, Numbered, Installed, Snapshot, GroupSound, ApiGroupSpecKey, ApiGroupVersionSpecKey;
  }

  lemma {:induction false} SameVersionHashes(h: Hash, s: State, t: State)
    requires HashesAgree(h, s) && KeptIn(s, t) && t.versions == s.versions
    ensures forall i :: 0 <= i < |t.versions| ==> VersionHash(h, t, t.versions[i])
  {
    forall i | 0 <= i < |t.versions| ensures VersionHash(h, t, t.versions[i]) {
      assert VersionHash(h, s, s.versions[i]);
      assert SameVersion(s, t, s.versions[i]);
    }
  }

  lemma {:induction false} EmptyIsSound(h: Hash)
    ensures Sound(State(map[], [], map[], map[], map[])) && HashesAgree(h, State(map[], [], map[], map[], map[]))
  {
    assert forall owner :: Numbers(Stamps([]), owner) == [];
  }

  lemma {:induction false} AfterPublish(h: Hash, parse: Parser, s: State, p: Publish, f: Faults)
    requires Sound(s) && PublishOk(s, p) && p.spec != ""
    ensures PublishVersion(h, parse, s, p, f).status == Done ==>
      var t := PublishVersion(h, parse, s, p, f).state;
      && p.gid in t.groups
      && t.groups[p.gid] == p.group.(specKey := Some(ApiGroupSpecKey(p.group.orgId, p.service, p.gid)),
                                     specHash := Some(h(p.spec)), version := t.groups[p.gid].version)
      && |t.versions| == |s.versions| + 1 && t.versions[..|s.versions|] == s.versions && t.versions[|s.versions|].id == p.vid
  {
    hide Sound, PublishOk, UniqueRoutes, Stamps, Latest, Decimal, Installed, ApiGroupSpecKey, ApiGroupVersionSpecKey;
  }

  lemma {:induction false} ParsingDecides(h: Hash, parse: Parser, s: State, p: Publish)
    requires p.spec != "" && p.endpoints.None?
    ensures parse(p.spec, p.group.protocol) == Some([]) ==> PublishVersion(h, parse, s, p, NoFaults).status == Done
    ensures parse(p.spec, p.group.protocol) == None ==> PublishVersion(h, parse, s, p, NoFaults).status == Failed
  {
    hide Commit, Numbered, ApiGroupSpecKey, ApiGroupVersionSpecKey;
  }

  /** A spec that does not parse, synced over one that did. */
  lemma {:induction false} FailedSyncBreaksHashes(parse: Parser)
    requires parse("good", "REST") == Some([]) && parse("bad", "REST") == None
    ensures
      var h: Hash := (spec: string) => spec;
      var s := State(map[], [], map[], map[], map[]);
      var create := Create("g", "s", "o", "pets", "", "REST", "good", "ann", "v1");
      var t := Handle(h, parse, s, create, NoFaults).state;
      var sync := Sync("g", "s", "pets", "", "REST", "bad", None, "ann", "v2");
      var u := Handle(h, parse, t, sync, NoFaults);
      && Sound(s) && HashesAgree(h, s) && Proper(s, create) && HashesAgree(h, t) && Proper(t, sync)
      && u.status == Failed && !HashesAgree(h, u.state)
  {
    hide Sound, HashesAgree, PublishVersion, PublishOk, ApiGroupSpecKey, ApiGroupVersionSpecKey;
    var h: Hash := (spec: string) => spec;
    var s := State(map[], [], map[], map[], map[]);
    EmptyIsSound(h);
    var g := Group("s", "o", "pets", "v1", "REST", None, None, None, false);
    var p := Publish("g", g, "s", "good", None, None, true, "ann", None, "v1");
    var s1 := s.(groups := map["g" := g]);
    ParsingDecides(h, parse, s1, p);
    var create := Create("g", "s", "o", "pets", "", "REST", "good", "ann", "v1");
    HandleIsSafe(h, parse, s, create, NoFaults);
    HandleKeepsHashes(h, parse, s, create, NoFaults);
    RowIsSafe(s, "g", g);
    EditedPublishOk(s1, p);
    var t := PublishVersion(h, parse, s1, p, NoFaults).state;
    AfterPublish(h, parse, s1, p, NoFaults);
    var g' := t.groups["g"].(name := "pets", protocol := "REST", commitHash := None);
    var p' := Publish("g", g', "s", "bad", None, None, true, "ann", None, "v2");
    EditedPublishOk(t, p');
    ParsingDecides(h, parse, t, p');
    FailedPublishHashes(h, parse, t, p', NoFaults);
  }

  // ---------- Syncing ----------

  ghost predicate Holds(s: State, key: Option<string>, spec: string) {
    key.Some? && key.value in s.blobs && s.blobs[key.value] == spec
  }

  /** The group's blob does not hash like the spec without being it. */
  ghost predicate NoCollision(h: Hash, s: State, key: Option<string>, spec: string) {
    key.Some? && key.value in s.blobs && h(s.blobs[key.value]) == h(spec) ==> s.blobs[key.value] == spec
  }

  /** A sync that is done leaves the group's spec key holding the synced spec, and makes a
      version exactly when the key did not hold it before. */
  lemma {:induction false} SyncAddsVersionIff(h: Hash, parse: Parser, s: State, r: Request, f: Faults)
    requires r.Sync? && r.spec != "" && Sound(s) && HashesAgree(h, s) && Proper(s, r)
    requires r.gid in s.groups && NoCollision(h, s, s.groups[r.gid].specKey, r.spec)
    ensures var o := Handle(h, parse, s, r, f);
      o.status == Done ==>
        && (if Holds(s, s.groups[r.gid].specKey, r.spec) then o.state == s else |o.state.versions| == |s.versions| + 1)
        && r.gid in o.state.groups && o.state.groups[r.gid].specHash == Some(h(r.spec))
        && Holds(o.state, o.state.groups[r.gid].specKey, r.spec)
  {
    HashOfRow(h, s, r.gid);
    RowSound(s, r.gid);
    hide Sound, HashesAgree, PublishVersion, PublishOk, ApiGroupSpecKey, ApiGroupVersionSpecKey, UnusedVersion;
    if Handle(h, parse, s, r, f).status == Done && s.groups[r.gid].specHash != Some(h(r.spec)) {
      var tag := TagOf(r.version);
      var old' := s.groups[r.gid];
      var g := old'.(name := r.name, protocol := Protocol(r.protocol), commitHash := r.commitHash,
                     version := if tag.Some? then tag.value else old'.version);
      var p := Publish(r.gid, g, r.service, r.spec, None, tag, true, r.actor, r.commitHash, r.vid);
      EditedPublishOk(s, p);
      PublishedHolds(h, parse, s, p, f);
    }
  }

  lemma {:induction false} PublishedHolds(h: Hash, parse: Parser, s: State, p: Publish, f: Faults)
    requires Sound(s) && PublishOk(s, p) && p.spec != ""
    ensures PublishVersion(h, parse, s, p, f).status == Done ==>
      var t := PublishVersion(h, parse, s, p, f).state;
      && |t.versions| == |s.versions| + 1 && p.gid in t.groups
      && t.groups[p.gid].specHash == Some(h(p.spec)) && Holds(t, t.groups[p.gid].specKey, p.spec)
  {
    OkGroup(s, p);
    WorkingKeyIsNoVersion(p);
    hide Sound, PublishOk, GroupSound, UniqueRoutes, Numbered, Installed, Listed, Snapshot, ApiGroupSpecKey, ApiGroupVersionSpecKey;
  }

  lemma {:induction false} HashOfRow(h: Hash, s: State, gid: string)
    requires HashesAgree(h, s) && gid in s.groups
    ensures RowHash(h, s, s.groups[gid])
  {
  }

  /** Syncing the same spec again changes nothing, whatever else the request says and whatever
      fails. */
  lemma {:induction false} SyncTwiceIsOnce(h: Hash, parse: Parser, s: State, r: Request, f: Faults, again: Request, f': Faults)
    requires r.Sync? && r.spec != "" && Sound(s) && Proper(s, r)
    requires again.Sync? && again.gid == r.gid && again.spec == r.spec && again.name != ""
    ensures Handle(h, parse, s, r, f).status == Done ==>
      var t := Handle(h, parse, s, r, f).state; Handle(h, parse, t, again, f') == Outcome(t, Done)
  {
    hide Sound, PublishVersion, PublishOk, ApiGroupSpecKey, ApiGroupVersionSpecKey, UnusedVersion;
    if Handle(h, parse, s, r, f).status == Done && s.groups[r.gid].specHash != Some(h(r.spec)) {
      var tag := TagOf(r.version);
      var old' := s.groups[r.gid];
      var g := old'.(name := r.name, protocol := Protocol(r.protocol), commitHash := r.commitHash,
                     version := if tag.Some? then tag.value else old'.version);
      var p := Publish(r.gid, g, r.service, r.spec, None, tag, true, r.actor, r.commitHash, r.vid);
      EditedPublishOk(s, p);
      AfterPublish(h, parse, s, p, f);
    }
  }

  // ---------- Releases after a failed publish ----------

  /** A release without a spec that gets done makes a version whose hash fits its blob exactly
      when the group's hash fitted the group's blob. */
  lemma {:induction false} ReleaseFitsIff(h: Hash, parse: Parser, s: State, r: Request, f: Faults)
    requires r.Release? && r.spec == "" && Sound(s) && Proper(s, r) && Live(s, r.gid)
    requires s.groups[r.gid].specKey.Some? && !f.download && !f.uploadVersion && !f.commit
    ensures var u := Handle(h, parse, s, r, f);
      && u.status == Done && |u.state.versions| == |s.versions| + 1 && u.state.versions[|s.versions|].id == r.vid
      && (VersionHash(h, u.state, u.state.versions[|s.versions|]) <==> RowHash(h, s, s.groups[r.gid]))
  {
    RowSound(s, r.gid);
    var g := s.groups[r.gid].(commitHash := None);
    var t := if r.tag == Some("") then None else r.tag;
    var p := Publish(r.gid, g, r.service, "", None, t, false, r.actor, None, r.vid);
    hide Sound, PublishOk, UnusedVersion, ApiGroupSpecKey, ApiGroupVersionSpecKey, RowHash, VersionHash, SpecKeyed;
    EditedPublishOk(s, p);
    AsIsIsDone(s, p, f);
    AsIsAddsOne(h, s, p, f);
  }

  lemma {:induction false} AsIsIsDone(s: State, p: Publish, f: Faults)
    requires GroupSound(s, p.gid, p.group) && p.group.specKey.Some? && p.endpoints.None?
    requires !f.download && !f.uploadVersion && !f.commit
    ensures PublishAsIs(s, p, f).status == Done
  {
    hide Commit, Numbered, ApiGroupSpecKey, ApiGroupVersionSpecKey;
  }

  /** So the release that follows a publish seals a blob that its hash does not fit exactly when
      the publish neither got through nor spared the group's blob. */
  lemma {:induction false} ReleaseAfterPublishFitsIff(h: Hash, parse: Parser, s: State, p: Publish, f: Faults, r: Request, f': Faults)
    requires Sound(s) && HashesAgree(h, s) && PublishOk(s, p)
    requires p.group.specKey == s.groups[p.gid].specKey && p.group.specHash == s.groups[p.gid].specHash
    requires var t := PublishVersion(h, parse, s, p, f).state;
      r.Release? && r.spec == "" && r.gid == p.gid && Proper(t, r) && Live(t, r.gid) && t.groups[r.gid].specKey.Some?
    requires !f'.download && !f'.uploadVersion && !f'.commit
    ensures var t := PublishVersion(h, parse, s, p, f).state;
      var u := Handle(h, parse, t, r, f').state;
      && |u.versions| == |t.versions| + 1
      && (VersionHash(h, u, u.versions[|t.versions|]) <==> SparesBlob(h, p, f) || GetsThrough(parse, s, p, f))
  {
    hide *;
    PublishKeepsHashesIff(h, parse, s, p, f);
    PublishIsSafe(h, parse, s, p, f);
    ReleaseFitsIff(h, parse, PublishVersion(h, parse, s, p, f).state, r, f');
  }

  /** The failed sync from above, then a release, which seals the text that does not parse under
      the hash of the one before it. Syncing the recorded text again repairs nothing. */
  lemma {:induction false} ReleaseSealsMismatch(parse: Parser)
    requires parse("good", "REST") == Some([]) && parse("bad", "REST") == None
    ensures
      var h: Hash := (spec: string) => spec;
      var empty := State(map[], [], map[], map[], map[]);
      var s := Handle(h, parse, empty, Create("g", "s", "o", "pets", "", "REST", "good", "ann", "v1"), NoFaults).state;
      var t := Handle(h, parse, s, Sync("g", "s", "pets", "", "REST", "bad", None, "ann", "v2"), NoFaults).state;
      var u := Handle(h, parse, t, Release("g", "s", None, "", "ann", "v2"), NoFaults);
      var again := Handle(h, parse, u.state, Sync("g", "s", "pets", "", "REST", "good", None, "ann", "v3"), NoFaults);
      && u.status == Done && |u.state.versions| == 2 && !VersionHash(h, u.state, u.state.versions[1])
      && again == Outcome(u.state, Done)
  {
    FailedSyncBreaksHashes(parse);
  }
}
