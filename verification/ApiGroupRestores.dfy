/** What restoring a version gives back, and what keeps SLAs and versions as they are. */
module ApiGroupRestores {
  import opened Text
  import opened StorageKeys
  import opened VersionNumbers
  import opened EndpointSla
  import opened StableSort
  import opened Sorting
  import opened ApiGroups
  import opened ApiGroupHashes

  // ---------- Restoring ----------

  /** A snapshot row back in the working copy: everything but audit columns, commit hash and SLA
      is the snapshot's. The SLA is the working copy's last one under the row's key, if there
      is one. */
  ghost predicate BroughtBack(w: Endpoint, e: Endpoint, before: seq<Endpoint>, actor: string, listFails: bool) {
    && w.(sla := None) == e.(sla := None, versionId := None, createdBy := actor, updatedBy := None, commitHash := None)
    && w.sla == if !listFails && LastSla(before, SlaKey(e)).Some? then LastSla(before, SlaKey(e)) else e.sla
  }

  ghost predicate AllBroughtBack(ws: seq<Endpoint>, es: seq<Endpoint>, before: seq<Endpoint>, actor: string, listFails: bool) {
    |ws| == |es| && forall k :: 0 <= k < |es| ==> BroughtBack(ws[k], es[k], before, actor, listFails)
  }

  lemma {:induction false} InstalledRestores(t: State, p: Publish, es: seq<Endpoint>, listFails: bool)
    requires Tidy(es) && p.commitHash.None?
    ensures var ws := Installed(t, p, RestoredAll(es, p.actor), listFails);
      AllBroughtBack(ws, es, WorkingOf(t, p.gid), p.actor, listFails) && UniqueRoutes(ws) && Listed(ws) == ws
  {
    hide LastSla, Tidy, Listed;
    var ws := Installed(t, p, RestoredAll(es, p.actor), listFails);
    forall k | 0 <= k < |es|
      ensures BroughtBack(ws[k], es[k], WorkingOf(t, p.gid), p.actor, listFails)
      ensures ws[k].verb == es[k].verb && ws[k].path == es[k].path && ws[k].order == es[k].order
    {
      var r := Stamped(RestoredAll(es, p.actor), p.commitHash)[k];
      assert SlaKey(r) == SlaKey(es[k]);
    }
    SameRoutes(es, ws);
  }

  lemma {:induction false} SameRoutes(es: seq<Endpoint>, ws: seq<Endpoint>)
    requires Tidy(es) && |ws| == |es|
    requires forall k :: 0 <= k < |es| ==> ws[k].verb == es[k].verb && ws[k].path == es[k].path && ws[k].order == es[k].order
    ensures UniqueRoutes(ws) && Listed(ws) == ws
  {
    hide StableBy;
    forall i, j | 0 <= i < j < |ws| ensures OrderOf(ws[i]) <= OrderOf(ws[j]) { assert OrderOf(es[i]) <= OrderOf(es[j]); }
    StableOfOrdered(ws, OrderOf);
  }

  lemma {:induction false} VersionIsThere(s: State, i: nat)
    requires Sound(s) && i < |s.versions|
    ensures var v := s.versions[i];
      && v.specKey in s.blobs && s.blobs[v.specKey] != "" && v.id in s.snapshots && Tidy(s.snapshots[v.id])
      && FindVersion(s.versions, v.id) == Some(v)
  {
    assert VersionSound(s, s.versions[i]);
    FindUnique(s.versions, i, IdOf);
  }

  /** The publish that a restore of `v` makes. */
  function RestorePublish(t: State, r: Request, v: GroupVersion): Publish
    requires r.Restore? && r.gid in t.groups && v.specKey in t.blobs && v.id in t.snapshots
  {
    Publish(r.gid, t.groups[r.gid].(commitHash := None), r.service, t.blobs[v.specKey],
            Some(RestoredAll(t.snapshots[v.id], r.actor)), None, true, r.actor, None, r.vid)
  }

  /** Unless a call fails, restoring a version that is there gets done. */
  lemma {:induction false} RestoreGetsDone(h: Hash, parse: Parser, t: State, i: nat, r: Request, f: Faults)
    requires Sound(t) && i < |t.versions| && r.Restore? && Proper(t, r)
    requires Live(t, r.gid) && r.gid == t.versions[i].groupId && r.versionId == t.versions[i].id
    requires !f.uploadWorking && !f.uploadVersion && !f.download && !f.commit
    ensures var v := t.versions[i];
      && v.specKey in t.blobs && v.id in t.snapshots && t.blobs[v.specKey] != ""
      && PublishOk(t, RestorePublish(t, r, v))
      && Handle(h, parse, t, r, f) == PublishSpec(h, parse, t, RestorePublish(t, r, v), f)
      && Handle(h, parse, t, r, f).status == Done
  {
    hide Sound, Proper, PublishOk, Tidy, Handle, PublishSpec, GetsThrough, RestorePublish, ApiGroupSpecKey, ApiGroupVersionSpecKey;
    var v := t.versions[i];
    VersionIsThere(t, i);
    RestoreIsPublish(h, parse, t, r, f, v);
    InstalledRestores(t, RestorePublish(t, r, v), t.snapshots[v.id], f.list);
    RestoreGoesThrough(parse, t, r, f, v);
    DoneIffThrough(h, parse, t, RestorePublish(t, r, v), f);
    RestorePublishOk(t, r, v);
  }

  lemma {:induction false} RestoreIsPublish(h: Hash, parse: Parser, t: State, r: Request, f: Faults, v: GroupVersion)
    requires r.Restore? && Live(t, r.gid) && FindVersion(t.versions, r.versionId) == Some(v) && v.groupId == r.gid
    requires v.specKey in t.blobs && t.blobs[v.specKey] != "" && v.id in t.snapshots && !f.download
    ensures var p := RestorePublish(t, r, v);
      && p.spec == t.blobs[v.specKey] && p.gid == r.gid && p.actor == r.actor && p.commitHash.None?
      && Handle(h, parse, t, r, f) == PublishVersion(h, parse, t, p, f) == PublishSpec(h, parse, t, p, f)
  {
    hide FindVersion, PublishSpec;
  }

  lemma {:induction false} RestoreGoesThrough(parse: Parser, t: State, r: Request, f: Faults, v: GroupVersion)
    requires r.Restore? && r.gid in t.groups && v.specKey in t.blobs && v.id in t.snapshots
    requires UniqueRoutes(Installed(t, RestorePublish(t, r, v), RestoredAll(t.snapshots[v.id], r.actor), f.list))
    requires !f.uploadWorking && !f.uploadVersion && !f.commit
    ensures GetsThrough(parse, t, RestorePublish(t, r, v), f)
  {
    hide UniqueRoutes, Installed;
  }

  lemma {:induction false} RestorePublishOk(t: State, r: Request, v: GroupVersion)
    requires Sound(t) && r.Restore? && Proper(t, r) && r.gid in t.groups && v.specKey in t.blobs && v.id in t.snapshots
    ensures PublishOk(t, RestorePublish(t, r, v))
  {
    hide Sound, PublishOk, UnusedVersion;
    EditedPublishOk(t, RestorePublish(t, r, v));
  }

  /** Restoring a version after any run, with anything failing on the way, gives back the
      version's spec and endpoints, in order, and records them as one more version. */
  lemma {:induction false} RestoreRoundTrip(h: Hash, parse: Parser, s: State, steps: seq<(Request, Faults)>, i: nat, r: Request, f: Faults)
    requires Sound(s) && ProperRun(h, parse, s, steps) && i < |s.versions|
    requires r.Restore? && r.gid == s.versions[i].groupId && r.versionId == s.versions[i].id
    requires var t := Run(h, parse, s, steps); Live(t, r.gid) && Proper(t, r)
    requires !f.uploadWorking && !f.uploadVersion && !f.download && !f.commit
    ensures s.versions[i].specKey in s.blobs && s.versions[i].id in s.snapshots
    ensures
      var v := s.versions[i];
      var t := Run(h, parse, s, steps);
      var u := Handle(h, parse, t, r, f);
      && u.status == Done && r.gid in u.state.groups
      && u.state.groups[r.gid].specKey.Some? && u.state.groups[r.gid].specKey.value in u.state.blobs
      && u.state.blobs[u.state.groups[r.gid].specKey.value] == s.blobs[v.specKey]
      && AllBroughtBack(WorkingOf(u.state, r.gid), s.snapshots[v.id], WorkingOf(t, r.gid), r.actor, f.list)
      && |u.state.versions| == |t.versions| + 1 && u.state.versions[|t.versions|].id == r.vid
      && u.state.versions[|t.versions|].number == |Numbers(Stamps(t.versions), r.gid)| + 1
      && KeptIn(t, u.state) && KeptIn(s, u.state)
  {
    hide Sound, Proper, Handle, PublishSpec, Run, ProperRun, PublishOk, KeptIn, Tidy, UniqueRoutes, ApiGroupSpecKey, ApiGroupVersionSpecKey,
         Installed, AllBroughtBack, Snapshot, Latest, Stamps, Numbers;
    var t := Run(h, parse, s, steps);
    RunIsSafe(h, parse, s, steps);
    VersionIsThere(s, i);
    StillThere(s, t, i);
    VersionIsThere(t, i);
    RestoreGetsDone(h, parse, t, i, r, f);
    HandleIsSafe(h, parse, t, r, f);
    KeptTrans(s, t, Handle(h, parse, t, r, f).state);
    var p := RestorePublish(t, r, s.versions[i]);
    InstalledRestores(t, p, t.snapshots[s.versions[i].id], f.list);
    PublishedSpec(h, parse, t, p, f);
    NumbersCount(t, r.gid);
  }

  lemma {:induction false} StillThere(s: State, t: State, i: nat)
    requires KeptIn(s, t) && i < |s.versions| && s.versions[i].specKey in s.blobs && s.versions[i].id in s.snapshots
    ensures i < |t.versions| && t.versions[i] == s.versions[i]
    ensures var v := s.versions[i];
      && v.specKey in t.blobs && t.blobs[v.specKey] == s.blobs[v.specKey]
      && v.id in t.snapshots && t.snapshots[v.id] == s.snapshots[v.id]
  {
    hide Tidy;
    assert SameVersion(s, t, s.versions[i]);
  }

  lemma {:induction false} NumbersCount(t: State, gid: string)
    requires Sound(t)
    ensures Latest(Stamps(t.versions), gid) == |Numbers(Stamps(t.versions), gid)|
  {
    assert Consecutive(Numbers(Stamps(t.versions), gid));
    LatestIsCount(Stamps(t.versions), gid);
  }

  /** Endpoint `k` is the last under the key that has an SLA. */
  ghost predicate LastAt(es: seq<Endpoint>, key: string, k: nat) {
    && k < |es| && SlaKey(es[k]) == key && es[k].sla.Some?
    && forall j :: k < j < |es| && SlaKey(es[j]) == key ==> es[j].sla.None?
  }

  /** A restored endpoint has the SLA of its snapshot exactly when the working copy had no
      other one under its key, or could not be listed. */
  lemma {:induction false} SlaBroughtBackIff(w: Endpoint, e: Endpoint, before: seq<Endpoint>, actor: string, listFails: bool)
    requires BroughtBack(w, e, before, actor, listFails)
    ensures w.sla == e.sla <==> listFails || forall k: nat :: LastAt(before, SlaKey(e), k) ==> before[k].sla == e.sla
  {
    hide SlaKey;
    var key := SlaKey(e);
    if LastSla(before, key).Some? {
      LastSlaFound(before, key);
      var k: nat :| LastAt(before, key, k) && before[k].sla == LastSla(before, key);
    }
    forall k: nat | LastAt(before, key, k) ensures LastSla(before, key) == before[k].sla && before[k].sla.Some? { LastSlaAt(before, key, k); }
  }

  /** After any run a restored row has the SLA that its version's row has exactly when the working
      copy before the restore had no other last SLA under its key, or could not be listed. */
  lemma {:induction false} RestoredSlaIff(h: Hash, parse: Parser, s: State, steps: seq<(Request, Faults)>, i: nat, r: Request, f: Faults,
                                          k: nat)
    requires Sound(s) && ProperRun(h, parse, s, steps) && i < |s.versions|
    requires r.Restore? && r.gid == s.versions[i].groupId && r.versionId == s.versions[i].id
    requires var t := Run(h, parse, s, steps); Live(t, r.gid) && Proper(t, r)
    requires !f.uploadWorking && !f.uploadVersion && !f.download && !f.commit
    requires s.versions[i].id in s.snapshots && k < |s.snapshots[s.versions[i].id]|
    ensures
      var t := Run(h, parse, s, steps);
      var row := s.snapshots[s.versions[i].id][k];
      var before := WorkingOf(t, r.gid);
      var after := WorkingOf(Handle(h, parse, t, r, f).state, r.gid);
      && Handle(h, parse, t, r, f).status == Done && |after| == |s.snapshots[s.versions[i].id]|
      && (after[k].sla == row.sla <==> f.list || forall j: nat :: LastAt(before, SlaKey(row), j) ==> before[j].sla == row.sla)
  {
    hide *;
    RestoreRoundTrip(h, parse, s, steps, i, r, f);
    var t := Run(h, parse, s, steps);
    var es := s.snapshots[s.versions[i].id];
    var after := WorkingOf(Handle(h, parse, t, r, f).state, r.gid);
    BroughtBackAt(after, es, WorkingOf(t, r.gid), r.actor, f.list, k);
    SlaBroughtBackIff(after[k], es[k], WorkingOf(t, r.gid), r.actor, f.list);
  }

  lemma {:induction false} BroughtBackAt(ws: seq<Endpoint>, es: seq<Endpoint>, before: seq<Endpoint>, actor: string, listFails: bool, k: nat)
    requires AllBroughtBack(ws, es, before, actor, listFails) && k < |es|
    ensures |ws| == |es| && BroughtBack(ws[k], es[k], before, actor, listFails)
  {
  }

  lemma {:induction false} LastSlaAt(es: seq<Endpoint>, key: string, k: nat)
    requires LastAt(es, key, k)
    ensures LastSla(es, key) == es[k].sla && es[k].sla.Some?
  {
    if k < |es| - 1 {
      assert LastAt(es[..|es| - 1], key, k);
      LastSlaAt(es[..|es| - 1], key, k);
    }
  }

  lemma {:induction false} LastSlaFound(es: seq<Endpoint>, key: string)
    requires LastSla(es, key).Some?
    ensures exists k: nat :: LastAt(es, key, k) && es[k].sla == LastSla(es, key)
  {
    hide SlaKey;
    var last := |es| - 1;
    if es[last].sla.Some? && SlaKey(es[last]) == key {
      assert LastAt(es, key, last);
    } else {
      LastSlaFound(es[..last], key);
      var k: nat :| LastAt(es[..last], key, k) && es[..last][k].sla == LastSla(es[..last], key);
      LastAtGrows(es, key, k);
    }
  }

  lemma {:induction false} LastAtGrows(es: seq<Endpoint>, key: string, k: nat)
    requires es != [] && LastAt(es[..|es| - 1], key, k)
    requires es[|es| - 1].sla.Some? ==> SlaKey(es[|es| - 1]) != key
    ensures LastAt(es, key, k)
  {
    hide SlaKey;
    var init := es[..|es| - 1];
    forall j | k < j < |es| && SlaKey(es[j]) == key ensures es[j].sla.None? {
      if j < |es| - 1 { assert init[j] == es[j]; }
    }
  }

  // ---------- SLAs over runs ----------

  /** The group's endpoints are as before, or new ones with SLAs carried over. */
  ghost predicate Replaced(s: State, t: State, gid: string) {
    || WorkingOf(t, gid) == WorkingOf(s, gid)
    || exists es :: WorkingOf(t, gid) == Listed(Preserved(WorkingOf(s, gid), es))
  }

  lemma {:induction false} PublishReplaces(h: Hash, parse: Parser, s: State, p: Publish, f: Faults, gid: string)
    requires !f.list
    ensures Replaced(s, PublishVersion(h, parse, s, p, f).state, gid)
  {
    hide UniqueRoutes, Numbered, Preserved, Listed, Snapshot, ApiGroupSpecKey, ApiGroupVersionSpecKey;
    var t := PublishVersion(h, parse, s, p, f).state;
    if gid == p.gid {
      var parsed := if p.endpoints.Some? then p.endpoints else parse(p.spec, p.group.protocol);
      if parsed.Some? {
        assert Installed(s, p, parsed.value, f.list) == Preserved(WorkingOf(s, gid), Stamped(parsed.value, p.commitHash));
      }
    }
  }

  lemma {:induction false} HandleReplaces(h: Hash, parse: Parser, s: State, r: Request, f: Faults, gid: string)
    requires !f.list && !r.EditEndpoint?
    ensures Replaced(s, Handle(h, parse, s, r, f).state, gid)
  {
    hide PublishVersion, FindVersion, Preserved, Listed;
    match r
    case Create(g, service, org, name, version, protocol, spec, actor, vid) =>
      var row := Group(service, org, name, if version == "" then "v1" else version, Protocol(protocol), None, None, None, false);
      NewReplaces(h, parse, s, g, row, Publish(g, row, service, spec, None, TagOf(version), true, actor, None, vid), f, gid);
    case SyncNew(g, service, org, name, version, protocol, spec, commitHash, actor, vid) =>
      var row := Group(service, org, name, if version == "" then "v1" else version, Protocol(protocol), None, None, None, false);
      NewReplaces(h, parse, s, g, row, Publish(g, row, service, spec, None, TagOf(version), true, actor, commitHash, vid), f, gid);
    case Delete(g) =>
    case _ => PublishAnyReplaces(h, parse, s, r, f, gid);
  }

  lemma {:induction false} NewReplaces(h: Hash, parse: Parser, s: State, g: string, row: Group, p: Publish, f: Faults, gid: string)
    requires !f.list
    ensures Replaced(s, HandleNew(h, parse, s, g, row, p, f).state, gid)
  {
    hide PublishVersion, Preserved, Listed;
    PublishReplaces(h, parse, s.(groups := s.groups[g := row]), p, f, gid);
  }

  lemma {:induction false} PublishAnyReplaces(h: Hash, parse: Parser, s: State, r: Request, f: Faults, gid: string)
    requires !f.list && (r.Update? || r.Sync? || r.Release? || r.Restore?)
    ensures Replaced(s, Handle(h, parse, s, r, f).state, gid)
  {
    hide PublishVersion, FindVersion, Preserved, Listed;
    forall p ensures Replaced(s, PublishVersion(h, parse, s, p, f).state, gid) { PublishReplaces(h, parse, s, p, f, gid); }
  }

  /** Where all rows under a key have one SLA, any order of the rows gives that SLA. */
  lemma {:induction false} OneSla(es: seq<Endpoint>, r: seq<Endpoint>, key: string, sla: Option<Sla>)
    requires multiset(r) == multiset(es) && HasKey(r, key) && sla.Some?
    requires forall i :: 0 <= i < |es| && SlaKey(es[i]) == key ==> es[i].sla == sla
    ensures LastSla(r, key) == sla
  {
    hide SlaKey, LastSla;
    MultisetMembers(es, r);
    forall i | 0 <= i < |r| && SlaKey(r[i]) == key ensures r[i].sla == sla { assert r[i] in es; }
    LastSlaExists(r, key);
  }

  lemma {:induction false} KeyOfListed(es: seq<Endpoint>, key: string)
    requires HasKey(Listed(es), key)
    ensures HasKey(es, key) && multiset(Listed(es)) == multiset(es)
  {
    hide SlaKey, StableBy;
    StableOrders(es, OrderOf);
    var r := Listed(es);
    MultisetMembers(es, r);
    var i :| 0 <= i < |r| && SlaKey(r[i]) == key;
    assert r[i] in es;
  }

  lemma {:induction false} ReplacedKeepsSla(s: State, t: State, gid: string, key: string)
    requires Replaced(s, t, gid) && LastSla(WorkingOf(s, gid), key).Some? && HasKey(WorkingOf(t, gid), key)
    ensures LastSla(WorkingOf(t, gid), key) == LastSla(WorkingOf(s, gid), key)
  {
    hide LastSla, Preserved, WorkingOf, HasKey, Listed;
    var before := WorkingOf(s, gid);
    if WorkingOf(t, gid) != before {
      var es :| WorkingOf(t, gid) == Listed(Preserved(before, es));
      KeyOfListed(Preserved(before, es), key);
      KeysCarried(before, es, key);
      PublishKeepsSla(before, es, key);
      OneSla(Preserved(before, es), WorkingOf(t, gid), key, LastSla(before, key));
    }
  }

  lemma {:induction false} KeysCarried(existing: seq<Endpoint>, es: seq<Endpoint>, key: string)
    requires HasKey(Preserved(existing, es), key)
    ensures HasKey(es, key)
  {
    var r := Preserved(existing, es);
    var i :| 0 <= i < |r| && SlaKey(r[i]) == key;
    OnlySlasChange(existing, es, i);
  }

  /** An edit that has nothing to do with a key: it is for a version's row or for another group, or
      for a row that does not have the key, before and after. */
  ghost predicate EditsOther(s: State, r: Request, gid: string, key: string)
    requires r.EditEndpoint?
  {
    r.place.Working? && r.place.gid == gid && r.place.index < |WorkingOf(s, gid)| ==>
      var e := WorkingOf(s, gid)[r.place.index];
      SlaKey(e) != key && SlaKey(Patched(e, r.patch, r.actor)) != key
  }

  /** The rows under a key, in order. */
  function UnderKey(es: seq<Endpoint>, key: string): seq<Endpoint> {
    if es == [] then []
    else UnderKey(es[..|es| - 1], key) + if SlaKey(es[|es| - 1]) == key then [es[|es| - 1]] else []
  }

  lemma {:induction false} LastSlaMore(es: seq<Endpoint>, e: Endpoint, key: string)
    ensures LastSla(es + [e], key) == if e.sla.Some? && SlaKey(e) == key then e.sla else LastSla(es, key)
  {
    assert (es + [e])[..|es|] == es;
  }

  lemma {:induction false} UnderKeyMore(es: seq<Endpoint>, e: Endpoint, key: string)
    ensures UnderKey(es + [e], key) == UnderKey(es, key) + if SlaKey(e) == key then [e] else []
  {
    assert (es + [e])[..|es|] == es;
  }

  lemma {:induction false} LastSlaUnderKey(es: seq<Endpoint>, key: string)
    ensures LastSla(es, key) == LastSla(UnderKey(es, key), key)
  {
    hide SlaKey, LastSla;
    if es != [] {
      var init, last := es[..|es| - 1], es[|es| - 1];
      assert es == init + [last];
      LastSlaUnderKey(init, key);
      LastSlaMore(init, last, key);
      if SlaKey(last) == key {
        LastSlaMore(UnderKey(init, key), last, key);
      } else {
        assert UnderKey(es, key) == UnderKey(init, key);
      }
    }
  }

  lemma {:induction false} UnderKeyAppend(a: seq<Endpoint>, b: seq<Endpoint>, key: string)
    ensures UnderKey(a + b, key) == UnderKey(a, key) + UnderKey(b, key)
    decreases |b|
  {
    hide SlaKey;
    if b == [] {
      assert a + b == a;
    } else {
      var init := b[..|b| - 1];
      assert (a + b)[..|a + b| - 1] == a + init;
      UnderKeyAppend(a, init, key);
    }
  }

  lemma {:induction false} UnderKeyOne(e: Endpoint, key: string)
    ensures UnderKey([e], key) == if SlaKey(e) == key then [e] else []
  {
    assert [e][..0] == [];
  }

  /** Replacing a row without the key by another one changes nothing under the key. */
  lemma {:induction false} UnderKeyUpdate(es: seq<Endpoint>, i: nat, e: Endpoint, key: string)
    requires i < |es| && SlaKey(es[i]) != key && SlaKey(e) != key
    ensures UnderKey(es[i := e], key) == UnderKey(es, key)
  {
    hide UnderKey, SlaKey;
    UnderKeyOne(e, key);
    UnderKeyOne(es[i], key);
    UnderKeyAppend(es[..i], [es[i]], key);
    UnderKeyAppend(es[..i] + [es[i]], es[i + 1..], key);
    UnderKeyAppend(es[..i], [e], key);
    UnderKeyAppend(es[..i] + [e], es[i + 1..], key);
    assert es[..i] + [es[i]] + es[i + 1..] == es && es[..i] + [e] + es[i + 1..] == es[i := e];
  }

  /** Sorting keeps the order of rows that are in order among themselves. */
  lemma {:induction false} UnderKeySorted(es: seq<Endpoint>, key: string)
    requires OrderedBy(UnderKey(es, key), OrderOf)
    ensures UnderKey(Listed(es), key) == UnderKey(es, key)
  {
    hide SlaKey, InsertBy;
    if es != [] {
      var init, last := es[..|es| - 1], es[|es| - 1];
      UnderKeyBounds(es, key);
      UnderKeySorted(init, key);
      StableOrders(init, OrderOf);
      UnderKeyInsert(Listed(init), last, key);
      assert Listed(es) == InsertBy(Listed(init), last, OrderOf);
    }
  }

  lemma {:induction false} UnderKeyBounds(es: seq<Endpoint>, key: string)
    requires es != [] && OrderedBy(UnderKey(es, key), OrderOf)
    ensures OrderedBy(UnderKey(es[..|es| - 1], key), OrderOf)
    ensures SlaKey(es[|es| - 1]) == key ==> forall e :: e in UnderKey(es[..|es| - 1], key) ==> e.order <= es[|es| - 1].order
  {
    hide SlaKey;
    var all, some := UnderKey(es, key), UnderKey(es[..|es| - 1], key);
    forall i, j | 0 <= i < j < |some| ensures OrderOf(some[i]) <= OrderOf(some[j]) { assert all[i] == some[i] && all[j] == some[j]; }
    if SlaKey(es[|es| - 1]) == key {
      forall e | e in some ensures e.order <= es[|es| - 1].order {
        var i :| 0 <= i < |some| && some[i] == e;
        assert all[i] == e && OrderOf(all[i]) <= OrderOf(all[|some|]);
      }
    }
  }

  lemma {:induction false} LastUnderKey(s: seq<Endpoint>, key: string)
    ensures s != [] && SlaKey(s[|s| - 1]) == key ==> s[|s| - 1] in UnderKey(s, key)
  {
    hide SlaKey;
  }

  lemma {:induction false} UnderKeyInsert(s: seq<Endpoint>, x: Endpoint, key: string)
    requires SlaKey(x) == key ==> forall e :: e in UnderKey(s, key) ==> e.order <= x.order
    ensures UnderKey(InsertBy(s, x, OrderOf), key) == UnderKey(s, key) + if SlaKey(x) == key then [x] else []
  {
    LastUnderKey(s, key);
    hide SlaKey, UnderKey;
    if s != [] && OrderOf(x) < OrderOf(s[|s| - 1]) {
      var init, last := s[..|s| - 1], s[|s| - 1];
      assert s == init + [last];
      UnderKeyMore(init, last, key);
      UnderKeyInsert(init, x, key);
      UnderKeyMore(InsertBy(init, x, OrderOf), last, key);
    } else {
      UnderKeyMore(s, x, key);
    }
  }

  lemma {:induction false} UnderKeyOrdered(es: seq<Endpoint>, key: string)
    requires OrderedBy(es, OrderOf)
    ensures OrderedBy(UnderKey(es, key), OrderOf) && forall e :: e in UnderKey(es, key) ==> e in es
  {
    hide SlaKey;
    if es != [] {
      var init, last := es[..|es| - 1], es[|es| - 1];
      UnderKeyOrdered(init, key);
      forall e | e in init ensures OrderOf(e) <= OrderOf(last) && e in es {
        var i :| 0 <= i < |init| && init[i] == e;
        assert es[i] == e;
      }
    }
  }

  lemma {:induction false} EditKeepsSla(s: State, r: Request, f: Faults, gid: string, key: string)
    requires r.EditEndpoint? && EditsOther(s, r, gid, key) && OrderedBy(WorkingOf(s, gid), OrderOf)
    ensures LastSla(WorkingOf(HandleEdit(s, r, f).state, gid), key) == LastSla(WorkingOf(s, gid), key)
    ensures OrderedBy(WorkingOf(HandleEdit(s, r, f).state, gid), OrderOf)
  {
    hide SlaKey, Patched, UniqueRoutes, LastSla, UnderKey, OrderedBy, StableBy;
    var before, after := WorkingOf(s, gid), WorkingOf(HandleEdit(s, r, f).state, gid);
    if after != before {
      var i := r.place.index;
      var es := before[i := Patched(before[i], r.patch, r.actor)];
      assert after == Listed(es);
      StableOrders(es, OrderOf);
      UnderKeyUpdate(before, i, Patched(before[i], r.patch, r.actor), key);
      UnderKeyOrdered(before, key);
      UnderKeySorted(es, key);
      LastSlaUnderKey(before, key);
      LastSlaUnderKey(after, key);
    }
  }

  /** A step that publishes carries SLAs over, and a step that edits an endpoint leaves the key's
      endpoints alone; after it there is still one. */
  ghost predicate KeepsKey(h: Hash, parse: Parser, s: State, steps: seq<(Request, Faults)>, gid: string, key: string, k: nat)
    requires k < |steps|
  {
    && (if steps[k].0.EditEndpoint? then EditsOther(Run(h, parse, s, steps[..k]), steps[k].0, gid, key) else !steps[k].1.list)
    && HasKey(WorkingOf(Run(h, parse, s, steps[..k + 1]), gid), key)
  }

  ghost predicate Undisturbed(h: Hash, parse: Parser, s: State, steps: seq<(Request, Faults)>, gid: string, key: string) {
    forall k :: 0 <= k < |steps| ==> KeepsKey(h, parse, s, steps, gid, key, k)
  }

  lemma {:induction false} ReplacedInOrder(s: State, t: State, gid: string)
    requires Replaced(s, t, gid) && OrderedBy(WorkingOf(s, gid), OrderOf)
    ensures OrderedBy(WorkingOf(t, gid), OrderOf)
  {
    hide WorkingOf, Preserved, StableBy, OrderedBy;
    if es :| WorkingOf(t, gid) == Listed(Preserved(WorkingOf(s, gid), es)) { StableOrders(Preserved(WorkingOf(s, gid), es), OrderOf); }
  }

  /** An SLA survives every run of publishes, restores and edits of other endpoints, as long as
      its endpoint's key does. */
  lemma {:induction false} SlaSurvivesRun(h: Hash, parse: Parser, s: State, steps: seq<(Request, Faults)>, gid: string, key: string)
    requires OrderedBy(WorkingOf(s, gid), OrderOf)
    requires Undisturbed(h, parse, s, steps, gid, key) && LastSla(WorkingOf(s, gid), key).Some?
    ensures LastSla(WorkingOf(Run(h, parse, s, steps), gid), key) == LastSla(WorkingOf(s, gid), key)
    ensures OrderedBy(WorkingOf(Run(h, parse, s, steps), gid), OrderOf)
  {
    hide Handle, LastSla, HasKey, WorkingOf, EditsOther, Replaced, OrderedBy;
    if steps != [] {
      var last := |steps| - 1;
      var t := Run(h, parse, s, steps[..last]);
      UndisturbedPrefix(h, parse, s, steps, gid, key);
      SlaSurvivesRun(h, parse, s, steps[..last], gid, key);
      assert steps[..last + 1] == steps && KeepsKey(h, parse, s, steps, gid, key, last);
      if steps[last].0.EditEndpoint? {
        EditKeepsSla(t, steps[last].0, steps[last].1, gid, key);
        EditIsHandled(h, parse, t, steps[last].0, steps[last].1);
      } else {
        HandleReplaces(h, parse, t, steps[last].0, steps[last].1, gid);
        ReplacedInOrder(t, Run(h, parse, s, steps), gid);
        ReplacedKeepsSla(t, Run(h, parse, s, steps), gid, key);
      }
    }
  }

  lemma {:induction false} EditIsHandled(h: Hash, parse: Parser, s: State, r: Request, f: Faults)
    requires r.EditEndpoint?
    ensures Handle(h, parse, s, r, f) == HandleEdit(s, r, f)
  {
  }

  lemma {:induction false} UndisturbedPrefix(h: Hash, parse: Parser, s: State, steps: seq<(Request, Faults)>, gid: string, key: string)
    requires steps != [] && Undisturbed(h, parse, s, steps, gid, key)
    ensures Undisturbed(h, parse, s, steps[..|steps| - 1], gid, key)
  {
    hide Run, HasKey, WorkingOf, EditsOther;
    var init := steps[..|steps| - 1];
    forall k | 0 <= k < |init| ensures KeepsKey(h, parse, s, init, gid, key, k) {
      assert init[..k + 1] == steps[..k + 1] && init[..k] == steps[..k] && KeepsKey(h, parse, s, steps, gid, key, k);
    }
  }

  // ---------- Endpoint edits ----------

  /** An edit leaves published versions alone exactly when it is for the working copy, fails, is for
      a row that is not there or that belongs to no version, or changes nothing: the handler itself
      does not look where the row is. */
  lemma {:induction false} EditKeepsVersionsIff(s: State, r: Request, f: Faults)
    requires r.EditEndpoint? && Sound(s)
    ensures KeptIn(s, HandleEdit(s, r, f).state) <==>
      || r.place.Working? || f.row
      || r.place.vid !in s.snapshots || r.place.index >= |s.snapshots[r.place.vid]|
      || (forall i :: 0 <= i < |s.versions| ==> s.versions[i].id != r.place.vid)
      || Patched(s.snapshots[r.place.vid][r.place.index], r.patch, r.actor) == s.snapshots[r.place.vid][r.place.index]
  {
    hide Tidy, UniqueRoutes, Patched, Sound, Listed;
    var t := HandleEdit(s, r, f).state;
    if r.place.InVersion? && !f.row && r.place.vid in s.snapshots && r.place.index < |s.snapshots[r.place.vid]| {
      var vid, k := r.place.vid, r.place.index;
      var es := s.snapshots[vid];
      var e := Patched(es[k], r.patch, r.actor);
      assert t == s.(snapshots := s.snapshots[vid := Listed(es[k := e])]);
      if i :| 0 <= i < |s.versions| && s.versions[i].id == vid {
        VersionIsThere(s, i);
        PatchedList(es, k, e);
        if KeptIn(s, t) { assert SameVersion(s, t, s.versions[i]); }
      }
    }
  }

  lemma {:induction false} PatchedList(es: seq<Endpoint>, k: nat, e: Endpoint)
    requires Tidy(es) && k < |es|
    ensures Listed(es[k := e]) == es <==> e == es[k]
  {
    hide StableBy;
    StableOfOrdered(es, OrderOf);
    StableOrders(es[k := e], OrderOf);
    assert multiset(es[k := e]) == multiset(es) - multiset{es[k]} + multiset{e};
    if e == es[k] { assert es[k := e] == es; }
  }

  // ---------- Runs that show the breaches ----------

  const EMPTY := State(map[], [], map[], map[], map[])
  const CREATE := Create("g", "s", "o", "pets", "", "REST", "good", "ann", "v1")
  const BARE := Group("s", "o", "pets", "v1", "REST", None, None, None, false)
  const FIRST := Publish("g", BARE, "s", "good", None, None, true, "ann", None, "v1")

  lemma {:induction false} ListedOne(e: Endpoint)
    ensures Listed([e]) == [e]
  {
    StableOfOrdered([e], OrderOf);
  }

  lemma {:induction false} OneInstalled(s: State, p: Publish, e: Endpoint)
    requires WorkingOf(s, p.gid) == [] && p.commitHash.None?
    ensures Installed(s, p, [e], false) == [e.(commitHash := None)]
  {
  }

  /** What creating a group with a spec of one endpoint leaves behind. */
  lemma {:induction false} Created(h: Hash, parse: Parser, e: Endpoint)
    requires parse("good", "REST") == Some([e])
    ensures var s := Handle(h, parse, EMPTY, CREATE, NoFaults).state;
      && Sound(EMPTY) && Sound(s) && Live(s, "g") && WorkingOf(s, "g") == [e.(commitHash := None)] && "g" in s.working
      && |s.versions| == 1 && s.versions[0].id == "v1" && s.versions[0].groupId == "g"
      && "v1" in s.snapshots && s.snapshots["v1"] == Snapshot([e.(commitHash := None)], "v1", "ann")
  {
    hide Sound, PublishVersion, PublishOk, GroupSound, Snapshot, UnusedVersion;
    EmptyIsSound(h);
    var s1 := EMPTY.(groups := map["g" := BARE]);
    CreateIsPublish(h, parse);
    CreateIsProper();
    HandleIsSafe(h, parse, EMPTY, CREATE, NoFaults);
    NewRowIsSound(EMPTY);
    RowIsSafe(EMPTY, "g", BARE);
    EditedPublishOk(s1, FIRST);
    PublishedOne(h, parse, s1, FIRST, e);
  }

  lemma {:induction false} CreateIsProper()
    ensures Proper(EMPTY, CREATE) && UnusedVersion(EMPTY.(groups := map["g" := BARE]), "v1") && SlashFree("s")
  {
  }

  /** A first publish of a spec with one endpoint. */
  lemma {:induction false} PublishedOne(h: Hash, parse: Parser, s: State, p: Publish, e: Endpoint)
    requires Sound(s) && PublishOk(s, p) && p.spec != "" && p.endpoints.None? && p.commitHash.None? && !p.group.deleted
    requires parse(p.spec, p.group.protocol) == Some([e]) && WorkingOf(s, p.gid) == []
    ensures var t := PublishVersion(h, parse, s, p, NoFaults).state;
      && PublishVersion(h, parse, s, p, NoFaults).status == Done
      && Live(t, p.gid) && p.gid in t.working && WorkingOf(t, p.gid) == [e.(commitHash := None)]
      && |t.versions| == |s.versions| + 1 && t.versions[|s.versions|].id == p.vid && t.versions[|s.versions|].groupId == p.gid
      && p.vid in t.snapshots && t.snapshots[p.vid] == Snapshot([e.(commitHash := None)], p.vid, p.actor)
  {
    OneInstalled(s, p, e);
    ListedOne(e.(commitHash := None));
    assert GetsThrough(parse, s, p, NoFaults);
    hide Sound, PublishOk, GetsThrough, Snapshot, Installed, Listed, Latest, Stamps, PublishSpec, ApiGroupSpecKey, ApiGroupVersionSpecKey;
    DoneIffThrough(h, parse, s, p, NoFaults);
    PublishedSpec(h, parse, s, p, NoFaults);
    StillLive(h, parse, s, p, NoFaults);
  }

  lemma {:induction false} NewRowIsSound(s: State)
    ensures GroupSound(s, "g", BARE)
  {
  }

  lemma {:induction false} CreateIsPublish(h: Hash, parse: Parser)
    ensures Handle(h, parse, EMPTY, CREATE, NoFaults) == PublishVersion(h, parse, EMPTY.(groups := map["g" := BARE]), FIRST, NoFaults)
  {
    hide PublishVersion;
  }

  lemma {:induction false} StillLive(h: Hash, parse: Parser, s: State, p: Publish, f: Faults)
    requires PublishVersion(h, parse, s, p, f).status == Done && !p.group.deleted
    ensures var t := PublishVersion(h, parse, s, p, f).state; Live(t, p.gid) && p.gid in t.working
  {
    hide UniqueRoutes, Numbered, Installed, Snapshot, Listed, ApiGroupSpecKey, ApiGroupVersionSpecKey;
  }

  /** Creating a group and then editing the endpoint row of its first version by id. */
  lemma {:induction false} EditReachesVersion(h: Hash, parse: Parser, e: Endpoint)
    requires parse("good", "REST") == Some([e]) && e.operationId != "edited"
    ensures var s := Handle(h, parse, EMPTY, CREATE, NoFaults).state;
      var edit := EditEndpoint(InVersion("v1", 0), Patch(Some("edited"), None, None, None, None, None), "bob");
      var u := Handle(h, parse, s, edit, NoFaults);
      Sound(EMPTY) && Proper(EMPTY, CREATE) && |s.versions| == 1 && u.status == Done && !KeptIn(s, u.state)
  {
    Created(h, parse, e);
    var s := Handle(h, parse, EMPTY, CREATE, NoFaults).state;
    var edit := EditEndpoint(InVersion("v1", 0), Patch(Some("edited"), None, None, None, None, None), "bob");
    hide Sound, KeptIn;
    EditKeepsVersionsIff(s, edit, NoFaults);
    assert s.versions[0].id == "v1";
    assert Patched(s.snapshots["v1"][0], edit.patch, "bob").operationId == "edited";
    hide Handle;
    EditIsHandled(h, parse, s, edit, NoFaults);
  }

  /** A group with one endpoint, which has no SLA in a version: one set before restoring the
      version stays. */
  lemma {:induction false} SetSlaStays(h: Hash, parse: Parser, s: State, edit: Request, r: Request)
    requires Sound(s) && |s.versions| == 1 && s.versions[0].id in s.snapshots && |s.snapshots[s.versions[0].id]| == 1
    requires r.Restore? && edit.EditEndpoint? && edit.place == Working(r.gid, 0) && edit.patch.sla.Some?
    requires edit.patch.operationId.None? && edit.patch.verb.None? && edit.patch.path.None?
    requires r.gid == s.versions[0].groupId && r.versionId == s.versions[0].id && Live(s, r.gid) && Proper(s, r)
    requires r.gid in s.working && |s.working[r.gid]| == 1
    requires SlaKey(s.working[r.gid][0]) == SlaKey(s.snapshots[s.versions[0].id][0]) && s.snapshots[s.versions[0].id][0].sla.None?
    ensures var u := Handle(h, parse, Handle(h, parse, s, edit, NoFaults).state, r, NoFaults);
      && u.status == Done && |WorkingOf(u.state, r.gid)| == 1
      && WorkingOf(u.state, r.gid)[0].sla != s.snapshots[s.versions[0].id][0].sla
  {
    hide Sound, Handle, Run, ProperRun, Proper, LastAt, SlaKey, UnusedVersion;
    var t := Handle(h, parse, s, edit, NoFaults).state;
    EditOnlyRow(h, parse, s, edit);
    ProperStays(s, t, edit, r);
    OneStep(h, parse, s, edit, NoFaults);
    OneLast(s.working[r.gid][0], WorkingOf(t, r.gid)[0]);
    RestoredSlaIff(h, parse, s, [(edit, NoFaults)], 0, r, NoFaults, 0);
  }

  lemma {:induction false} ProperStays(s: State, t: State, edit: Request, r: Request)
    requires r.Restore? && Proper(s, r) && t.versions == s.versions && edit.EditEndpoint? && edit.place.Working?
    ensures Proper(t, r) && Proper(s, edit)
  {
  }

  lemma {:induction false} RestoreIsProper(s: State)
    requires |s.versions| == 1 && s.versions[0].id == "v1"
    ensures Proper(s, Restore("g", "s", "v1", "ann", "v2"))
  {
  }

  /** Creating a group, setting an SLA on its endpoint, and restoring the first version, which has
      none: the SLA stays. */
  lemma {:induction false} RestoreKeepsOtherSla(h: Hash, parse: Parser, e: Endpoint)
    requires parse("good", "REST") == Some([e]) && e.sla.None?
    ensures var s := Handle(h, parse, EMPTY, CREATE, NoFaults).state;
      var edit := EditEndpoint(Working("g", 0), Patch(None, None, None, None, None, Some(Sla(["p95"]))), "bob");
      var t := Handle(h, parse, s, edit, NoFaults).state;
      var u := Handle(h, parse, t, Restore("g", "s", "v1", "ann", "v2"), NoFaults);
      && Sound(EMPTY) && Proper(EMPTY, CREATE) && u.status == Done
      && "v1" in s.snapshots && |s.snapshots["v1"]| == 1 == |WorkingOf(u.state, "g")|
      && WorkingOf(u.state, "g")[0].sla != s.snapshots["v1"][0].sla
  {
    hide Sound, Handle, SlaKey, Proper, UnusedVersion;
    var s := Handle(h, parse, EMPTY, CREATE, NoFaults).state;
    Created(h, parse, e);
    CreateIsProper();
    RestoreIsProper(s);
    SameKey(s.working["g"][0], s.snapshots["v1"][0]);
    SetSlaStays(h, parse, s, EditEndpoint(Working("g", 0), Patch(None, None, None, None, None, Some(Sla(["p95"]))), "bob"),
                Restore("g", "s", "v1", "ann", "v2"));
  }

  lemma {:induction false} OneLast(a: Endpoint, b: Endpoint)
    requires a.operationId == b.operationId && a.verb == b.verb && a.path == b.path && b.sla.Some?
    ensures LastAt([b], SlaKey(a), 0)
  {
    SameKey(a, b);
  }

  lemma {:induction false} EditOnlyRow(h: Hash, parse: Parser, s: State, r: Request)
    requires r.EditEndpoint? && r.place.Working? && r.place.index == 0 && r.place.gid in s.working && |s.working[r.place.gid]| == 1
    ensures var row := Patched(s.working[r.place.gid][0], r.patch, r.actor);
      Handle(h, parse, s, r, NoFaults).state == s.(working := s.working[r.place.gid := [row]])
  {
    hide Patched;
    var row := Patched(s.working[r.place.gid][0], r.patch, r.actor);
    ListedOne(row);
    assert s.working[r.place.gid][0 := row] == [row];
  }

  lemma {:induction false} SameKey(a: Endpoint, b: Endpoint)
    requires a.operationId == b.operationId && a.verb == b.verb && a.path == b.path
    ensures SlaKey(a) == SlaKey(b)
  {
  }

  lemma {:induction false} OneStep(h: Hash, parse: Parser, s: State, r: Request, f: Faults)
    ensures Run(h, parse, s, [(r, f)]) == Handle(h, parse, s, r, f).state
    ensures Proper(s, r) ==> ProperRun(h, parse, s, [(r, f)])
  {
    hide Handle, Proper;
    assert [(r, f)][..0] == [];
    assert Run(h, parse, s, []) == s;
  }
}
