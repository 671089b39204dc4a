/** What each request to a diagram leaves behind, column by column. */
module DiagramRequests {
  import opened Text
  import opened StorageKeys
  import opened VersionNumbers
  import opened Diagrams

  // ---------- What changes and what does not ----------

  ghost predicate OtherRowsSame(s: State, t: State, id: string) {
    forall d :: d != id ==> (d in t.rows <==> d in s.rows) && (d in s.rows ==> t.rows[d] == s.rows[d])
  }

  ghost predicate OtherEntriesSame(s: State, t: State, id: string) {
    forall d :: d != id ==> (d in t.cache <==> d in s.cache) && (d in s.cache ==> t.cache[d] == s.cache[d])
  }

  ghost predicate BlobsSameBut(s: State, t: State, keys: set<string>) {
    forall key :: key !in keys ==> (key in t.blobs <==> key in s.blobs) && (key in s.blobs ==> t.blobs[key] == s.blobs[key])
  }

  /** There is one version more: the diagram's next one, with this content in its blob. */
  ghost predicate AddsVersion(s: State, t: State, id: string, vid: string, content: string) {
    && |t.versions| == |s.versions| + 1 && t.versions[..|s.versions|] == s.versions
    && var v := Added(s, t);
    && v.id == vid && v.diagramId == id && v.number == CountOf(s.versions, id, StampOf) + 1
    && v.contentKey in t.blobs && t.blobs[v.contentKey] == content
  }

  ghost function Added(s: State, t: State): DiagramVersion
    requires |t.versions| > |s.versions|
  {
    t.versions[|s.versions|]
  }

  lemma {:induction false} NextIsCount(h: Hash, s: State, id: string)
    requires Agree(h, s)
    ensures LatestOf(s.versions, id) == CountOf(s.versions, id, StampOf)
    ensures NoVersionOf(s.versions, id) ==> CountOf(s.versions, id, StampOf) == 0
  {
    CountIsNumbers(s.versions, id, StampOf);
    LatestIsCount(Stamps(s.versions), id);
    if NoVersionOf(s.versions, id) { StampsOfNone(s.versions, id); }
  }

  /** A request that writes a row, a current blob and a version. */
  lemma {:induction false} Writes(s: State, t: State, id: string, r: Row, content: string, v: DiagramVersion)
    requires t.rows == s.rows[id := r] && t.blobs == s.blobs[r.contentKey := content][v.contentKey := content]
    requires t.versions == s.versions + [v] && r.contentKey != v.contentKey
    requires v.diagramId == id && v.number == CountOf(s.versions, id, StampOf) + 1
    ensures AddsVersion(s, t, id, v.id, content) && Added(s, t) == v
    ensures OtherRowsSame(s, t, id) && BlobsSameBut(s, t, {r.contentKey, v.contentKey})
    ensures id in t.rows && t.rows[id] == r && r.contentKey in t.blobs && t.blobs[r.contentKey] == content
  {
    hide CountOf;
  }

  /** The key of a new version is no current blob's key. */
  lemma {:induction false} NewKeyDiffers(h: Hash, s: State, org: string, id: string, vid: string, d: string)
    requires Agree(h, s) && id in s.rows && d in s.rows && SlashFree(org) && SlashFree(vid)
    ensures DiagramVersionKey(org, id, vid) != s.rows[d].contentKey
  {
    assert RowAgrees(h, s, id) && RowAgrees(h, s, d);
    if DiagramVersionKey(org, id, vid) == s.rows[d].contentKey {
      KeysDiffer(Version(org, id, vid), Content(s.rows[d].orgId, d));
    }
  }

  // ---------- Sync ----------

  predicate Syncs(h: Hash, s: State, c: Call)
    requires c.Sync?
  {
    c.name != "" && c.content != "" && Live(s, c.id) && h(c.content) != s.rows[c.id].contentHash
  }

  /** A sync of content with a new hash replaces the current blob and records it as the next
      version; any other sync changes nothing. */
  lemma {:induction false} SyncLeaves(h: Hash, s: State, c: Call)
    requires Agree(h, s) && FreshFor(s, c) && c.Sync?
    ensures var t := Apply(h, s, c);
      && (!Syncs(h, s, c) ==> t == s)
      && (Syncs(h, s, c) ==>
            var r := s.rows[c.id];
            && AddsVersion(s, t, c.id, c.freshVersion, c.content)
            && var v := Added(s, t);
            && v.contentHash == h(c.content) && v.isAuto && v.source == c.source && v.tag == None
            && OtherRowsSame(s, t, c.id) && c.id in t.rows && t.rows[c.id].contentKey == r.contentKey
            && t.rows[c.id].contentHash == h(c.content) && t.rows[c.id].source == c.source
            && t.rows[c.id].name == r.name && t.rows[c.id].orgId == r.orgId && !t.rows[c.id].deleted
            && r.contentKey in t.blobs && t.blobs[r.contentKey] == c.content
            && BlobsSameBut(s, t, {r.contentKey, v.contentKey})
            && c.id !in t.cache && OtherEntriesSame(s, t, c.id)
            && ReadContent(t, c.id) == Some(c.content))
  {
    hide Agree, LatestOf, DiagramVersionKey, CountOf;
    var t := Apply(h, s, c);
    if Syncs(h, s, c) {
      NextIsCount(h, s, c.id);
      NewKeyDiffers(h, s, c.org, c.id, c.freshVersion, c.id);
      var v := DiagramVersion(c.freshVersion, c.id, LatestOf(s.versions, c.id) + 1, None,
                              DiagramVersionKey(c.org, c.id, c.freshVersion), h(c.content), true, c.source);
      SyncWrites(h, s, c, v);
      hide Apply, AddsVersion, BlobsSameBut, OtherRowsSame;
      Writes(s, t, c.id, s.rows[c.id].(contentHash := h(c.content), source := c.source), c.content, v);
    }
  }

  lemma {:induction false} SyncWrites(h: Hash, s: State, c: Call, v: DiagramVersion)
    requires c.Sync? && Syncs(h, s, c)
    requires v == DiagramVersion(c.freshVersion, c.id, LatestOf(s.versions, c.id) + 1, None,
                                 DiagramVersionKey(c.org, c.id, c.freshVersion), h(c.content), true, c.source)
    ensures var t := Apply(h, s, c);
      && t.rows == s.rows[c.id := s.rows[c.id].(contentHash := h(c.content), source := c.source)]
      && t.blobs == s.blobs[s.rows[c.id].contentKey := c.content][v.contentKey := c.content]
      && t.versions == s.versions + [v] && t.cache == s.cache - {c.id}
  {
    hide LatestOf, DiagramVersionKey;
  }

  // ---------- Create ----------

  /** A new diagram: its row, its blob and its version 1. */
  ghost predicate IsNew(h: Hash, s: State, t: State, org: string, id: string, vid: string, name: string, source: Option<string>,
                        content: string)
  {
    && AddsVersion(s, t, id, vid, content)
    && var v := Added(s, t);
    && v.number == 1 && v.contentHash == h(content) && v.source == source && v.tag == None
    && OtherRowsSame(s, t, id) && id in t.rows
    && var r := t.rows[id];
    && r.orgId == org && r.name == name && r.contentHash == h(content) && r.source == source && !r.deleted
    && r.contentKey in t.blobs && t.blobs[r.contentKey] == content
    && BlobsSameBut(s, t, {r.contentKey, v.contentKey})
    && ReadContent(t, id) == Some(content)
  }

  lemma {:induction false} NewKeysDiffer(org: string, id: string, vid: string)
    requires SlashFree(org) && SlashFree(id) && SlashFree(vid)
    ensures DiagramContentKey(org, id) != DiagramVersionKey(org, id, vid)
  {
    if DiagramContentKey(org, id) == DiagramVersionKey(org, id, vid) { KeysDiffer(Content(org, id), Version(org, id, vid)); }
  }

  lemma {:induction false} AddDiagramLeaves(h: Hash, s: State, org: string, id: string, vid: string, name: string, source: Option<string>,
                                            content: string, isAuto: bool)
    requires Agree(h, s) && id !in s.rows && NoVersionOf(s.versions, id) && SlashFree(org) && SlashFree(id) && SlashFree(vid)
    ensures var t := AddDiagram(s, h, org, id, vid, name, source, content, isAuto);
      IsNew(h, s, t, org, id, vid, name, source, content) && Added(s, t).isAuto == isAuto && t.cache == s.cache
  {
    hide LatestOf, DiagramVersionKey, DiagramContentKey, CountOf;
    NextIsCount(h, s, id);
    NewKeysDiffer(org, id, vid);
    EntriesAreReads(h, s);
    var t := AddDiagram(s, h, org, id, vid, name, source, content, isAuto);
    var r := Row(org, name, DiagramContentKey(org, id), h(content), source, false);
    var v := DiagramVersion(vid, id, 1, None, DiagramVersionKey(org, id, vid), h(content), isAuto, source);
    hide Agree, AddsVersion, BlobsSameBut, OtherRowsSame;
    Writes(s, t, id, r, content, v);
  }

  lemma {:induction false} CachedIsNew(h: Hash, s: State, t: State, org: string, id: string, vid: string, name: string,
                                       source: Option<string>, content: string)
    requires IsNew(h, s, t, org, id, vid, name, source, content)
    ensures IsNew(h, s, t.(cache := t.cache[id := content]), org, id, vid, name, source, content)
  {
    hide CountOf;
  }

  /** Creating a diagram makes it, with an automatic version if it comes from a source, and caches its
      content; without a name or content nothing happens. */
  lemma {:induction false} CreateLeaves(h: Hash, s: State, c: Call)
    requires Agree(h, s) && FreshFor(s, c) && c.Create?
    ensures var t := Apply(h, s, c);
      && (c.name == "" || c.content == "" ==> t == s)
      && (c.name != "" && c.content != "" ==>
            && IsNew(h, s, t, c.org, c.freshId, c.freshVersion, c.name, c.source, c.content)
            && (Added(s, t).isAuto <==> c.source != None)
            && c.freshId in t.cache && t.cache[c.freshId] == c.content && OtherEntriesSame(s, t, c.freshId))
  {
    hide Agree, AddDiagram, AddsVersion, BlobsSameBut, OtherRowsSame;
    AddDiagramLeaves(h, s, c.org, c.freshId, c.freshVersion, c.name, c.source, c.content, c.source.Some?);
    if c.name != "" && c.content != "" {
      var t := AddDiagram(s, h, c.org, c.freshId, c.freshVersion, c.name, c.source, c.content, c.source.Some?);
      CachedIsNew(h, s, t, c.org, c.freshId, c.freshVersion, c.name, c.source, c.content);
    }
  }

  /** So does a sync without an id, always with an automatic version and nothing cached. */
  lemma {:induction false} SyncNewLeaves(h: Hash, s: State, c: Call)
    requires Agree(h, s) && FreshFor(s, c) && c.SyncNew?
    ensures var t := Apply(h, s, c);
      && (c.name == "" || c.content == "" ==> t == s)
      && (c.name != "" && c.content != "" ==>
            && IsNew(h, s, t, c.org, c.freshId, c.freshVersion, c.name, c.source, c.content)
            && Added(s, t).isAuto && t.cache == s.cache)
  {
    AddDiagramLeaves(h, s, c.org, c.freshId, c.freshVersion, c.name, c.source, c.content, true);
    hide Agree, AddDiagram, CountOf;
  }

  // ---------- Versions ----------

  /** A snapshot records the current blob of a live diagram as its next version and leaves the row and
      the blob alone; the content is cached afterwards. */
  lemma {:induction false} SnapshotLeaves(h: Hash, s: State, c: Call)
    requires Agree(h, s) && FreshFor(s, c) && c.CreateVersion?
    ensures var t := Apply(h, s, c);
      && (!Live(s, c.id) ==> t == s)
      && (Live(s, c.id) ==>
            var r := s.rows[c.id];
            && r.contentKey in s.blobs
            && AddsVersion(s, t, c.id, c.freshVersion, s.blobs[r.contentKey])
            && var v := Added(s, t);
            && v.contentHash == r.contentHash && !v.isAuto && v.source == r.source && v.tag == c.tag
            && t.rows == s.rows && BlobsSameBut(s, t, {v.contentKey})
            && r.contentKey in t.blobs && t.blobs[r.contentKey] == s.blobs[r.contentKey]
            && c.id in t.cache && t.cache[c.id] == s.blobs[r.contentKey] && OtherEntriesSame(s, t, c.id))
  {
    hide LatestOf, DiagramVersionKey, CountOf;
    ReadIsCurrent(h, s, c.id);
    if Live(s, c.id) {
      assert RowAgrees(h, s, c.id);
      NextIsCount(h, s, c.id);
      NewKeyDiffers(h, s, c.org, c.id, c.freshVersion, c.id);
    }
    hide Agree;
  }

  /** A restore makes a version's content current again, with that version's hash, and records it as
      the next version. */
  lemma {:induction false} RestoreLeaves(h: Hash, s: State, c: Call, i: nat)
    requires Agree(h, s) && FreshFor(s, c) && c.RestoreVersion? && i < |s.versions| && s.versions[i].id == c.versionId
    ensures var t := Apply(h, s, c);
      var old' := s.versions[i];
      && old'.contentKey in s.blobs
      && (!Live(s, c.id) ==> t == s)
      && (Live(s, c.id) ==>
            var r := s.rows[c.id];
            var content := s.blobs[old'.contentKey];
            && AddsVersion(s, t, c.id, c.freshVersion, content)
            && var v := Added(s, t);
            && v.contentHash == old'.contentHash && v.isAuto && v.tag == None && v.source == Some("restore:v" + Decimal(old'.number))
            && OtherRowsSame(s, t, c.id) && c.id in t.rows && t.rows[c.id].contentKey == r.contentKey
            && t.rows[c.id].contentHash == old'.contentHash && t.rows[c.id].source == v.source
            && t.rows[c.id].name == r.name && t.rows[c.id].orgId == r.orgId && !t.rows[c.id].deleted
            && r.contentKey in t.blobs && t.blobs[r.contentKey] == content
            && BlobsSameBut(s, t, {r.contentKey, v.contentKey})
            && c.id !in t.cache && OtherEntriesSame(s, t, c.id))
  {
    VersionBlobsExist(h, s);
    FindUnique(s.versions, i, IdOf);
    hide Agree, LatestOf, DiagramVersionKey, CountOf, Decimal, Find;
    var t := Apply(h, s, c);
    if Live(s, c.id) {
      NextIsCount(h, s, c.id);
      NewKeyDiffers(h, s, c.org, c.id, c.freshVersion, c.id);
      var source := Some("restore:v" + Decimal(s.versions[i].number));
      var v := DiagramVersion(c.freshVersion, c.id, LatestOf(s.versions, c.id) + 1, None,
                              DiagramVersionKey(c.org, c.id, c.freshVersion), s.versions[i].contentHash, true, source);
      RestoreWrites(h, s, c, s.versions[i], source, v);
      hide Apply, AddsVersion, BlobsSameBut, OtherRowsSame;
      Writes(s, t, c.id, s.rows[c.id].(contentHash := s.versions[i].contentHash, source := source), s.blobs[s.versions[i].contentKey], v);
    }
  }

  lemma {:induction false} RestoreWrites(h: Hash, s: State, c: Call, w: DiagramVersion, source: Option<string>, v: DiagramVersion)
    requires c.RestoreVersion? && Live(s, c.id) && FindVersion(s.versions, c.versionId) == Some(w) && w.contentKey in s.blobs
    requires source == Some("restore:v" + Decimal(w.number))
    requires v == DiagramVersion(c.freshVersion, c.id, LatestOf(s.versions, c.id) + 1, None,
                                 DiagramVersionKey(c.org, c.id, c.freshVersion), w.contentHash, true, source)
    ensures var t := Apply(h, s, c);
      && t.rows == s.rows[c.id := s.rows[c.id].(contentHash := w.contentHash, source := source)]
      && t.blobs == s.blobs[s.rows[c.id].contentKey := s.blobs[w.contentKey]][v.contentKey := s.blobs[w.contentKey]]
      && t.versions == s.versions + [v] && t.cache == s.cache - {c.id}
  {
    hide LatestOf, DiagramVersionKey, Decimal, Find;
  }

  /** Without such a version nothing happens. */
  lemma {:induction false} RestoreOfNothing(h: Hash, s: State, c: Call)
    requires c.RestoreVersion? && forall i :: 0 <= i < |s.versions| ==> s.versions[i].id != c.versionId
    ensures Apply(h, s, c) == s
  {
    FindVersionIs(s.versions, c.versionId);
    hide Find;
  }

  // ---------- Update, delete, read ----------

  /** An update of a live diagram sets the name and the source that it has, and the content if its
      hash is new; then the cache entry is gone. It makes no version. */
  lemma {:induction false} UpdateLeaves(h: Hash, s: State, c: Call)
    requires Agree(h, s) && c.Update?
    ensures var t := Apply(h, s, c);
      && t.versions == s.versions
      && (!Live(s, c.id) ==> t == s)
      && (Live(s, c.id) ==>
            var r := s.rows[c.id];
            && OtherRowsSame(s, t, c.id) && c.id in t.rows
            && (c.newName == None ==> t.rows[c.id].name == r.name) && (c.newName != None ==> Some(t.rows[c.id].name) == c.newName)
            && (c.newSource == None ==> t.rows[c.id].source == r.source) && (c.newSource != None ==> t.rows[c.id].source == c.newSource)
            && t.rows[c.id].orgId == r.orgId && t.rows[c.id].contentKey == r.contentKey && !t.rows[c.id].deleted
            && if c.newContent != None && h(c.newContent.value) != r.contentHash then
                 && t.rows[c.id].contentHash == h(c.newContent.value)
                 && r.contentKey in t.blobs && t.blobs[r.contentKey] == c.newContent.value && BlobsSameBut(s, t, {r.contentKey})
                 && c.id !in t.cache && OtherEntriesSame(s, t, c.id)
               else t.rows[c.id].contentHash == r.contentHash && t.blobs == s.blobs && t.cache == s.cache)
  {
    hide Agree;
  }

  /** A deleted diagram keeps its columns, versions and blobs, and readers get nothing. */
  lemma {:induction false} DeleteLeaves(h: Hash, s: State, id: string)
    ensures var t := Apply(h, s, Delete(id));
      && t.versions == s.versions && t.blobs == s.blobs
      && OtherRowsSame(s, t, id) && id !in t.cache && OtherEntriesSame(s, t, id)
      && (id in t.rows <==> id in s.rows) && (id in s.rows ==> t.rows[id].deleted && t.rows[id] == s.rows[id].(deleted := true))
      && ReadContent(t, id) == None
  {
  }

  /** Reading changes nothing but the cache, which afterwards has what was read. */
  lemma {:induction false} ReadLeaves(h: Hash, s: State, id: string)
    requires Agree(h, s)
    ensures var t := Apply(h, s, GetContent(id));
      && t.rows == s.rows && t.versions == s.versions && t.blobs == s.blobs && OtherEntriesSame(s, t, id)
      && (Live(s, id) ==> s.rows[id].contentKey in s.blobs && id in t.cache && t.cache[id] == s.blobs[s.rows[id].contentKey])
      && (!Live(s, id) ==> id !in t.cache)
  {
    ReadIsCurrent(h, s, id);
    if id in s.rows { assert RowAgrees(h, s, id); }
    if id in s.cache { assert CacheAgrees(s, id); }
    hide Agree;
  }

  // ---------- When the row cannot be updated ----------

  /** Only the blob is new then, and for an update the cache entry is gone as well. */
  lemma {:induction false} RowFailureLeaves(h: Hash, s: State, c: Call)
    requires c.Update? || c.Sync?
    ensures var t := ApplyRowFails(h, s, c);
      && t.rows == s.rows && t.versions == s.versions
      && (!Live(s, c.id) ==> t == s)
      && (c.Sync? && !Syncs(h, s, c) ==> t == s)
      && (c.Update? && (c.newContent == None || !Live(s, c.id) || h(c.newContent.value) == s.rows[c.id].contentHash) ==> t == s)
      && (c.Sync? && Syncs(h, s, c) ==>
            var key := s.rows[c.id].contentKey;
            && key in t.blobs && t.blobs[key] == c.content && BlobsSameBut(s, t, {key}) && t.cache == s.cache)
      && (c.Update? && c.newContent != None && Live(s, c.id) && h(c.newContent.value) != s.rows[c.id].contentHash ==>
            var key := s.rows[c.id].contentKey;
            && key in t.blobs && t.blobs[key] == c.newContent.value && BlobsSameBut(s, t, {key})
            && c.id !in t.cache && OtherEntriesSame(s, t, c.id))
  {
  }

  lemma {:induction false} RestoreFailureLeaves(h: Hash, s: State, c: Call, i: nat)
    requires Agree(h, s) && c.RestoreVersion? && i < |s.versions| && s.versions[i].id == c.versionId
    ensures var t := ApplyRowFails(h, s, c);
      && t.rows == s.rows && t.versions == s.versions && t.cache == s.cache && s.versions[i].contentKey in s.blobs
      && (!Live(s, c.id) ==> t == s)
      && (Live(s, c.id) ==>
            var key := s.rows[c.id].contentKey;
            key in t.blobs && t.blobs[key] == s.blobs[s.versions[i].contentKey] && BlobsSameBut(s, t, {key}))
  {
    VersionBlobsExist(h, s);
    FindUnique(s.versions, i, IdOf);
    hide Agree, Find;
  }
}
