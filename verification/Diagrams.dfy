/** Diagrams: a row and a current blob, immutable version blobs, and a cache.

    `Apply` is what one request does to the stores when its calls to them succeed; the
    class `DiagramHandler` below does the same step by step. Hashing is a parameter `h`;
    fresh ids are parameters too. */
module Diagrams {
  import opened Text
  import opened StorageKeys
  import opened VersionNumbers

  type Hash = string -> string

  datatype Row = Row(
    orgId: string,
    name: string,
    contentKey: string,
    contentHash: string,
    source: Option<string>,
    deleted: bool)

  datatype DiagramVersion = DiagramVersion(
    id: string,
    diagramId: string,
    number: nat,
    tag: Option<string>,
    contentKey: string,
    contentHash: string,
    isAuto: bool,
    source: Option<string>)

  /** The rows of both tables, the objects in storage, and the live cache entries. */
  datatype State = State(
    rows: map<string, Row>,
    versions: seq<DiagramVersion>,
    blobs: map<string, string>,
    cache: map<string, string>)

  datatype Call =
    | Create(org: string, freshId: string, freshVersion: string, name: string, source: Option<string>, content: string)
    | GetContent(id: string)
    | Update(id: string, newName: Option<string>, newSource: Option<string>, newContent: Option<string>)
    | Delete(id: string)
    | Sync(org: string, id: string, freshVersion: string, name: string, source: Option<string>, content: string)
    | SyncNew(org: string, freshId: string, freshVersion: string, name: string, source: Option<string>, content: string)
    | CreateVersion(org: string, id: string, freshVersion: string, tag: Option<string>)
    | RestoreVersion(org: string, id: string, versionId: string, freshVersion: string)
    | Expire(id: string)

  predicate Live(s: State, id: string) { id in s.rows && !s.rows[id].deleted }

  // ---------- Version numbers ----------

  function StampOf(v: DiagramVersion): Stamp { Stamp(v.diagramId, v.number) }

  function IdOf(v: DiagramVersion): string { v.id }

  function Stamps(vs: seq<DiagramVersion>): seq<Stamp> { StampsOf(vs, StampOf) }

  function FindVersion(vs: seq<DiagramVersion>, id: string): Option<DiagramVersion> { Find(vs, id, IdOf) }

  /** The highest version number of a diagram, or 0. */
  function LatestOf(vs: seq<DiagramVersion>, id: string): nat { Latest(Stamps(vs), id) }

  // ---------- What the requests do ----------

  function AddVersion(s: State, v: DiagramVersion, content: string): State {
    s.(versions := s.versions + [v], blobs := s.blobs[v.contentKey := content])
  }

  function NewVersion(s: State, org: string, id: string, vid: string, tag: Option<string>, hash: string,
                      isAuto: bool, source: Option<string>): DiagramVersion {
    DiagramVersion(vid, id, LatestOf(s.versions, id) + 1, tag, DiagramVersionKey(org, id, vid), hash, isAuto, source)
  }

  /** The current blob and its row's hash, with the cache entry dropped. */
  function SetContent(s: State, id: string, content: string, hash: string): State
    requires id in s.rows
  {
    s.(rows := s.rows[id := s.rows[id].(contentHash := hash)],
       blobs := s.blobs[s.rows[id].contentKey := content],
       cache := s.cache - {id})
  }

  function AddDiagram(s: State, h: Hash, org: string, id: string, vid: string, name: string, source: Option<string>,
                      content: string, isAuto: bool): State {
    var key := DiagramContentKey(org, id);
    var s1 := s.(blobs := s.blobs[key := content],
                 rows := s.rows[id := Row(org, name, key, h(content), source, false)]);
    AddVersion(s1, DiagramVersion(vid, id, 1, None, DiagramVersionKey(org, id, vid), h(content), isAuto, source), content)
  }

  /** What a reader gets: the cache entry, or else the current blob of a live row, and the
      cache is filled. */
  function ReadContent(s: State, id: string): Option<string> {
    if id in s.cache then Some(s.cache[id])
    else if Live(s, id) && s.rows[id].contentKey in s.blobs then Some(s.blobs[s.rows[id].contentKey])
    else None
  }

  function FillCache(s: State, id: string): State {
    match ReadContent(s, id)
    case None => s
    case Some(c) => s.(cache := s.cache[id := c])
  }

  function Rename(s: State, id: string, name: Option<string>, source: Option<string>): State
    requires id in s.rows
  {
    var r := s.rows[id];
    s.(rows := s.rows[id := r.(name := if name.Some? then name.value else r.name,
                               source := if source.Some? then source else r.source)])
  }

  function Apply(h: Hash, s: State, c: Call): State {
    match c
    case Create(org, id, vid, name, source, content) =>
      if name == "" || content == "" then s
      else
        var s1 := AddDiagram(s, h, org, id, vid, name, source, content, source.Some?);
        s1.(cache := s1.cache[id := content])
    case GetContent(id) => FillCache(s, id)
    case Update(id, name, source, content) =>
      if !Live(s, id) then s
      else
        var s1 := Rename(s, id, name, source);
        if content.Some? && h(content.value) != s.rows[id].contentHash
        then SetContent(s1, id, content.value, h(content.value)) else s1
    case Delete(id) =>
      var s1 := if Live(s, id) then s.(rows := s.rows[id := s.rows[id].(deleted := true)]) else s;
      s1.(cache := s1.cache - {id})
    case Sync(org, id, vid, name, source, content) =>
      if name == "" || content == "" || !Live(s, id) || h(content) == s.rows[id].contentHash then s
      else
        var s1 := SetContent(s, id, content, h(content));
        var s2 := s1.(rows := s1.rows[id := s1.rows[id].(source := source)]);
        AddVersion(s2, NewVersion(s2, org, id, vid, None, h(content), true, source), content)
    case SyncNew(org, id, vid, name, source, content) =>
      if name == "" || content == "" then s
      else AddDiagram(s, h, org, id, vid, name, source, content, true)
    case CreateVersion(org, id, vid, tag) =>
      if !Live(s, id) || ReadContent(s, id).None? then s
      else
        var s1 := FillCache(s, id);
        AddVersion(s1, NewVersion(s1, org, id, vid, tag, s.rows[id].contentHash, false, s.rows[id].source),
                   ReadContent(s, id).value)
    case RestoreVersion(org, id, versionId, vid) =>
      var found := FindVersion(s.versions, versionId);
      if !Live(s, id) || found.None? || found.value.contentKey !in s.blobs then s
      else
        var v := found.value;
        var content := s.blobs[v.contentKey];
        var source := Some("restore:v" + Decimal(v.number));
        var s1 := SetContent(s, id, content, v.contentHash);
        var s2 := s1.(rows := s1.rows[id := s1.rows[id].(source := source)]);
        AddVersion(s2, NewVersion(s2, org, id, vid, None, v.contentHash, true, source), content)
    case Expire(id) => s.(cache := s.cache - {id})
  }

  function Run(h: Hash, s: State, calls: seq<Call>): State {
    if calls == [] then s else Apply(h, Run(h, s, calls[..|calls| - 1]), calls[|calls| - 1])
  }

  // ---------- Agreement of the four stores ----------

  ghost predicate RowAgrees(h: Hash, s: State, id: string)
    requires id in s.rows
  {
    var r := s.rows[id];
    && SlashFree(id) && SlashFree(r.orgId)
    && r.contentKey == DiagramContentKey(r.orgId, id)
    && r.contentKey in s.blobs
    && h(s.blobs[r.contentKey]) == r.contentHash
  }

  ghost predicate Keyed(v: DiagramVersion, org: string) {
    SlashFree(org) && v.contentKey == DiagramVersionKey(org, v.diagramId, v.id)
  }

  ghost predicate VersionAgrees(h: Hash, s: State, v: DiagramVersion) {
    && SlashFree(v.id) && SlashFree(v.diagramId) && v.diagramId in s.rows
    && (exists org :: Keyed(v, org))
    && v.contentKey in s.blobs
    && h(s.blobs[v.contentKey]) == v.contentHash
  }

  ghost predicate CacheAgrees(s: State, id: string)
    requires id in s.cache
  {
    Live(s, id) && s.rows[id].contentKey in s.blobs && s.cache[id] == s.blobs[s.rows[id].contentKey]
  }

  /** A row's hash is that of its current blob, a version's hash is that of its own blob, a
      cached value is the current blob of a live row, and the versions of each diagram are
      numbered 1 to n. */
  ghost predicate Agree(h: Hash, s: State) {
    && (forall id :: id in s.rows ==> RowAgrees(h, s, id))
    && (forall i :: 0 <= i < |s.versions| ==> VersionAgrees(h, s, s.versions[i]))
    && (forall i, j :: 0 <= i < j < |s.versions| ==> s.versions[i].id != s.versions[j].id)
    && WellNumbered(Stamps(s.versions))
    && (forall id :: id in s.cache ==> CacheAgrees(s, id))
  }

  /** The ids that a request makes up are new, and ids and organisations have no slashes. */
  ghost predicate FreshFor(s: State, c: Call) {
    && (c.Create? || c.SyncNew? ==> c.freshId !in s.rows && SlashFree(c.freshId) && NoVersionOf(s.versions, c.freshId))
    && (!(c.GetContent? || c.Update? || c.Delete? || c.Expire?) ==>
          && SlashFree(c.org) && SlashFree(c.freshVersion)
          && forall i :: 0 <= i < |s.versions| ==> s.versions[i].id != c.freshVersion)
  }

  ghost predicate NoVersionOf(vs: seq<DiagramVersion>, id: string) {
    forall i :: 0 <= i < |vs| ==> vs[i].diagramId != id
  }

  ghost predicate FreshRun(h: Hash, s: State, calls: seq<Call>) {
    forall i :: 0 <= i < |calls| ==> FreshFor(Run(h, s, calls[..i]), calls[i])
  }

  // ---------- Every request keeps the stores in agreement ----------

  lemma {:induction false} ContentKeysDiffer(o1: string, d1: string, o2: string, d2: string)
    requires SlashFree(o1) && SlashFree(d1) && SlashFree(o2) && SlashFree(d2) && d1 != d2
    ensures DiagramContentKey(o1, d1) != DiagramContentKey(o2, d2)
  {
    if DiagramContentKey(o1, d1) == DiagramContentKey(o2, d2) { KeysDiffer(Content(o1, d1), Content(o2, d2)); }
  }

  lemma {:induction false} VersionKeysDiffer(v: DiagramVersion, w: DiagramVersion, org: string)
    requires SlashFree(v.id) && SlashFree(v.diagramId) && (exists o :: Keyed(v, o))
    requires SlashFree(w.id) && SlashFree(w.diagramId) && Keyed(w, org) && v.id != w.id
    ensures v.contentKey != w.contentKey
  {
    var o :| Keyed(v, o);
    if v.contentKey == w.contentKey {
      KeysDiffer(Version(o, v.diagramId, v.id), Version(org, w.diagramId, w.id));
    }
  }

  lemma {:induction false} ContentIsNoVersion(v: DiagramVersion, org: string, id: string)
    requires SlashFree(v.id) && SlashFree(v.diagramId) && (exists o :: Keyed(v, o))
    requires SlashFree(org) && SlashFree(id)
    ensures v.contentKey != DiagramContentKey(org, id)
  {
    var o :| Keyed(v, o);
    if v.contentKey == DiagramContentKey(org, id) {
      KeysDiffer(Version(o, v.diagramId, v.id), Content(org, id));
    }
  }

  lemma {:induction false} StampsStep(vs: seq<DiagramVersion>, v: DiagramVersion)
    ensures Stamps(vs + [v]) == Stamps(vs) + [Stamp(v.diagramId, v.number)]
  {
    assert (vs + [v])[..|vs|] == vs;
  }

  lemma {:induction false} NumberedAfter(vs: seq<DiagramVersion>, v: DiagramVersion)
    requires WellNumbered(Stamps(vs)) && v.number == LatestOf(vs, v.diagramId) + 1
    ensures WellNumbered(Stamps(vs + [v]))
  {
    StampsStep(vs, v);
    NextNumber(Stamps(vs), Stamp(v.diagramId, v.number));
  }

  lemma {:induction false} StampsOfNone(vs: seq<DiagramVersion>, id: string)
    requires NoVersionOf(vs, id)
    ensures LatestOf(vs, id) == 0
  {
    if vs != [] { StampsOfNone(vs[..|vs| - 1], id); }
  }

  /** Storing new content, and its hash in the row, keeps agreement. */
  lemma {:induction false} SetContentAgrees(h: Hash, s: State, id: string, content: string)
    requires Agree(h, s) && id in s.rows
    ensures Agree(h, SetContent(s, id, content, h(content)))
  {
    hide WellNumbered, Stamps, DiagramVersionKey, DiagramContentKey;
    var t := SetContent(s, id, content, h(content));
    var r := s.rows[id];
    assert RowAgrees(h, s, id);
    forall d | d in t.rows ensures RowAgrees(h, t, d) {
      assert RowAgrees(h, s, d);
      if d != id { ContentKeysDiffer(s.rows[d].orgId, d, r.orgId, id); }
    }
    forall i | 0 <= i < |t.versions| ensures VersionAgrees(h, t, t.versions[i]) {
      assert VersionAgrees(h, s, s.versions[i]);
      ContentIsNoVersion(s.versions[i], r.orgId, id);
    }
    forall d | d in t.cache ensures CacheAgrees(t, d) {
      assert CacheAgrees(s, d) && RowAgrees(h, s, d);
      ContentKeysDiffer(s.rows[d].orgId, d, r.orgId, id);
    }
  }

  /** Inserting the next version of a diagram keeps agreement. */
  lemma {:induction false} AddVersionAgrees(h: Hash, s: State, v: DiagramVersion, content: string, org: string)
    requires Agree(h, s)
    requires SlashFree(v.id) && SlashFree(v.diagramId) && v.diagramId in s.rows && Keyed(v, org)
    requires forall i :: 0 <= i < |s.versions| ==> s.versions[i].id != v.id
    requires v.number == LatestOf(s.versions, v.diagramId) + 1 && v.contentHash == h(content)
    ensures Agree(h, AddVersion(s, v, content))
  {
    hide WellNumbered, Stamps, LatestOf, DiagramVersionKey, DiagramContentKey;
    var t := AddVersion(s, v, content);
    forall d | d in t.rows ensures RowAgrees(h, t, d) {
      assert RowAgrees(h, s, d);
      ContentIsNoVersion(v, s.rows[d].orgId, d);
    }
    forall i | 0 <= i < |t.versions| ensures VersionAgrees(h, t, t.versions[i]) {
      if i < |s.versions| {
        assert VersionAgrees(h, s, s.versions[i]);
        VersionKeysDiffer(s.versions[i], v, org);
      }
    }
    NumberedAfter(s.versions, v);
    forall d | d in t.cache ensures CacheAgrees(t, d) {
      assert CacheAgrees(s, d) && RowAgrees(h, s, d);
      ContentIsNoVersion(v, s.rows[d].orgId, d);
    }
  }

  /** Columns that say nothing about content may change freely. */
  lemma {:induction false} MetadataAgrees(h: Hash, s: State, id: string, r: Row)
    requires Agree(h, s) && id in s.rows
    requires r == s.rows[id].(name := r.name, source := r.source)
    ensures Agree(h, s.(rows := s.rows[id := r]))
  {
    hide WellNumbered, Stamps, DiagramVersionKey, DiagramContentKey;
    var t := s.(rows := s.rows[id := r]);
    forall d | d in t.rows ensures RowAgrees(h, t, d) { assert RowAgrees(h, s, d); }
    forall i | 0 <= i < |t.versions| ensures VersionAgrees(h, t, t.versions[i]) { assert VersionAgrees(h, s, s.versions[i]); }
    forall d | d in t.cache ensures CacheAgrees(t, d) { assert CacheAgrees(s, d); }
  }

  lemma {:induction false} AddDiagramAgrees(h: Hash, s: State, org: string, id: string, vid: string, name: string,
                                            source: Option<string>, content: string, isAuto: bool)
    requires Agree(h, s) && id !in s.rows && NoVersionOf(s.versions, id)
    requires SlashFree(org) && SlashFree(id) && SlashFree(vid)
    requires forall i :: 0 <= i < |s.versions| ==> s.versions[i].id != vid
    ensures Agree(h, AddDiagram(s, h, org, id, vid, name, source, content, isAuto))
  {
    var key := DiagramContentKey(org, id);
    var t := s.(blobs := s.blobs[key := content],
                rows := s.rows[id := Row(org, name, key, h(content), source, false)]);
    NewRowAgrees(h, s, t, org, id, content);
    StampsOfNone(s.versions, id);
    var v := DiagramVersion(vid, id, 1, None, DiagramVersionKey(org, id, vid), h(content), isAuto, source);
    assert Keyed(v, org);
    AddVersionAgrees(h, t, v, content, org);
  }

  lemma {:induction false} NewRowAgrees(h: Hash, s: State, t: State, org: string, id: string, content: string)
    requires Agree(h, s) && id !in s.rows && SlashFree(org) && SlashFree(id)
    requires id in t.rows && t.rows == s.rows[id := t.rows[id]]
    requires t.rows[id].orgId == org && t.rows[id].contentKey == DiagramContentKey(org, id) && t.rows[id].contentHash == h(content)
    requires t.blobs == s.blobs[DiagramContentKey(org, id) := content] && t.versions == s.versions && t.cache == s.cache
    ensures Agree(h, t)
  {
    hide WellNumbered, Stamps, DiagramVersionKey, DiagramContentKey;
    forall d | d in t.rows ensures RowAgrees(h, t, d) {
      if d != id {
        assert RowAgrees(h, s, d);
        ContentKeysDiffer(s.rows[d].orgId, d, org, id);
      }
    }
    forall i | 0 <= i < |t.versions| ensures VersionAgrees(h, t, t.versions[i]) {
      assert VersionAgrees(h, s, s.versions[i]);
      ContentIsNoVersion(s.versions[i], org, id);
    }
    forall d | d in t.cache ensures CacheAgrees(t, d) {
      assert CacheAgrees(s, d) && RowAgrees(h, s, d);
      ContentKeysDiffer(s.rows[d].orgId, d, org, id);
    }
  }

  /** In agreement, a reader gets the current blob of a live diagram, and nothing for others. */
  lemma {:induction false} ReadIsCurrent(h: Hash, s: State, id: string)
    requires Agree(h, s)
    ensures ReadContent(s, id) == if Live(s, id) then Some(s.blobs[s.rows[id].contentKey]) else None
    ensures Live(s, id) ==> h(ReadContent(s, id).value) == s.rows[id].contentHash
  {
    if id in s.rows { assert RowAgrees(h, s, id); }
    if id in s.cache { assert CacheAgrees(s, id); }
  }

  lemma {:induction false} CacheChangeAgrees(h: Hash, s: State, cache: map<string, string>)
    requires Agree(h, s)
    requires forall id :: id in cache ==> Live(s, id) && Some(cache[id]) == ReadContent(s, id)
    ensures Agree(h, s.(cache := cache))
  {
    hide WellNumbered, Stamps, DiagramVersionKey, DiagramContentKey;
    var t := s.(cache := cache);
    forall d | d in t.rows ensures RowAgrees(h, t, d) { assert RowAgrees(h, s, d); }
    forall i | 0 <= i < |t.versions| ensures VersionAgrees(h, t, t.versions[i]) { assert VersionAgrees(h, s, s.versions[i]); }
    forall d | d in t.cache ensures CacheAgrees(t, d) {
      ReadIsCurrent(h, s, d);
      assert RowAgrees(h, s, d);
    }
  }

  lemma {:induction false} EntriesAreReads(h: Hash, s: State)
    requires Agree(h, s)
    ensures forall id :: id in s.cache ==> Live(s, id) && Some(s.cache[id]) == ReadContent(s, id)
  {
    forall id | id in s.cache ensures Live(s, id) && Some(s.cache[id]) == ReadContent(s, id) {
      assert CacheAgrees(s, id);
    }
  }

  lemma {:induction false} FillCacheAgrees(h: Hash, s: State, id: string)
    requires Agree(h, s)
    ensures Agree(h, FillCache(s, id))
  {
    EntriesAreReads(h, s);
    ReadIsCurrent(h, s, id);
    hide Agree;
    if ReadContent(s, id).Some? { CacheChangeAgrees(h, s, s.cache[id := ReadContent(s, id).value]); }
  }

  lemma {:induction false} DropCacheAgrees(h: Hash, s: State, id: string)
    requires Agree(h, s)
    ensures Agree(h, s.(cache := s.cache - {id}))
  {
    EntriesAreReads(h, s);
    hide Agree;
    CacheChangeAgrees(h, s, s.cache - {id});
  }

  lemma {:induction false} DeleteAgrees(h: Hash, s: State, id: string)
    requires Agree(h, s)
    ensures Agree(h, Apply(h, s, Delete(id)))
  {
    hide WellNumbered, Stamps, DiagramVersionKey, DiagramContentKey;
    var t := Apply(h, s, Delete(id));
    forall d | d in t.rows ensures RowAgrees(h, t, d) { assert RowAgrees(h, s, d); }
    forall i | 0 <= i < |t.versions| ensures VersionAgrees(h, t, t.versions[i]) { assert VersionAgrees(h, s, s.versions[i]); }
    forall d | d in t.cache ensures CacheAgrees(t, d) { assert CacheAgrees(s, d); }
  }

  lemma {:induction false} NewVersionAgrees(h: Hash, s: State, org: string, id: string, vid: string, tag: Option<string>,
                                            isAuto: bool, source: Option<string>, content: string)
    requires Agree(h, s) && id in s.rows && SlashFree(org) && SlashFree(vid)
    requires forall i :: 0 <= i < |s.versions| ==> s.versions[i].id != vid
    ensures Agree(h, AddVersion(s, NewVersion(s, org, id, vid, tag, h(content), isAuto, source), content))
  {
    var v := NewVersion(s, org, id, vid, tag, h(content), isAuto, source);
    assert RowAgrees(h, s, id);
    assert Keyed(v, org);
    hide Agree, RowAgrees, DiagramVersionKey, LatestOf;
    AddVersionAgrees(h, s, v, content, org);
  }

  lemma {:induction false} FindVersionIs(vs: seq<DiagramVersion>, id: string)
    ensures FindVersion(vs, id).Some? ==> exists i :: 0 <= i < |vs| && vs[i] == FindVersion(vs, id).value && vs[i].id == id
    ensures FindVersion(vs, id).None? ==> forall i :: 0 <= i < |vs| ==> vs[i].id != id
  {
    if vs != [] && vs[|vs| - 1].id != id { FindVersionIs(vs[..|vs| - 1], id); }
  }

  /** Every successful request keeps the four stores in agreement. */
  lemma {:induction false} StepAgrees(h: Hash, s: State, c: Call)
    requires Agree(h, s) && FreshFor(s, c)
    ensures Agree(h, Apply(h, s, c))
  {
    hide Agree, AddDiagram, AddVersion, SetContent, NewVersion, FillCache, ReadContent, Rename;
    match c
    case Create(org, id, vid, name, source, content) =>
      if name != "" && content != "" { CreateAgrees(h, s, c); }
    case GetContent(id) => FillCacheAgrees(h, s, id);
    case Update(id, name, source, content) =>
      if Live(s, id) { UpdateAgrees(h, s, c); }
    case Delete(id) => DeleteAgrees(h, s, id);
    case Sync(org, id, vid, name, source, content) =>
      if Live(s, id) && name != "" && content != "" && h(content) != s.rows[id].contentHash { SyncAgrees(h, s, c); }
    case SyncNew(org, id, vid, name, source, content) =>
      if name != "" && content != "" { AddDiagramAgrees(h, s, org, id, vid, name, source, content, true); }
    case CreateVersion(org, id, vid, tag) =>
      ReadIsCurrent(h, s, id);
      FillCacheAgrees(h, s, id);
      if Live(s, id) { CreateVersionAgrees(h, s, c); }
    case RestoreVersion(org, id, versionId, vid) =>
      if Live(s, id) && FindVersion(s.versions, versionId).Some? { RestoreAgrees(h, s, c); }
    case Expire(id) => DropCacheAgrees(h, s, id);
  }

  lemma {:induction false} CreateAgrees(h: Hash, s: State, c: Call)
    requires c.Create? && Agree(h, s) && FreshFor(s, c) && c.name != "" && c.content != ""
    ensures Agree(h, Apply(h, s, c))
  {
    hide WellNumbered, Stamps, DiagramVersionKey, DiagramContentKey;
    AddDiagramAgrees(h, s, c.org, c.freshId, c.freshVersion, c.name, c.source, c.content, c.source.Some?);
    var t := AddDiagram(s, h, c.org, c.freshId, c.freshVersion, c.name, c.source, c.content, c.source.Some?);
    EntriesAreReads(h, t);
    ReadIsCurrent(h, t, c.freshId);
    var v := DiagramVersion(c.freshVersion, c.freshId, 1, None, DiagramVersionKey(c.org, c.freshId, c.freshVersion),
                            h(c.content), c.source.Some?, c.source);
    assert Keyed(v, c.org);
    ContentIsNoVersion(v, c.org, c.freshId);
    hide Agree;
    assert t.blobs[t.rows[c.freshId].contentKey] == c.content;
    CacheChangeAgrees(h, t, t.cache[c.freshId := c.content]);
  }

  lemma {:induction false} UpdateAgrees(h: Hash, s: State, c: Call)
    requires c.Update? && Agree(h, s) && Live(s, c.id)
    ensures Agree(h, Apply(h, s, c))
  {
    hide Agree;
    var t := Rename(s, c.id, c.newName, c.newSource);
    MetadataAgrees(h, s, c.id, t.rows[c.id]);
    if c.newContent.Some? { SetContentAgrees(h, t, c.id, c.newContent.value); }
  }

  lemma {:induction false} SyncAgrees(h: Hash, s: State, c: Call)
    requires c.Sync? && Agree(h, s) && FreshFor(s, c) && Live(s, c.id)
    requires c.name != "" && c.content != "" && h(c.content) != s.rows[c.id].contentHash
    ensures Agree(h, Apply(h, s, c))
  {
    hide Agree;
    var s1 := SetContent(s, c.id, c.content, h(c.content));
    SetContentAgrees(h, s, c.id, c.content);
    var s2 := s1.(rows := s1.rows[c.id := s1.rows[c.id].(source := c.source)]);
    MetadataAgrees(h, s1, c.id, s2.rows[c.id]);
    NewVersionAgrees(h, s2, c.org, c.id, c.freshVersion, None, true, c.source, c.content);
  }

  lemma {:induction false} CreateVersionAgrees(h: Hash, s: State, c: Call)
    requires c.CreateVersion? && Agree(h, s) && FreshFor(s, c) && Live(s, c.id)
    ensures Agree(h, Apply(h, s, c))
  {
    hide Agree;
    ReadIsCurrent(h, s, c.id);
    FillCacheAgrees(h, s, c.id);
    NewVersionAgrees(h, FillCache(s, c.id), c.org, c.id, c.freshVersion, c.tag, false, s.rows[c.id].source,
                     ReadContent(s, c.id).value);
  }

  lemma {:induction false} RestoreAgrees(h: Hash, s: State, c: Call)
    requires c.RestoreVersion? && Agree(h, s) && FreshFor(s, c) && Live(s, c.id)
    requires FindVersion(s.versions, c.versionId).Some?
    ensures FindVersion(s.versions, c.versionId).value.contentKey in s.blobs
    ensures Agree(h, Apply(h, s, c))
  {
    FindVersionIs(s.versions, c.versionId);
    var v := FindVersion(s.versions, c.versionId).value;
    assert VersionAgrees(h, s, v);
    hide Agree, Decimal;
    var content := s.blobs[v.contentKey];
    var source := Some("restore:v" + Decimal(v.number));
    var s1 := SetContent(s, c.id, content, v.contentHash);
    SetContentAgrees(h, s, c.id, content);
    var s2 := s1.(rows := s1.rows[c.id := s1.rows[c.id].(source := source)]);
    MetadataAgrees(h, s1, c.id, s2.rows[c.id]);
    NewVersionAgrees(h, s2, c.org, c.id, c.freshVersion, None, true, source, content);
  }

  /** Over every run of successful requests the stores agree at the end. */
  lemma {:induction false} RunAgrees(h: Hash, s: State, calls: seq<Call>)
    requires Agree(h, s) && FreshRun(h, s, calls)
    ensures Agree(h, Run(h, s, calls))
  {
    hide Agree, Apply, FreshFor;
    if calls != [] {
      var last := |calls| - 1;
      FreshPrefix(h, s, calls);
      RunAgrees(h, s, calls[..last]);
      StepAgrees(h, Run(h, s, calls[..last]), calls[last]);
    }
  }

  lemma {:induction false} FreshPrefix(h: Hash, s: State, calls: seq<Call>)
    requires FreshRun(h, s, calls) && calls != []
    ensures FreshRun(h, s, calls[..|calls| - 1])
    ensures FreshFor(Run(h, s, calls[..|calls| - 1]), calls[|calls| - 1])
  {
    hide Run, FreshFor;
    var init := calls[..|calls| - 1];
    forall i | 0 <= i < |init| ensures FreshFor(Run(h, s, init[..i]), init[i]) {
      assert init[..i] == calls[..i];
      assert FreshFor(Run(h, s, calls[..i]), calls[i]);
    }
  }

  // ---------- Versions never change ----------

  /** The versions of `s` are still there in `t`, with the same blobs. */
  ghost predicate KeptIn(s: State, t: State) {
    && s.versions <= t.versions
    && forall i :: 0 <= i < |s.versions| && s.versions[i].contentKey in s.blobs ==>
         s.versions[i].contentKey in t.blobs && t.blobs[s.versions[i].contentKey] == s.blobs[s.versions[i].contentKey]
  }

  lemma {:induction false} SetContentKeeps(h: Hash, s: State, id: string, content: string, hash: string)
    requires Agree(h, s) && id in s.rows
    ensures KeptIn(s, SetContent(s, id, content, hash))
  {
    assert RowAgrees(h, s, id);
    forall i | 0 <= i < |s.versions| ensures s.versions[i].contentKey != s.rows[id].contentKey {
      assert VersionAgrees(h, s, s.versions[i]);
      ContentIsNoVersion(s.versions[i], s.rows[id].orgId, id);
    }
  }

  lemma {:induction false} AddVersionKeeps(h: Hash, s: State, t: State, v: DiagramVersion, content: string, org: string)
    requires Agree(h, s) && t.versions == s.versions && KeptIn(s, t)
    requires SlashFree(v.id) && SlashFree(v.diagramId) && Keyed(v, org)
    requires forall i :: 0 <= i < |s.versions| ==> s.versions[i].id != v.id
    ensures KeptIn(s, AddVersion(t, v, content))
  {
    forall i | 0 <= i < |s.versions| ensures s.versions[i].contentKey != v.contentKey {
      assert VersionAgrees(h, s, s.versions[i]);
      VersionKeysDiffer(s.versions[i], v, org);
    }
  }

  /** No request changes a version's row or its blob. */
  lemma {:induction false} StepKeepsVersions(h: Hash, s: State, c: Call)
    requires Agree(h, s) && FreshFor(s, c)
    ensures KeptIn(s, Apply(h, s, c))
  {
    hide Agree, AddDiagram, AddVersion, NewVersion;
    match c
    case Create(org, id, vid, name, source, content) => AddDiagramKeeps(h, s, org, id, vid, name, source, content, source.Some?);
    case Update(id, name, source, content) =>
      if Live(s, id) && content.Some? { SetContentKeeps(h, s, id, content.value, h(content.value)); }
    case Sync(org, id, vid, name, source, content) =>
      if Live(s, id) { SyncKeeps(h, s, c); }
    case SyncNew(org, id, vid, name, source, content) => AddDiagramKeeps(h, s, org, id, vid, name, source, content, true);
    case CreateVersion(org, id, vid, tag) =>
      if Live(s, id) && ReadContent(s, id).Some? {
        NewVersionKeeps(h, s, FillCache(s, id), org, id, vid, tag, s.rows[id].contentHash, false, s.rows[id].source,
                        ReadContent(s, id).value);
      }
    case RestoreVersion(org, id, versionId, vid) =>
      if Live(s, id) { RestoreKeeps(h, s, c); }
    case _ =>
  }

  lemma {:induction false} SyncKeeps(h: Hash, s: State, c: Call)
    requires c.Sync? && Agree(h, s) && FreshFor(s, c) && Live(s, c.id)
    ensures KeptIn(s, Apply(h, s, c))
  {
    hide Agree, AddVersion, NewVersion;
    var s1 := SetContent(s, c.id, c.content, h(c.content));
    SetContentKeeps(h, s, c.id, c.content, h(c.content));
    var s2 := s1.(rows := s1.rows[c.id := s1.rows[c.id].(source := c.source)]);
    NewVersionKeeps(h, s, s2, c.org, c.id, c.freshVersion, None, h(c.content), true, c.source, c.content);
  }

  lemma {:induction false} RestoreKeeps(h: Hash, s: State, c: Call)
    requires c.RestoreVersion? && Agree(h, s) && FreshFor(s, c) && Live(s, c.id)
    ensures KeptIn(s, Apply(h, s, c))
  {
    hide Agree, AddVersion, NewVersion, Decimal, FindVersion;
    var found := FindVersion(s.versions, c.versionId);
    if found.Some? && found.value.contentKey in s.blobs {
      var v := found.value;
      var content := s.blobs[v.contentKey];
      var source := Some("restore:v" + Decimal(v.number));
      var s1 := SetContent(s, c.id, content, v.contentHash);
      SetContentKeeps(h, s, c.id, content, v.contentHash);
      var s2 := s1.(rows := s1.rows[c.id := s1.rows[c.id].(source := source)]);
      NewVersionKeeps(h, s, s2, c.org, c.id, c.freshVersion, None, v.contentHash, true, source, content);
    }
  }

  lemma {:induction false} NewVersionKeeps(h: Hash, s: State, t: State, org: string, id: string, vid: string, tag: Option<string>,
                                           hash: string, isAuto: bool, source: Option<string>, content: string)
    requires Agree(h, s) && id in s.rows && t.versions == s.versions && KeptIn(s, t) && SlashFree(org) && SlashFree(vid)
    requires forall i :: 0 <= i < |s.versions| ==> s.versions[i].id != vid
    ensures KeptIn(s, AddVersion(t, NewVersion(t, org, id, vid, tag, hash, isAuto, source), content))
  {
    assert RowAgrees(h, s, id);
    var v := NewVersion(t, org, id, vid, tag, hash, isAuto, source);
    assert Keyed(v, org);
    hide Agree, KeptIn;
    AddVersionKeeps(h, s, t, v, content, org);
  }

  lemma {:induction false} AddDiagramKeeps(h: Hash, s: State, org: string, id: string, vid: string, name: string,
                                           source: Option<string>, content: string, isAuto: bool)
    requires Agree(h, s) && SlashFree(org) && SlashFree(id) && SlashFree(vid)
    requires forall i :: 0 <= i < |s.versions| ==> s.versions[i].id != vid
    ensures KeptIn(s, AddDiagram(s, h, org, id, vid, name, source, content, isAuto))
  {
    var key := DiagramContentKey(org, id);
    var t := s.(blobs := s.blobs[key := content],
                rows := s.rows[id := Row(org, name, key, h(content), source, false)]);
    forall i | 0 <= i < |s.versions| ensures s.versions[i].contentKey != key {
      assert VersionAgrees(h, s, s.versions[i]);
      ContentIsNoVersion(s.versions[i], org, id);
    }
    var v := DiagramVersion(vid, id, 1, None, DiagramVersionKey(org, id, vid), h(content), isAuto, source);
    assert Keyed(v, org);
    AddVersionKeeps(h, s, t, v, content, org);
  }

  /** Over every run each version keeps its row and its blob. */
  lemma {:induction false} RunKeepsVersions(h: Hash, s: State, calls: seq<Call>)
    requires Agree(h, s) && FreshRun(h, s, calls)
    ensures KeptIn(s, Run(h, s, calls))
  {
    hide Agree, Apply, FreshFor;
    if calls != [] {
      var last := |calls| - 1;
      FreshPrefix(h, s, calls);
      RunKeepsVersions(h, s, calls[..last]);
      RunAgrees(h, s, calls[..last]);
      var t := Run(h, s, calls[..last]);
      StepKeepsVersions(h, t, calls[last]);
      VersionBlobsExist(h, s);
      VersionBlobsExist(h, t);
    }
  }

  lemma {:induction false} VersionBlobsExist(h: Hash, s: State)
    requires Agree(h, s)
    ensures forall i :: 0 <= i < |s.versions| ==>
      s.versions[i].contentKey in s.blobs && h(s.blobs[s.versions[i].contentKey]) == s.versions[i].contentHash
  {
    forall i | 0 <= i < |s.versions|
      ensures s.versions[i].contentKey in s.blobs && h(s.blobs[s.versions[i].contentKey]) == s.versions[i].contentHash
    {
      assert VersionAgrees(h, s, s.versions[i]);
    }
  }

  // ---------- What a caller can rely on ----------

  /** Restoring a version after any run gives back the content it was made with, as the
      current blob and to readers, and records it as the next version. */
  lemma {:induction false} RestoreRoundTrip(h: Hash, s: State, calls: seq<Call>, i: nat, org: string, id: string, vid: string)
    requires Agree(h, s) && FreshRun(h, s, calls) && i < |s.versions|
    requires var t := Run(h, s, calls); Live(t, id) && FreshFor(t, RestoreVersion(org, id, s.versions[i].id, vid))
    ensures s.versions[i].contentKey in s.blobs
    ensures
      var v := s.versions[i];
      var t := Run(h, s, calls);
      var u := Apply(h, t, RestoreVersion(org, id, v.id, vid));
      && ReadContent(u, id) == Some(s.blobs[v.contentKey])
      && Live(u, id) && u.rows[id].contentHash == v.contentHash
      && |u.versions| == |t.versions| + 1 && u.versions[|t.versions|].number == |Numbers(Stamps(t.versions), id)| + 1
      && KeptIn(t, u) && Agree(h, u)
  {
    var v := s.versions[i];
    var t := Run(h, s, calls);
    var c := RestoreVersion(org, id, v.id, vid);
    VersionBlobsExist(h, s);
    RunAgrees(h, s, calls);
    RunKeepsVersions(h, s, calls);
    assert t.versions[i] == v;
    FindUnique(t.versions, i, IdOf);
    StepAgrees(h, t, c);
    StepKeepsVersions(h, t, c);
    LatestIsCount(Stamps(t.versions), id);
    var u := Apply(h, t, c);
    ReadIsCurrent(h, u, id);
    RestoredBlob(h, t, c, v);
  }

  lemma {:induction false} RestoredBlob(h: Hash, t: State, c: Call, v: DiagramVersion)
    requires Agree(h, t) && c.RestoreVersion? && Live(t, c.id) && FreshFor(t, c)
    requires FindVersion(t.versions, c.versionId) == Some(v) && v.contentKey in t.blobs
    ensures var u := Apply(h, t, c);
      && Live(u, c.id) && u.rows[c.id].contentKey == t.rows[c.id].contentKey
      && u.rows[c.id].contentKey in u.blobs && u.blobs[u.rows[c.id].contentKey] == t.blobs[v.contentKey]
      && u.rows[c.id].contentHash == v.contentHash
      && |u.versions| == |t.versions| + 1 && u.versions[|t.versions|].number == LatestOf(t.versions, c.id) + 1
  {
    hide Decimal, Latest, Stamps;
    var r := t.rows[c.id];
    assert RowAgrees(h, t, c.id);
    var w := NewVersion(t, c.org, c.id, c.freshVersion, None, v.contentHash, true, None);
    assert Keyed(w, c.org);
    ContentIsNoVersion(w, r.orgId, c.id);
  }

  /** After an update readers get its content, whatever the cache held, unless it hashes like the
      different content before it. */
  lemma {:induction false} UpdateIsRead(h: Hash, s: State, id: string, name: Option<string>, source: Option<string>, content: string)
    requires Agree(h, s) && Live(s, id)
    requires ReadContent(s, id).Some? && h(ReadContent(s, id).value) == h(content) ==> ReadContent(s, id).value == content
    ensures ReadContent(Apply(h, s, Update(id, name, source, Some(content))), id) == Some(content)
  {
    var c := Update(id, name, source, Some(content));
    StepAgrees(h, s, c);
    var t := Apply(h, s, c);
    ReadIsCurrent(h, t, id);
    ReadIsCurrent(h, s, id);
    assert RowAgrees(h, t, id);
    assert RowAgrees(h, s, id);
  }

  /** Syncing the same content again does nothing: no upload and no version. */
  lemma {:induction false} SyncTwiceIsOnce(h: Hash, s: State, org: string, id: string, vid: string, vid': string, name: string,
                                           source: Option<string>, content: string)
    ensures var t := Apply(h, s, Sync(org, id, vid, name, source, content));
            Apply(h, t, Sync(org, id, vid', name, source, content)) == t
  {
    hide Stamps, Latest;
  }

  // ---------- When the row cannot be updated ----------

  /** A sync or a restore whose update of the row fails returns at once: the blob is new, the row
      and the cache are not. */
  function Interrupted(s: State, id: string, content: string): State
    requires id in s.rows
  {
    s.(blobs := s.blobs[s.rows[id].contentKey := content])
  }

  /** It leaves the stores in agreement exactly when the row's hash and the cached value, if there
      is one, fit the new content anyway. */
  lemma {:induction false} InterruptedAgreesIff(h: Hash, s: State, id: string, content: string)
    requires Agree(h, s) && Live(s, id)
    ensures Agree(h, Interrupted(s, id, content)) <==>
      h(content) == s.rows[id].contentHash && (id in s.cache ==> s.cache[id] == content)
  {
    hide WellNumbered, Stamps, DiagramVersionKey, DiagramContentKey;
    var t := Interrupted(s, id, content);
    var r := s.rows[id];
    assert RowAgrees(h, s, id);
    forall d | d in t.rows && d != id ensures RowAgrees(h, t, d) {
      assert RowAgrees(h, s, d);
      ContentKeysDiffer(s.rows[d].orgId, d, r.orgId, id);
    }
    forall i | 0 <= i < |t.versions| ensures VersionAgrees(h, t, t.versions[i]) {
      assert VersionAgrees(h, s, s.versions[i]);
      ContentIsNoVersion(s.versions[i], r.orgId, id);
    }
    forall d | d in t.cache && d != id ensures CacheAgrees(t, d) {
      assert CacheAgrees(s, d) && RowAgrees(h, s, d);
      ContentKeysDiffer(s.rows[d].orgId, d, r.orgId, id);
    }
    assert RowAgrees(h, t, id) <==> h(content) == r.contentHash;
    assert id in t.cache ==> (CacheAgrees(t, id) <==> s.cache[id] == content);
  }

  /** The content that a request uploads to the row's key before it updates the row. */
  function Uploaded(h: Hash, s: State, c: Call): Option<string> {
    match c
    case Update(id, _, _, content) => if Live(s, id) && content.Some? && h(content.value) != s.rows[id].contentHash then content else None
    case Sync(_, id, _, name, _, content) =>
      if name == "" || content == "" || !Live(s, id) || h(content) == s.rows[id].contentHash then None else Some(content)
    case RestoreVersion(_, id, versionId, _) =>
      var found := FindVersion(s.versions, versionId);
      if !Live(s, id) || found.None? || found.value.contentKey !in s.blobs then None else Some(s.blobs[found.value.contentKey])
    case _ => None
  }

  /** What a request leaves behind when the update of the row fails. An update has dropped the
      cache entry by then, a sync or a restore has not. */
  function ApplyRowFails(h: Hash, s: State, c: Call): State
    requires c.Update? || c.Sync? || c.RestoreVersion?
  {
    var content := Uploaded(h, s, c);
    if content.None? || c.id !in s.rows then s
    else if c.Update? then Interrupted(s.(cache := s.cache - {c.id}), c.id, content.value)
    else Interrupted(s, c.id, content.value)
  }

  /** Such a request leaves the stores in agreement exactly when it uploaded nothing, or content
      that fits the row's hash and, but for an update, the cached value. */
  lemma {:induction false} RowFailureAgreesIff(h: Hash, s: State, c: Call)
    requires Agree(h, s) && (c.Update? || c.Sync? || c.RestoreVersion?)
    ensures Agree(h, ApplyRowFails(h, s, c)) <==>
      var content := Uploaded(h, s, c);
      content.None? || (Live(s, c.id) && h(content.value) == s.rows[c.id].contentHash
                        && (c.Update? || (c.id in s.cache ==> s.cache[c.id] == content.value)))
  {
    hide Agree, FindVersion;
    var content := Uploaded(h, s, c);
    if content.Some? {
      DropCacheAgrees(h, s, c.id);
      InterruptedAgreesIff(h, s.(cache := s.cache - {c.id}), c.id, content.value);
      InterruptedAgreesIff(h, s, c.id, content.value);
    }
  }

  const EMPTY := State(map[], [], map[], map[])

  /** Runs start from stores that agree. */
  lemma {:induction false} EmptyAgrees(h: Hash)
    ensures Agree(h, EMPTY)
  {
    assert forall id :: Numbers(Stamps([]), id) == [];
  }

  /** Creating a diagram, and then a sync whose row update fails: the row has the hash of the old
      content, and readers still get that content from the cache. */
  lemma {:induction false} FailedSyncBreaksAgreement()
    ensures
      var h: Hash := (content: string) => content;
      var create := Create("o", "d", "v", "flow", None, "a");
      var s := Apply(h, EMPTY, create);
      var sync := Sync("o", "d", "w", "flow", None, "b");
      var t := ApplyRowFails(h, s, sync);
      && Agree(h, EMPTY) && FreshFor(EMPTY, create) && Agree(h, s) && FreshFor(s, sync) && !Agree(h, t)
      && Live(t, "d") && t.rows["d"].contentKey in t.blobs && t.blobs[t.rows["d"].contentKey] == "b"
      && t.rows["d"].contentHash == h("a") && ReadContent(t, "d") == Some("a")
  {
    hide Agree, DiagramContentKey, DiagramVersionKey;
    var h: Hash := (content: string) => content;
    EmptyAgrees(h);
    StepAgrees(h, EMPTY, Create("o", "d", "v", "flow", None, "a"));
    var s := Apply(h, EMPTY, Create("o", "d", "v", "flow", None, "a"));
    RowFailureAgreesIff(h, s, Sync("o", "d", "w", "flow", None, "b"));
  }

  // ---------- The handlers ----------

  datatype Status = Done | BadRequest | NotFound | Failed

  /** The request handlers over the stores they share. */
  class DiagramHandler {
    const h: Hash
    var rows: map<string, Row>
    var versions: seq<DiagramVersion>
    var blobs: map<string, string>
    var cache: map<string, string>

    constructor (h: Hash)
      ensures this.h == h && Stores() == EMPTY
    {
      this.h := h;
      rows, versions, blobs, cache := map[], [], map[], map[];
    }

    ghost function Stores(): State
      reads this
    {
      State(rows, versions, blobs, cache)
    }

    method UploadContent(key: string, content: string)
      modifies this`blobs
      ensures blobs == old(blobs)[key := content]
    {
      blobs := blobs[key := content];
    }

    method CreateDiagramVersion(v: DiagramVersion)
      modifies this`versions
      ensures versions == old(versions) + [v]
    {
      versions := versions + [v];
    }

    method LatestVersionNumber(id: string) returns (n: nat)
      ensures n == LatestOf(versions, id)
    {
      n := 0;
      var i := 0;
      while i < |versions|
        invariant 0 <= i <= |versions| && n == LatestOf(versions[..i], id)
      {
        assert versions[..i + 1][..i] == versions[..i];
        if versions[i].diagramId == id && versions[i].number > n { n := versions[i].number; }
        i := i + 1;
      }
      assert versions[..i] == versions;
    }

    /** The cache entry, or the downloaded blob, which then fills the cache. */
    method LoadContent(id: string, key: string) returns (content: Option<string>)
      requires Live(Stores(), id) && key == rows[id].contentKey
      modifies this`cache
      ensures content == ReadContent(old(Stores()), id)
      ensures Stores() == FillCache(old(Stores()), id)
    {
      if id in cache {
        assert cache == cache[id := cache[id]];
        return Some(cache[id]);
      }
      if key !in blobs { return None; }
      content := Some(blobs[key]);
      cache := cache[id := blobs[key]];
    }

    method CreateDiagram(org: string, id: string, vid: string, name: string, source: Option<string>, content: string)
      returns (status: Status)
      modifies this
      ensures Stores() == Apply(h, old(Stores()), Create(org, id, vid, name, source, content))
      ensures status == if name == "" || content == "" then BadRequest else Done
    {
      if name == "" || content == "" { return BadRequest; }
      var hash := h(content);
      var contentKey := DiagramContentKey(org, id);
      UploadContent(contentKey, content);
      rows := rows[id := Row(org, name, contentKey, hash, source, false)];
      var vKey := DiagramVersionKey(org, id, vid);
      UploadContent(vKey, content);
      CreateDiagramVersion(DiagramVersion(vid, id, 1, None, vKey, hash, source.Some?, source));
      cache := cache[id := content];
      return Done;
    }

    method GetDiagramContent(id: string) returns (status: Status, content: string)
      modifies this
      ensures Stores() == Apply(h, old(Stores()), GetContent(id))
      ensures status == (if ReadContent(old(Stores()), id).Some? then Done else NotFound)
      ensures status == Done ==> Some(content) == ReadContent(old(Stores()), id)
    {
      content := "";
      if id in cache {
        assert cache == cache[id := cache[id]];
        return Done, cache[id];
      }
      if id !in rows || rows[id].deleted { return NotFound, ""; }
      if rows[id].contentKey !in blobs { return NotFound, ""; }
      content := blobs[rows[id].contentKey];
      cache := cache[id := content];
      return Done, content;
    }

    method SaveRow(id: string, row: Row, fails: bool) returns (ok: bool)
      modifies this`rows
      ensures ok == !fails && rows == if fails then old(rows) else old(rows)[id := row]
    {
      if fails { return false; }
      rows := rows[id := row];
      return true;
    }

    method UpdateDiagram(id: string, name: Option<string>, source: Option<string>, content: Option<string>, rowFails: bool)
      returns (status: Status)
      modifies this
      ensures var c := Update(id, name, source, content);
              Stores() == if rowFails then ApplyRowFails(h, old(Stores()), c) else Apply(h, old(Stores()), c)
      ensures status == if !Live(old(Stores()), id) then NotFound else if rowFails then Failed else Done
    {
      if id !in rows || rows[id].deleted { return NotFound; }
      var dg := rows[id];
      if name.Some? { dg := dg.(name := name.value); }
      if source.Some? { dg := dg.(source := source); }
      if content.Some? {
        var newHash := h(content.value);
        if newHash != dg.contentHash {
          UploadContent(dg.contentKey, content.value);
          dg := dg.(contentHash := newHash);
          cache := cache - {id};
        }
      }
      var ok := SaveRow(id, dg, rowFails);
      return if ok then Done else Failed;
    }

    method DeleteDiagram(id: string)
      modifies this
      ensures Stores() == Apply(h, old(Stores()), Delete(id))
    {
      if id in rows && !rows[id].deleted { rows := rows[id := rows[id].(deleted := true)]; }
      cache := cache - {id};
    }

    method SyncDiagram(org: string, id: string, vid: string, name: string, source: Option<string>, content: string, rowFails: bool)
      returns (status: Status, versionCreated: bool)
      modifies this
      ensures var c := Sync(org, id, vid, name, source, content);
              Stores() == if rowFails then ApplyRowFails(h, old(Stores()), c) else Apply(h, old(Stores()), c)
      ensures versionCreated <==> |versions| == |old(versions)| + 1
      ensures versionCreated <==> status == Done && Live(old(Stores()), id) && h(content) != old(Stores()).rows[id].contentHash
      ensures status == if name == "" || content == "" then BadRequest
                        else if !Live(old(Stores()), id) then NotFound
                        else if rowFails && h(content) != old(Stores()).rows[id].contentHash then Failed else Done
    {
      hide DiagramVersionKey, LatestOf;
      if name == "" || content == "" { return BadRequest, false; }
      var newHash := h(content);
      if id !in rows || rows[id].deleted { return NotFound, false; }
      var dg := rows[id];
      if newHash == dg.contentHash { return Done, false; }
      UploadContent(dg.contentKey, content);
      dg := dg.(contentHash := newHash);
      dg := dg.(source := source);
      var ok := SaveRow(id, dg, rowFails);
      if !ok { return Failed, false; }
      cache := cache - {id};
      var latest := LatestVersionNumber(id);
      var vKey := DiagramVersionKey(org, id, vid);
      UploadContent(vKey, content);
      CreateDiagramVersion(DiagramVersion(vid, id, latest + 1, None, vKey, newHash, true, source));
      return Done, true;
    }

    method SyncNewDiagram(org: string, id: string, vid: string, name: string, source: Option<string>, content: string)
      returns (status: Status)
      modifies this
      ensures Stores() == Apply(h, old(Stores()), SyncNew(org, id, vid, name, source, content))
      ensures status == if name == "" || content == "" then BadRequest else Done
    {
      if name == "" || content == "" { return BadRequest; }
      var newHash := h(content);
      var contentKey := DiagramContentKey(org, id);
      UploadContent(contentKey, content);
      rows := rows[id := Row(org, name, contentKey, newHash, source, false)];
      var vKey := DiagramVersionKey(org, id, vid);
      UploadContent(vKey, content);
      CreateDiagramVersion(DiagramVersion(vid, id, 1, None, vKey, newHash, true, source));
      return Done;
    }

    method SnapshotDiagram(org: string, id: string, vid: string, tag: Option<string>) returns (status: Status)
      modifies this
      ensures Stores() == Apply(h, old(Stores()), CreateVersion(org, id, vid, tag))
      ensures status == Done <==> Live(old(Stores()), id) && ReadContent(old(Stores()), id).Some?
    {
      if id !in rows || rows[id].deleted { return NotFound; }
      var dg := rows[id];
      var content := LoadContent(id, dg.contentKey);
      if content.None? { return NotFound; }
      var latest := LatestVersionNumber(id);
      var vKey := DiagramVersionKey(org, id, vid);
      UploadContent(vKey, content.value);
      CreateDiagramVersion(DiagramVersion(vid, id, latest + 1, tag, vKey, dg.contentHash, false, dg.source));
      return Done;
    }

    method RestoreDiagram(org: string, id: string, versionId: string, vid: string, rowFails: bool) returns (status: Status)
      modifies this
      ensures var c := RestoreVersion(org, id, versionId, vid);
              Stores() == if rowFails then ApplyRowFails(h, old(Stores()), c) else Apply(h, old(Stores()), c)
      ensures status == if Uploaded(h, old(Stores()), RestoreVersion(org, id, versionId, vid)).None? then NotFound
                        else if rowFails then Failed else Done
    {
      hide Decimal, DiagramVersionKey, LatestOf, FindVersion;
      if id !in rows || rows[id].deleted { return NotFound; }
      var dg := rows[id];
      var found := FindVersion(versions, versionId);
      if found.None? { return NotFound; }
      var v := found.value;
      if v.contentKey !in blobs { return NotFound; }
      var content := blobs[v.contentKey];
      UploadContent(dg.contentKey, content);
      dg := dg.(contentHash := v.contentHash);
      var src := "restore:v" + Decimal(v.number);
      dg := dg.(source := Some(src));
      var ok := SaveRow(id, dg, rowFails);
      if !ok { return Failed; }
      var latest := LatestVersionNumber(id);
      var vKey := DiagramVersionKey(org, id, vid);
      UploadContent(vKey, content);
      CreateDiagramVersion(DiagramVersion(vid, id, latest + 1, None, vKey, v.contentHash, true, Some(src)));
      cache := cache - {id};
      return Done;
    }
  }
}
