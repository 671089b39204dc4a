/** A request that runs alone, call by call, does to rows, blobs, versions and cache what the model of
    whole requests says. */
module DiagramRefinement {
  import opened Text
  import opened StorageKeys
  import opened VersionNumbers
  import opened DiagramInterleaving
  import opened DiagramSnapshots
  import opened DiagramVersionHashes
  import D = Diagrams
  import R = DiagramRequests

  // ---------- The two models ----------

  ghost predicate RowsMirror(b: Book, s: D.State) {
    && b.rows.Keys == s.rows.Keys
    && forall id :: id in s.rows ==>
         && b.rows[id] == Row(s.rows[id].contentHash, s.rows[id].deleted)
         && s.rows[id].contentKey in s.blobs
         && BlobAfter(b.sys.history, Current(id)) == Some(s.blobs[s.rows[id].contentKey])
  }

  ghost predicate VersionMirrors(b: Book, s: D.State, v: D.DiagramVersion) {
    && v.id in b.versions && b.versions[v.id] == v.contentHash
    && v.contentKey in s.blobs && VersionBlob(b, v.id) == Some(s.blobs[v.contentKey])
  }

  ghost predicate VersionsMirror(b: Book, s: D.State) {
    && (forall i :: 0 <= i < |s.versions| ==> VersionMirrors(b, s, s.versions[i]))
    && forall v :: v in b.versions ==> exists i :: 0 <= i < |s.versions| && s.versions[i].id == v
  }

  ghost predicate CacheMirrors(b: Book, s: D.State) {
    && b.sys.cache.Keys == s.cache.Keys
    && forall id :: id in s.cache ==> b.sys.cache[id].held.content == s.cache[id] && Hit(b.sys, id)
  }

  /** The same rows, hashes, blobs and cached contents. */
  ghost predicate Mirrors(b: Book, s: D.State) { RowsMirror(b, s) && VersionsMirror(b, s) && CacheMirrors(b, s) }

  /** The calls that a request makes, if it is not turned down. */
  function HandlerOf(h: Hash, s: D.State, c: D.Call): Option<Handler> {
    match c
    case Create(_, _, vid, name, _, content) => if name == "" || content == "" then None else Some(Create(content, vid))
    case GetContent(id) => if D.Live(s, id) then Some(GetContent) else None
    case Update(id, _, _, content) =>
      if !D.Live(s, id) then None
      else if content.Some? && h(content.value) != s.rows[id].contentHash then Some(UpdateContent(content.value))
      else Some(UpdateOther)
    case Delete(_) => Some(Delete)
    case Sync(_, id, vid, name, _, content) =>
      if name == "" || content == "" || !D.Live(s, id) then None
      else if h(content) == s.rows[id].contentHash then Some(SyncSame)
      else Some(Sync(content, vid))
    case SyncNew(_, _, vid, name, _, content) => if name == "" || content == "" then None else Some(SyncNew(content, vid))
    case CreateVersion(_, id, vid, _) => if D.Live(s, id) then Some(CreateVersion(vid)) else None
    case RestoreVersion(_, id, versionId, vid) =>
      if D.Live(s, id) && (exists i :: 0 <= i < |s.versions| && s.versions[i].id == versionId) then Some(RestoreVersion(versionId, vid)) else None
    case Expire(_) => None
  }

  function IdOf(c: D.Call): string { if c.Create? || c.SyncNew? then c.freshId else c.id }

  // ---------- Calls of one request ----------

  ghost predicate IsAlone(h: Hash, books: seq<Book>, rid: nat) {
    |books| > 0 && forall i :: 0 <= i < |books| - 1 ==> Allowed(books[i], Call(rid)) && books[i + 1] == NextBook(h, books[i], Call(rid))
  }

  /** Successful calls of this request lead from one state to the other. */
  ghost predicate Alone(h: Hash, b: Book, rid: nat, t: Book) {
    exists books :: IsAlone(h, books, rid) && books[0] == b && books[|books| - 1] == t
  }

  lemma {:induction false} AloneSelf(h: Hash, b: Book, rid: nat)
    ensures Alone(h, b, rid, b)
  {
    assert IsAlone(h, [b], rid);
  }

  lemma {:induction false} AloneStep(h: Hash, b: Book, rid: nat, t: Book)
    requires Alone(h, b, rid, t) && Allowed(t, Call(rid))
    ensures Alone(h, b, rid, NextBook(h, t, Call(rid)))
  {
    hide NextBook, Allowed;
    var books :| IsAlone(h, books, rid) && books[0] == b && books[|books| - 1] == t;
    var u := NextBook(h, t, Call(rid));
    var more := books + [u];
    forall i | 0 <= i < |more| - 1 ensures Allowed(more[i], Call(rid)) && more[i + 1] == NextBook(h, more[i], Call(rid)) {
      if i < |books| - 1 { assert Allowed(books[i], Call(rid)) && books[i + 1] == NextBook(h, books[i], Call(rid)); }
    }
    assert IsAlone(h, more, rid);
  }

  /** What one request can see and change. */
  datatype View = View(
    now: Time,
    rows: map<string, Row>,
    versions: map<string, string>,
    history: seq<Write>,
    cache: map<string, Entry>,
    r: Request,
    c: Carry)

  ghost predicate Sees(b: Book, rid: nat, e: View) {
    && b.sys.now == e.now && b.rows == e.rows && b.versions == e.versions && b.sys.history == e.history && b.sys.cache == e.cache
    && Has(b, rid, e.r, e.c)
  }

  function Pass(e: View): View
    requires e.r.todo != []
  {
    e.(r := e.r.(todo := e.r.todo[1..]))
  }

  function Upload(e: View, content: string): View
    requires e.r.todo != []
  {
    var here := Current(e.r.id);
    e.(history := e.history + [Write(here, content, e.now)],
       r := Request(e.r.id, e.r.todo[1..], Some(Held(here, content, e.now, |e.history| + 1))))
  }

  lemma {:induction false} OneCall(h: Hash, b0: Book, b: Book, rid: nat, e: View) returns (t: Book)
    requires Alone(h, b0, rid, b) && Sees(b, rid, e) && e.r.todo != [] && Answered(b, e.r, e.c)
    ensures Alone(h, b0, rid, t) && t == Recorded(b, rid).(sys := Do(b.sys, rid, e.r))
  {
    hide Alone, Do, Recorded, Answered;
    t := NextBook(h, b, Call(rid));
    AloneStep(h, b0, rid, b);
  }

  lemma {:induction false} Passes(h: Hash, b0: Book, b: Book, rid: nat, e: View) returns (t: Book)
    requires Alone(h, b0, rid, b) && Sees(b, rid, e) && e.r.todo != [] && e.r.todo[0].CountVersions?
    ensures Alone(h, b0, rid, t) && Sees(t, rid, Pass(e))
  {
    hide Alone;
    t := OneCall(h, b0, b, rid, e);
  }

  lemma {:induction false} Puts1(h: Hash, b0: Book, b: Book, rid: nat, e: View, x: string) returns (t: Book)
    requires Alone(h, b0, rid, b) && Sees(b, rid, e) && e.r.todo != []
    requires e.r.todo[0] == Put(x) || (e.r.todo[0].PutHeld? && Holds(e.r, x))
    ensures Alone(h, b0, rid, t) && Sees(t, rid, Upload(e, x))
  {
    hide Alone;
    t := OneCall(h, b0, b, rid, e);
  }

  lemma {:induction false} Loads1(h: Hash, b0: Book, b: Book, rid: nat, e: View) returns (t: Book)
    requires Alone(h, b0, rid, b) && Sees(b, rid, e) && e.r.todo != [] && e.r.todo[0].LoadRow? && !LoadsVersion(e.r, e.c.handler)
    requires e.r.id in e.rows && !e.rows[e.r.id].deleted && (Sent(e.c.handler).Some? ==> e.c.hash != e.rows[e.r.id].hash)
    ensures Alone(h, b0, rid, t)
    ensures Sees(t, rid, Pass(e).(c := if Sent(e.c.handler).Some? then e.c else e.c.(hash := e.rows[e.r.id].hash)))
  {
    hide Alone;
    t := OneCall(h, b0, b, rid, e);
  }

  lemma {:induction false} LoadsVersion1(h: Hash, b0: Book, b: Book, rid: nat, e: View) returns (t: Book)
    requires Alone(h, b0, rid, b) && Sees(b, rid, e) && e.r.todo != [] && e.r.todo[0].LoadRow? && LoadsVersion(e.r, e.c.handler)
    requires e.c.handler.source in e.versions
    ensures Alone(h, b0, rid, t) && Sees(t, rid, Pass(e).(c := e.c.(hash := e.versions[e.c.handler.source])))
  {
    hide Alone;
    t := OneCall(h, b0, b, rid, e);
  }

  lemma {:induction false} Saves1(h: Hash, b0: Book, b: Book, rid: nat, e: View) returns (t: Book)
    requires Alone(h, b0, rid, b) && Sees(b, rid, e) && e.r.todo != [] && e.r.todo[0].SaveRow?
    requires e.c.handler.Create? || e.c.handler.SyncNew? ==> e.r.id !in e.rows
    ensures Alone(h, b0, rid, t) && Sees(t, rid, Pass(e).(rows := Saved(e.rows, e.r.id, e.c)))
  {
    hide Alone, Saved;
    t := OneCall(h, b0, b, rid, e);
  }

  lemma {:induction false} Drops1(h: Hash, b0: Book, b: Book, rid: nat, e: View) returns (t: Book)
    requires Alone(h, b0, rid, b) && Sees(b, rid, e) && e.r.todo != [] && e.r.todo[0].Drop?
    ensures Alone(h, b0, rid, t) && Sees(t, rid, Pass(e).(cache := e.cache - {e.r.id}))
  {
    hide Alone;
    t := OneCall(h, b0, b, rid, e);
  }

  lemma {:induction false} Fills1(h: Hash, b0: Book, b: Book, rid: nat, e: View) returns (t: Book)
    requires Alone(h, b0, rid, b) && Sees(b, rid, e) && e.r.todo != [] && e.r.todo[0].Fill? && e.r.held.Some?
    ensures Alone(h, b0, rid, t) && Sees(t, rid, Pass(e).(cache := e.cache[e.r.id := Entry(e.r.held.value, e.now)]))
  {
    hide Alone;
    t := OneCall(h, b0, b, rid, e);
  }

  /** The two calls that make a version. */
  lemma {:induction false} Makes1(h: Hash, b0: Book, b: Book, rid: nat, e: View, v: string, rest: seq<Op>) returns (t: Book)
    requires Alone(h, b0, rid, b) && Sees(b, rid, e) && e.r.todo == [PutVersion(v)] + ([InsertVersion] + rest) && e.r.held.Some?
    ensures Alone(h, b0, rid, t)
    ensures Sees(t, rid, e.(r := e.r.(todo := rest), c := e.c.(made := None), versions := e.versions[v := e.c.hash],
                            history := e.history + [Write(Snapshot(v), e.r.held.value.content, e.now)]))
  {
    hide Alone;
    var u := OneCall(h, b0, b, rid, e);
    assert e.r.todo[1..] == [InsertVersion] + rest;
    var e1 := e.(r := e.r.(todo := [InsertVersion] + rest), c := e.c.(made := Some(v)),
                 history := e.history + [Write(Snapshot(v), e.r.held.value.content, e.now)]);
    assert Sees(u, rid, e1);
    t := OneCall(h, b0, u, rid, e1);
    assert e1.r.todo[1..] == rest;
  }

  /** Looking into the cache in vain. */
  lemma {:induction false} Misses1(h: Hash, b0: Book, b: Book, rid: nat, e: View) returns (t: Book)
    requires Alone(h, b0, rid, b) && Sees(b, rid, e) && e.r.todo != [] && e.r.todo[0].LookCache? && e.r.id !in e.cache
    ensures Alone(h, b0, rid, t) && Sees(t, rid, Pass(e))
  {
    hide Alone;
    t := OneCall(h, b0, b, rid, e);
  }

  lemma {:induction false} Hits1(h: Hash, b0: Book, b: Book, rid: nat, e: View) returns (t: Book)
    requires Alone(h, b0, rid, b) && Sees(b, rid, e) && e.r.todo != [] && e.r.todo[0].LookCache? && Hit(b.sys, e.r.id)
    requires e.r.todo[0].skip < |e.r.todo|
    ensures Alone(h, b0, rid, t)
    ensures Sees(t, rid, e.(r := Request(e.r.id, e.r.todo[e.r.todo[0].skip + 1..], Some(e.cache[e.r.id].held))))
  {
    hide Alone;
    t := OneCall(h, b0, b, rid, e);
    var skip := e.r.todo[0].skip;
    assert e.r.todo[1..][skip..] == e.r.todo[skip + 1..];
  }

  lemma {:induction false} Fetches1(h: Hash, b0: Book, b: Book, rid: nat, e: View, key: Key, x: string) returns (t: Book)
    requires Alone(h, b0, rid, b) && Sees(b, rid, e) && e.r.todo != []
    requires (e.r.todo[0].FetchCurrent? && key == Current(e.r.id)) || (e.r.todo[0].FetchVersion? && key == Snapshot(e.r.todo[0].version))
    requires BlobAfter(e.history, key) == Some(x)
    ensures Alone(h, b0, rid, t)
    ensures Sees(t, rid, e.(r := Request(e.r.id, e.r.todo[1..], Some(Held(key, x, e.now, |e.history|)))))
  {
    hide Alone, BlobAfter;
    t := OneCall(h, b0, b, rid, e);
  }

  // ---------- Whole requests ----------

  function StartView(h: Hash, b: Book, id: string, hd: Handler): View {
    View(b.sys.now, b.rows, b.versions, b.sys.history, b.sys.cache, Request(id, Calls(hd), None), Carry(hd, OwnHash(h, hd), None))
  }

  /** The request has done its calls, and this is what they left. */
  ghost predicate Leaves(h: Hash, b: Book, rid: nat, t: Book, rows: map<string, Row>, versions: map<string, string>, history: seq<Write>,
                         cache: map<string, Entry>)
  {
    && Alone(h, b, rid, t) && t.sys.now == b.sys.now && rid in t.sys.active && t.sys.active[rid].todo == []
    && t.rows == rows && t.versions == versions && t.sys.history == history && t.sys.cache == cache
  }

  lemma {:induction false} SyncRuns(h: Hash, b: Book, rid: nat, id: string, x: string, v: string) returns (t: Book)
    requires Sees(b, rid, StartView(h, b, id, Sync(x, v)))
    requires id in b.rows && !b.rows[id].deleted && h(x) != b.rows[id].hash
    ensures Leaves(h, b, rid, t, b.rows[id := Row(h(x), false)], b.versions[v := h(x)],
                   b.sys.history + [Write(Current(id), x, b.sys.now)] + [Write(Snapshot(v), x, b.sys.now)], b.sys.cache - {id})
  {
    hide Alone, Sees;
    AloneSelf(h, b, rid);
    var e0 := StartView(h, b, id, Sync(x, v));
    var last := [PutVersion(v)] + ([InsertVersion] + []);
    var tail := [SaveRow, Drop, CountVersions] + last;
    assert e0.r.todo == [LoadRow, Put(x)] + tail;
    var b1 := Loads1(h, b, b, rid, e0);
    var e1 := Pass(e0);
    var b2 := Puts1(h, b, b1, rid, e1, x);
    var e2 := Upload(e1, x);
    assert e2.r.todo == tail && Holds(e2.r, x);
    var b3 := Saves1(h, b, b2, rid, e2);
    var e3 := Pass(e2).(rows := Saved(e2.rows, id, e2.c));
    assert e3.rows == b.rows[id := Row(h(x), false)];
    var b4 := Drops1(h, b, b3, rid, e3);
    var e4 := Pass(e3).(cache := e3.cache - {id});
    hide *;
    t := SnapshotEnds(h, b, b4, rid, e4, v, x, last);
  }

  /** What is seen is there. */
  lemma {:induction false} Seen(t: Book, rid: nat)
    ensures forall e :: Sees(t, rid, e) ==>
      && t.sys.now == e.now && t.rows == e.rows && t.versions == e.versions && t.sys.history == e.history
      && t.sys.cache == e.cache && rid in t.sys.active && t.sys.active[rid] == e.r
  {
  }

  lemma {:induction false} RestoreRuns(h: Hash, b: Book, rid: nat, id: string, o: string, v: string, x: string) returns (t: Book)
    requires Sees(b, rid, StartView(h, b, id, RestoreVersion(o, v)))
    requires id in b.rows && !b.rows[id].deleted && o in b.versions && VersionBlob(b, o) == Some(x)
    ensures Leaves(h, b, rid, t, b.rows[id := Row(b.versions[o], false)], b.versions[v := b.versions[o]],
                   b.sys.history + [Write(Current(id), x, b.sys.now)] + [Write(Snapshot(v), x, b.sys.now)], b.sys.cache - {id})
  {
    hide Alone, Sees, BlobAfter;
    AloneSelf(h, b, rid);
    var e0 := StartView(h, b, id, RestoreVersion(o, v));
    var last := [PutVersion(v)] + ([InsertVersion] + [Drop]);
    var tail := [FetchVersion(o), PutHeld, SaveRow, CountVersions] + last;
    assert e0.r.todo == [LoadRow, LoadRow] + tail;
    var b3 := RestoreReads(h, b, rid, id, o, v, x, tail);
    var e3 := e0.(r := Request(id, tail[1..], Some(Held(Snapshot(o), x, e0.now, |e0.history|))), c := e0.c.(hash := e0.versions[o]));
    var b4 := Puts1(h, b, b3, rid, e3, x);
    var e4 := Upload(e3, x);
    assert e4.r.todo == [SaveRow, CountVersions] + last;
    hide *;
    t := RestoreEnds(h, b, b4, rid, e4, v, x, last);
  }

  lemma {:induction false} RestoreReads(h: Hash, b: Book, rid: nat, id: string, o: string, v: string, x: string, tail: seq<Op>) returns (t: Book)
    requires Sees(b, rid, StartView(h, b, id, RestoreVersion(o, v)))
    requires tail != [] && tail[0] == FetchVersion(o) && Calls(RestoreVersion(o, v)) == [LoadRow, LoadRow] + tail
    requires id in b.rows && !b.rows[id].deleted && o in b.versions && VersionBlob(b, o) == Some(x)
    ensures var e := StartView(h, b, id, RestoreVersion(o, v));
      && Alone(h, b, rid, t)
      && Sees(t, rid, e.(r := Request(id, tail[1..], Some(Held(Snapshot(o), x, e.now, |e.history|))), c := e.c.(hash := e.versions[o])))
  {
    hide Alone, Sees, BlobAfter, Calls;
    AloneSelf(h, b, rid);
    var e0 := StartView(h, b, id, RestoreVersion(o, v));
    assert e0.r.todo[1] == LoadRow;
    var b1 := Loads1(h, b, b, rid, e0);
    var e1 := Pass(e0).(c := e0.c.(hash := e0.rows[id].hash));
    assert e1.r.todo == [LoadRow] + tail;
    var b2 := LoadsVersion1(h, b, b1, rid, e1);
    var e2 := Pass(e1).(c := e1.c.(hash := e1.versions[o]));
    assert e2.r.todo == tail;
    t := Fetches1(h, b, b2, rid, e2, Snapshot(o), x);
  }

  lemma {:induction false} RestoreEnds(h: Hash, b0: Book, b: Book, rid: nat, e: View, v: string, x: string, last: seq<Op>) returns (t: Book)
    requires Alone(h, b0, rid, b) && Sees(b, rid, e) && b0.sys.now == e.now && e.c.handler.RestoreVersion?
    requires last == [PutVersion(v)] + ([InsertVersion] + [Drop]) && e.r.todo == [SaveRow, CountVersions] + last && Holds(e.r, x)
    requires e.r.id in e.rows && !e.rows[e.r.id].deleted
    ensures Leaves(h, b0, rid, t, e.rows[e.r.id := Row(e.c.hash, false)], e.versions[v := e.c.hash],
                   e.history + [Write(Snapshot(v), x, e.now)], e.cache - {e.r.id})
  {
    hide Alone, Sees;
    var b5 := Saves1(h, b0, b, rid, e);
    var e5 := Pass(e).(rows := Saved(e.rows, e.r.id, e.c));
    var b6 := Passes(h, b0, b5, rid, e5);
    assert Pass(e5).r.todo == last;
    var b7 := Makes1(h, b0, b6, rid, Pass(e5), v, [Drop]);
    var e7 := Pass(e5).(r := Pass(e5).r.(todo := [Drop]), c := e5.c.(made := None), versions := e5.versions[v := e5.c.hash],
                        history := e5.history + [Write(Snapshot(v), x, e5.now)]);
    t := Drops1(h, b0, b7, rid, e7);
    Seen(t, rid);
  }

  lemma {:induction false} NewRuns(h: Hash, b: Book, rid: nat, id: string, x: string, v: string) returns (t: Book)
    requires Sees(b, rid, StartView(h, b, id, SyncNew(x, v))) && id !in b.rows
    ensures Leaves(h, b, rid, t, b.rows[id := Row(h(x), false)], b.versions[v := h(x)],
                   b.sys.history + [Write(Current(id), x, b.sys.now)] + [Write(Snapshot(v), x, b.sys.now)], b.sys.cache)
  {
    hide Alone, Sees;
    AloneSelf(h, b, rid);
    var e0 := StartView(h, b, id, SyncNew(x, v));
    var last := [PutVersion(v)] + ([InsertVersion] + []);
    assert e0.r.todo == [Put(x), SaveRow] + last;
    var b1 := Puts1(h, b, b, rid, e0, x);
    var e1 := Upload(e0, x);
    var b2 := Saves1(h, b, b1, rid, e1);
    var e2 := Pass(e1).(rows := Saved(e1.rows, id, e1.c));
    assert e2.r.todo == last;
    t := Makes1(h, b, b2, rid, e2, v, []);
    Seen(t, rid);
  }

  lemma {:induction false} CreateRuns(h: Hash, b: Book, rid: nat, id: string, x: string, v: string) returns (t: Book, entry: Entry)
    requires Sees(b, rid, StartView(h, b, id, Create(x, v))) && id !in b.rows
    ensures entry.held.content == x && entry.setAt == b.sys.now
    ensures Leaves(h, b, rid, t, b.rows[id := Row(h(x), false)], b.versions[v := h(x)],
                   b.sys.history + [Write(Current(id), x, b.sys.now)] + [Write(Snapshot(v), x, b.sys.now)], b.sys.cache[id := entry])
  {
    hide Alone, Sees;
    AloneSelf(h, b, rid);
    var e0 := StartView(h, b, id, Create(x, v));
    var last := [PutVersion(v)] + ([InsertVersion] + [Fill]);
    assert e0.r.todo == [Put(x), SaveRow] + last;
    var b1 := Puts1(h, b, b, rid, e0, x);
    var e1 := Upload(e0, x);
    var b2 := Saves1(h, b, b1, rid, e1);
    var e2 := Pass(e1).(rows := Saved(e1.rows, id, e1.c));
    assert e2.r.todo == last;
    var b3 := Makes1(h, b, b2, rid, e2, v, [Fill]);
    var e3 := e2.(r := e2.r.(todo := [Fill]), c := e2.c.(made := None), versions := e2.versions[v := e2.c.hash],
                  history := e2.history + [Write(Snapshot(v), x, e2.now)]);
    t := Fills1(h, b, b3, rid, e3);
    Seen(t, rid);
    entry := Entry(e3.r.held.value, e3.now);
  }

  lemma {:induction false} UpdateRuns(h: Hash, b: Book, rid: nat, id: string, x: string) returns (t: Book)
    requires Sees(b, rid, StartView(h, b, id, UpdateContent(x)))
    requires id in b.rows && !b.rows[id].deleted && h(x) != b.rows[id].hash
    ensures Leaves(h, b, rid, t, b.rows[id := Row(h(x), false)], b.versions, b.sys.history + [Write(Current(id), x, b.sys.now)],
                   b.sys.cache - {id})
  {
    hide Alone, Sees;
    AloneSelf(h, b, rid);
    var e0 := StartView(h, b, id, UpdateContent(x));
    assert e0.r.todo == [LoadRow, Put(x), Drop, SaveRow];
    var b1 := Loads1(h, b, b, rid, e0);
    var b2 := Puts1(h, b, b1, rid, Pass(e0), x);
    var e2 := Upload(Pass(e0), x);
    var b3 := Drops1(h, b, b2, rid, e2);
    var e3 := Pass(e2).(cache := e2.cache - {id});
    t := Saves1(h, b, b3, rid, e3);
    Seen(t, rid);
  }

  lemma {:induction false} OtherUpdateRuns(h: Hash, b: Book, rid: nat, id: string) returns (t: Book)
    requires Sees(b, rid, StartView(h, b, id, UpdateOther)) && id in b.rows && !b.rows[id].deleted
    ensures Leaves(h, b, rid, t, b.rows, b.versions, b.sys.history, b.sys.cache)
  {
    hide Alone, Sees;
    AloneSelf(h, b, rid);
    var e0 := StartView(h, b, id, UpdateOther);
    assert e0.r.todo == [LoadRow, SaveRow];
    var b1 := Loads1(h, b, b, rid, e0);
    var e1 := Pass(e0).(c := e0.c.(hash := e0.rows[id].hash));
    t := Saves1(h, b, b1, rid, e1);
    Seen(t, rid);
    assert b.rows[id := Row(b.rows[id].hash, false)] == b.rows;
  }

  lemma {:induction false} SameRuns(h: Hash, b: Book, rid: nat, id: string) returns (t: Book)
    requires Sees(b, rid, StartView(h, b, id, SyncSame)) && id in b.rows && !b.rows[id].deleted
    ensures Leaves(h, b, rid, t, b.rows, b.versions, b.sys.history, b.sys.cache)
  {
    hide Alone, Sees;
    AloneSelf(h, b, rid);
    t := Loads1(h, b, b, rid, StartView(h, b, id, SyncSame));
    Seen(t, rid);
  }

  lemma {:induction false} DeleteRuns(h: Hash, b: Book, rid: nat, id: string) returns (t: Book)
    requires Sees(b, rid, StartView(h, b, id, Delete))
    ensures Leaves(h, b, rid, t, if id in b.rows then b.rows[id := b.rows[id].(deleted := true)] else b.rows, b.versions, b.sys.history,
                   b.sys.cache - {id})
  {
    hide Alone, Sees;
    AloneSelf(h, b, rid);
    var e0 := StartView(h, b, id, Delete);
    assert e0.r.todo == [SaveRow, Drop];
    var b1 := Saves1(h, b, b, rid, e0);
    var e1 := Pass(e0).(rows := Saved(e0.rows, id, e0.c));
    t := Drops1(h, b, b1, rid, e1);
    Seen(t, rid);
  }

  /** A reader, and a snapshot, first look into the cache; without an entry they download the blob and
      cache it. Either way they hold the content, and it is cached. */
  lemma {:induction false} ReadRuns(h: Hash, b: Book, rid: nat, id: string, x: string) returns (t: Book, entry: Entry)
    requires Sees(b, rid, StartView(h, b, id, GetContent)) && id in b.rows && !b.rows[id].deleted
    requires BlobAfter(b.sys.history, Current(id)) == Some(x)
    requires id in b.sys.cache ==> Hit(b.sys, id)
    ensures b.sys.now < entry.setAt + TTL && entry.held.content == if id in b.sys.cache then b.sys.cache[id].held.content else x
    ensures Leaves(h, b, rid, t, b.rows, b.versions, b.sys.history, b.sys.cache[id := entry])
  {
    hide Alone, Sees, BlobAfter;
    AloneSelf(h, b, rid);
    var e0 := StartView(h, b, id, GetContent);
    assert e0.r.todo == [LookCache(3), LoadRow, FetchCurrent, Fill];
    if id in b.sys.cache {
      t := Hits1(h, b, b, rid, e0);
      Seen(t, rid);
      entry := b.sys.cache[id];
      assert b.sys.cache[id := entry] == b.sys.cache;
    } else {
      var b1 := Misses1(h, b, b, rid, e0);
      var b2 := Loads1(h, b, b1, rid, Pass(e0));
      var e2 := Pass(Pass(e0)).(c := e0.c.(hash := e0.rows[id].hash));
      var b3 := Fetches1(h, b, b2, rid, e2, Current(id), x);
      var e3 := e2.(r := Request(id, e2.r.todo[1..], Some(Held(Current(id), x, e2.now, |e2.history|))));
      t := Fills1(h, b, b3, rid, e3);
      Seen(t, rid);
      entry := Entry(e3.r.held.value, e3.now);
    }
  }

  lemma {:induction false} RowReadRuns(h: Hash, b: Book, rid: nat, id: string, x: string) returns (t: Book, entry: Entry)
    requires Sees(b, rid, StartView(h, b, id, GetWithContent)) && id in b.rows && !b.rows[id].deleted
    requires BlobAfter(b.sys.history, Current(id)) == Some(x)
    requires id in b.sys.cache ==> Hit(b.sys, id)
    ensures b.sys.now < entry.setAt + TTL && entry.held.content == if id in b.sys.cache then b.sys.cache[id].held.content else x
    ensures Leaves(h, b, rid, t, b.rows, b.versions, b.sys.history, b.sys.cache[id := entry])
  {
    hide Alone, Sees, BlobAfter;
    AloneSelf(h, b, rid);
    var e0 := StartView(h, b, id, GetWithContent);
    assert e0.r.todo == [LoadRow, LookCache(2), FetchCurrent, Fill];
    var b1 := Loads1(h, b, b, rid, e0);
    var e1 := Pass(e0).(c := e0.c.(hash := e0.rows[id].hash));
    if id in b.sys.cache {
      assert Hit(b1.sys, id) by { Seen(b1, rid); }
      t := Hits1(h, b, b1, rid, e1);
      Seen(t, rid);
      entry := b.sys.cache[id];
      assert b.sys.cache[id := entry] == b.sys.cache;
    } else {
      var b2 := Misses1(h, b, b1, rid, e1);
      var b3 := Fetches1(h, b, b2, rid, Pass(e1), Current(id), x);
      var e3 := Pass(e1).(r := Request(id, Pass(e1).r.todo[1..], Some(Held(Current(id), x, e1.now, |e1.history|))));
      t := Fills1(h, b, b3, rid, e3);
      Seen(t, rid);
      entry := Entry(e3.r.held.value, e3.now);
    }
  }

  lemma {:induction false} SnapshotRuns(h: Hash, b: Book, rid: nat, id: string, v: string, x: string) returns (t: Book, entry: Entry)
    requires Sees(b, rid, StartView(h, b, id, CreateVersion(v))) && id in b.rows && !b.rows[id].deleted
    requires BlobAfter(b.sys.history, Current(id)) == Some(x)
    requires id in b.sys.cache ==> Hit(b.sys, id) && b.sys.cache[id].held.content == x
    ensures b.sys.now < entry.setAt + TTL && entry.held.content == x
    ensures Leaves(h, b, rid, t, b.rows, b.versions[v := b.rows[id].hash], b.sys.history + [Write(Snapshot(v), x, b.sys.now)],
                   b.sys.cache[id := entry])
  {
    hide Alone, Sees, BlobAfter;
    AloneSelf(h, b, rid);
    var e0 := StartView(h, b, id, CreateVersion(v));
    var last := [PutVersion(v)] + ([InsertVersion] + []);
    assert e0.r.todo == [LoadRow, LookCache(2), FetchCurrent, Fill, CountVersions] + last;
    var b1 := Loads1(h, b, b, rid, e0);
    var e1 := Pass(e0).(c := e0.c.(hash := e0.rows[id].hash));
    if id in b.sys.cache {
      entry := b.sys.cache[id];
      assert Hit(b1.sys, id) by { Seen(b1, rid); }
      var b2 := Hits1(h, b, b1, rid, e1);
      var e2 := e1.(r := Request(id, e1.r.todo[3..], Some(entry.held)));
      t := SnapshotEnds(h, b, b2, rid, e2, v, x, last);
      assert b.sys.cache[id := entry] == b.sys.cache;
    } else {
      var b2 := Misses1(h, b, b1, rid, e1);
      var b3 := Fetches1(h, b, b2, rid, Pass(e1), Current(id), x);
      var e3 := Pass(e1).(r := Request(id, Pass(e1).r.todo[1..], Some(Held(Current(id), x, e1.now, |e1.history|))));
      var b4 := Fills1(h, b, b3, rid, e3);
      entry := Entry(e3.r.held.value, e3.now);
      var e4 := Pass(e3).(cache := e3.cache[id := entry]);
      t := SnapshotEnds(h, b, b4, rid, e4, v, x, last);
    }
  }

  lemma {:induction false} SnapshotEnds(h: Hash, b0: Book, b: Book, rid: nat, e: View, v: string, x: string, last: seq<Op>) returns (t: Book)
    requires Alone(h, b0, rid, b) && Sees(b, rid, e) && b0.sys.now == e.now
    requires last == [PutVersion(v)] + ([InsertVersion] + []) && e.r.todo == [CountVersions] + last && Holds(e.r, x)
    ensures Leaves(h, b0, rid, t, e.rows, e.versions[v := e.c.hash], e.history + [Write(Snapshot(v), x, e.now)], e.cache)
  {
    hide Alone, Sees;
    var b1 := Passes(h, b0, b, rid, e);
    assert Pass(e).r.todo == last;
    t := Makes1(h, b0, b1, rid, Pass(e), v, []);
    Seen(t, rid);
  }

  // ---------- The two models stay alike ----------

  lemma {:induction false} TwoWrites(ws: seq<Write>, id: string, v: string, x: string, now: Time)
    ensures var t := ws + [Write(Current(id), x, now)] + [Write(Snapshot(v), x, now)];
      && BlobAfter(t, Current(id)) == Some(x) && BlobAfter(t, Snapshot(v)) == Some(x)
      && forall key :: key != Current(id) && key != Snapshot(v) ==> BlobAfter(t, key) == BlobAfter(ws, key)
  {
    hide BlobAfter;
    LastWriteWins(ws, Write(Current(id), x, now));
    LastWriteWins(ws + [Write(Current(id), x, now)], Write(Snapshot(v), x, now));
  }

  /** The blobs of other diagrams are not touched. */
  ghost predicate OtherBlobsSame(s: D.State, u: D.State, id: string) {
    forall d :: d in s.rows && d != id ==>
      d in u.rows && u.rows[d] == s.rows[d] && s.rows[d].contentKey in u.blobs
      && (s.rows[d].contentKey in s.blobs ==> u.blobs[s.rows[d].contentKey] == s.blobs[s.rows[d].contentKey])
  }

  lemma {:induction false} OthersUntouched(h: Hash, s: D.State, u: D.State, id: string, keys: set<string>)
    requires D.Agree(h, s) && D.Agree(h, u) && R.OtherRowsSame(s, u, id) && R.BlobsSameBut(s, u, keys)
    requires forall d :: d in s.rows && d != id ==> s.rows[d].contentKey !in keys
    ensures OtherBlobsSame(s, u, id)
  {
    forall d | d in s.rows && d != id ensures d in u.rows && u.rows[d] == s.rows[d] && s.rows[d].contentKey in s.blobs && s.rows[d].contentKey in u.blobs {
      assert D.RowAgrees(h, s, d);
    }
  }

  /** No other row's key is that of this diagram's content or of a version. */
  lemma {:induction false} KeysApart(h: Hash, s: D.State, u: D.State, id: string)
    requires D.Agree(h, s) && D.Agree(h, u) && R.OtherRowsSame(s, u, id) && id in u.rows
    ensures forall d :: d in s.rows && d != id ==> s.rows[d].contentKey != u.rows[id].contentKey
    ensures forall d, i :: d in s.rows && 0 <= i < |u.versions| ==> s.rows[d].contentKey != u.versions[i].contentKey
  {
    assert D.RowAgrees(h, u, id);
    forall d | d in s.rows && d != id ensures s.rows[d].contentKey != u.rows[id].contentKey {
      assert D.RowAgrees(h, s, d);
      D.ContentKeysDiffer(s.rows[d].orgId, d, u.rows[id].orgId, id);
    }
    hide D.Agree;
    forall d, i | d in s.rows && 0 <= i < |u.versions| ensures s.rows[d].contentKey != u.versions[i].contentKey {
      VersionKeyApart(h, s, u, d, i);
    }
  }

  lemma {:induction false} VersionKeyApart(h: Hash, s: D.State, u: D.State, d: string, i: nat)
    requires D.Agree(h, s) && D.Agree(h, u) && d in s.rows && i < |u.versions|
    ensures s.rows[d].contentKey != u.versions[i].contentKey
  {
    assert D.RowAgrees(h, s, d) && D.VersionAgrees(h, u, u.versions[i]);
    D.ContentIsNoVersion(u.versions[i], s.rows[d].orgId, d);
  }

  lemma {:induction false} RowsAfterPut(b: Book, s: D.State, t: Book, u: D.State, id: string, hash: string, x: string)
    requires RowsMirror(b, s) && t.rows == b.rows[id := Row(hash, false)]
    requires BlobAfter(t.sys.history, Current(id)) == Some(x)
    requires forall d :: d != id ==> BlobAfter(t.sys.history, Current(d)) == BlobAfter(b.sys.history, Current(d))
    requires R.OtherRowsSame(s, u, id) && OtherBlobsSame(s, u, id)
    requires id in u.rows && u.rows[id].contentHash == hash && !u.rows[id].deleted
    requires u.rows[id].contentKey in u.blobs && u.blobs[u.rows[id].contentKey] == x
    ensures RowsMirror(t, u)
  {
    hide BlobAfter;
  }

  lemma {:induction false} RowsAsBefore(b: Book, s: D.State, t: Book, u: D.State)
    requires RowsMirror(b, s) && t.rows == b.rows
    requires forall d :: BlobAfter(t.sys.history, Current(d)) == BlobAfter(b.sys.history, Current(d))
    requires u.rows.Keys == s.rows.Keys
    requires forall d :: d in s.rows ==>
      && u.rows[d].contentKey == s.rows[d].contentKey && u.rows[d].contentHash == s.rows[d].contentHash && u.rows[d].deleted == s.rows[d].deleted
      && s.rows[d].contentKey in u.blobs && (s.rows[d].contentKey in s.blobs ==> u.blobs[s.rows[d].contentKey] == s.blobs[s.rows[d].contentKey])
    ensures RowsMirror(t, u)
  {
    hide BlobAfter;
  }

  lemma {:induction false} VersionsKept(b: Book, s: D.State, t: Book, u: D.State)
    requires VersionsMirror(b, s) && t.versions == b.versions && D.KeptIn(s, u) && u.versions == s.versions
    requires forall v :: VersionBlob(t, v) == VersionBlob(b, v)
    ensures VersionsMirror(t, u)
  {
    hide BlobAfter;
    forall i | 0 <= i < |u.versions| ensures VersionMirrors(t, u, u.versions[i]) { assert VersionMirrors(b, s, s.versions[i]); }
  }

  lemma {:induction false} VersionsMore(b: Book, s: D.State, t: Book, u: D.State, id: string, vid: string, hash: string, x: string)
    requires VersionsMirror(b, s) && t.versions == b.versions[vid := hash] && D.KeptIn(s, u)
    requires R.AddsVersion(s, u, id, vid, x) && R.Added(s, u).contentHash == hash
    requires forall i :: 0 <= i < |s.versions| ==> s.versions[i].id != vid
    requires VersionBlob(t, vid) == Some(x) && forall v :: v != vid ==> VersionBlob(t, v) == VersionBlob(b, v)
    ensures VersionsMirror(t, u)
  {
    hide BlobAfter, CountOf;
    var n := |s.versions|;
    assert u.versions == s.versions + [R.Added(s, u)];
    forall i | 0 <= i < |u.versions| ensures VersionMirrors(t, u, u.versions[i]) {
      if i < n { assert VersionMirrors(b, s, s.versions[i]); }
    }
    forall v | v in t.versions ensures exists i :: 0 <= i < |u.versions| && u.versions[i].id == v {
      if v == vid {
        assert u.versions[n].id == v;
      } else {
        var i :| 0 <= i < n && s.versions[i].id == v;
        assert u.versions[i].id == v;
      }
    }
  }

  lemma {:induction false} CacheDropped(b: Book, s: D.State, t: Book, u: D.State, id: string)
    requires CacheMirrors(b, s) && t.sys.now == b.sys.now && t.sys.cache == b.sys.cache - {id}
    requires id !in u.cache && R.OtherEntriesSame(s, u, id)
    ensures CacheMirrors(t, u)
  {
  }

  lemma {:induction false} CacheFilled(b: Book, s: D.State, t: Book, u: D.State, id: string, entry: Entry)
    requires CacheMirrors(b, s) && t.sys.now == b.sys.now && t.sys.cache == b.sys.cache[id := entry] && b.sys.now < entry.setAt + TTL
    requires id in u.cache && u.cache[id] == entry.held.content && R.OtherEntriesSame(s, u, id)
    ensures CacheMirrors(t, u)
  {
  }

  /** A request that uploads content and makes a version of it. */
  lemma {:induction false} ContentMirrors(h: Hash, b: Book, s: D.State, t: Book, u: D.State, id: string, vid: string, hash: string, x: string)
    requires RowsMirror(b, s) && VersionsMirror(b, s) && D.Agree(h, s) && D.Agree(h, u) && D.KeptIn(s, u)
    requires t.rows == b.rows[id := Row(hash, false)] && t.versions == b.versions[vid := hash]
    requires t.sys.history == b.sys.history + [Write(Current(id), x, b.sys.now)] + [Write(Snapshot(vid), x, b.sys.now)]
    requires R.OtherRowsSame(s, u, id) && id in u.rows && u.rows[id].contentHash == hash && !u.rows[id].deleted
    requires u.rows[id].contentKey in u.blobs && u.blobs[u.rows[id].contentKey] == x
    requires R.AddsVersion(s, u, id, vid, x) && R.Added(s, u).contentHash == hash
    requires R.BlobsSameBut(s, u, {u.rows[id].contentKey, R.Added(s, u).contentKey})
    requires forall i :: 0 <= i < |s.versions| ==> s.versions[i].id != vid
    ensures RowsMirror(t, u) && VersionsMirror(t, u)
  {
    hide BlobAfter, D.Agree, CountOf, R.BlobsSameBut, R.OtherRowsSame, D.KeptIn, RowsMirror, VersionsMirror, OtherBlobsSame;
    TwoWrites(b.sys.history, id, vid, x, b.sys.now);
    KeysApart(h, s, u, id);
    OthersUntouched(h, s, u, id, {u.rows[id].contentKey, R.Added(s, u).contentKey});
    RowsAfterPut(b, s, t, u, id, hash, x);
    hide R.AddsVersion;
    VersionsMore(b, s, t, u, id, vid, hash, x);
  }

  // ---------- Request by request ----------

  lemma {:induction false} Begins(h: Hash, b: Book, s: D.State, rid: nat, id: string, hd: Handler) returns (t: Book)
    requires Mirrors(b, s) && Allowed(b, Begin(rid, id, hd))
    ensures t == NextBook(h, b, Begin(rid, id, hd)) && Mirrors(t, s) && Sees(t, rid, StartView(h, t, id, hd))
  {
    hide FreshStep, BlobAfter, Calls;
    t := NextBook(h, b, Begin(rid, id, hd));
    forall i | 0 <= i < |s.versions| ensures VersionMirrors(t, s, s.versions[i]) { assert VersionMirrors(b, s, s.versions[i]); }
  }

  ghost predicate Refines(h: Hash, b: Book, rid: nat, t: Book, u: D.State) {
    Alone(h, b, rid, t) && rid in t.sys.active && t.sys.active[rid].todo == [] && Mirrors(t, u)
  }

  lemma {:induction false} SyncRefines(h: Hash, b: Book, s: D.State, c: D.Call, rid: nat) returns (t: Book)
    requires D.Agree(h, s) && D.FreshFor(s, c) && Mirrors(b, s) && c.Sync? && R.Syncs(h, s, c)
    requires Sees(b, rid, StartView(h, b, c.id, Sync(c.content, c.freshVersion)))
    ensures Refines(h, b, rid, t, D.Apply(h, s, c))
  {
    hide D.Apply, D.Agree, D.KeptIn, Sees, Alone, BlobAfter, VersionsMirror, R.AddsVersion, R.BlobsSameBut, R.OtherRowsSame, R.OtherEntriesSame;
    var u := D.Apply(h, s, c);
    R.SyncLeaves(h, s, c);
    D.StepAgrees(h, s, c);
    D.StepKeepsVersions(h, s, c);
    t := SyncRuns(h, b, rid, c.id, c.content, c.freshVersion);
    ContentMirrors(h, b, s, t, u, c.id, c.freshVersion, h(c.content), c.content);
    hide RowsMirror;
    CacheDropped(b, s, t, u, c.id);
  }

  lemma {:induction false} RestoreRefines(h: Hash, b: Book, s: D.State, c: D.Call, i: nat, rid: nat) returns (t: Book)
    requires D.Agree(h, s) && D.FreshFor(s, c) && Mirrors(b, s) && c.RestoreVersion? && D.Live(s, c.id)
    requires i < |s.versions| && s.versions[i].id == c.versionId
    requires Sees(b, rid, StartView(h, b, c.id, RestoreVersion(c.versionId, c.freshVersion)))
    ensures Refines(h, b, rid, t, D.Apply(h, s, c))
  {
    hide D.Apply, D.Agree, D.KeptIn, Sees, Alone, BlobAfter, R.AddsVersion, R.BlobsSameBut, R.OtherRowsSame, R.OtherEntriesSame,
         Decimal;
    var u := D.Apply(h, s, c);
    R.RestoreLeaves(h, s, c, i);
    D.StepAgrees(h, s, c);
    D.StepKeepsVersions(h, s, c);
    assert VersionMirrors(b, s, s.versions[i]);
    hide VersionsMirror;
    var x := s.blobs[s.versions[i].contentKey];
    t := RestoreRuns(h, b, rid, c.id, c.versionId, c.freshVersion, x);
    ContentMirrors(h, b, s, t, u, c.id, c.freshVersion, s.versions[i].contentHash, x);
    hide RowsMirror;
    CacheDropped(b, s, t, u, c.id);
  }

  lemma {:induction false} CreateRefines(h: Hash, b: Book, s: D.State, c: D.Call, rid: nat) returns (t: Book)
    requires D.Agree(h, s) && D.FreshFor(s, c) && Mirrors(b, s) && c.Create? && c.name != "" && c.content != ""
    requires Sees(b, rid, StartView(h, b, c.freshId, Create(c.content, c.freshVersion)))
    ensures Refines(h, b, rid, t, D.Apply(h, s, c))
  {
    hide D.Apply, D.Agree, D.KeptIn, Sees, Alone, BlobAfter, VersionsMirror, R.AddsVersion, R.BlobsSameBut, R.OtherRowsSame, R.OtherEntriesSame;
    var u := D.Apply(h, s, c);
    R.CreateLeaves(h, s, c);
    D.StepAgrees(h, s, c);
    D.StepKeepsVersions(h, s, c);
    var entry: Entry;
    t, entry := CreateRuns(h, b, rid, c.freshId, c.content, c.freshVersion);
    ContentMirrors(h, b, s, t, u, c.freshId, c.freshVersion, h(c.content), c.content);
    hide RowsMirror;
    CacheFilled(b, s, t, u, c.freshId, entry);
  }

  lemma {:induction false} SyncNewRefines(h: Hash, b: Book, s: D.State, c: D.Call, rid: nat) returns (t: Book)
    requires D.Agree(h, s) && D.FreshFor(s, c) && Mirrors(b, s) && c.SyncNew? && c.name != "" && c.content != ""
    requires Sees(b, rid, StartView(h, b, c.freshId, SyncNew(c.content, c.freshVersion)))
    ensures Refines(h, b, rid, t, D.Apply(h, s, c))
  {
    hide D.Apply, D.Agree, D.KeptIn, Sees, Alone, BlobAfter, VersionsMirror, R.AddsVersion, R.BlobsSameBut, R.OtherRowsSame, R.OtherEntriesSame;
    var u := D.Apply(h, s, c);
    R.SyncNewLeaves(h, s, c);
    D.StepAgrees(h, s, c);
    D.StepKeepsVersions(h, s, c);
    t := NewRuns(h, b, rid, c.freshId, c.content, c.freshVersion);
    ContentMirrors(h, b, s, t, u, c.freshId, c.freshVersion, h(c.content), c.content);
    hide RowsMirror;
    SameCache(b, s, t, u);
  }

  lemma {:induction false} SameCache(b: Book, s: D.State, t: Book, u: D.State)
    requires CacheMirrors(b, s) && t.sys.now == b.sys.now && t.sys.cache == b.sys.cache && u.cache == s.cache
    ensures CacheMirrors(t, u)
  {
  }

  lemma {:induction false} UpdateRefines(h: Hash, b: Book, s: D.State, c: D.Call, rid: nat) returns (t: Book)
    requires D.Agree(h, s) && Mirrors(b, s) && c.Update? && D.Live(s, c.id) && D.FreshFor(s, c)
    requires c.newContent.Some? && h(c.newContent.value) != s.rows[c.id].contentHash
    requires Sees(b, rid, StartView(h, b, c.id, UpdateContent(c.newContent.value)))
    ensures Refines(h, b, rid, t, D.Apply(h, s, c))
  {
    hide D.Apply, D.Agree, D.KeptIn, Sees, Alone, BlobAfter, R.BlobsSameBut, R.OtherRowsSame, R.OtherEntriesSame, VersionsMirror, OtherBlobsSame;
    var u := D.Apply(h, s, c);
    var x := c.newContent.value;
    R.UpdateLeaves(h, s, c);
    D.StepAgrees(h, s, c);
    D.StepKeepsVersions(h, s, c);
    t := UpdateRuns(h, b, rid, c.id, x);
    LastWriteWins(b.sys.history, Write(Current(c.id), x, b.sys.now));
    KeysApart(h, s, u, c.id);
    OthersUntouched(h, s, u, c.id, {s.rows[c.id].contentKey});
    RowsAfterPut(b, s, t, u, c.id, h(x), x);
    hide RowsMirror;
    VersionsKept(b, s, t, u);
    CacheDropped(b, s, t, u, c.id);
  }

  /** A request that leaves contents, hashes and versions as they are. */
  lemma {:induction false} NothingNew(h: Hash, b: Book, s: D.State, t: Book, u: D.State)
    requires RowsMirror(b, s) && VersionsMirror(b, s) && D.KeptIn(s, u)
    requires t.rows == b.rows && t.versions == b.versions && t.sys.history == b.sys.history
    requires u.versions == s.versions && u.blobs == s.blobs && u.rows.Keys == s.rows.Keys
    requires forall d :: d in s.rows ==>
      u.rows[d].contentKey == s.rows[d].contentKey && u.rows[d].contentHash == s.rows[d].contentHash && u.rows[d].deleted == s.rows[d].deleted
    ensures RowsMirror(t, u) && VersionsMirror(t, u)
  {
    hide BlobAfter, D.KeptIn, VersionsMirror;
    VersionsKept(b, s, t, u);
    RowsAsBefore(b, s, t, u);
  }

  lemma {:induction false} OtherUpdateRefines(h: Hash, b: Book, s: D.State, c: D.Call, rid: nat) returns (t: Book)
    requires D.Agree(h, s) && Mirrors(b, s) && c.Update? && D.Live(s, c.id) && D.FreshFor(s, c)
    requires c.newContent.None? || h(c.newContent.value) == s.rows[c.id].contentHash
    requires Sees(b, rid, StartView(h, b, c.id, UpdateOther))
    ensures Refines(h, b, rid, t, D.Apply(h, s, c))
  {
    hide D.Apply, D.Agree, D.KeptIn, Sees, Alone, BlobAfter, VersionsMirror;
    var u := D.Apply(h, s, c);
    R.UpdateLeaves(h, s, c);
    D.StepKeepsVersions(h, s, c);
    t := OtherUpdateRuns(h, b, rid, c.id);
    NothingNew(h, b, s, t, u);
    hide RowsMirror;
    SameCache(b, s, t, u);
  }

  lemma {:induction false} DeleteRefines(h: Hash, b: Book, s: D.State, c: D.Call, rid: nat) returns (t: Book)
    requires D.Agree(h, s) && Mirrors(b, s) && c.Delete? && D.FreshFor(s, c)
    requires Sees(b, rid, StartView(h, b, c.id, Delete))
    ensures Refines(h, b, rid, t, D.Apply(h, s, c))
  {
    hide D.Apply, D.Agree, D.KeptIn, Sees, Alone, BlobAfter, VersionsMirror;
    var u := D.Apply(h, s, c);
    R.DeleteLeaves(h, s, c.id);
    D.StepKeepsVersions(h, s, c);
    t := DeleteRuns(h, b, rid, c.id);
    RowsDeleted(b, s, t, u, c.id);
    hide RowsMirror;
    VersionsKept(b, s, t, u);
    CacheDropped(b, s, t, u, c.id);
  }

  lemma {:induction false} RowsDeleted(b: Book, s: D.State, t: Book, u: D.State, id: string)
    requires RowsMirror(b, s) && t.sys.history == b.sys.history && u.blobs == s.blobs && R.OtherRowsSame(s, u, id)
    requires t.rows == if id in b.rows then b.rows[id := b.rows[id].(deleted := true)] else b.rows
    requires (id in u.rows <==> id in s.rows) && (id in s.rows ==> u.rows[id] == s.rows[id].(deleted := true))
    ensures RowsMirror(t, u)
  {
    hide BlobAfter;
  }

  lemma {:induction false} ReadRefines(h: Hash, b: Book, s: D.State, c: D.Call, rid: nat) returns (t: Book)
    requires D.Agree(h, s) && Mirrors(b, s) && c.GetContent? && D.Live(s, c.id) && D.FreshFor(s, c)
    requires Sees(b, rid, StartView(h, b, c.id, GetContent))
    ensures Refines(h, b, rid, t, D.Apply(h, s, c))
  {
    hide D.Apply, D.KeptIn, Sees, Alone, BlobAfter, VersionsMirror;
    var u := D.Apply(h, s, c);
    R.ReadLeaves(h, s, c.id);
    D.StepKeepsVersions(h, s, c);
    if c.id in s.cache { assert D.CacheAgrees(s, c.id); }
    hide D.Agree;
    var entry: Entry;
    t, entry := ReadRuns(h, b, rid, c.id, s.blobs[s.rows[c.id].contentKey]);
    NothingNew(h, b, s, t, u);
    hide RowsMirror;
    CacheFilled(b, s, t, u, c.id, entry);
  }

  /** So does a reader that asks for the row as well. */
  lemma {:induction false} RowReadRefines(h: Hash, b: Book, s: D.State, c: D.Call, rid: nat) returns (b1: Book, t: Book)
    requires D.Agree(h, s) && Mirrors(b, s) && c.GetContent? && D.Live(s, c.id) && D.FreshFor(s, c)
    requires Allowed(b, Begin(rid, c.id, GetWithContent))
    ensures b1 == NextBook(h, b, Begin(rid, c.id, GetWithContent)) && Refines(h, b1, rid, t, D.Apply(h, s, c))
  {
    hide D.Apply, D.KeptIn, Sees, Alone, BlobAfter, VersionsMirror, Allowed, NextBook;
    b1 := Begins(h, b, s, rid, c.id, GetWithContent);
    var u := D.Apply(h, s, c);
    R.ReadLeaves(h, s, c.id);
    D.StepKeepsVersions(h, s, c);
    if c.id in s.cache { CachedIsCurrent(h, s, c.id); }
    hide D.Agree;
    var entry: Entry;
    t, entry := RowReadRuns(h, b1, rid, c.id, s.blobs[s.rows[c.id].contentKey]);
    NothingNew(h, b1, s, t, u);
    hide RowsMirror;
    CacheFilled(b1, s, t, u, c.id, entry);
  }

  lemma {:induction false} CachedIsCurrent(h: Hash, s: D.State, id: string)
    requires D.Agree(h, s) && id in s.cache
    ensures id in s.rows && s.rows[id].contentKey in s.blobs && s.cache[id] == s.blobs[s.rows[id].contentKey]
  {
    assert D.CacheAgrees(s, id);
  }

  lemma {:induction false} SnapshotRefines(h: Hash, b: Book, s: D.State, c: D.Call, rid: nat) returns (t: Book)
    requires D.Agree(h, s) && Mirrors(b, s) && c.CreateVersion? && D.Live(s, c.id) && D.FreshFor(s, c)
    requires Sees(b, rid, StartView(h, b, c.id, CreateVersion(c.freshVersion)))
    ensures Refines(h, b, rid, t, D.Apply(h, s, c))
  {
    hide D.Apply, D.Agree, D.KeptIn, Sees, Alone, BlobAfter, VersionsMirror, R.AddsVersion, R.BlobsSameBut, R.OtherEntriesSame, D.FreshFor;
    var u := D.Apply(h, s, c);
    R.SnapshotLeaves(h, s, c);
    if c.id in s.cache { CachedIsCurrent(h, s, c.id); }
    var x := s.blobs[s.rows[c.id].contentKey];
    var entry: Entry;
    t, entry := SnapshotRuns(h, b, rid, c.id, c.freshVersion, x);
    hide RowsMirror, CacheMirrors;
    SnapshotMirrors(h, b, s, t, c, entry, x);
  }

  lemma {:induction false} SnapshotMirrors(h: Hash, b: Book, s: D.State, t: Book, c: D.Call, entry: Entry, x: string)
    requires D.Agree(h, s) && Mirrors(b, s) && c.CreateVersion? && D.Live(s, c.id) && D.FreshFor(s, c)
    requires s.rows[c.id].contentKey in s.blobs && x == s.blobs[s.rows[c.id].contentKey]
    requires t.sys.now == b.sys.now && t.rows == b.rows && t.versions == b.versions[c.freshVersion := s.rows[c.id].contentHash]
    requires t.sys.history == b.sys.history + [Write(Snapshot(c.freshVersion), x, b.sys.now)]
    requires t.sys.cache == b.sys.cache[c.id := entry] && b.sys.now < entry.setAt + TTL && entry.held.content == x
    ensures Mirrors(t, D.Apply(h, s, c))
  {
    hide D.Apply, D.Agree, D.KeptIn, BlobAfter, RowsMirror, VersionsMirror, CacheMirrors, R.AddsVersion, R.BlobsSameBut, R.OtherEntriesSame;
    var u := D.Apply(h, s, c);
    R.SnapshotLeaves(h, s, c);
    D.StepAgrees(h, s, c);
    D.StepKeepsVersions(h, s, c);
    LastWriteWins(b.sys.history, Write(Snapshot(c.freshVersion), x, b.sys.now));
    MoreVersions(s, u, c.id, c.freshVersion, x);
    RowBlobsSame(h, s, u);
    RowsAsBefore(b, s, t, u);
    VersionsMore(b, s, t, u, c.id, c.freshVersion, s.rows[c.id].contentHash, x);
    CacheFilled(b, s, t, u, c.id, entry);
  }

  lemma {:induction false} MoreVersions(s: D.State, u: D.State, id: string, vid: string, x: string)
    requires R.AddsVersion(s, u, id, vid, x)
    ensures |u.versions| > |s.versions|
  {
    hide CountOf;
  }

  /** A request that writes no row and only the blob of its new version. */
  lemma {:induction false} RowBlobsSame(h: Hash, s: D.State, u: D.State)
    requires D.Agree(h, s) && D.Agree(h, u) && u.rows == s.rows && |u.versions| > |s.versions|
    requires R.BlobsSameBut(s, u, {R.Added(s, u).contentKey})
    ensures forall d :: d in s.rows ==>
      s.rows[d].contentKey in s.blobs && s.rows[d].contentKey in u.blobs && u.blobs[s.rows[d].contentKey] == s.blobs[s.rows[d].contentKey]
  {
    forall d | d in s.rows
      ensures s.rows[d].contentKey in s.blobs && s.rows[d].contentKey in u.blobs && u.blobs[s.rows[d].contentKey] == s.blobs[s.rows[d].contentKey]
    {
      assert D.RowAgrees(h, s, d);
      VersionKeyApart(h, s, u, d, |s.versions|);
    }
  }

  lemma {:induction false} SameSyncRefines(h: Hash, b: Book, s: D.State, c: D.Call, rid: nat) returns (t: Book)
    requires Mirrors(b, s) && c.Sync? && D.Live(s, c.id) && h(c.content) == s.rows[c.id].contentHash
    requires Sees(b, rid, StartView(h, b, c.id, SyncSame))
    ensures Refines(h, b, rid, t, D.Apply(h, s, c))
  {
    assert D.Apply(h, s, c) == s;
    hide D.Apply, Sees, Alone, BlobAfter, VersionsMirror;
    t := SameRuns(h, b, rid, c.id);
    NothingNew(h, b, s, t, s);
    hide RowsMirror;
    SameCache(b, s, t, s);
  }

  /** A request that is not turned down and runs alone, call by call, from a state that mirrors agreeing
      stores ends in one that mirrors what the model of whole requests makes of them. */
  lemma {:induction false} RequestRefines(h: Hash, b: Book, s: D.State, c: D.Call, rid: nat) returns (b1: Book, t: Book)
    requires D.Agree(h, s) && D.FreshFor(s, c) && Mirrors(b, s) && HandlerOf(h, s, c).Some?
    requires Allowed(b, Begin(rid, IdOf(c), HandlerOf(h, s, c).value))
    ensures b1 == NextBook(h, b, Begin(rid, IdOf(c), HandlerOf(h, s, c).value)) && Refines(h, b1, rid, t, D.Apply(h, s, c))
  {
    hide D.Apply, D.Agree, D.FreshFor, Mirrors, Sees, Refines, NextBook, Allowed, StartView;
    b1 := Begins(h, b, s, rid, IdOf(c), HandlerOf(h, s, c).value);
    match c
    case Create(_, _, _, _, _, _) => t := CreateRefines(h, b1, s, c, rid);
    case GetContent(_) => t := ReadRefines(h, b1, s, c, rid);
    case Update(_, _, _, content) =>
      if content.Some? && h(content.value) != s.rows[c.id].contentHash { t := UpdateRefines(h, b1, s, c, rid); }
      else { t := OtherUpdateRefines(h, b1, s, c, rid); }
    case Delete(_) => t := DeleteRefines(h, b1, s, c, rid);
    case Sync(_, _, _, _, _, _) =>
      if h(c.content) == s.rows[c.id].contentHash { t := SameSyncRefines(h, b1, s, c, rid); } else { t := SyncRefines(h, b1, s, c, rid); }
    case SyncNew(_, _, _, _, _, _) => t := SyncNewRefines(h, b1, s, c, rid);
    case CreateVersion(_, _, _, _) => t := SnapshotRefines(h, b1, s, c, rid);
    case RestoreVersion(_, _, _, _) =>
      var i :| 0 <= i < |s.versions| && s.versions[i].id == c.versionId;
      t := RestoreRefines(h, b1, s, c, i, rid);
  }

  /** A request that is turned down changes nothing. */
  lemma {:induction false} TurnedDown(h: Hash, s: D.State, c: D.Call)
    requires D.Agree(h, s) && D.FreshFor(s, c) && HandlerOf(h, s, c).None? && !c.Expire?
    ensures D.Apply(h, s, c) == s
  {
    match c
    case Create(_, _, _, _, _, _) => R.CreateLeaves(h, s, c);
    case GetContent(id) => D.ReadIsCurrent(h, s, id);
    case Update(_, _, _, _) => R.UpdateLeaves(h, s, c);
    case Sync(_, _, _, _, _, _) => R.SyncLeaves(h, s, c);
    case SyncNew(_, _, _, _, _, _) => R.SyncNewLeaves(h, s, c);
    case CreateVersion(_, _, _, _) => R.SnapshotLeaves(h, s, c);
    case RestoreVersion(_, id, _, _) => if D.Live(s, id) { R.RestoreOfNothing(h, s, c); }
    case _ =>
  }
}
