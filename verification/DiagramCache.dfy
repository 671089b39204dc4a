/** When the cache fits the current blob under interleaving. */
module DiagramCache {
  import opened Text
  import opened DiagramInterleaving

  // ---------- In one state ----------

  /** The last write under a key. */
  ghost predicate LastWrite(ws: seq<Write>, key: Key, j: nat) {
    j < |ws| && ws[j].key == key && forall i :: j < i < |ws| ==> ws[i].key != key
  }

  lemma {:induction false} BlobOfLast(ws: seq<Write>, key: Key, j: nat)
    requires LastWrite(ws, key, j)
    ensures BlobAfter(ws, key) == Some(ws[j].content)
  {
    if j < |ws| - 1 {
      assert LastWrite(ws[..|ws| - 1], key, j);
      BlobOfLast(ws[..|ws| - 1], key, j);
    }
  }

  /** Later writes to other keys do not matter. */
  lemma {:induction false} BlobWithout(ws: seq<Write>, key: Key, n: nat)
    requires n <= |ws| && forall i :: n <= i < |ws| ==> ws[i].key != key
    ensures BlobAfter(ws, key) == BlobAfter(ws[..n], key)
    decreases |ws|
  {
    if n == |ws| {
      assert ws[..n] == ws;
    } else {
      assert ws[..|ws| - 1][..n] == ws[..n];
      BlobWithout(ws[..|ws| - 1], key, n);
    }
  }

  lemma {:induction false} WriteSince(ws: seq<Write>, key: Key, n: nat) returns (j: nat)
    requires exists i :: n <= i < |ws| && ws[i].key == key
    ensures n <= j && LastWrite(ws, key, j)
  {
    if ws[|ws| - 1].key == key {
      j := |ws| - 1;
    } else {
      var i :| n <= i < |ws| && ws[i].key == key;
      assert ws[..|ws| - 1][i] == ws[i];
      j := WriteSince(ws[..|ws| - 1], key, n);
    }
  }

  /** Content taken at some moment is current exactly when the last write since, if there is one,
      wrote the same. */
  lemma {:induction false} StillCurrentIff(ws: seq<Write>, h: Held)
    requires Proven(ws, h)
    ensures BlobAfter(ws, h.key) == Some(h.content) <==>
      forall j: nat :: LastWrite(ws, h.key, j) && h.upTo <= j ==> ws[j].content == h.content
  {
    hide BlobAfter;
    forall j: nat | LastWrite(ws, h.key, j) ensures BlobAfter(ws, h.key) == Some(ws[j].content) { BlobOfLast(ws, h.key, j); }
    if exists i :: h.upTo <= i < |ws| && ws[i].key == h.key {
      var j := WriteSince(ws, h.key, h.upTo);
    } else {
      BlobWithout(ws, h.key, h.upTo);
    }
  }

  ghost predicate Fits(s: System, id: string)
    requires id in s.cache
  {
    BlobAfter(s.history, Current(id)) == Some(s.cache[id].held.content)
  }

  /** In every reachable state a cache entry fits the blob exactly when the last write to it after
      the moment that the entry comes from, if there is one, wrote the same content. */
  lemma {:induction false} FitsIff(s: System, id: string)
    requires Reachable(s) && id in s.cache
    ensures var held := s.cache[id].held;
      Fits(s, id) <==>
      forall j: nat :: LastWrite(s.history, Current(id), j) && held.upTo <= j ==> s.history[j].content == held.content
  {
    var states, steps :| IsRun(states, steps) && states[|steps|] == s;
    RunKeeps(states, steps, |steps|);
    assert EntryOk(s, id);
    StillCurrentIff(s.history, s.cache[id].held);
  }

  // ---------- Over runs ----------

  /** Calls that touch neither the cache nor the current blob. */
  predicate Aside(op: Op) { op.LoadRow? || op.SaveRow? || op.CountVersions? || op.PutVersion? || op.InsertVersion? }

  /** The next call that matters is the one that drops the cache entry. */
  predicate DropNext(todo: seq<Op>) { todo != [] && (todo[0].Drop? || (Aside(todo[0]) && DropNext(todo[1..]))) }

  ghost predicate Dropping(r: Request, id: string) { r.id == id && r.held.Some? && DropNext(r.todo) }

  ghost predicate DropPending(s: System, id: string) { exists rid :: rid in s.active && Dropping(s.active[rid], id) }

  /** Each entry fits, or some request is about to drop it. */
  ghost predicate FitsOrDropped(s: System) { forall id :: id in s.cache ==> Fits(s, id) || DropPending(s, id) }

  ghost predicate NothingStale(s: System, id: string) { id in s.cache ==> Fits(s, id) }

  /** A request writes the cache only with what is still current, and replaces the blob only when it
      goes on to drop the entry, or when there is none, or one with the new content; and no drop is
      missed, by failing or by the end of its request, while there is a stale entry. */
  ghost predicate Orderly(s: System, step: Step)
    requires Enabled(s, step)
  {
    match step
    case Call(rid) =>
      var r := s.active[rid];
      (match r.todo[0]
       case Fill => r.held.Some? ==> BlobAfter(s.history, Current(r.id)) == Some(r.held.value.content)
       case Put(c) => ReplacesWell(s, r, c)
       case PutHeld => r.held.Some? ==> ReplacesWell(s, r, r.held.value.content)
       case _ => true)
    case CallIgnored(rid) => s.active[rid].todo[0].Drop? ==> NothingStale(s, s.active[rid].id)
    case Die(rid) => DropNext(s.active[rid].todo) ==> NothingStale(s, s.active[rid].id)
    case _ => true
  }

  ghost predicate ReplacesWell(s: System, r: Request, c: string)
    requires r.todo != []
  {
    DropNext(r.todo[1..]) || (r.id in s.cache ==> s.cache[r.id].held.content == c)
  }

  lemma {:induction false} DropNextAside(op: Op, rest: seq<Op>)
    requires Aside(op)
    ensures DropNext([op] + rest) <==> DropNext(rest)
  {
    assert ([op] + rest)[1..] == rest;
  }

  lemma {:induction false} DropFirst(rest: seq<Op>)
    ensures DropNext([Drop] + rest) && !DropNext([Fill] + rest) && !DropNext([])
  {
  }

  /** What a handler that writes the current blob does after that. */
  function AfterPut(h: Handler): seq<Op> {
    match h
    case UpdateContent(_) => [Drop] + [SaveRow]
    case Sync(_, v) => [SaveRow] + ([Drop] + [CountVersions, PutVersion(v), InsertVersion])
    case RestoreVersion(_, v) => [SaveRow] + ([CountVersions] + ([PutVersion(v)] + ([InsertVersion] + ([Drop] + []))))
    case Create(_, v) => [SaveRow] + ([PutVersion(v)] + ([InsertVersion] + ([Fill] + [])))
    case SyncNew(_, v) => [SaveRow] + ([PutVersion(v)] + ([InsertVersion] + []))
    case _ => []
  }

  predicate Replaces(op: Op) { op.Put? || op.PutHeld? }

  lemma {:induction false} OnlyReplace(before: seq<Op>, op: Op, after: seq<Op>, k: nat)
    requires forall i :: 0 <= i < |before| ==> !Replaces(before[i])
    requires forall i :: 0 <= i < |after| ==> !Replaces(after[i])
    requires k < |before + [op] + after| && Replaces((before + [op] + after)[k])
    ensures (before + [op] + after)[k + 1..] == after
  {
    assert k == |before|;
  }

  lemma {:induction false} AfterUpdate(h: Handler, k: nat)
    requires h.UpdateContent? && k < |Calls(h)| && Replaces(Calls(h)[k])
    ensures Calls(h)[k + 1..] == AfterPut(h)
  {
    assert Calls(h) == [LoadRow] + [Put(h.content)] + AfterPut(h);
    OnlyReplace([LoadRow], Put(h.content), AfterPut(h), k);
  }

  lemma {:induction false} AfterSync(h: Handler, k: nat)
    requires h.Sync? && k < |Calls(h)| && Replaces(Calls(h)[k])
    ensures Calls(h)[k + 1..] == AfterPut(h)
  {
    assert Calls(h) == [LoadRow] + [Put(h.content)] + AfterPut(h);
    OnlyReplace([LoadRow], Put(h.content), AfterPut(h), k);
  }

  lemma {:induction false} AfterRestore(h: Handler, k: nat)
    requires h.RestoreVersion? && k < |Calls(h)| && Replaces(Calls(h)[k])
    ensures Calls(h)[k + 1..] == AfterPut(h)
  {
    assert Calls(h) == [LoadRow, LoadRow, FetchVersion(h.source)] + [PutHeld] + AfterPut(h);
    OnlyReplace([LoadRow, LoadRow, FetchVersion(h.source)], PutHeld, AfterPut(h), k);
  }

  lemma {:induction false} AfterCreate(h: Handler, k: nat)
    requires h.Create? && k < |Calls(h)| && Replaces(Calls(h)[k])
    ensures Calls(h)[k + 1..] == AfterPut(h)
  {
    assert Calls(h) == [] + [Put(h.content)] + AfterPut(h);
    OnlyReplace([], Put(h.content), AfterPut(h), k);
  }

  lemma {:induction false} AfterSyncNew(h: Handler, k: nat)
    requires h.SyncNew? && k < |Calls(h)| && Replaces(Calls(h)[k])
    ensures Calls(h)[k + 1..] == AfterPut(h)
  {
    assert Calls(h) == [] + [Put(h.content)] + AfterPut(h);
    OnlyReplace([], Put(h.content), AfterPut(h), k);
  }

  lemma {:induction false} AfterPutIs(h: Handler, k: nat)
    requires k < |Calls(h)| && Replaces(Calls(h)[k])
    ensures Calls(h)[k + 1..] == AfterPut(h)
    ensures h.UpdateContent? || h.Sync? || h.RestoreVersion? || h.Create? || h.SyncNew?
  {
    ReplacingHandlers(h, k);
    hide Calls, AfterPut;
    match h
    case UpdateContent(_) => AfterUpdate(h, k);
    case Sync(_, _) => AfterSync(h, k);
    case RestoreVersion(_, _) => AfterRestore(h, k);
    case Create(_, _) => AfterCreate(h, k);
    case SyncNew(_, _) => AfterSyncNew(h, k);
    case _ =>
  }

  lemma {:induction false} ReplacingHandlers(h: Handler, k: nat)
    requires k < |Calls(h)| && Replaces(Calls(h)[k])
    ensures h.UpdateContent? || h.Sync? || h.RestoreVersion? || h.Create? || h.SyncNew?
  {
  }

  /** Updates, syncs and restores go on to drop the entry; only the creating handlers do not. */
  lemma {:induction false} HandlersDrop(h: Handler, k: nat)
    requires k < |Calls(h)| && Replaces(Calls(h)[k])
    ensures DropNext(Calls(h)[k + 1..]) <==> !h.Create? && !h.SyncNew?
  {
    hide DropNext;
    AfterPutIs(h, k);
    hide Calls;
    DropFirst([]);
    match h
    case UpdateContent(_) => DropFirst([SaveRow]);
    case Sync(_, v) =>
      DropFirst([CountVersions, PutVersion(v), InsertVersion]);
      DropNextAside(SaveRow, [Drop] + [CountVersions, PutVersion(v), InsertVersion]);
    case RestoreVersion(_, v) =>
      SavesThen(v, [Drop] + []);
      DropNextAside(CountVersions, [PutVersion(v)] + ([InsertVersion] + ([Drop] + [])));
      DropNextAside(SaveRow, [CountVersions] + ([PutVersion(v)] + ([InsertVersion] + ([Drop] + []))));
    case Create(_, v) =>
      SavesThen(v, [Fill] + []);
      DropNextAside(SaveRow, [PutVersion(v)] + ([InsertVersion] + ([Fill] + [])));
    case SyncNew(_, v) =>
      SavesThen(v, []);
      DropNextAside(SaveRow, [PutVersion(v)] + ([InsertVersion] + []));
    case _ =>
  }

  lemma {:induction false} SavesThen(v: string, rest: seq<Op>)
    ensures DropNext([PutVersion(v)] + ([InsertVersion] + rest)) <==> DropNext(rest)
  {
    DropNextAside(InsertVersion, rest);
    DropNextAside(PutVersion(v), [InsertVersion] + rest);
  }

  /** One request moves on: entries of other diagrams are as they were, and its own diagram's entry
      fits, is gone, or is still to be dropped. */
  ghost predicate GoodMove(s: System, t: System, rid: nat) {
    && rid in s.active && rid in t.active && t.active == s.active[rid := t.active[rid]]
    && (forall id :: id in t.cache && id != s.active[rid].id ==>
          id in s.cache && t.cache[id] == s.cache[id] && BlobAfter(t.history, Current(id)) == BlobAfter(s.history, Current(id)))
    && t.active[rid].id == s.active[rid].id
  }

  lemma {:induction false} OthersStay(s: System, t: System, rid: nat, id: string)
    requires FitsOrDropped(s) && GoodMove(s, t, rid) && id in t.cache && id != s.active[rid].id
    ensures Fits(t, id) || DropPending(t, id)
  {
    hide BlobAfter, DropNext;
    if !Fits(s, id) {
      var x :| x in s.active && Dropping(s.active[x], id);
      assert t.active[x] == s.active[x];
    }
  }

  /** Its own diagram's entry is as before, and what was to be dropped still is. */
  lemma {:induction false} OwnStays(s: System, t: System, rid: nat, id: string)
    requires FitsOrDropped(s) && GoodMove(s, t, rid) && id == s.active[rid].id && id in t.cache
    requires id in s.cache && t.cache[id] == s.cache[id] && BlobAfter(t.history, Current(id)) == BlobAfter(s.history, Current(id))
    requires Fits(s, id) || (Dropping(s.active[rid], id) ==> Dropping(t.active[rid], id))
    ensures Fits(t, id) || DropPending(t, id)
  {
    hide BlobAfter, DropNext, Dropping;
    if !Fits(s, id) {
      var x :| x in s.active && Dropping(s.active[x], id);
      assert Dropping(t.active[x], id);
    }
  }

  lemma {:induction false} MoveKeeps(s: System, t: System, rid: nat)
    requires FitsOrDropped(s) && GoodMove(s, t, rid)
    requires var id := s.active[rid].id; id in t.cache ==> Fits(t, id) || DropPending(t, id)
    ensures FitsOrDropped(t)
  {
    var own := s.active[rid].id;
    hide GoodMove, Fits, DropPending;
    forall id | id in t.cache ensures Fits(t, id) || DropPending(t, id) {
      if id != own { OthersStay(s, t, rid, id); }
    }
  }

  /** A call that leaves cache and current blobs alone. */
  lemma {:induction false} AsideKeeps(s: System, t: System, rid: nat)
    requires FitsOrDropped(s) && rid in s.active && rid in t.active && t.active == s.active[rid := t.active[rid]]
    requires t.cache == s.cache && t.active[rid].id == s.active[rid].id
    requires forall id :: BlobAfter(t.history, Current(id)) == BlobAfter(s.history, Current(id))
    requires NothingStale(s, s.active[rid].id) || (Dropping(s.active[rid], s.active[rid].id) ==> Dropping(t.active[rid], s.active[rid].id))
    ensures FitsOrDropped(t)
  {
    hide BlobAfter, Dropping, DropPending;
    var id := s.active[rid].id;
    if id in t.cache { OwnStays(s, t, rid, id); }
    MoveKeeps(s, t, rid);
  }

  lemma {:induction false} CallKeepsFit(s: System, rid: nat)
    requires FitsOrDropped(s) && Enabled(s, Call(rid)) && Orderly(s, Call(rid))
    ensures FitsOrDropped(Next(s, Call(rid)))
  {
    var r := s.active[rid];
    var t := Next(s, Call(rid));
    hide BlobAfter, Hit;
    match r.todo[0]
    case Fill => if r.held.Some? { MoveKeeps(s, t, rid); } else { AsideKeeps(s, t, rid); }
    case Drop => MoveKeeps(s, t, rid);
    case Put(c) => PutKeepsFit(s, t, rid, c);
    case PutHeld => if r.held.Some? { PutKeepsFit(s, t, rid, r.held.value.content); } else { AsideKeeps(s, t, rid); }
    case PutVersion(v) =>
      if r.held.Some? { LastWriteWins(s.history, Write(Snapshot(v), r.held.value.content, s.now)); }
      AsideKeeps(s, t, rid);
    case _ => AsideKeeps(s, t, rid);
  }

  lemma {:induction false} PutKeepsFit(s: System, t: System, rid: nat, c: string)
    requires FitsOrDropped(s) && rid in s.active && s.active[rid].todo != [] && ReplacesWell(s, s.active[rid], c)
    requires var r := s.active[rid];
      var here := Current(r.id);
      && t.history == s.history + [Write(here, c, s.now)] && t.cache == s.cache
      && t.active == s.active[rid := Request(r.id, r.todo[1..], Some(Held(here, c, s.now, |s.history| + 1)))]
    ensures FitsOrDropped(t)
  {
    hide BlobAfter, DropNext;
    var r := s.active[rid];
    LastWriteWins(s.history, Write(Current(r.id), c, s.now));
    if DropNext(r.todo[1..]) { assert Dropping(t.active[rid], r.id); }
    MoveKeeps(s, t, rid);
  }

  lemma {:induction false} StepKeepsFit(s: System, step: Step)
    requires FitsOrDropped(s) && Enabled(s, step) && Orderly(s, step)
    ensures FitsOrDropped(Next(s, step))
  {
    hide BlobAfter, Do;
    var t := Next(s, step);
    match step
    case Tick(_) => SameRequests(s, t);
    case Evict(_) => SameRequests(s, t);
    case Begin(rid, id, h) => SameRequests(s, t);
    case Call(rid) => CallKeepsFit(s, rid);
    case CallIgnored(rid) => AsideKeeps(s, t, rid);
    case Die(rid) => AsideKeeps(s, t, rid);
  }

  lemma {:induction false} SameRequests(s: System, t: System)
    requires FitsOrDropped(s) && t.history == s.history
    requires forall rid :: rid in s.active ==> rid in t.active && t.active[rid] == s.active[rid]
    requires forall id :: id in t.cache ==> id in s.cache && t.cache[id] == s.cache[id]
    ensures FitsOrDropped(t)
  {
    hide BlobAfter, Dropping;
    forall id | id in t.cache ensures Fits(t, id) || DropPending(t, id) {
      if !Fits(s, id) {
        var rid :| rid in s.active && Dropping(s.active[rid], id);
        assert Dropping(t.active[rid], id);
      }
    }
  }

  ghost predicate OrderlyRun(states: seq<System>, steps: seq<Step>) {
    IsRun(states, steps) && forall i :: 0 <= i < |steps| ==> Orderly(states[i], steps[i])
  }

  lemma {:induction false} RunKeepsFit(states: seq<System>, steps: seq<Step>, i: nat)
    requires OrderlyRun(states, steps) && i < |states|
    ensures FitsOrDropped(states[i])
  {
    hide Next, Orderly, Enabled, FitsOrDropped;
    if i == 0 {
      StartFits();
    } else {
      RunKeepsFit(states, steps, i - 1);
      assert Orderly(states[i - 1], steps[i - 1]);
      StepKeepsFit(states[i - 1], steps[i - 1]);
    }
  }

  lemma {:induction false} StartFits()
    ensures FitsOrDropped(Start)
  {
  }

  /** In every interleaving of orderly steps, once all requests have finished, each cache entry is the
      current blob. */
  lemma {:induction false} FitsWhenQuiet(states: seq<System>, steps: seq<Step>, i: nat, id: string)
    requires OrderlyRun(states, steps) && i < |states| && id in states[i].cache
    requires forall rid :: rid in states[i].active ==> states[i].active[rid].todo == []
    ensures Fits(states[i], id)
  {
    RunKeepsFit(states, steps, i);
  }
}
