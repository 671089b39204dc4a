/** Diagram requests running at the same time, with calls that may fail.

    A request is the list of store, storage and cache calls it still has to make, in the
    order of its handler. Steps of different requests mix freely, any request may fail or
    die at any point, and cache entries may be evicted early. `gotAt`, `upTo` and the
    history of writes are bookkeeping: they say which moment a content comes from. */
module DiagramInterleaving {
  import opened Text

  type Time = nat

  /** One hour, in milliseconds. */
  const TTL: nat := 3_600_000

  datatype Key = Current(id: string) | Snapshot(version: string)

  datatype Write = Write(key: Key, content: string, at: Time)

  /** Content with the moment at which it was the blob under a key: time `gotAt`, after the
      first `upTo` writes. */
  datatype Held = Held(key: Key, content: string, gotAt: Time, upTo: nat)

  datatype Entry = Entry(held: Held, setAt: Time)

  datatype Op =
    | LoadRow
    | LookCache(skip: nat)
    | FetchCurrent
    | Fill
    | Drop
    | Put(content: string)
    | PutHeld
    | FetchVersion(version: string)
    | PutVersion(version: string)
    | SaveRow
    | CountVersions
    | InsertVersion

  datatype Request = Request(id: string, todo: seq<Op>, held: Option<Held>)

  datatype Served = Served(id: string, held: Held, setAt: Time, servedAt: Time)

  datatype System = System(
    now: Time,
    history: seq<Write>,
    cache: map<string, Entry>,
    active: map<nat, Request>,
    served: seq<Served>)

  // ---------- The handlers as lists of calls ----------

  datatype Handler =
    | GetContent
    | GetWithContent
    | Create(content: string, version: string)
    | UpdateContent(content: string)
    | UpdateOther
    | Sync(content: string, version: string)
    | SyncSame
    | SyncNew(content: string, version: string)
    | CreateVersion(version: string)
    | RestoreVersion(source: string, version: string)
    | Delete

  function Calls(h: Handler): seq<Op> {
    match h
    case GetContent => [LookCache(3), LoadRow, FetchCurrent, Fill]
    case GetWithContent => [LoadRow, LookCache(2), FetchCurrent, Fill]
    case Create(c, v) => [Put(c), SaveRow, PutVersion(v), InsertVersion, Fill]
    case UpdateContent(c) => [LoadRow, Put(c), Drop, SaveRow]
    case UpdateOther => [LoadRow, SaveRow]
    case Sync(c, v) => [LoadRow, Put(c), SaveRow, Drop, CountVersions, PutVersion(v), InsertVersion]
    case SyncSame => [LoadRow]
    case SyncNew(c, v) => [Put(c), SaveRow, PutVersion(v), InsertVersion]
    case CreateVersion(v) => [LoadRow, LookCache(2), FetchCurrent, Fill, CountVersions, PutVersion(v), InsertVersion]
    case RestoreVersion(o, v) =>
      [LoadRow, LoadRow, FetchVersion(o), PutHeld, SaveRow, CountVersions, PutVersion(v), InsertVersion, Drop]
    case Delete => [SaveRow, Drop]
  }

  // ---------- Steps ----------

  /** The content under a key after some writes. */
  function BlobAfter(ws: seq<Write>, key: Key): Option<string> {
    if ws == [] then None
    else if ws[|ws| - 1].key == key then Some(ws[|ws| - 1].content)
    else BlobAfter(ws[..|ws| - 1], key)
  }

  /** Redis answers with an entry until its time to live is over. */
  predicate Hit(s: System, id: string) { id in s.cache && s.now < s.cache[id].setAt + TTL }

  /** The calls whose failure a handler ignores. */
  predicate Ignorable(op: Op) {
    op.LookCache? || op.Fill? || op.Drop? || op.CountVersions? || op.PutVersion? || op.InsertVersion?
  }

  datatype Step =
    | Tick(ms: nat)
    | Evict(id: string)
    | Begin(rid: nat, id: string, handler: Handler)
    | Call(rid: nat)
    | CallIgnored(rid: nat)
    | Die(rid: nat)

  function Continue(s: System, rid: nat, r: Request): System { s.(active := s.active[rid := r]) }

  /** A call that succeeds. */
  function Do(s: System, rid: nat, r: Request): System
    requires r.todo != []
  {
    var rest := r.todo[1..];
    var here := Current(r.id);
    match r.todo[0]
    case LookCache(skip) =>
      if Hit(s, r.id) then
        var e := s.cache[r.id];
        Continue(s, rid, Request(r.id, if skip <= |rest| then rest[skip..] else [], Some(e.held)))
          .(served := s.served + [Served(r.id, e.held, e.setAt, s.now)])
      else Continue(s, rid, r.(todo := rest))
    case FetchCurrent =>
      var found := BlobAfter(s.history, here);
      if found.None? then Continue(s, rid, r.(todo := []))
      else Continue(s, rid, Request(r.id, rest, Some(Held(here, found.value, s.now, |s.history|))))
    case FetchVersion(v) =>
      var found := BlobAfter(s.history, Snapshot(v));
      if found.None? then Continue(s, rid, r.(todo := []))
      else Continue(s, rid, Request(r.id, rest, Some(Held(Snapshot(v), found.value, s.now, |s.history|))))
    case Fill =>
      if r.held.None? then Continue(s, rid, r.(todo := []))
      else Continue(s, rid, r.(todo := rest)).(cache := s.cache[r.id := Entry(r.held.value, s.now)])
    case Drop => Continue(s, rid, r.(todo := rest)).(cache := s.cache - {r.id})
    case Put(c) =>
      Continue(s, rid, Request(r.id, rest, Some(Held(here, c, s.now, |s.history| + 1))))
        .(history := s.history + [Write(here, c, s.now)])
    case PutHeld =>
      if r.held.None? then Continue(s, rid, r.(todo := []))
      else
        var c := r.held.value.content;
        Continue(s, rid, Request(r.id, rest, Some(Held(here, c, s.now, |s.history| + 1))))
          .(history := s.history + [Write(here, c, s.now)])
    case PutVersion(v) =>
      if r.held.None? then Continue(s, rid, r.(todo := []))
      else
        Continue(s, rid, r.(todo := rest))
          .(history := s.history + [Write(Snapshot(v), r.held.value.content, s.now)])
    case _ => Continue(s, rid, r.(todo := rest))
  }

  predicate Enabled(s: System, step: Step) {
    match step
    case Tick(_) => true
    case Evict(_) => true
    case Begin(rid, _, _) => rid !in s.active
    case Call(rid) => rid in s.active && s.active[rid].todo != []
    case CallIgnored(rid) => rid in s.active && s.active[rid].todo != [] && Ignorable(s.active[rid].todo[0])
    case Die(rid) => rid in s.active
  }

  function Next(s: System, step: Step): System
    requires Enabled(s, step)
  {
    match step
    case Tick(ms) => s.(now := s.now + ms)
    case Evict(id) => s.(cache := s.cache - {id})
    case Begin(rid, id, h) => Continue(s, rid, Request(id, Calls(h), None))
    case Call(rid) => Do(s, rid, s.active[rid])
    case CallIgnored(rid) => Continue(s, rid, s.active[rid].(todo := s.active[rid].todo[1..]))
    case Die(rid) => Continue(s, rid, s.active[rid].(todo := []))
  }

  const Start: System := System(0, [], map[], map[], [])

  /** The states along a run: each step is enabled where it is taken. */
  ghost predicate IsRun(states: seq<System>, steps: seq<Step>) {
    && |states| == |steps| + 1
    && states[0] == Start
    && forall i :: 0 <= i < |steps| ==> Enabled(states[i], steps[i]) && states[i + 1] == Next(states[i], steps[i])
  }

  ghost predicate Reachable(s: System) {
    exists states, steps :: IsRun(states, steps) && states[|steps|] == s
  }

  // ---------- Where contents come from ----------

  /** At time `gotAt` the blob under the key was this content. */
  ghost predicate Proven(ws: seq<Write>, h: Held) {
    && h.upTo <= |ws|
    && BlobAfter(ws[..h.upTo], h.key) == Some(h.content)
    && (forall i :: 0 <= i < h.upTo ==> ws[i].at <= h.gotAt)
    && (forall i :: h.upTo <= i < |ws| ==> h.gotAt <= ws[i].at)
  }

  /** With these calls left a request fills the cache only with content of its own diagram. */
  ghost predicate Safe(todo: seq<Op>, own: bool)
    decreases |todo|
  {
    todo != [] ==>
      match todo[0]
      case Fill => own && Safe(todo[1..], own)
      case FetchCurrent => Safe(todo[1..], true)
      case Put(_) => Safe(todo[1..], true)
      case PutHeld => Safe(todo[1..], true)
      case FetchVersion(_) => Safe(todo[1..], false)
      case LookCache(skip) => Safe(todo[1..], own) && (skip < |todo| ==> Safe(todo[skip + 1..], true))
      case _ => Safe(todo[1..], own)
  }

  ghost predicate RequestOk(s: System, r: Request) {
    && (r.held.Some? ==> Proven(s.history, r.held.value) && r.held.value.gotAt <= s.now)
    && Safe(r.todo, r.held.Some? && r.held.value.key == Current(r.id))
  }

  ghost predicate EntryOk(s: System, id: string)
    requires id in s.cache
  {
    var e := s.cache[id];
    e.held.key == Current(id) && Proven(s.history, e.held) && e.held.gotAt <= e.setAt <= s.now
  }

  /** What was served had been the diagram's content, and was younger than one hour plus the
      time between getting it and putting it into the cache. */
  ghost predicate ServedOk(s: System, r: Served) {
    && r.held.key == Current(r.id)
    && Proven(s.history, r.held)
    && r.held.gotAt <= r.setAt <= r.servedAt <= s.now
    && r.servedAt - r.held.gotAt < TTL + (r.setAt - r.held.gotAt)
  }

  ghost predicate Inv(s: System) {
    && (forall i :: 0 <= i < |s.history| ==> s.history[i].at <= s.now)
    && (forall id :: id in s.cache ==> EntryOk(s, id))
    && (forall rid :: rid in s.active ==> RequestOk(s, s.active[rid]))
    && (forall i :: 0 <= i < |s.served| ==> ServedOk(s, s.served[i]))
  }

  lemma {:induction false} ProvenAfterWrite(ws: seq<Write>, w: Write, h: Held)
    requires Proven(ws, h) && h.gotAt <= w.at
    ensures Proven(ws + [w], h)
  {
    assert (ws + [w])[..h.upTo] == ws[..h.upTo];
  }

  lemma {:induction false} WriteIsProven(ws: seq<Write>, w: Write)
    requires forall i :: 0 <= i < |ws| ==> ws[i].at <= w.at
    ensures Proven(ws + [w], Held(w.key, w.content, w.at, |ws| + 1))
  {
    assert (ws + [w])[..|ws| + 1] == ws + [w];
  }

  lemma {:induction false} FetchIsProven(ws: seq<Write>, key: Key, now: Time)
    requires forall i :: 0 <= i < |ws| ==> ws[i].at <= now
    requires BlobAfter(ws, key).Some?
    ensures Proven(ws, Held(key, BlobAfter(ws, key).value, now, |ws|))
  {
    assert ws[..|ws|] == ws;
  }

  /** One more write, at the present time, disturbs nothing. */
  lemma {:induction false} WriteKeeps(s: System, w: Write)
    requires Inv(s) && w.at == s.now
    ensures Inv(s.(history := s.history + [w]))
  {
    hide BlobAfter, Safe, Proven;
    var t := s.(history := s.history + [w]);
    forall id | id in t.cache ensures EntryOk(t, id) {
      assert EntryOk(s, id);
      ProvenAfterWrite(s.history, w, s.cache[id].held);
    }
    forall rid | rid in t.active ensures RequestOk(t, t.active[rid]) {
      assert RequestOk(s, s.active[rid]);
      if s.active[rid].held.Some? { ProvenAfterWrite(s.history, w, s.active[rid].held.value); }
    }
    forall i | 0 <= i < |t.served| ensures ServedOk(t, t.served[i]) {
      assert ServedOk(s, s.served[i]);
      ProvenAfterWrite(s.history, w, s.served[i].held);
    }
  }

  lemma {:induction false} ContinueKeeps(s: System, rid: nat, r: Request)
    requires Inv(s) && RequestOk(s, r)
    ensures Inv(Continue(s, rid, r))
  {
    hide BlobAfter, Safe, Proven;
    var t := Continue(s, rid, r);
    forall id | id in t.cache ensures EntryOk(t, id) { assert EntryOk(s, id); }
    forall x | x in t.active ensures RequestOk(t, t.active[x]) {
      if x != rid { assert RequestOk(s, s.active[x]); }
      assert RequestOk(s, t.active[x]);
    }
    forall i | 0 <= i < |t.served| ensures ServedOk(t, t.served[i]) { assert ServedOk(s, s.served[i]); }
  }

  lemma {:induction false} CacheKeeps(s: System, cache: map<string, Entry>)
    requires Inv(s) && forall id :: id in cache ==> EntryOk(s.(cache := cache), id)
    ensures Inv(s.(cache := cache))
  {
    hide BlobAfter, Safe, Proven;
    var t := s.(cache := cache);
    forall rid | rid in t.active ensures RequestOk(t, t.active[rid]) { assert RequestOk(s, s.active[rid]); }
    forall i | 0 <= i < |t.served| ensures ServedOk(t, t.served[i]) { assert ServedOk(s, s.served[i]); }
  }

  lemma {:induction false} DropKeeps(s: System, id: string)
    requires Inv(s)
    ensures Inv(s.(cache := s.cache - {id}))
  {
    hide BlobAfter, Safe, Proven;
    forall d | d in s.cache - {id} ensures EntryOk(s.(cache := s.cache - {id}), d) { assert EntryOk(s, d); }
    CacheKeeps(s, s.cache - {id});
  }

  lemma {:induction false} FillKeeps(s: System, id: string, h: Held)
    requires Inv(s) && h.key == Current(id) && Proven(s.history, h) && h.gotAt <= s.now
    ensures Inv(s.(cache := s.cache[id := Entry(h, s.now)]))
  {
    hide BlobAfter, Safe, Proven;
    var cache := s.cache[id := Entry(h, s.now)];
    forall d | d in cache ensures EntryOk(s.(cache := cache), d) {
      if d != id { assert EntryOk(s, d); }
    }
    CacheKeeps(s, cache);
  }

  lemma {:induction false} ServeKeeps(s: System, id: string)
    requires Inv(s) && Hit(s, id)
    ensures var e := s.cache[id]; Inv(s.(served := s.served + [Served(id, e.held, e.setAt, s.now)]))
  {
    hide BlobAfter, Safe, Proven;
    assert EntryOk(s, id);
    var e := s.cache[id];
    var t := s.(served := s.served + [Served(id, e.held, e.setAt, s.now)]);
    forall d | d in t.cache ensures EntryOk(t, d) { assert EntryOk(s, d); }
    forall rid | rid in t.active ensures RequestOk(t, t.active[rid]) { assert RequestOk(s, s.active[rid]); }
    forall i | 0 <= i < |t.served| ensures ServedOk(t, t.served[i]) {
      if i < |s.served| { assert ServedOk(s, s.served[i]); }
    }
  }

  lemma {:induction false} SafeOnceOwn(todo: seq<Op>)
    requires forall i :: 0 <= i < |todo| ==> !todo[i].FetchVersion?
    ensures Safe(todo, true)
    decreases |todo|
  {
    if todo != [] {
      SafeOnceOwn(todo[1..]);
      if todo[0].LookCache? && todo[0].skip < |todo| { SafeOnceOwn(todo[todo[0].skip + 1..]); }
    }
  }

  lemma {:induction false} SafeWithoutFill(todo: seq<Op>, own: bool)
    requires forall i :: 0 <= i < |todo| ==> !todo[i].Fill?
    ensures Safe(todo, own)
    decreases |todo|
  {
    if todo != [] {
      SafeWithoutFill(todo[1..], own);
      SafeWithoutFill(todo[1..], true);
      SafeWithoutFill(todo[1..], false);
      if todo[0].LookCache? && todo[0].skip < |todo| { SafeWithoutFill(todo[todo[0].skip + 1..], true); }
    }
  }

  lemma {:induction false} SafeFrom(op: Op, rest: seq<Op>)
    requires op.Put? || op.FetchCurrent? || op.LoadRow?
    requires Safe(rest, op.Put? || op.FetchCurrent?)
    ensures Safe([op] + rest, false)
  {
    assert ([op] + rest)[1..] == rest;
  }

  lemma {:induction false} SafeLook(skip: nat, rest: seq<Op>)
    requires Safe(rest, false) && (skip <= |rest| ==> Safe(rest[skip..], true))
    ensures Safe([LookCache(skip)] + rest, false)
  {
    var todo := [LookCache(skip)] + rest;
    assert todo[1..] == rest;
    if skip <= |rest| { assert todo[skip + 1..] == rest[skip..]; }
  }

  lemma {:induction false} HandlersAreSafe(h: Handler)
    ensures Safe(Calls(h), false)
  {
    hide Safe;
    match h
    case GetContent =>
      SafeOnceOwn([Fill]);
      SafeFrom(FetchCurrent, [Fill]);
      SafeFrom(LoadRow, [FetchCurrent] + [Fill]);
      var rest := [LoadRow] + ([FetchCurrent] + [Fill]);
      SafeOnceOwn(rest[3..]);
      SafeLook(3, rest);
      assert Calls(h) == [LookCache(3)] + rest;
    case GetWithContent =>
      var tail := [Fill];
      SafeReading(tail);
      assert Calls(h) == [LoadRow] + ([LookCache(2)] + ([FetchCurrent] + tail));
    case CreateVersion(v) =>
      var tail := [Fill, CountVersions, PutVersion(v), InsertVersion];
      SafeReading(tail);
      assert Calls(h) == [LoadRow] + ([LookCache(2)] + ([FetchCurrent] + tail));
    case Create(c, v) =>
      var tail := [SaveRow, PutVersion(v), InsertVersion, Fill];
      SafeOnceOwn(tail);
      SafeFrom(Put(c), tail);
      assert Calls(h) == [Put(c)] + tail;
    case _ => SafeWithoutFill(Calls(h), false);
  }

  lemma {:induction false} SafeReading(tail: seq<Op>)
    requires |tail| > 0 && forall i :: 0 <= i < |tail| ==> !tail[i].FetchVersion?
    ensures Safe([LoadRow] + ([LookCache(2)] + ([FetchCurrent] + tail)), false)
  {
    hide Safe;
    SafeOnceOwn(tail);
    SafeFrom(FetchCurrent, tail);
    var rest := [FetchCurrent] + tail;
    assert rest[2..] == tail[1..];
    SafeOnceOwn(tail[1..]);
    SafeLook(2, rest);
    SafeFrom(LoadRow, [LookCache(2)] + rest);
  }

  // ---------- The invariant ----------

  lemma {:induction false} BeginKeeps(s: System, rid: nat, id: string, h: Handler)
    requires Inv(s) && rid !in s.active
    ensures Inv(Next(s, Begin(rid, id, h)))
  {
    HandlersAreSafe(h);
    hide Calls, Safe, Proven, Inv;
    ContinueKeeps(s, rid, Request(id, Calls(h), None));
  }

  lemma {:induction false} TickKeeps(s: System, ms: nat)
    requires Inv(s)
    ensures Inv(s.(now := s.now + ms))
  {
    hide BlobAfter, Safe, Proven;
    var t := s.(now := s.now + ms);
    forall id | id in t.cache ensures EntryOk(t, id) { assert EntryOk(s, id); }
    forall rid | rid in t.active ensures RequestOk(t, t.active[rid]) { assert RequestOk(s, s.active[rid]); }
    forall i | 0 <= i < |t.served| ensures ServedOk(t, t.served[i]) { assert ServedOk(s, s.served[i]); }
  }

  lemma {:induction false} NothingLeftIsSafe(own: bool)
    ensures Safe([], own)
  {
  }

  /** What is left after the first call is safe, with what that call makes the request hold. */
  lemma {:induction false} SafeAfter(todo: seq<Op>, own: bool)
    requires todo != [] && Safe(todo, own)
    ensures match todo[0]
      case FetchCurrent => Safe(todo[1..], true)
      case Put(_) => Safe(todo[1..], true)
      case PutHeld => Safe(todo[1..], true)
      case FetchVersion(_) => Safe(todo[1..], false)
      case LookCache(skip) => Safe(todo[1..], own) && (skip <= |todo[1..]| ==> Safe(todo[1..][skip..], true))
      case Fill => own && Safe(todo[1..], own)
      case _ => Safe(todo[1..], own)
  {
    if todo[0].LookCache? && todo[0].skip <= |todo[1..]| {
      assert todo[1..][todo[0].skip..] == todo[todo[0].skip + 1..];
    }
  }

  lemma {:induction false} CallKeeps(s: System, rid: nat)
    requires Inv(s) && Enabled(s, Call(rid))
    ensures Inv(Next(s, Call(rid)))
  {
    var r := s.active[rid];
    assert RequestOk(s, r);
    SafeAfter(r.todo, r.held.Some? && r.held.value.key == Current(r.id));
    NothingLeftIsSafe(false);
    NothingLeftIsSafe(true);
    match r.todo[0]
    case LookCache(_) => LookKeeps(s, rid, r);
    case FetchCurrent => FetchKeeps(s, rid, r, Current(r.id));
    case FetchVersion(v) => FetchKeeps(s, rid, r, Snapshot(v));
    case Fill => FillCallKeeps(s, rid, r);
    case Drop => DropCallKeeps(s, rid, r);
    case Put(c) => PutKeeps(s, rid, r, c);
    case PutHeld => if r.held.Some? { PutKeeps(s, rid, r, r.held.value.content); } else { ContinueKeeps(s, rid, r.(todo := [])); }
    case PutVersion(v) => PutVersionKeeps(s, rid, r, v);
    case _ => ContinueKeeps(s, rid, r.(todo := r.todo[1..]));
  }

  ghost predicate Ready(s: System, rid: nat, r: Request) {
    && Inv(s) && rid in s.active && s.active[rid] == r && r.todo != [] && RequestOk(s, r)
    && Safe([], false) && Safe([], true)
  }

  lemma {:induction false} LookKeeps(s: System, rid: nat, r: Request)
    requires Ready(s, rid, r) && r.todo[0].LookCache?
    requires Safe(r.todo[1..], r.held.Some? && r.held.value.key == Current(r.id))
    requires r.todo[0].skip <= |r.todo[1..]| ==> Safe(r.todo[1..][r.todo[0].skip..], true)
    ensures Inv(Do(s, rid, r))
  {
    hide Safe, Proven, Inv;
    var rest := r.todo[1..];
    if Hit(s, r.id) {
      var e := s.cache[r.id];
      CachedIsProven(s, r.id);
      var skip := r.todo[0].skip;
      var t := s.(served := s.served + [Served(r.id, e.held, e.setAt, s.now)]);
      ServeKeeps(s, r.id);
      ContinueKeeps(t, rid, Request(r.id, if skip <= |rest| then rest[skip..] else [], Some(e.held)));
    } else {
      ContinueKeeps(s, rid, r.(todo := rest));
    }
  }

  lemma {:induction false} CachedIsProven(s: System, id: string)
    requires Inv(s) && id in s.cache
    ensures EntryOk(s, id)
  {
  }

  lemma {:induction false} HistoryIsPast(s: System)
    requires Inv(s)
    ensures forall i :: 0 <= i < |s.history| ==> s.history[i].at <= s.now
  {
  }

  lemma {:induction false} FetchKeeps(s: System, rid: nat, r: Request, key: Key)
    requires Ready(s, rid, r)
    requires (r.todo[0].FetchCurrent? && key == Current(r.id)) ||
             (r.todo[0].FetchVersion? && key == Snapshot(r.todo[0].version))
    requires Safe(r.todo[1..], key == Current(r.id))
    ensures Inv(Do(s, rid, r))
  {
    HistoryIsPast(s);
    hide Safe, Proven, Inv, BlobAfter;
    match BlobAfter(s.history, key)
    case None => ContinueKeeps(s, rid, r.(todo := []));
    case Some(c) =>
      FetchIsProven(s.history, key, s.now);
      ContinueKeeps(s, rid, Request(r.id, r.todo[1..], Some(Held(key, c, s.now, |s.history|))));
  }

  lemma {:induction false} FillCallKeeps(s: System, rid: nat, r: Request)
    requires Ready(s, rid, r) && r.todo[0].Fill?
    requires r.held.Some? && r.held.value.key == Current(r.id) && Safe(r.todo[1..], true)
    ensures Inv(Do(s, rid, r))
  {
    hide Safe, Proven, Inv;
    var t := Continue(s, rid, r.(todo := r.todo[1..]));
    ContinueKeeps(s, rid, r.(todo := r.todo[1..]));
    FillKeeps(t, r.id, r.held.value);
  }

  lemma {:induction false} DropCallKeeps(s: System, rid: nat, r: Request)
    requires Ready(s, rid, r) && r.todo[0].Drop?
    requires Safe(r.todo[1..], r.held.Some? && r.held.value.key == Current(r.id))
    ensures Inv(Do(s, rid, r))
  {
    hide Safe, Proven, Inv;
    var t := Continue(s, rid, r.(todo := r.todo[1..]));
    ContinueKeeps(s, rid, r.(todo := r.todo[1..]));
    DropKeeps(t, r.id);
  }

  lemma {:induction false} PutKeeps(s: System, rid: nat, r: Request, c: string)
    requires Ready(s, rid, r) && Safe(r.todo[1..], true)
    requires r.todo[0] == Put(c) || (r.todo[0].PutHeld? && r.held.Some? && c == r.held.value.content)
    ensures Inv(Do(s, rid, r))
  {
    HistoryIsPast(s);
    hide Safe, Proven, Inv;
    var w := Write(Current(r.id), c, s.now);
    var t := s.(history := s.history + [w]);
    WriteKeeps(s, w);
    WriteIsProven(s.history, w);
    ContinueKeeps(t, rid, Request(r.id, r.todo[1..], Some(Held(Current(r.id), c, s.now, |s.history| + 1))));
  }

  lemma {:induction false} PutVersionKeeps(s: System, rid: nat, r: Request, v: string)
    requires Ready(s, rid, r) && r.todo[0] == PutVersion(v)
    requires Safe(r.todo[1..], r.held.Some? && r.held.value.key == Current(r.id))
    ensures Inv(Do(s, rid, r))
  {
    hide Safe, Proven, Inv;
    if r.held.None? {
      ContinueKeeps(s, rid, r.(todo := []));
    } else {
      var w := Write(Snapshot(v), r.held.value.content, s.now);
      WriteKeeps(s, w);
      ProvenAfterWrite(s.history, w, r.held.value);
      ContinueKeeps(s.(history := s.history + [w]), rid, r.(todo := r.todo[1..]));
    }
  }

  lemma {:induction false} StepKeeps(s: System, step: Step)
    requires Inv(s) && Enabled(s, step)
    ensures Inv(Next(s, step))
  {
    match step
    case Tick(ms) => TickKeeps(s, ms);
    case Evict(id) => DropKeeps(s, id);
    case Begin(rid, id, h) => BeginKeeps(s, rid, id, h);
    case Call(rid) => CallKeeps(s, rid);
    case CallIgnored(rid) =>
      var r := s.active[rid];
      assert RequestOk(s, r);
      SafeAfter(r.todo, r.held.Some? && r.held.value.key == Current(r.id));
      ContinueKeeps(s, rid, r.(todo := r.todo[1..]));
    case Die(rid) =>
      var r := s.active[rid];
      assert RequestOk(s, r);
      ContinueKeeps(s, rid, r.(todo := []));
  }

  /** The invariant holds along every run. */
  lemma {:induction false} RunKeeps(states: seq<System>, steps: seq<Step>, i: nat)
    requires IsRun(states, steps) && i < |states|
    ensures Inv(states[i])
  {
    if i > 0 {
      RunKeeps(states, steps, i - 1);
      assert Enabled(states[i - 1], steps[i - 1]) && states[i] == Next(states[i - 1], steps[i - 1]);
      StepKeeps(states[i - 1], steps[i - 1]);
    }
  }

  /** In every interleaving, whatever fails, content served from the cache had been the
      diagram's blob at an earlier moment, and that moment lies back less than one hour plus
      the time that passed between getting the content and caching it. */
  lemma {:induction false} ServedWasTheBlob(s: System, k: nat)
    requires Reachable(s) && k < |s.served|
    ensures var r := s.served[k];
      && r.held.upTo <= |s.history|
      && BlobAfter(s.history[..r.held.upTo], Current(r.id)) == Some(r.held.content)
      && (forall j :: 0 <= j < r.held.upTo ==> s.history[j].at <= r.held.gotAt)
      && (forall j :: r.held.upTo <= j < |s.history| ==> r.held.gotAt <= s.history[j].at)
      && r.held.gotAt <= r.setAt <= r.servedAt
      && r.servedAt - r.held.gotAt < 3_600_000 + (r.setAt - r.held.gotAt)
  {
    var states, steps :| IsRun(states, steps) && states[|steps|] == s;
    RunKeeps(states, steps, |steps|);
    assert ServedOk(s, s.served[k]);
  }

  // ---------- What interleaving breaks ----------

  lemma {:induction false} ReachNext(s: System, step: Step)
    requires Reachable(s) && Enabled(s, step)
    ensures Reachable(Next(s, step))
  {
    hide Next, Enabled;
    var states, steps :| IsRun(states, steps) && states[|steps|] == s;
    var t := Next(s, step);
    assert IsRun(states + [t], steps + [step]) by {
      forall i | 0 <= i < |steps + [step]|
        ensures Enabled((states + [t])[i], (steps + [step])[i])
        ensures (states + [t])[i + 1] == Next((states + [t])[i], (steps + [step])[i])
      {
        if i < |steps| { assert Enabled(states[i], steps[i]) && states[i + 1] == Next(states[i], steps[i]); }
      }
    }
    assert (states + [t])[|steps + [step]|] == t;
  }

  lemma {:induction false} StartIsReachable()
    ensures Reachable(Start)
  {
    assert IsRun([Start], []);
  }

  lemma {:induction false} CallTo(s: System, rid: nat, t: System)
    requires Reachable(s) && rid in s.active && s.active[rid].todo != []
    requires t == Do(s, rid, s.active[rid])
    ensures Reachable(t)
  {
    assert Enabled(s, Call(rid));
    assert Next(s, Call(rid)) == t;
    ReachNext(s, Call(rid));
  }

  lemma {:induction false} BeginTo(s: System, rid: nat, id: string, h: Handler, t: System)
    requires Reachable(s) && rid !in s.active
    requires t == Continue(s, rid, Request(id, Calls(h), None))
    ensures Reachable(t)
  {
    assert Next(s, Begin(rid, id, h)) == t;
    ReachNext(s, Begin(rid, id, h));
  }

  /** Only one request moved on. */
  ghost predicate Moved(s: System, t: System, rid: nat, r: Request) {
    && t.active.Keys == s.active.Keys + {rid} && t.active[rid] == r
    && t.now == s.now
    && forall x :: x in s.active && x != rid ==> t.active[x] == s.active[x]
  }

  ghost predicate At(s: System, rid: nat, op: Op, rest: seq<Op>) {
    Reachable(s) && rid in s.active && s.active[rid].todo == [op] + rest
  }

  lemma {:induction false} Pass(s: System, rid: nat, op: Op, rest: seq<Op>) returns (t: System)
    requires At(s, rid, op, rest)
    ensures Reachable(t) && t == Do(s, rid, s.active[rid]) && ([op] + rest)[1..] == rest
  {
    t := Do(s, rid, s.active[rid]);
    CallTo(s, rid, t);
  }

  lemma {:induction false} PassOver(s: System, rid: nat, op: Op, rest: seq<Op>) returns (t: System)
    requires At(s, rid, op, rest) && (op.LoadRow? || op.SaveRow? || op.InsertVersion?)
    ensures Reachable(t) && Moved(s, t, rid, s.active[rid].(todo := rest)) && t.cache == s.cache && t.history == s.history
  {
    t := Pass(s, rid, op, rest);
  }

  lemma {:induction false} PassPut(s: System, rid: nat, c: string, rest: seq<Op>) returns (t: System)
    requires At(s, rid, Put(c), rest)
    ensures var here := Current(s.active[rid].id);
      && Reachable(t) && t.cache == s.cache && t.history == s.history + [Write(here, c, s.now)]
      && Moved(s, t, rid, Request(s.active[rid].id, rest, Some(Held(here, c, s.now, |s.history| + 1))))
  {
    t := Pass(s, rid, Put(c), rest);
  }

  lemma {:induction false} PassPutVersion(s: System, rid: nat, v: string, rest: seq<Op>) returns (t: System)
    requires At(s, rid, PutVersion(v), rest) && s.active[rid].held.Some?
    ensures Reachable(t) && t.cache == s.cache && Moved(s, t, rid, s.active[rid].(todo := rest))
    ensures t.history == s.history + [Write(Snapshot(v), s.active[rid].held.value.content, s.now)]
  {
    t := Pass(s, rid, PutVersion(v), rest);
  }

  lemma {:induction false} PassDrop(s: System, rid: nat, rest: seq<Op>) returns (t: System)
    requires At(s, rid, Drop, rest)
    ensures Reachable(t) && Moved(s, t, rid, s.active[rid].(todo := rest))
    ensures t.cache == s.cache - {s.active[rid].id} && t.history == s.history
  {
    t := Pass(s, rid, Drop, rest);
  }

  lemma {:induction false} PassFill(s: System, rid: nat, rest: seq<Op>) returns (t: System)
    requires At(s, rid, Fill, rest) && s.active[rid].held.Some?
    ensures Reachable(t) && Moved(s, t, rid, s.active[rid].(todo := rest)) && t.history == s.history
    ensures t.cache == s.cache[s.active[rid].id := Entry(s.active[rid].held.value, s.now)]
  {
    t := Pass(s, rid, Fill, rest);
  }

  lemma {:induction false} Start4(s: System, rid: nat, id: string, h: Handler, a: Op, b: Op, c: Op, d: Op) returns (t: System)
    requires Reachable(s) && rid !in s.active && Calls(h) == [a, b, c, d]
    ensures At(t, rid, a, [b] + ([c] + ([d] + []))) && t.cache == s.cache && t.history == s.history
    ensures Moved(s, t, rid, t.active[rid]) && t.active[rid].id == id
  {
    t := Continue(s, rid, Request(id, Calls(h), None));
    BeginTo(s, rid, id, h, t);
    assert [a, b, c, d] == [a] + ([b] + ([c] + ([d] + [])));
  }

  lemma {:induction false} LastWriteWins(ws: seq<Write>, w: Write)
    ensures BlobAfter(ws + [w], w.key) == Some(w.content)
    ensures forall key :: key != w.key ==> BlobAfter(ws + [w], key) == BlobAfter(ws, key)
  {
    assert (ws + [w])[..|ws|] == ws;
  }

  lemma {:induction false} Uploaded(id: string, a: string, v: string) returns (s: System)
    ensures At(s, 1, PutVersion(v), [InsertVersion] + [])
    ensures s.cache == map[] && s.active.Keys == {1} && s.active[1].held.Some?
    ensures BlobAfter(s.history, Current(id)) == Some(a)
  {
    StartIsReachable();
    var rest := [PutVersion(v)] + ([InsertVersion] + []);
    var s0 := Start4(Start, 1, id, SyncNew(a, v), Put(a), SaveRow, PutVersion(v), InsertVersion);
    hide Reachable, Do, Calls, BlobAfter;
    var s1 := PassPut(s0, 1, a, [SaveRow] + rest);
    s := PassOver(s1, 1, SaveRow, rest);
    LastWriteWins(s0.history, Write(Current(id), a, s0.now));
  }

  lemma {:induction false} Created(id: string, a: string, v: string) returns (s: System)
    ensures Reachable(s) && s.cache == map[] && s.active.Keys == {1} && s.active[1].todo == []
    ensures BlobAfter(s.history, Current(id)) == Some(a)
  {
    var s2 := Uploaded(id, a, v);
    hide Reachable, Do, Calls, BlobAfter;
    var s3 := PassPutVersion(s2, 1, v, [InsertVersion] + []);
    s := PassOver(s3, 1, InsertVersion, []);
    LastWriteWins(s2.history, Write(Snapshot(v), s2.active[1].held.value.content, s2.now));
  }

  /** A reader that has missed the cache and downloaded the old content. */
  lemma {:induction false} Downloaded(id: string, a: string) returns (s: System)
    ensures Reachable(s) && s.cache == map[] && s.active.Keys == {1, 2} && s.active[1].todo == []
    ensures s.active[2].id == id && s.active[2].todo == [Fill]
    ensures s.active[2].held.Some? && s.active[2].held.value.content == a
  {
    var s0 := Created(id, a, id);
    var s1 := Continue(s0, 2, Request(id, Calls(GetContent), None));
    BeginTo(s0, 2, id, GetContent, s1);
    var s2 := Do(s1, 2, s1.active[2]);
    CallTo(s1, 2, s2);
    assert s2.active[2].todo == [LoadRow, FetchCurrent, Fill];
    var s3 := Do(s2, 2, s2.active[2]);
    CallTo(s2, 2, s3);
    assert s3.active[2].todo == [FetchCurrent, Fill];
    s := Do(s3, 2, s3.active[2]);
    CallTo(s3, 2, s);
  }

  /** Agreement of cache and blob, which sequential requests keep, is lost when an update runs
      between a reader's download and its write to the cache: afterwards every request has
      finished, and the cache holds the old content. */
  lemma {:induction false} CacheCanGoStale(id: string, a: string, b: string)
    requires a != b
    ensures exists s ::
      && Reachable(s)
      && (forall rid :: rid in s.active ==> s.active[rid].todo == [])
      && Hit(s, id) && s.cache[id].held.content == a
      && BlobAfter(s.history, Current(id)) == Some(b)
  {
    var s0 := Downloaded(id, a);
    var s := Overtaken(id, b, s0);
    assert Hit(s, id);
  }

  lemma {:induction false} Updated(id: string, b: string, s0: System) returns (s: System)
    requires Reachable(s0) && s0.cache == map[] && 3 !in s0.active
    ensures At(s, 3, Drop, [SaveRow] + []) && s.cache == map[] && Moved(s0, s, 3, s.active[3])
    ensures BlobAfter(s.history, Current(id)) == Some(b)
  {
    var s1 := Start4(s0, 3, id, UpdateContent(b), LoadRow, Put(b), Drop, SaveRow);
    hide Reachable, Do, Calls, BlobAfter;
    var rest := [Drop] + ([SaveRow] + []);
    var s2 := PassOver(s1, 3, LoadRow, [Put(b)] + rest);
    s := PassPut(s2, 3, b, rest);
    LastWriteWins(s2.history, Write(Current(id), b, s2.now));
  }

  lemma {:induction false} Overtaken(id: string, b: string, s0: System) returns (s: System)
    requires Reachable(s0) && s0.cache == map[] && s0.active.Keys == {1, 2} && s0.active[1].todo == []
    requires s0.active[2].id == id && s0.active[2].todo == [Fill] && s0.active[2].held.Some?
    ensures Reachable(s) && forall rid :: rid in s.active ==> s.active[rid].todo == []
    ensures s.cache == map[id := Entry(s0.active[2].held.value, s.now)]
    ensures BlobAfter(s.history, Current(id)) == Some(b)
  {
    var s3 := Updated(id, b, s0);
    var s5 := Finished(s3);
    hide Reachable, Do, Calls, BlobAfter;
    assert s5.active[2] == s0.active[2] && s5.active[1] == s0.active[1];
    assert [Fill] == [Fill] + [];
    s := PassFill(s5, 2, []);
    forall rid | rid in s.active ensures s.active[rid].todo == [] { assert rid in {1, 2, 3}; }
  }

  lemma {:induction false} Finished(s: System) returns (t: System)
    requires At(s, 3, Drop, [SaveRow] + []) && s.cache == map[]
    ensures Reachable(t) && 3 in t.active && Moved(s, t, 3, t.active[3]) && t.active[3].todo == []
    ensures t.cache == map[] && t.history == s.history
  {
    hide Reachable, Do, Calls, BlobAfter;
    var u := PassDrop(s, 3, [SaveRow] + []);
    t := PassOver(u, 3, SaveRow, []);
  }
}
