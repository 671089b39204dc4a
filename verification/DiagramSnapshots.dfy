/** Version blobs of diagrams under any interleaving: with fresh version ids they are written
    once. */
module DiagramSnapshots {
  import opened Text
  import opened DiagramInterleaving

  /** How often these calls write a version's blob. */
  function Puts(todo: seq<Op>, v: string): nat {
    if todo == [] then 0 else (if todo[0] == PutVersion(v) then 1 else 0) + Puts(todo[1..], v)
  }

  ghost predicate Written(ws: seq<Write>, v: string) { exists i :: 0 <= i < |ws| && ws[i].key == Snapshot(v) }

  /** No request is going to write the blob of this version. */
  ghost predicate NoWriter(s: System, v: string) { forall rid :: rid in s.active ==> Puts(s.active[rid].todo, v) == 0 }

  /** At most one request is, once, and none after the blob has been written. */
  ghost predicate OneWriter(s: System, v: string) {
    && (forall rid :: rid in s.active ==> Puts(s.active[rid].todo, v) <= 1)
    && (forall a, b :: a in s.active && b in s.active && a != b ==> Puts(s.active[a].todo, v) == 0 || Puts(s.active[b].todo, v) == 0)
    && (Written(s.history, v) ==> NoWriter(s, v))
  }

  /** The version id that a request makes up is new. */
  ghost predicate FreshStep(s: System, step: Step) {
    step.Begin? ==> forall v :: Puts(Calls(step.handler), v) > 0 ==> !Written(s.history, v) && NoWriter(s, v)
  }

  lemma {:induction false} PutsSuffix(todo: seq<Op>, k: nat, v: string)
    requires k <= |todo|
    ensures Puts(todo[k..], v) <= Puts(todo, v)
    decreases k
  {
    if k > 0 {
      assert todo[k..] == todo[1..][k - 1..];
      PutsSuffix(todo[1..], k - 1, v);
    } else {
      assert todo[k..] == todo;
    }
  }

  /** No handler writes a version's blob twice. */
  lemma {:induction false} HandlersPutOnce(h: Handler, v: string)
    ensures Puts(Calls(h), v) <= 1
  {
    match h
    case GetContent => PutsNone(Calls(h), v);
    case GetWithContent => PutsNone(Calls(h), v);
    case UpdateContent(_) => PutsNone(Calls(h), v);
    case UpdateOther => PutsNone(Calls(h), v);
    case SyncSame => PutsNone(Calls(h), v);
    case Delete => PutsNone(Calls(h), v);
    case Create(_, _) => PutsAt(Calls(h), 2, v);
    case Sync(_, _) => PutsAt(Calls(h), 5, v);
    case SyncNew(_, _) => PutsAt(Calls(h), 2, v);
    case CreateVersion(_) => PutsAt(Calls(h), 5, v);
    case RestoreVersion(_, _) => PutsAt(Calls(h), 6, v);
  }

  lemma {:induction false} PutsNone(todo: seq<Op>, v: string)
    requires forall i :: 0 <= i < |todo| ==> !todo[i].PutVersion?
    ensures Puts(todo, v) == 0
  {
    if todo != [] { PutsNone(todo[1..], v); }
  }

  lemma {:induction false} PutsAt(todo: seq<Op>, k: nat, v: string)
    requires forall i :: 0 <= i < |todo| && i != k ==> !todo[i].PutVersion?
    ensures Puts(todo, v) <= 1
    decreases |todo|
  {
    if todo != [] {
      if k == 0 { PutsNone(todo[1..], v); } else { PutsAt(todo[1..], k - 1, v); }
    }
  }

  /** One call takes calls off its own request only; a write to a version's blob is the call for
      it. */
  ghost predicate Shape(s: System, t: System, rid: nat, r: Request) {
    && rid in s.active && t.active == s.active[rid := r]
    && (exists k: nat :: k <= |s.active[rid].todo| && r.todo == s.active[rid].todo[k..])
    && (t.history == s.history || exists w :: t.history == s.history + [w] && WriteShape(s, rid, r, w))
  }

  ghost predicate WriteShape(s: System, rid: nat, r: Request, w: Write)
    requires rid in s.active
  {
    w.key.Snapshot? ==>
      s.active[rid].todo != [] && s.active[rid].todo[0] == PutVersion(w.key.version) && r.todo == s.active[rid].todo[1..]
  }

  lemma {:induction false} CallShape(s: System, rid: nat) returns (r: Request)
    requires Enabled(s, Call(rid))
    ensures Shape(s, Next(s, Call(rid)), rid, r)
  {
    hide BlobAfter, Hit;
    var t := Do(s, rid, s.active[rid]);
    r := t.active[rid];
    var todo := s.active[rid].todo;
    assert todo[|todo|..] == [];
    match todo[0]
    case LookCache(skip) => if skip <= |todo[1..]| { assert todo[1..][skip..] == todo[skip + 1..]; }
    case Put(c) => assert WriteShape(s, rid, r, Write(Current(s.active[rid].id), c, s.now));
    case PutHeld =>
      if s.active[rid].held.Some? { assert WriteShape(s, rid, r, Write(Current(s.active[rid].id), s.active[rid].held.value.content, s.now)); }
    case PutVersion(v) =>
      if s.active[rid].held.Some? { assert WriteShape(s, rid, r, Write(Snapshot(v), s.active[rid].held.value.content, s.now)); }
    case _ =>
  }

  lemma {:induction false} WrittenMore(ws: seq<Write>, w: Write, v: string)
    ensures Written(ws + [w], v) <==> Written(ws, v) || w.key == Snapshot(v)
  {
    if i :| 0 <= i < |ws| && ws[i].key == Snapshot(v) { assert (ws + [w])[i].key == Snapshot(v); }
    if w.key == Snapshot(v) { assert (ws + [w])[|ws|].key == Snapshot(v); }
  }

  lemma {:induction false} WrittenIff(ws: seq<Write>, v: string)
    ensures BlobAfter(ws, Snapshot(v)).Some? <==> Written(ws, v)
  {
    if ws != [] {
      var init, w := ws[..|ws| - 1], ws[|ws| - 1];
      WrittenIff(init, v);
      WrittenMore(init, w, v);
      assert init + [w] == ws;
    }
  }

  /** The blob of a version, if there is one, is the same. */
  ghost predicate SameBlob(s: System, t: System, v: string) {
    BlobAfter(s.history, Snapshot(v)).Some? ==> BlobAfter(t.history, Snapshot(v)) == BlobAfter(s.history, Snapshot(v))
  }

  ghost predicate FewerPuts(s: System, t: System, v: string) {
    t.active.Keys == s.active.Keys && forall x :: x in s.active ==> Puts(t.active[x].todo, v) <= Puts(s.active[x].todo, v)
  }

  lemma {:induction false} FewerKeep(s: System, t: System, v: string)
    requires OneWriter(s, v) && FewerPuts(s, t, v) && (Written(t.history, v) ==> Written(s.history, v))
    ensures OneWriter(t, v)
  {
    hide Puts, Written;
  }

  /** The one request that was going to write the blob has written it. */
  lemma {:induction false} WriterDone(s: System, t: System, rid: nat, v: string)
    requires OneWriter(s, v) && FewerPuts(s, t, v) && rid in s.active
    requires Puts(s.active[rid].todo, v) == 1 + Puts(t.active[rid].todo, v)
    ensures OneWriter(t, v) && !Written(s.history, v)
  {
    hide Puts, Written;
  }

  lemma {:induction false} ShapeKeeps(s: System, t: System, rid: nat, r: Request, v: string)
    requires OneWriter(s, v) && Shape(s, t, rid, r)
    ensures OneWriter(t, v) && SameBlob(s, t, v)
  {
    hide BlobAfter, Written, Puts, OneWriter;
    var todo := s.active[rid].todo;
    var k: nat :| k <= |todo| && r.todo == todo[k..];
    PutsSuffix(todo, k, v);
    assert FewerPuts(s, t, v);
    if t.history == s.history {
      FewerKeep(s, t, v);
    } else {
      hide FewerPuts;
      var w :| t.history == s.history + [w] && WriteShape(s, rid, r, w);
      WrittenMore(s.history, w, v);
      LastWriteWins(s.history, w);
      if w.key == Snapshot(v) {
        PutsHead(todo, v);
        WriterDone(s, t, rid, v);
        WrittenIff(s.history, v);
      } else {
        FewerKeep(s, t, v);
      }
    }
  }

  lemma {:induction false} PutsHead(todo: seq<Op>, v: string)
    requires todo != [] && todo[0] == PutVersion(v)
    ensures Puts(todo, v) == 1 + Puts(todo[1..], v)
  {
  }

  /** A step with fresh ids keeps the blobs of all versions. */
  lemma {:induction false} StepKeepsSnapshots(s: System, step: Step, v: string)
    requires OneWriter(s, v) && Enabled(s, step) && FreshStep(s, step)
    ensures OneWriter(Next(s, step), v) && SameBlob(s, Next(s, step), v)
  {
    hide BlobAfter, Puts, Written, Do;
    var t := Next(s, step);
    match step
    case Tick(_) =>
    case Evict(_) =>
    case Begin(rid, id, h) =>
      HandlersPutOnce(h, v);
      hide Calls;
    case Call(rid) =>
      var r := CallShape(s, rid);
      hide Shape;
      ShapeKeeps(s, t, rid, r, v);
    case CallIgnored(rid) =>
      var r := s.active[rid];
      assert r.todo[1..] == r.todo[1..];
      ShapeKeeps(s, t, rid, r.(todo := r.todo[1..]), v);
    case Die(rid) =>
      var r := s.active[rid];
      assert [] == r.todo[|r.todo|..];
      ShapeKeeps(s, t, rid, r.(todo := []), v);
  }

  ghost predicate FreshRun(states: seq<System>, steps: seq<Step>) {
    |states| == |steps| + 1 && forall i :: 0 <= i < |steps| ==> FreshStep(states[i], steps[i])
  }

  lemma {:induction false} RunHasOneWriter(states: seq<System>, steps: seq<Step>, i: nat, v: string)
    requires IsRun(states, steps) && FreshRun(states, steps) && i < |states|
    ensures OneWriter(states[i], v)
  {
    hide Next, Enabled, FreshStep;
    if i > 0 {
      RunHasOneWriter(states, steps, i - 1, v);
      assert Enabled(states[i - 1], steps[i - 1]) && states[i] == Next(states[i - 1], steps[i - 1]);
      assert FreshStep(states[i - 1], steps[i - 1]);
      StepKeepsSnapshots(states[i - 1], steps[i - 1], v);
    }
  }

  /** In every interleaving, whatever fails, the blob of a version never changes once it is there. */
  lemma {:induction false} SnapshotsNeverChange(states: seq<System>, steps: seq<Step>, i: nat, j: nat, v: string)
    requires IsRun(states, steps) && FreshRun(states, steps) && i <= j < |states|
    requires BlobAfter(states[i].history, Snapshot(v)).Some?
    ensures BlobAfter(states[j].history, Snapshot(v)) == BlobAfter(states[i].history, Snapshot(v))
    decreases j - i
  {
    hide Next, Enabled, FreshStep, OneWriter, BlobAfter;
    if i < j {
      SnapshotsNeverChange(states, steps, i, j - 1, v);
      RunHasOneWriter(states, steps, j - 1, v);
      assert Enabled(states[j - 1], steps[j - 1]) && states[j] == Next(states[j - 1], steps[j - 1]);
      assert FreshStep(states[j - 1], steps[j - 1]);
      StepKeepsSnapshots(states[j - 1], steps[j - 1], v);
    }
  }
}
