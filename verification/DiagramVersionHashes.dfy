/** Recorded hashes of diagrams and their versions under any interleaving.

    A request takes a content hash along: that of the content it was sent, or the one in a row that
    it has read. It writes this hash to the diagram's row and to the row of the version it makes. */
module DiagramVersionHashes {
  import opened Text
  import opened DiagramInterleaving
  import opened DiagramSnapshots

  type Hash = string -> string

  datatype Row = Row(hash: string, deleted: bool)

  /** The hash a request takes along, and the version whose blob it has written but not its row. */
  datatype Carry = Carry(handler: Handler, hash: string, made: Option<string>)

  /** The system with the hashes in diagram and version rows. */
  datatype Book = Book(sys: System, rows: map<string, Row>, versions: map<string, string>, carries: map<nat, Carry>)

  const Blank: Book := Book(Start, map[], map[], map[])

  /** The content that a request brings along. */
  function Sent(hd: Handler): Option<string> {
    match hd
    case Create(c, _) => Some(c)
    case UpdateContent(c) => Some(c)
    case Sync(c, _) => Some(c)
    case SyncNew(c, _) => Some(c)
    case _ => None
  }

  function OwnHash(h: Hash, hd: Handler): string { if Sent(hd).Some? then h(Sent(hd).value) else "" }

  /** A restore reads the version's row right before the version's blob. */
  predicate LoadsVersion(r: Request, hd: Handler) { hd.RestoreVersion? && |r.todo| > 1 && r.todo[1].FetchVersion? }

  /** The calls that succeed: a row that is read is there and live, one that is inserted is not
      there, and a request with content goes on only if the hash is new. */
  predicate Answered(b: Book, r: Request, c: Carry)
    requires r.todo != []
  {
    match r.todo[0]
    case LoadRow =>
      if LoadsVersion(r, c.handler) then c.handler.source in b.versions
      else r.id in b.rows && !b.rows[r.id].deleted && (Sent(c.handler).Some? ==> c.hash != b.rows[r.id].hash)
    case SaveRow => c.handler.Create? || c.handler.SyncNew? ==> r.id !in b.rows
    case _ => true
  }

  ghost predicate Allowed(b: Book, step: Step) {
    && Enabled(b.sys, step) && FreshStep(b.sys, step)
    && (step.Call? ==> step.rid in b.carries && Answered(b, b.sys.active[step.rid], b.carries[step.rid]))
  }

  function Saved(rows: map<string, Row>, id: string, c: Carry): map<string, Row> {
    match c.handler
    case Create(_, _) => rows[id := Row(c.hash, false)]
    case SyncNew(_, _) => rows[id := Row(c.hash, false)]
    case Delete => if id in rows then rows[id := rows[id].(deleted := true)] else rows
    case _ => if id in rows && !rows[id].deleted then rows[id := Row(c.hash, false)] else rows
  }

  /** What a call that succeeds records. */
  function Recorded(b: Book, rid: nat): Book
    requires rid in b.sys.active && rid in b.carries && b.sys.active[rid].todo != []
    requires Answered(b, b.sys.active[rid], b.carries[rid])
  {
    var r, c := b.sys.active[rid], b.carries[rid];
    match r.todo[0]
    case LoadRow =>
      if Sent(c.handler).Some? then b
      else if LoadsVersion(r, c.handler) then b.(carries := b.carries[rid := c.(hash := b.versions[c.handler.source])])
      else b.(carries := b.carries[rid := c.(hash := b.rows[r.id].hash)])
    case SaveRow => b.(rows := Saved(b.rows, r.id, c))
    case PutVersion(v) => if r.held.Some? then b.(carries := b.carries[rid := c.(made := Some(v))]) else b
    case InsertVersion =>
      if c.made.None? then b
      else b.(versions := b.versions[c.made.value := c.hash], carries := b.carries[rid := c.(made := None)])
    case _ => b
  }

  function NextBook(h: Hash, b: Book, step: Step): Book
    requires Allowed(b, step)
  {
    (match step
     case Begin(rid, _, hd) => b.(carries := b.carries[rid := Carry(hd, OwnHash(h, hd), None)])
     case Call(rid) => Recorded(b, rid)
     case _ => b).(sys := Next(b.sys, step))
  }

  ghost predicate IsBookRun(h: Hash, books: seq<Book>, steps: seq<Step>) {
    && |books| == |steps| + 1
    && books[0] == Blank
    && forall i :: 0 <= i < |steps| ==> Allowed(books[i], steps[i]) && books[i + 1] == NextBook(h, books[i], steps[i])
  }

  // ---------- The property and its condition ----------

  function VersionBlob(b: Book, v: string): Option<string> { BlobAfter(b.sys.history, Snapshot(v)) }

  /** The recorded hash is that of the version's blob. */
  ghost predicate VersionFits(h: Hash, b: Book, v: string)
    requires v in b.versions
  {
    VersionBlob(b, v).Some? && b.versions[v] == h(VersionBlob(b, v).value)
  }

  ghost predicate AllFit(h: Hash, b: Book) { forall v :: v in b.versions ==> VersionFits(h, b, v) }

  /** A request that snapshots the working copy records a hash that is that of the content it
      read. */
  ghost predicate Careful(h: Hash, b: Book, step: Step)
    requires Allowed(b, step)
  {
    step.Call? ==>
      var r, c := b.sys.active[step.rid], b.carries[step.rid];
      r.todo[0].InsertVersion? && c.handler.CreateVersion? && c.made.Some? ==> r.held.Some? && c.hash == h(r.held.value.content)
  }

  // ---------- How far a request has come ----------

  ghost predicate Holds(r: Request, x: string) { r.held.Some? && r.held.value.content == x }

  /** The calls left are the last ones of the handler. */
  ghost predicate Suffix(todo: seq<Op>, all: seq<Op>) { |todo| <= |all| && todo == all[|all| - |todo|..] }

  predicate Closing(op: Op) { op.InsertVersion? || op.Fill? || op.Drop? }

  ghost predicate Ending(todo: seq<Op>) { forall i :: 0 <= i < |todo| ==> Closing(todo[i]) }

  /** What a request that makes a version from other content than the working copy's has at hand,
      after so many calls. */
  ghost predicate StageOk(h: Hash, b: Book, r: Request, c: Carry) {
    match c.handler
    case Create(x, _) => c.hash == h(x) && (0 < |r.todo| < 5 ==> Holds(r, x))
    case SyncNew(x, _) => c.hash == h(x) && (0 < |r.todo| < 4 ==> Holds(r, x))
    case Sync(x, _) => c.hash == h(x) && (0 < |r.todo| < 6 ==> Holds(r, x))
    case RestoreVersion(o, _) =>
      && (0 < |r.todo| < 8 ==> o in b.versions && c.hash == b.versions[o])
      && (0 < |r.todo| < 7 ==> r.held.Some? && VersionBlob(b, o) == Some(r.held.value.content))
    case _ => true
  }

  ghost predicate MadeOk(b: Book, r: Request, c: Carry) {
    c.made.Some? ==>
      && Ending(r.todo) && r.held.Some?
      && VersionBlob(b, c.made.value) == Some(r.held.value.content)
      && c.made.value !in b.versions
  }

  ghost predicate Fine(h: Hash, b: Book, rid: nat)
    requires rid in b.sys.active && rid in b.carries
  {
    var r, c := b.sys.active[rid], b.carries[rid];
    Suffix(r.todo, Calls(c.handler)) && StageOk(h, b, r, c) && MadeOk(b, r, c)
  }

  ghost predicate Apart(b: Book) {
    forall x, y :: x in b.carries && y in b.carries && x != y && b.carries[x].made.Some? ==> b.carries[x].made != b.carries[y].made
  }

  ghost predicate BookOk(h: Hash, b: Book) {
    && b.carries.Keys == b.sys.active.Keys
    && (forall v :: OneWriter(b.sys, v))
    && (forall v :: v in b.versions ==> VersionBlob(b, v).Some?)
    && (forall rid :: rid in b.carries ==> Fine(h, b, rid))
    && Apart(b)
  }

  // ---------- One step ----------

  /** Blobs and recorded hashes of versions stay. */
  ghost predicate Grows(b: Book, t: Book) {
    && (forall v :: VersionBlob(b, v).Some? ==> VersionBlob(t, v) == VersionBlob(b, v))
    && (forall v :: v in b.versions ==> v in t.versions && t.versions[v] == b.versions[v])
  }

  /** The other requests are as fine as they were. */
  lemma {:induction false} OthersKeep(h: Hash, b: Book, t: Book, x: nat)
    requires x in b.sys.active && x in b.carries && Fine(h, b, x) && Grows(b, t)
    requires x in t.sys.active && t.sys.active[x] == b.sys.active[x] && x in t.carries && t.carries[x] == b.carries[x]
    requires b.carries[x].made.Some? ==> b.carries[x].made.value !in t.versions
    ensures Fine(h, t, x)
  {
    hide VersionBlob, Suffix, Ending, Calls;
  }

  lemma {:induction false} SuffixHead(todo: seq<Op>, all: seq<Op>)
    requires Suffix(todo, all) && todo != []
    ensures |todo| <= |all| && todo[0] == all[|all| - |todo|] && Suffix(todo[1..], all)
  {
    assert todo[1..] == all[|all| - |todo| + 1..];
  }

  lemma {:induction false} SuffixSkip(todo: seq<Op>, all: seq<Op>, k: nat)
    requires Suffix(todo, all) && k <= |todo|
    ensures Suffix(todo[k..], all)
  {
    assert todo[k..] == all[|all| - |todo| + k..];
  }

  lemma {:induction false} NoneLeft(all: seq<Op>)
    ensures Suffix([], all)
  {
  }

  lemma {:induction false} BlankIsOk(h: Hash)
    ensures BookOk(h, Blank) && AllFit(h, Blank)
  {
  }

  lemma {:induction false} ClosingAfter(hd: Handler, k: nat, i: nat)
    requires k < i < |Calls(hd)| && Calls(hd)[k].PutVersion?
    ensures Closing(Calls(hd)[i])
  {
  }

  /** What is left after the version's blob is written. */
  lemma {:induction false} EndingAfter(hd: Handler, todo: seq<Op>)
    requires Suffix(todo, Calls(hd)) && todo != [] && todo[0].PutVersion?
    ensures Ending(todo[1..])
  {
    hide Calls;
    var k := |Calls(hd)| - |todo|;
    forall i | 0 <= i < |todo[1..]| ensures Closing(todo[1..][i]) {
      ClosingAfter(hd, k, k + 1 + i);
    }
  }

  /** One call moves one request on; its calls left stay the last ones of its handler. */
  lemma {:induction false} CallMoves(h: Hash, b: Book, rid: nat) returns (t: Book)
    requires BookOk(h, b) && Allowed(b, Call(rid))
    ensures t == NextBook(h, b, Call(rid)) && t.sys == Do(b.sys, rid, b.sys.active[rid])
    ensures rid in t.sys.active && t.sys.active == b.sys.active[rid := t.sys.active[rid]]
    ensures rid in t.carries && t.carries == b.carries[rid := t.carries[rid]]
    ensures t.carries[rid].handler == b.carries[rid].handler
    ensures Suffix(t.sys.active[rid].todo, Calls(b.carries[rid].handler))
  {
    t := NextBook(h, b, Call(rid));
    var all := Calls(b.carries[rid].handler);
    assert Fine(h, b, rid);
    CallSuffix(b.sys, rid, all);
    OnlyOne(b.sys, rid);
    hide Calls, Do, Fine, OneWriter, Suffix, Apart, Recorded, Answered, FreshStep;
    OneRecords(b, rid);
  }

  lemma {:induction false} OneRecords(b: Book, rid: nat)
    requires rid in b.sys.active && rid in b.carries && b.sys.active[rid].todo != []
    requires Answered(b, b.sys.active[rid], b.carries[rid])
    ensures var t := Recorded(b, rid);
      && rid in t.carries && t.carries == b.carries[rid := t.carries[rid]]
      && t.carries[rid].handler == b.carries[rid].handler && t.sys == b.sys
  {
    hide Saved;
  }

  lemma {:induction false} OnlyOne(s: System, rid: nat)
    requires rid in s.active && s.active[rid].todo != []
    ensures var t := Do(s, rid, s.active[rid]); rid in t.active && t.active == s.active[rid := t.active[rid]]
  {
    hide BlobAfter, Hit;
  }

  lemma {:induction false} CallSuffix(s: System, rid: nat, all: seq<Op>)
    requires Enabled(s, Call(rid)) && Suffix(s.active[rid].todo, all)
    ensures Suffix(Do(s, rid, s.active[rid]).active[rid].todo, all)
  {
    var r := CallShape(s, rid);
    hide BlobAfter, Hit, Suffix, WriteShape;
    var k: nat :| k <= |s.active[rid].todo| && r.todo == s.active[rid].todo[k..];
    SuffixSkip(s.active[rid].todo, all, k);
  }

  predicate Reads(op: Op) { op.LookCache? || op.FetchCurrent? || op.FetchVersion? }

  /** What a request holds after one call. */
  lemma {:induction false} HeldAfter(s: System, rid: nat)
    requires rid in s.active && s.active[rid].todo != []
    ensures var r := s.active[rid];
      var q := Do(s, rid, r).active[rid];
      var op := r.todo[0];
      && (op.Put? ==> Holds(q, op.content))
      && (op.FetchVersion? && q.todo != [] ==> q.held.Some? && BlobAfter(s.history, Snapshot(op.version)) == Some(q.held.value.content))
      && (op.PutHeld? && r.held.Some? ==> Holds(q, r.held.value.content))
      && (!op.Put? && !op.PutHeld? && !Reads(op) ==> q.held == r.held)
      && (!op.LookCache? && q.todo != [] ==> |q.todo| == |r.todo| - 1)
  {
    hide BlobAfter, Hit;
  }

  /** The hash a request has after one call. */
  lemma {:induction false} HashAfter(b: Book, rid: nat)
    requires rid in b.sys.active && rid in b.carries && b.sys.active[rid].todo != []
    requires Answered(b, b.sys.active[rid], b.carries[rid])
    ensures var r, c := b.sys.active[rid], b.carries[rid];
      var t := Recorded(b, rid);
      && rid in t.carries
      && (!r.todo[0].LoadRow? || Sent(c.handler).Some? ==> t.carries[rid].hash == c.hash)
      && (r.todo[0].LoadRow? && LoadsVersion(r, c.handler) ==>
            c.handler.source in b.versions && t.carries[rid].hash == b.versions[c.handler.source])
  {
    hide Saved;
  }

  /** The requests that bring their content along. */
  lemma {:induction false} SentStage(h: Hash, b: Book, t: Book, r: Request, q: Request, c: Carry, d: Carry)
    requires Suffix(r.todo, Calls(c.handler)) && r.todo != [] && StageOk(h, b, r, c)
    requires c.handler.Create? || c.handler.Sync? || c.handler.SyncNew?
    requires d.handler == c.handler && d.hash == c.hash
    requires var op := r.todo[0];
      && (op.Put? ==> Holds(q, op.content))
      && (!op.Put? && !op.PutHeld? && !Reads(op) ==> q.held == r.held)
      && (!op.LookCache? && q.todo != [] ==> |q.todo| == |r.todo| - 1)
    ensures StageOk(h, t, q, d)
  {
    SuffixHead(r.todo, Calls(c.handler));
    hide Suffix, VersionBlob;
  }

  lemma {:induction false} RestoreCalls(hd: Handler, k: nat)
    requires hd.RestoreVersion? && k < |Calls(hd)|
    ensures |Calls(hd)| == 9
    ensures var op := Calls(hd)[k];
      && !op.LookCache? && !op.Put? && !op.FetchCurrent?
      && (op.LoadRow? ==> k < 2) && (op.FetchVersion? <==> k == 2) && (op.PutHeld? ==> k == 3)
      && (k == 1 ==> op.LoadRow?) && (k == 2 ==> op.version == hd.source)
  {
  }

  lemma {:induction false} RestoreOps(hd: Handler, todo: seq<Op>)
    requires hd.RestoreVersion? && Suffix(todo, Calls(hd)) && todo != []
    ensures |todo| <= 9 && !todo[0].LookCache? && !todo[0].Put? && !todo[0].FetchCurrent?
    ensures |todo| == 8 ==> todo[0].LoadRow? && todo[1].FetchVersion?
    ensures |todo| == 7 <==> todo[0].FetchVersion?
    ensures |todo| == 7 ==> todo[0].version == hd.source
    ensures todo[0].LoadRow? ==> |todo| >= 8
    ensures todo[0].PutHeld? ==> |todo| == 6
  {
    hide Calls, Suffix;
    var all := Calls(hd);
    SuffixHead(todo, all);
    RestoreCalls(hd, |all| - |todo|);
    if |todo| == 8 {
      SuffixHead(todo[1..], all);
      assert todo[1..][0] == all[2];
      RestoreCalls(hd, 2);
    }
  }

  lemma {:induction false} RestoreStage(h: Hash, b: Book, t: Book, r: Request, q: Request, c: Carry, d: Carry)
    requires Suffix(r.todo, Calls(c.handler)) && r.todo != [] && StageOk(h, b, r, c) && Grows(b, t)
    requires c.handler.RestoreVersion? && d.handler == c.handler
    requires !r.todo[0].LoadRow? ==> d.hash == c.hash
    requires r.todo[0].LoadRow? && LoadsVersion(r, c.handler) ==> c.handler.source in b.versions && d.hash == b.versions[c.handler.source]
    requires var op := r.todo[0];
      && (op.FetchVersion? && q.todo != [] ==> q.held.Some? && VersionBlob(b, op.version) == Some(q.held.value.content))
      && (op.PutHeld? && r.held.Some? ==> Holds(q, r.held.value.content))
      && (!op.Put? && !op.PutHeld? && !Reads(op) ==> q.held == r.held)
      && (!op.LookCache? && q.todo != [] ==> |q.todo| == |r.todo| - 1)
    ensures StageOk(h, t, q, d)
  {
    RestoreOps(c.handler, r.todo);
    hide Suffix, VersionBlob, Calls;
  }

  lemma {:induction false} ActsStage(h: Hash, b: Book, t: Book, rid: nat)
    requires BookOk(h, b) && Allowed(b, Call(rid)) && t == NextBook(h, b, Call(rid)) && Grows(b, t)
    requires rid in t.sys.active && rid in t.carries && t.carries[rid].handler == b.carries[rid].handler
    ensures StageOk(h, t, t.sys.active[rid], t.carries[rid])
  {
    assert Fine(h, b, rid);
    hide BookOk, FreshStep, OneWriter;
    HeldAfter(b.sys, rid);
    HashAfter(b, rid);
    hide Do, Recorded, Answered, StageOk, MadeOk, Calls, Suffix, Grows;
    var r, q, c, d := b.sys.active[rid], t.sys.active[rid], b.carries[rid], t.carries[rid];
    if c.handler.RestoreVersion? {
      RestoreStage(h, b, t, r, q, c, d);
    } else if c.handler.Create? || c.handler.Sync? || c.handler.SyncNew? {
      SentStage(h, b, t, r, q, c, d);
    } else {
      NoStage(h, t, q, d);
    }
  }

  lemma {:induction false} NoStage(h: Hash, t: Book, q: Request, d: Carry)
    requires !d.handler.Create? && !d.handler.Sync? && !d.handler.SyncNew? && !d.handler.RestoreVersion?
    ensures StageOk(h, t, q, d)
  {
  }

  /** Before its own write, no blob of a version that a request is going to write is there. */
  lemma {:induction false} NotYetWritten(b: Book, rid: nat, v: string)
    requires OneWriter(b.sys, v) && rid in b.sys.active
    requires b.sys.active[rid].todo != [] && b.sys.active[rid].todo[0] == PutVersion(v)
    ensures VersionBlob(b, v) == None
  {
    hide BlobAfter;
    PutsHead(b.sys.active[rid].todo, v);
    WrittenIff(b.sys.history, v);
    hide Written, Puts;
  }

  lemma {:induction false} BlobWritten(s: System, rid: nat, v: string)
    requires rid in s.active && s.active[rid].todo != [] && s.active[rid].todo[0] == PutVersion(v) && s.active[rid].held.Some?
    ensures BlobAfter(Do(s, rid, s.active[rid]).history, Snapshot(v)) == Some(s.active[rid].held.value.content)
  {
    hide BlobAfter;
    LastWriteWins(s.history, Write(Snapshot(v), s.active[rid].held.value.content, s.now));
  }

  /** Whose versions and made versions change in one call. */
  lemma {:induction false} MadeAfter(h: Hash, b: Book, rid: nat, t: Book)
    requires rid in b.carries && Allowed(b, Call(rid)) && t == NextBook(h, b, Call(rid))
    ensures rid in t.carries && rid in b.sys.active && b.sys.active[rid].todo != []
    ensures t.sys == Do(b.sys, rid, b.sys.active[rid])
    ensures var r, c := b.sys.active[rid], b.carries[rid];
      && (r.todo[0].PutVersion? && r.held.Some? ==> t.carries[rid].made == Some(r.todo[0].version) && t.versions == b.versions)
      && (r.todo[0].InsertVersion? && c.made.Some? ==> t.carries[rid].made == None && t.versions == b.versions[c.made.value := c.hash])
      && (!(r.todo[0].PutVersion? && r.held.Some?) && !(r.todo[0].InsertVersion? && c.made.Some?) ==>
            t.carries[rid].made == c.made && t.versions == b.versions)
  {
    hide Saved, Do, FreshStep;
  }

  lemma {:induction false} AllMade(h: Hash, b: Book)
    requires BookOk(h, b)
    ensures forall x :: x in b.carries ==> x in b.sys.active && MadeOk(b, b.sys.active[x], b.carries[x])
  {
    hide MadeOk;
    forall x | x in b.carries ensures x in b.sys.active && MadeOk(b, b.sys.active[x], b.carries[x]) { assert Fine(h, b, x); }
  }

  lemma {:induction false} CallGrows(h: Hash, b: Book, rid: nat, t: Book)
    requires BookOk(h, b) && Allowed(b, Call(rid)) && t == NextBook(h, b, Call(rid))
    ensures Grows(b, t)
    ensures forall v :: v in t.versions ==> VersionBlob(t, v).Some?
    ensures forall v :: OneWriter(t.sys, v)
  {
    hide OneWriter, FreshStep, VersionBlob, Apart, Fine, Ending;
    MadeAfter(h, b, rid, t);
    AllMade(h, b);
    SnapshotsStay(b, t, Call(rid));
    hide NextBook, Allowed, Do;
  }

  lemma {:induction false} SnapshotsStay(b: Book, t: Book, step: Step)
    requires forall v :: OneWriter(b.sys, v)
    requires Enabled(b.sys, step) && FreshStep(b.sys, step) && t.sys == Next(b.sys, step)
    ensures forall v :: VersionBlob(b, v).Some? ==> VersionBlob(t, v) == VersionBlob(b, v)
    ensures forall v :: OneWriter(t.sys, v)
  {
    hide OneWriter, Next, Enabled, FreshStep, BlobAfter;
    forall v ensures OneWriter(t.sys, v) && (VersionBlob(b, v).Some? ==> VersionBlob(t, v) == VersionBlob(b, v)) {
      StepKeepsSnapshots(b.sys, step, v);
    }
  }

  lemma {:induction false} ActsMade(h: Hash, b: Book, t: Book, rid: nat)
    requires BookOk(h, b) && Allowed(b, Call(rid)) && t == NextBook(h, b, Call(rid)) && Grows(b, t)
    requires rid in t.sys.active && rid in t.carries
    ensures MadeOk(t, t.sys.active[rid], t.carries[rid])
  {
    var r, c := b.sys.active[rid], b.carries[rid];
    assert Fine(h, b, rid);
    MadeAfter(h, b, rid, t);
    if r.todo[0].PutVersion? && r.held.Some? {
      var v := r.todo[0].version;
      assert OneWriter(b.sys, v);
      NotYetWritten(b, rid, v);
      BlobWritten(b.sys, rid, v);
      EndingAfter(c.handler, r.todo);
      hide Calls, Suffix, StageOk, Recorded, Answered, OneWriter, BlobAfter, FreshStep, Apart;
    } else if c.made.Some? {
      EndingActs(b, rid);
      hide Calls, Suffix, StageOk, Recorded, Answered, OneWriter, Do, FreshStep, BlobAfter, Apart;
    }
  }

  lemma {:induction false} EndingActs(b: Book, rid: nat)
    requires rid in b.sys.active && b.sys.active[rid].todo != [] && Ending(b.sys.active[rid].todo) && b.sys.active[rid].held.Some?
    ensures var q := Do(b.sys, rid, b.sys.active[rid]).active[rid];
      Ending(q.todo) && q.held == b.sys.active[rid].held && Closing(b.sys.active[rid].todo[0])
  {
    hide BlobAfter, Hit;
    assert Closing(b.sys.active[rid].todo[0]);
  }

  lemma {:induction false} CallApart(h: Hash, b: Book, t: Book, rid: nat)
    requires BookOk(h, b) && Allowed(b, Call(rid)) && t == NextBook(h, b, Call(rid))
    requires rid in t.carries && t.carries == b.carries[rid := t.carries[rid]]
    ensures Apart(t)
    ensures forall x :: x in b.carries && x != rid && b.carries[x].made.Some? ==> b.carries[x].made.value !in t.versions
  {
    hide OneWriter, FreshStep, VersionBlob, Fine, Ending, Do;
    MadeAfter(h, b, rid, t);
    AllMade(h, b);
    hide NextBook, Allowed;
    if b.sys.active[rid].todo[0].PutVersion? { NotYetWritten(b, rid, b.sys.active[rid].todo[0].version); }
  }

  lemma {:induction false} CallBookOk(h: Hash, b: Book, rid: nat)
    requires BookOk(h, b) && Allowed(b, Call(rid))
    ensures BookOk(h, NextBook(h, b, Call(rid))) && Grows(b, NextBook(h, b, Call(rid)))
  {
    var t := CallMoves(h, b, rid);
    CallGrows(h, b, rid, t);
    ActsStage(h, b, t, rid);
    ActsMade(h, b, t, rid);
    CallApart(h, b, t, rid);
    hide NextBook, Allowed, OneWriter, Do, Apart, StageOk, MadeOk, Suffix, Calls, Grows, VersionBlob;
    forall x | x in t.carries ensures Fine(h, t, x) {
      if x != rid {
        assert Fine(h, b, x);
        OthersKeep(h, b, t, x);
      }
    }
  }

  /** A step that is no call of a store touches one request and no blob or version row. */
  lemma {:induction false} QuietBookOk(h: Hash, b: Book, t: Book, rid: nat)
    requires BookOk(h, b) && t.versions == b.versions && t.sys.history == b.sys.history
    requires forall v :: OneWriter(t.sys, v)
    requires t.carries.Keys == t.sys.active.Keys && (rid in t.carries ==> Fine(h, t, rid))
    requires rid in t.carries && t.carries[rid].made.Some? ==> rid in b.carries && b.carries[rid].made == t.carries[rid].made
    requires forall x :: x in t.carries && x != rid ==>
      x in b.carries && t.carries[x] == b.carries[x] && x in b.sys.active && t.sys.active[x] == b.sys.active[x]
    ensures BookOk(h, t) && Grows(b, t)
  {
    hide OneWriter, Fine, BlobAfter;
    forall x | x in t.carries ensures Fine(h, t, x) {
      if x != rid {
        AllMade(h, b);
        OthersKeep(h, b, t, x);
      }
    }
  }

  lemma {:induction false} SameBookOk(h: Hash, b: Book, t: Book)
    requires BookOk(h, b) && t.versions == b.versions && t.sys.history == b.sys.history
    requires forall v :: OneWriter(t.sys, v)
    requires t.carries == b.carries && t.sys.active == b.sys.active
    ensures BookOk(h, t) && Grows(b, t)
  {
    hide OneWriter, Fine, BlobAfter;
    AllMade(h, b);
    if 0 in b.carries { OthersKeep(h, b, t, 0); }
    QuietBookOk(h, b, t, 0);
  }

  lemma {:induction false} BeginFine(h: Hash, b: Book, rid: nat, id: string, hd: Handler, t: Book)
    requires rid in t.sys.active && rid in t.carries
    requires t.sys.active[rid] == Request(id, Calls(hd), None) && t.carries[rid] == Carry(hd, OwnHash(h, hd), None)
    ensures Fine(h, t, rid)
  {
    hide VersionBlob, Ending;
    assert Calls(hd)[0..] == Calls(hd);
  }

  /** A request that skips a call whose failure it ignores. */
  lemma {:induction false} IgnoredFine(h: Hash, b: Book, t: Book, rid: nat)
    requires rid in b.sys.active && rid in b.carries && Fine(h, b, rid) && b.sys.active[rid].todo != [] && Grows(b, t)
    requires Ignorable(b.sys.active[rid].todo[0]) && t.versions == b.versions
    requires rid in t.sys.active && rid in t.carries && t.carries[rid] == b.carries[rid]
    requires t.sys.active[rid] == b.sys.active[rid].(todo := b.sys.active[rid].todo[1..])
    ensures Fine(h, t, rid)
  {
    var r, q, c := b.sys.active[rid], t.sys.active[rid], b.carries[rid];
    hide VersionBlob, Calls, Suffix, StageOk;
    SuffixHead(r.todo, Calls(c.handler));
    if c.handler.RestoreVersion? {
      RestoreStage(h, b, t, r, q, c, c);
    } else if c.handler.Create? || c.handler.Sync? || c.handler.SyncNew? {
      SentStage(h, b, t, r, q, c, c);
    } else {
      NoStage(h, t, q, c);
    }
  }

  lemma {:induction false} DieFine(h: Hash, b: Book, t: Book, rid: nat)
    requires rid in b.sys.active && rid in b.carries && Fine(h, b, rid) && Grows(b, t) && t.versions == b.versions
    requires rid in t.sys.active && rid in t.carries && t.carries[rid] == b.carries[rid]
    requires t.sys.active[rid] == b.sys.active[rid].(todo := [])
    ensures Fine(h, t, rid)
  {
    hide VersionBlob, Calls;
  }

  lemma {:induction false} BeginBookOk(h: Hash, b: Book, rid: nat, id: string, hd: Handler)
    requires var step := Begin(rid, id, hd); BookOk(h, b) && Allowed(b, step)
    ensures var t := NextBook(h, b, Begin(rid, id, hd)); BookOk(h, t) && Grows(b, t)
  {
    hide OneWriter, BlobAfter, Fine, FreshStep, Apart, Calls, VersionBlob;
    var t := NextBook(h, b, Begin(rid, id, hd));
    SnapshotsStay(b, t, Begin(rid, id, hd));
    BeginFine(h, b, rid, id, hd, t);
    QuietBookOk(h, b, t, rid);
  }

  lemma {:induction false} IgnoredBookOk(h: Hash, b: Book, rid: nat)
    requires BookOk(h, b) && Allowed(b, CallIgnored(rid))
    ensures var t := NextBook(h, b, CallIgnored(rid)); BookOk(h, t) && Grows(b, t)
  {
    hide OneWriter, BlobAfter, Fine, FreshStep, Apart, Calls, VersionBlob;
    var t := NextBook(h, b, CallIgnored(rid));
    SnapshotsStay(b, t, CallIgnored(rid));
    IgnoredFine(h, b, t, rid);
    QuietBookOk(h, b, t, rid);
  }

  lemma {:induction false} DieBookOk(h: Hash, b: Book, rid: nat)
    requires BookOk(h, b) && Allowed(b, Die(rid))
    ensures var t := NextBook(h, b, Die(rid)); BookOk(h, t) && Grows(b, t)
  {
    hide OneWriter, BlobAfter, Fine, FreshStep, Apart, Calls, VersionBlob;
    var t := NextBook(h, b, Die(rid));
    SnapshotsStay(b, t, Die(rid));
    DieFine(h, b, t, rid);
    QuietBookOk(h, b, t, rid);
  }

  /** Each step keeps recorded hashes and blobs of versions. */
  lemma {:induction false} StepBookOk(h: Hash, b: Book, step: Step)
    requires BookOk(h, b) && Allowed(b, step)
    ensures BookOk(h, NextBook(h, b, step)) && Grows(b, NextBook(h, b, step))
  {
    hide OneWriter, BlobAfter, Fine, FreshStep, Apart, Calls, VersionBlob, Do, Recorded, Answered, Grows;
    match step
    case Tick(_) => TickBookOk(h, b, step);
    case Evict(_) => TickBookOk(h, b, step);
    case Begin(rid, id, hd) => BeginBookOk(h, b, rid, id, hd);
    case Call(rid) => CallBookOk(h, b, rid);
    case CallIgnored(rid) => IgnoredBookOk(h, b, rid);
    case Die(rid) => DieBookOk(h, b, rid);
  }

  lemma {:induction false} TickBookOk(h: Hash, b: Book, step: Step)
    requires BookOk(h, b) && Allowed(b, step) && (step.Tick? || step.Evict?)
    ensures var t := NextBook(h, b, step); BookOk(h, t) && Grows(b, t)
  {
    hide OneWriter, BlobAfter, Fine, FreshStep, Apart, Calls, VersionBlob;
    var t := NextBook(h, b, step);
    SnapshotsStay(b, t, step);
    SameBookOk(h, b, t);
  }

  /** Unless it snapshots the working copy, a request records the hash of what it holds, if all
      versions so far fit. */
  lemma {:induction false} InsertFits(h: Hash, b: Book, rid: nat)
    requires BookOk(h, b) && AllFit(h, b) && rid in b.carries && rid in b.sys.active
    requires b.sys.active[rid].todo != [] && b.sys.active[rid].todo[0].InsertVersion? && b.carries[rid].made.Some?
    ensures var r, c := b.sys.active[rid], b.carries[rid];
      r.held.Some? && (c.handler.CreateVersion? || c.hash == h(r.held.value.content))
  {
    var r, c := b.sys.active[rid], b.carries[rid];
    assert Fine(h, b, rid);
    InsertsLate(c.handler, r.todo);
    hide BookOk, BlobAfter, Suffix, Calls;
  }

  lemma {:induction false} InsertsAt(hd: Handler, k: nat)
    requires k < |Calls(hd)| && Calls(hd)[k].InsertVersion?
    ensures match hd
      case Create(_, _) => |Calls(hd)| - k < 5
      case SyncNew(_, _) => |Calls(hd)| - k < 4
      case Sync(_, _) => |Calls(hd)| - k < 6
      case RestoreVersion(_, _) => |Calls(hd)| - k < 7
      case CreateVersion(_) => true
      case _ => false
  {
  }

  lemma {:induction false} InsertsLate(hd: Handler, todo: seq<Op>)
    requires Suffix(todo, Calls(hd)) && todo != [] && todo[0].InsertVersion?
    ensures match hd
      case Create(_, _) => |todo| < 5
      case SyncNew(_, _) => |todo| < 4
      case Sync(_, _) => |todo| < 6
      case RestoreVersion(_, _) => |todo| < 7
      case CreateVersion(_) => true
      case _ => false
  {
    hide Calls;
    SuffixHead(todo, Calls(hd));
    InsertsAt(hd, |Calls(hd)| - |todo|);
    hide Suffix;
  }

  /** After a step all versions fit exactly when they did before and the step is careful. */
  lemma {:induction false} StepFitsIff(h: Hash, b: Book, step: Step)
    requires BookOk(h, b) && Allowed(b, step)
    ensures AllFit(h, NextBook(h, b, step)) <==> AllFit(h, b) && Careful(h, b, step)
  {
    var t := NextBook(h, b, step);
    StepBookOk(h, b, step);
    if step.Call? && b.sys.active[step.rid].todo[0].InsertVersion? && b.carries[step.rid].made.Some? {
      InsertFitsIff(h, b, step.rid, t);
    } else {
      if step.Call? { MadeAfter(h, b, step.rid, t); }
      hide OneWriter, BlobAfter, Fine, FreshStep, Apart, Do, Recorded, Answered;
      SameVersionsFit(h, b, t);
    }
  }

  lemma {:induction false} SameVersionsFit(h: Hash, b: Book, t: Book)
    requires t.versions == b.versions && Grows(b, t)
    requires forall v :: v in b.versions ==> VersionBlob(b, v).Some?
    ensures AllFit(h, t) <==> AllFit(h, b)
  {
    hide VersionBlob;
    forall v | v in b.versions ensures VersionFits(h, t, v) <==> VersionFits(h, b, v) {}
  }

  lemma {:induction false} InsertFitsIff(h: Hash, b: Book, rid: nat, t: Book)
    requires BookOk(h, b) && Allowed(b, Call(rid)) && t == NextBook(h, b, Call(rid)) && Grows(b, t)
    requires b.sys.active[rid].todo[0].InsertVersion? && b.carries[rid].made.Some?
    ensures AllFit(h, t) <==> AllFit(h, b) && Careful(h, b, Call(rid))
  {
    hide OneWriter, FreshStep, Apart, Fine, Ending, VersionBlob, Do, Recorded, Answered;
    MadeAfter(h, b, rid, t);
    AllMade(h, b);
    var v := b.carries[rid].made.value;
    forall u | u in b.versions ensures VersionFits(h, t, u) <==> VersionFits(h, b, u) {}
    assert VersionFits(h, t, v) <==> b.carries[rid].hash == h(b.sys.active[rid].held.value.content);
    if AllFit(h, b) { InsertFits(h, b, rid); }
  }

  lemma {:induction false} RunBookOk(h: Hash, books: seq<Book>, steps: seq<Step>, n: nat)
    requires IsBookRun(h, books, steps) && n <= |steps|
    ensures BookOk(h, books[n])
  {
    hide BookOk, NextBook, Allowed;
    if n == 0 {
      BlankIsOk(h);
    } else {
      RunBookOk(h, books, steps, n - 1);
      assert Allowed(books[n - 1], steps[n - 1]) && books[n] == NextBook(h, books[n - 1], steps[n - 1]);
      StepBookOk(h, books[n - 1], steps[n - 1]);
    }
  }

  /** In every interleaving, whatever fails, the recorded hash of each version is that of its blob
      exactly when each request that snapshots the working copy has recorded, up to then, the hash of
      the content it read. */
  lemma {:induction false} VersionsFitIff(h: Hash, books: seq<Book>, steps: seq<Step>, n: nat)
    requires IsBookRun(h, books, steps) && n <= |steps|
    ensures AllFit(h, books[n]) <==> forall i :: 0 <= i < n ==> Allowed(books[i], steps[i]) && Careful(h, books[i], steps[i])
  {
    hide BookOk, NextBook, Allowed, AllFit, Careful;
    if n == 0 {
      BlankIsOk(h);
    } else {
      VersionsFitIff(h, books, steps, n - 1);
      RunBookOk(h, books, steps, n - 1);
      assert Allowed(books[n - 1], steps[n - 1]) && books[n] == NextBook(h, books[n - 1], steps[n - 1]);
      StepFitsIff(h, books[n - 1], steps[n - 1]);
    }
  }

  // ---------- A snapshot overtaken by an update ----------

  ghost predicate Faultless(steps: seq<Step>) { forall i :: 0 <= i < |steps| ==> steps[i].Begin? || steps[i].Call? }

  /** There is a run to this state in which no call fails. */
  ghost predicate Reached(h: Hash, b: Book) {
    exists books, steps :: IsBookRun(h, books, steps) && Faultless(steps) && books[|steps|] == b
  }

  lemma {:induction false} BlankIsReached(h: Hash)
    ensures Reached(h, Blank)
  {
    assert IsBookRun(h, [Blank], []);
  }

  lemma {:induction false} StepTo(h: Hash, b: Book, step: Step) returns (t: Book)
    requires Reached(h, b) && Allowed(b, step) && (step.Begin? || step.Call?)
    ensures Reached(h, t) && t == NextBook(h, b, step)
  {
    hide NextBook, Allowed;
    var books, steps :| IsBookRun(h, books, steps) && Faultless(steps) && books[|steps|] == b;
    t := NextBook(h, b, step);
    assert IsBookRun(h, books + [t], steps + [step]) by {
      forall i | 0 <= i < |steps + [step]|
        ensures Allowed((books + [t])[i], (steps + [step])[i])
        ensures (books + [t])[i + 1] == NextBook(h, (books + [t])[i], (steps + [step])[i])
      {
        if i < |steps| { assert Allowed(books[i], steps[i]) && books[i + 1] == NextBook(h, books[i], steps[i]); }
      }
    }
    assert (books + [t])[|steps + [step]|] == t;
  }

  ghost predicate Has(b: Book, rid: nat, r: Request, c: Carry) {
    rid in b.sys.active && b.sys.active[rid] == r && rid in b.carries && b.carries[rid] == c
  }

  /** Only one request has moved on. */
  ghost predicate OnlyMoved(b: Book, t: Book, rid: nat) {
    && t.sys.active.Keys == b.sys.active.Keys + {rid}
    && forall x, r, c :: x != rid && Has(b, x, r, c) ==> Has(t, x, r, c)
  }

  lemma {:induction false} Starts(h: Hash, b: Book, rid: nat, id: string, hd: Handler) returns (t: Book)
    requires Reached(h, b) && rid !in b.sys.active && FreshStep(b.sys, Begin(rid, id, hd))
    ensures Reached(h, t) && OnlyMoved(b, t, rid) && Has(t, rid, Request(id, Calls(hd), None), Carry(hd, OwnHash(h, hd), None))
    ensures t.rows == b.rows && t.sys.history == b.sys.history && t.sys.cache == b.sys.cache && t.versions == b.versions
  {
    hide Reached, Calls, FreshStep;
    t := StepTo(h, b, Begin(rid, id, hd));
  }

  lemma {:induction false} Calling(h: Hash, b: Book, rid: nat, r: Request, c: Carry, op: Op, rest: seq<Op>) returns (t: Book)
    requires Reached(h, b) && Has(b, rid, r, c) && r.todo == [op] + rest && Answered(b, r, c)
    ensures Reached(h, t) && t == Recorded(b, rid).(sys := Do(b.sys, rid, r)) && r.todo[1..] == rest
  {
    hide Reached, Do, Recorded, Answered;
    t := StepTo(h, b, Call(rid));
  }

  lemma {:induction false} Uploads(h: Hash, b: Book, rid: nat, r: Request, c: Carry, x: string, rest: seq<Op>) returns (t: Book)
    requires Reached(h, b) && Has(b, rid, r, c) && r.todo == [Put(x)] + rest
    ensures Reached(h, t) && OnlyMoved(b, t, rid)
    ensures Has(t, rid, Request(r.id, rest, Some(Held(Current(r.id), x, b.sys.now, |b.sys.history| + 1))), c)
    ensures t.sys.history == b.sys.history + [Write(Current(r.id), x, b.sys.now)]
    ensures t.rows == b.rows && t.sys.cache == b.sys.cache && t.versions == b.versions
  {
    hide Reached;
    t := Calling(h, b, rid, r, c, Put(x), rest);
  }

  lemma {:induction false} Inserts(h: Hash, b: Book, rid: nat, r: Request, c: Carry, rest: seq<Op>) returns (t: Book)
    requires Reached(h, b) && Has(b, rid, r, c) && r.todo == [SaveRow] + rest && c.handler.SyncNew? && r.id !in b.rows
    ensures Reached(h, t) && OnlyMoved(b, t, rid) && Has(t, rid, r.(todo := rest), c)
    ensures t.rows == b.rows[r.id := Row(c.hash, false)]
    ensures t.sys.history == b.sys.history && t.sys.cache == b.sys.cache && t.versions == b.versions
  {
    hide Reached;
    t := Calling(h, b, rid, r, c, SaveRow, rest);
  }

  lemma {:induction false} Loads(h: Hash, b: Book, rid: nat, r: Request, c: Carry, rest: seq<Op>) returns (t: Book)
    requires Reached(h, b) && Has(b, rid, r, c) && r.todo == [LoadRow] + rest && !c.handler.RestoreVersion?
    requires r.id in b.rows && !b.rows[r.id].deleted && (Sent(c.handler).Some? ==> c.hash != b.rows[r.id].hash)
    ensures Reached(h, t) && OnlyMoved(b, t, rid)
    ensures Has(t, rid, r.(todo := rest), if Sent(c.handler).Some? then c else c.(hash := b.rows[r.id].hash))
    ensures t.rows == b.rows && t.sys.history == b.sys.history && t.sys.cache == b.sys.cache && t.versions == b.versions
  {
    hide Reached;
    t := Calling(h, b, rid, r, c, LoadRow, rest);
  }

  /** A diagram is there, with its content's hash in its row. */
  lemma {:induction false} Stored(h: Hash, id: string, a: string, v: string) returns (b: Book)
    ensures Reached(h, b) && b.sys.active.Keys == {1} && b.rows == map[id := Row(h(a), false)]
    ensures b.sys.active[1].todo == [PutVersion(v), InsertVersion] && b.sys.cache == map[]
    ensures |b.sys.history| == 1 && b.sys.history[0].key == Current(id)
  {
    BlankIsReached(h);
    var hd := SyncNew(a, v);
    assert FreshStep(Start, Begin(1, id, hd));
    var rest := [PutVersion(v), InsertVersion];
    assert Calls(hd) == [Put(a)] + ([SaveRow] + rest);
    hide Reached, FreshStep, Calls, NextBook;
    var b0 := Starts(h, Blank, 1, id, hd);
    var b1 := Uploads(h, b0, 1, Request(id, [Put(a)] + ([SaveRow] + rest), None), Carry(hd, h(a), None), a, [SaveRow] + rest);
    b := Inserts(h, b1, 1, b1.sys.active[1], b1.carries[1], rest);
  }

  const AfterLoad := [LookCache(2)] + ([FetchCurrent] + ([Fill] + ([CountVersions] + [])))

  /** A request for a snapshot has read the row. */
  lemma {:induction false} RowRead(h: Hash, id: string, a: string, v0: string, v: string) returns (b: Book)
    requires v != v0
    ensures Reached(h, b) && b.sys.active.Keys == {1, 2} && b.rows == map[id := Row(h(a), false)] && b.sys.cache == map[]
    ensures Has(b, 2, Request(id, AfterLoad + [PutVersion(v), InsertVersion], None), Carry(CreateVersion(v), h(a), None))
  {
    var b0 := Stored(h, id, a, v0);
    var hd := CreateVersion(v);
    assert FreshStep(b0.sys, Begin(2, id, hd)) by { SnapshotIsFresh(b0.sys, id, v0, v); }
    var rest := AfterLoad + [PutVersion(v), InsertVersion];
    assert Calls(hd) == [LoadRow] + rest;
    hide Reached, FreshStep, Calls, NextBook;
    var b1 := Starts(h, b0, 2, id, hd);
    b := Loads(h, b1, 2, Request(id, [LoadRow] + rest, None), Carry(hd, "", None), rest);
  }

  lemma {:induction false} SnapshotIsFresh(s: System, id: string, v0: string, v: string)
    requires v != v0 && s.active.Keys == {1} && s.active[1].todo == [PutVersion(v0), InsertVersion]
    requires |s.history| == 1 && s.history[0].key.Current?
    ensures FreshStep(s, Begin(2, id, CreateVersion(v)))
  {
    var todo := s.active[1].todo;
    assert todo[1..] == [InsertVersion] && todo[1..][1..] == [];
    assert Puts(todo[1..][1..], v) == 0;
    assert Puts(todo[1..], v) == 0;
    assert NoWriter(s, v) && !Written(s.history, v);
    forall u | Puts(Calls(CreateVersion(v)), u) > 0 ensures u == v {
      if u != v { NoPuts(Calls(CreateVersion(v)), u); }
    }
  }

  lemma {:induction false} NoPuts(todo: seq<Op>, u: string)
    requires forall i :: 0 <= i < |todo| ==> todo[i] != PutVersion(u)
    ensures Puts(todo, u) == 0
  {
    if todo != [] { NoPuts(todo[1..], u); }
  }

  /** Meanwhile an update has replaced the content. */
  lemma {:induction false} Replaced(h: Hash, id: string, a: string, x: string, v0: string, v: string) returns (b: Book)
    requires v != v0 && h(a) != h(x)
    ensures Reached(h, b) && 2 in b.sys.active && b.sys.cache == map[]
    ensures Has(b, 2, Request(id, AfterLoad + [PutVersion(v), InsertVersion], None), Carry(CreateVersion(v), h(a), None))
    ensures BlobAfter(b.sys.history, Current(id)) == Some(x)
  {
    var b0 := RowRead(h, id, a, v0, v);
    var hd := UpdateContent(x);
    assert FreshStep(b0.sys, Begin(3, id, hd)) by {
      forall u ensures Puts(Calls(hd), u) == 0 { NoPuts(Calls(hd), u); }
    }
    var rest := [Drop, SaveRow];
    assert Calls(hd) == [LoadRow] + ([Put(x)] + rest);
    hide Reached, FreshStep, Calls, NextBook, BlobAfter;
    var b1 := Starts(h, b0, 3, id, hd);
    var b2 := Loads(h, b1, 3, Request(id, [LoadRow] + ([Put(x)] + rest), None), Carry(hd, h(x), None), [Put(x)] + rest);
    b := Uploads(h, b2, 3, b2.sys.active[3], b2.carries[3], x, rest);
    LastWriteWins(b2.sys.history, Write(Current(id), x, b2.sys.now));
  }

  lemma {:induction false} Reading(h: Hash, b: Book, rid: nat, r: Request, c: Carry, x: string, rest: seq<Op>) returns (t: Book)
    requires Reached(h, b) && Has(b, rid, r, c) && r.todo == [LookCache(2)] + ([FetchCurrent] + rest)
    requires r.id !in b.sys.cache && BlobAfter(b.sys.history, Current(r.id)) == Some(x)
    ensures Reached(h, t) && rid in t.sys.active && t.sys.active[rid].todo == rest && Holds(t.sys.active[rid], x)
    ensures rid in t.carries && t.carries[rid] == c
  {
    hide Reached, BlobAfter;
    var t0 := Calling(h, b, rid, r, c, LookCache(2), [FetchCurrent] + rest);
    t := Calling(h, t0, rid, t0.sys.active[rid], c, FetchCurrent, rest);
  }

  lemma {:induction false} Caching(h: Hash, b: Book, rid: nat, r: Request, c: Carry, rest: seq<Op>) returns (t: Book)
    requires Reached(h, b) && Has(b, rid, r, c) && r.todo == [Fill] + ([CountVersions] + rest) && r.held.Some?
    ensures Reached(h, t) && Has(t, rid, r.(todo := rest), c)
  {
    hide Reached;
    var t0 := Calling(h, b, rid, r, c, Fill, [CountVersions] + rest);
    t := Calling(h, t0, rid, t0.sys.active[rid], c, CountVersions, rest);
  }

  lemma {:induction false} Making(h: Hash, b: Book, rid: nat, r: Request, c: Carry, v: string) returns (t: Book)
    requires Reached(h, b) && Has(b, rid, r, c) && r.todo == [PutVersion(v)] + ([InsertVersion] + []) && r.held.Some?
    ensures Reached(h, t) && v in t.versions && t.versions[v] == c.hash
    ensures VersionBlob(t, v) == Some(r.held.value.content)
  {
    hide Reached, BlobAfter;
    var t0 := Calling(h, b, rid, r, c, PutVersion(v), [InsertVersion] + []);
    BlobWritten(b.sys, rid, v);
    t := Calling(h, t0, rid, t0.sys.active[rid], t0.carries[rid], InsertVersion, []);
  }

  /** An update that runs between a snapshot's reading of the row and of the content: no call fails,
      and the version's hash is that of the old content, its blob the new one. */
  lemma {:induction false} OvertakenSnapshotMisfits(h: Hash, id: string, a: string, x: string, v0: string, v: string)
    requires v != v0 && h(a) != h(x)
    ensures exists b :: Reached(h, b) && v in b.versions && b.versions[v] == h(a) && VersionBlob(b, v) == Some(x)
  {
    var b0 := Replaced(h, id, a, x, v0, v);
    hide BlobAfter, Reached;
    var ends := [PutVersion(v)] + ([InsertVersion] + []);
    var tail := [Fill] + ([CountVersions] + ends);
    assert AfterLoad + [PutVersion(v), InsertVersion] == [LookCache(2)] + ([FetchCurrent] + tail);
    var b1 := Reading(h, b0, 2, b0.sys.active[2], b0.carries[2], x, tail);
    var b2 := Caching(h, b1, 2, b1.sys.active[2], b1.carries[2], ends);
    var b3 := Making(h, b2, 2, b2.sys.active[2], b2.carries[2], v);
  }
}
