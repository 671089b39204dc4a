/** The debounced queue of screenshot jobs: a set of members, each with the time in
    milliseconds when it becomes due. */
module ScreenshotQueue {
  import opened Text

  datatype Job = Job(org: string, diagram: string)

  const DEBOUNCE_WINDOW := 3000

  // ---------- Members ----------

  function MemberOf(job: Job): string { job.org + "|" + job.diagram }

  /** `strings.Cut`. */
  function Cut(s: string, sep: char): Option<(string, string)> {
    if s == "" then None
    else if s[0] == sep then Some(("", s[1..]))
    else
      var rest := Cut(s[1..], sep);
      if rest.None? then None else Some(([s[0]] + rest.value.0, rest.value.1))
  }

  function JobOf(member: string): Option<Job> {
    var cut := Cut(member, '|');
    if cut.None? then None else Some(Job(cut.value.0, cut.value.1))
  }

  lemma {:induction false} CutIs(s: string, sep: char)
    ensures Cut(s, sep).Some? <==> sep in s
    ensures Cut(s, sep).Some? ==>
      var (a, b) := Cut(s, sep).value; s == a + [sep] + b && sep !in a
  {
    if s != "" && s[0] != sep { CutIs(s[1..], sep); }
  }

  lemma {:induction false} CutAt(a: string, sep: char, b: string)
    requires sep !in a
    ensures Cut(a + [sep] + b, sep) == Some((a, b))
  {
    if a == "" {
      assert (a + [sep] + b)[1..] == b;
    } else {
      assert (a + [sep] + b)[1..] == a[1..] + [sep] + b;
      CutAt(a[1..], sep, b);
      assert [a[0]] + a[1..] == a;
    }
  }

  /** Every member decodes; it decodes to its own job exactly when the organisation's id has
      no bar. */
  lemma {:induction false} Decoding(job: Job)
    ensures JobOf(MemberOf(job)).Some?
    ensures JobOf(MemberOf(job)) == Some(job) <==> '|' !in job.org
  {
    var m := MemberOf(job);
    assert m[|job.org|] == '|' && m == job.org + ['|'] + job.diagram;
    CutIs(m, '|');
    if '|' !in job.org { CutAt(job.org, '|', job.diagram); }
  }

  /** Encoding undoes decoding. */
  lemma {:induction false} Encoding(member: string)
    requires JobOf(member).Some?
    ensures MemberOf(JobOf(member).value) == member
  {
    CutIs(member, '|');
  }

  // ---------- The queue ----------

  type Pending = map<string, int>

  predicate Before(q: Pending, a: string, b: string)
    requires a in q && b in q
  {
    q[a] < q[b] || (q[a] == q[b] && StrLe(a, b))
  }

  /** The member that the range query puts first. */
  ghost predicate First(q: Pending, now: int, m: string) {
    m in q && q[m] <= now && forall x :: x in q && q[x] <= now ==> Before(q, m, x)
  }

  ghost function EarliestDue(q: Pending, now: int): Option<string> {
    if m :| First(q, now, m) then Some(m) else None
  }

  lemma {:induction false} FirstUnique(q: Pending, now: int, a: string, b: string)
    requires First(q, now, a) && First(q, now, b)
    ensures a == b
  {
    if StrLe(a, b) && StrLe(b, a) { StrLeAntisymmetric(a, b); }
  }

  lemma {:induction false} BeforeTransitive(q: Pending, a: string, b: string, c: string)
    requires a in q && b in q && c in q && Before(q, a, b) && Before(q, b, c)
    ensures Before(q, a, c)
  {
    if q[a] == q[b] == q[c] { StrLeTransitive(a, b, c); }
  }

  lemma {:induction false} BeforeTotal(q: Pending, a: string, b: string)
    requires a in q && b in q
    ensures Before(q, a, b) || Before(q, b, a)
  {
    StrLeTotal(a, b);
  }

  lemma {:induction false} FirstAmong(q: Pending, now: int, keys: set<string>) returns (m: string)
    requires keys != {} && forall x :: x in keys ==> x in q && q[x] <= now
    ensures m in keys && forall x :: x in keys ==> Before(q, m, x)
    decreases keys
  {
    m :| m in keys;
    BeforeTotal(q, m, m);
    if keys != {m} {
      var rest := keys - {m};
      assert keys == rest + {m};
      var r := FirstAmong(q, now, rest);
      BeforeTotal(q, m, r);
      if Before(q, m, r) {
        forall x | x in rest ensures Before(q, m, x) { BeforeTransitive(q, m, r, x); }
      } else {
        m := r;
      }
    }
  }

  /** A poll finds a member exactly when one is due, and finds an earliest one. */
  lemma {:induction false} EarliestIs(q: Pending, now: int)
    ensures EarliestDue(q, now).Some? ==> First(q, now, EarliestDue(q, now).value)
    ensures EarliestDue(q, now).None? <==> forall m :: m in q ==> q[m] > now
  {
    var due := set m | m in q && q[m] <= now;
    if due == {} {
      forall m | m in q ensures q[m] > now { assert m !in due; }
    } else {
      var m := FirstAmong(q, now, due);
      assert First(q, now, m);
    }
  }

  class Queue {
    var jobs: Pending

    constructor ()
      ensures jobs == map[]
    {
      jobs := map[];
    }

    method EnqueueScreenshot(job: Job, now: int)
      modifies this
      ensures jobs == After(old(jobs), Enqueue(job, now))
    {
      var due := now + DEBOUNCE_WINDOW;
      jobs := jobs[MemberOf(job) := due];
    }

    /** The atomic script: takes the first due member, and removes it. */
    method ClaimDue(now: int) returns (member: Option<string>)
      modifies this
      ensures member == EarliestDue(old(jobs), now)
      ensures jobs == if member.Some? then old(jobs) - {member.value} else old(jobs)
    {
      member := None;
      var todo := jobs.Keys;
      while todo != {}
        invariant todo <= jobs.Keys && jobs == old(jobs)
        invariant member.None? ==> forall x :: x in jobs && x !in todo ==> jobs[x] > now
        invariant member.Some? ==> member.value in jobs && jobs[member.value] <= now
        invariant member.Some? ==> forall x :: x in jobs && x !in todo && jobs[x] <= now ==> Before(jobs, member.value, x)
        decreases todo
      {
        var m :| m in todo;
        BeforeTotal(jobs, m, m);
        if jobs[m] <= now && (member.None? || Before(jobs, m, member.value)) {
          ghost var was := member;
          member := Some(m);
          forall x | x in jobs && x !in todo && jobs[x] <= now ensures Before(jobs, m, x) {
            if was.Some? { BeforeTransitive(jobs, m, was.value, x); }
          }
        } else if member.Some? {
          if jobs[m] <= now { BeforeTotal(jobs, m, member.value); }
        }
        todo := todo - {m};
      }
      EarliestIs(jobs, now);
      if member.Some? {
        FirstUnique(jobs, now, member.value, EarliestDue(jobs, now).value);
        jobs := jobs - {member.value};
      }
    }

    /** The claimed job, if a member is due and decodes; one that does not decode is gone. */
    method DequeueScreenshot(now: int) returns (job: Option<Job>)
      modifies this
      ensures jobs == After(old(jobs), Poll(now))
      ensures var claimed := EarliestDue(old(jobs), now);
              job == if claimed.Some? then JobOf(claimed.value) else None
    {
      var member := ClaimDue(now);
      if member.None? { return None; }
      job := JobOf(member.value);
    }
  }

  // ---------- Runs ----------

  datatype Event = Enqueue(job: Job, at: int) | Poll(at: int)

  ghost function After(q: Pending, e: Event): Pending {
    match e
    case Enqueue(job, at) => q[MemberOf(job) := at + DEBOUNCE_WINDOW]
    case Poll(at) =>
      var claimed := EarliestDue(q, at);
      if claimed.Some? then q - {claimed.value} else q
  }

  /** The queue after a run from empty. */
  ghost function Run(events: seq<Event>): Pending {
    if events == [] then map[] else After(Run(events[..|events| - 1]), events[|events| - 1])
  }

  ghost predicate Clocked(events: seq<Event>) {
    forall i, j :: 0 <= i < j < |events| ==> events[i].at <= events[j].at
  }

  ghost predicate Enqueues(events: seq<Event>, k: nat, m: string) {
    k < |events| && events[k].Enqueue? && MemberOf(events[k].job) == m
  }

  ghost predicate Claims(events: seq<Event>, k: nat, m: string) {
    k < |events| && events[k].Poll? && EarliestDue(Run(events[..k]), events[k].at) == Some(m)
  }

  /** Event `k` enqueues the member, and no event from there to `end` concerns it. */
  ghost predicate LastEnqueued(events: seq<Event>, k: nat, end: nat, m: string) {
    && k < end <= |events| && Enqueues(events, k, m)
    && forall j :: k < j < end ==> !Enqueues(events, j, m) && !Claims(events, j, m)
  }

  lemma {:induction false} RunStep(events: seq<Event>, end: nat)
    requires 0 < end <= |events|
    ensures Run(events[..end]) == After(Run(events[..end - 1]), events[end - 1])
  {
    assert events[..end][..end - 1] == events[..end - 1];
  }

  lemma {:induction false} LastStep(events: seq<Event>, k: nat, end: nat, m: string)
    requires 0 < end <= |events|
    ensures LastEnqueued(events, k, end, m) <==>
      if Enqueues(events, end - 1, m) then k == end - 1
      else !Claims(events, end - 1, m) && LastEnqueued(events, k, end - 1, m)
  {
    hide Enqueues, Claims;
  }

  ghost predicate PendingSince(events: seq<Event>, end: nat, m: string) {
    exists k: nat :: LastEnqueued(events, k, end, m)
  }

  lemma {:induction false} SinceStep(events: seq<Event>, end: nat, m: string)
    requires 0 < end <= |events|
    ensures PendingSince(events, end, m) <==>
      || Enqueues(events, end - 1, m)
      || (!Claims(events, end - 1, m) && PendingSince(events, end - 1, m))
  {
    hide Enqueues, Claims;
    if PendingSince(events, end, m) {
      var k: nat :| LastEnqueued(events, k, end, m);
      LastStep(events, k, end, m);
    }
    if Enqueues(events, end - 1, m) {
      LastStep(events, end - 1, end, m);
    } else if !Claims(events, end - 1, m) && PendingSince(events, end - 1, m) {
      var k: nat :| LastEnqueued(events, k, end - 1, m);
      LastStep(events, k, end, m);
    }
  }

  lemma {:induction false} AfterIs(events: seq<Event>, last: nat, m: string)
    requires last < |events|
    ensures var q := Run(events[..last]);
      var r := Run(events[..last + 1]);
      && (m in r <==> Enqueues(events, last, m) || (m in q && !Claims(events, last, m)))
      && (m in r ==> r[m] == if Enqueues(events, last, m) then events[last].at + DEBOUNCE_WINDOW else q[m])
  {
    RunStep(events, last + 1);
    var q := Run(events[..last]);
    hide Run;
    EarliestIs(q, events[last].at);
    hide EarliestDue, MemberOf;
  }

  /** A member is pending exactly when it was enqueued and not claimed since, and is due three
      seconds after its latest enqueue. */
  lemma {:induction false} PendingIs(events: seq<Event>, end: nat, m: string)
    requires end <= |events|
    ensures m in Run(events[..end]) <==> PendingSince(events, end, m)
    ensures forall k: nat :: LastEnqueued(events, k, end, m) ==>
      m in Run(events[..end]) && Run(events[..end])[m] == events[k].at + 3000
  {
    if end > 0 {
      var last := end - 1;
      PendingIs(events, last, m);
      AfterIs(events, last, m);
      SinceStep(events, end, m);
      forall k: nat | LastEnqueued(events, k, end, m)
        ensures m in Run(events[..end]) && Run(events[..end])[m] == events[k].at + DEBOUNCE_WINDOW
      {
        LastStep(events, k, end, m);
        hide LastEnqueued, Run, Enqueues, Claims;
      }
      hide LastEnqueued, Run, Enqueues, Claims, PendingSince;
    }
  }

  // ---------- What a caller can rely on ----------

  /** A claim comes at least three seconds after the member's latest enqueue, which no claim
      has answered yet, and takes an earliest-due member. */
  lemma {:induction false} ClaimIsSettled(events: seq<Event>, k: nat, m: string)
    requires Clocked(events) && Claims(events, k, m)
    ensures exists j: nat :: LastEnqueued(events, j, k, m) && events[j].at + 3000 <= events[k].at
    ensures forall x :: x in Run(events[..k]) ==> m in Run(events[..k]) && Run(events[..k])[m] <= Run(events[..k])[x]
  {
    var q := Run(events[..k]);
    EarliestIs(q, events[k].at);
    PendingIs(events, k, m);
    var j: nat :| LastEnqueued(events, j, k, m);
    assert q[m] == events[j].at + DEBOUNCE_WINDOW;
    hide Run, EarliestDue;
  }

  /** A claim comes at least three seconds after each earlier enqueue of its member: while
      updates keep coming, nothing is claimed. */
  lemma {:induction false} Debounced(events: seq<Event>, j: nat, k: nat, m: string)
    requires Clocked(events) && Enqueues(events, j, m) && j < k && Claims(events, k, m)
    ensures events[j].at + 3000 <= events[k].at
  {
    ClaimIsSettled(events, k, m);
    var i: nat :| LastEnqueued(events, i, k, m) && events[i].at + DEBOUNCE_WINDOW <= events[k].at;
    hide Run, EarliestDue;
    assert j <= i;
  }

  /** Between two claims of a member there is an enqueue of it, and three seconds. */
  lemma {:induction false} ClaimsApart(events: seq<Event>, i: nat, k: nat, m: string)
    requires Clocked(events) && i < k && Claims(events, i, m) && Claims(events, k, m)
    ensures exists j: nat :: i < j < k && Enqueues(events, j, m)
    ensures events[k].at - events[i].at >= 3000
  {
    ClaimIsSettled(events, k, m);
    var j: nat :| LastEnqueued(events, j, k, m) && events[j].at + DEBOUNCE_WINDOW <= events[k].at;
    hide Run, EarliestDue;
    assert i < j;
  }

  /** An enqueue is pending until a claim answers it: none is lost. */
  lemma {:induction false} NothingLost(events: seq<Event>, j: nat, m: string)
    requires Enqueues(events, j, m)
    ensures m in Run(events) || exists k: nat :: j < k && Claims(events, k, m)
  {
    hide Claims;
    if forall k: nat :: j < k ==> !Claims(events, k, m) {
      var i := LatestEnqueue(events, j, m);
      assert events[..|events|] == events;
      assert LastEnqueued(events, i, |events|, m);
      PendingIs(events, |events|, m);
    }
  }

  lemma {:induction false} LatestEnqueue(events: seq<Event>, j: nat, m: string) returns (i: nat)
    requires Enqueues(events, j, m)
    ensures j <= i && Enqueues(events, i, m) && forall k: nat :: i < k ==> !Enqueues(events, k, m)
    decreases |events| - j
  {
    if k: nat :| j < k && Enqueues(events, k, m) { i := LatestEnqueue(events, k, m); } else { i := j; }
  }

  /** What polls at the given times claim, one after the other. */
  ghost function Claimed(q: Pending, times: seq<int>): seq<string>
    decreases |times|
  {
    if times == [] then []
    else
      var claimed := EarliestDue(q, times[0]);
      (if claimed.Some? then [claimed.value] else []) + Claimed(After(q, Poll(times[0])), times[1..])
  }

  /** The members of the queue, each once, in the order of due times. */
  ghost predicate Lists(claimed: seq<string>, q: Pending) {
    && |claimed| == |q| && (forall m :: m in claimed <==> m in q)
    && (forall i :: 0 <= i < |claimed| ==> claimed[i] in q)
    && forall i, j :: 0 <= i < j < |claimed| ==> claimed[i] != claimed[j] && Before(q, claimed[i], claimed[j])
  }

  lemma {:induction false} ListsOneMore(q: Pending, first: string, tail: seq<string>)
    requires first in q && Lists(tail, q - {first}) && forall x :: x in q ==> Before(q, first, x)
    ensures Lists([first] + tail, q)
  {
    var rest := q - {first};
    var claimed := [first] + tail;
    assert |rest| == |q| - 1 by { assert rest.Keys == q.Keys - {first}; }
    forall i | 0 <= i < |claimed| ensures claimed[i] in q { if i > 0 { assert claimed[i] == tail[i - 1] && tail[i - 1] in rest; } }
    forall i, j | 0 <= i < j < |claimed| ensures claimed[i] != claimed[j] && Before(q, claimed[i], claimed[j]) {
      assert claimed[j] == tail[j - 1] && tail[j - 1] in rest;
      if i > 0 {
        assert claimed[i] == tail[i - 1] && tail[i - 1] in rest;
        assert Before(rest, tail[i - 1], tail[j - 1]);
      }
    }
    forall m ensures m in claimed <==> m in q { if m != first { assert m in tail <==> m in rest; } }
  }

  /** As many polls as there are members, past all due times, claim each member once, in the
      order of due times. */
  lemma {:induction false} Drain(q: Pending, times: seq<int>)
    requires |times| == |q| && forall m, i :: m in q && 0 <= i < |times| ==> q[m] <= times[i]
    ensures Lists(Claimed(q, times), q)
    decreases |times|
  {
    hide Lists, Before, EarliestDue;
    if times == [] {
      NoMembers(q);
    } else {
      EarliestIs(q, times[0]);
      SomeMember(q);
      var first := EarliestDue(q, times[0]).value;
      var rest := q - {first};
      assert |rest| == |q| - 1 by { assert rest.Keys == q.Keys - {first}; }
      forall m, i | m in rest && 0 <= i < |times[1..]| ensures rest[m] <= times[1..][i] { assert q[m] <= times[i + 1]; }
      Drain(rest, times[1..]);
      ListsOneMore(q, first, Claimed(rest, times[1..]));
    }
  }

  lemma {:induction false} NoMembers(q: Pending)
    requires |q| == 0
    ensures Lists([], q)
  {
  }

  lemma {:induction false} SomeMember(q: Pending)
    requires |q| > 0
    ensures exists m :: m in q
  {
    assert q.Keys != {};
  }
}
