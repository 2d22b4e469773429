/**
 The difficulty a share is judged at: each connection remembers, in a fixed ring, the
 difficulty every job was notified under, and a submit reads it back by job id
 (src/stratum.c).
 */
module JobDifficulty {
  import Jobs

  /** Twice the jobs a lookup can resolve. */
  const JOB_DIFF_RING: nat := (Jobs.RECENT_JOBS + 1) * 2

  datatype Entry = Entry(id: string, difficulty: real)

  datatype Conn = Conn(entries: seq<Entry>, head: nat)

  const BLANK: Entry := Entry("", 0.0)

  ghost predicate Sized(c: Conn) {
    |c.entries| == JOB_DIFF_RING && c.head < JOB_DIFF_RING
  }

  /** The first slot from `i` on that carries the id, or the ring's size. */
  function Slot(entries: seq<Entry>, id: string, i: nat): (k: nat)
    requires i <= |entries|
    decreases |entries| - i
  {
    if i == |entries| || entries[i].id == id then i else Slot(entries, id, i + 1)
  }

  lemma {:induction false} SlotIsFirst(entries: seq<Entry>, id: string, i: nat)
    requires i <= |entries|
    ensures i <= Slot(entries, id, i) <= |entries|
    ensures forall k :: i <= k < Slot(entries, id, i) ==> entries[k].id != id
    ensures Slot(entries, id, i) < |entries| ==> entries[Slot(entries, id, i)].id == id
    decreases |entries| - i
  {
    if i < |entries| && entries[i].id != id { SlotIsFirst(entries, id, i + 1); }
  }

  function Recorded(c: Conn, id: string, difficulty: real): Conn
    requires Sized(c)
  {
    if id == "" || difficulty <= 0.0 then c
    else
      SlotIsFirst(c.entries, id, 0);
      var k := Slot(c.entries, id, 0);
      if k < |c.entries| then c.(entries := c.entries[k := Entry(id, difficulty)])
      else Conn(c.entries[c.head := Entry(id, difficulty)], (c.head + 1) % JOB_DIFF_RING)
  }

  /** What a submit for the id is judged at; zero means never told. */
  function Looked(c: Conn, id: string): real
    requires Sized(c)
  {
    if id == "" then 0.0
    else
      SlotIsFirst(c.entries, id, 0);
      var k := Slot(c.entries, id, 0);
      if k < |c.entries| then c.entries[k].difficulty else 0.0
  }

  // ---- what was agreed -------------------------------------------------

  /** A mining.notify that went out: the job and the difficulty in force. */
  datatype Notice = Notice(job: nat, difficulty: real)

  /** The difficulty of the job's latest notify at a positive difficulty, zero if none. */
  function Agreed(log: seq<Notice>, j: nat): real {
    if log == [] then 0.0
    else
      var last := log[|log| - 1];
      if last.job == j && last.difficulty > 0.0 then last.difficulty else Agreed(log[..|log| - 1], j)
  }

  /** The jobs the connection was told about, in the order it first heard of them. */
  function Told(log: seq<Notice>): seq<nat> {
    if log == [] then []
    else
      var last, before := log[|log| - 1], Told(log[..|log| - 1]);
      if last.difficulty > 0.0 && last.job !in before then before + [last.job] else before
  }

  lemma {:induction false} UntoldIsZero(log: seq<Notice>, j: nat)
    requires j !in Told(log)
    ensures Agreed(log, j) == 0.0
  {
    if log != [] { UntoldIsZero(log[..|log| - 1], j); }
  }

  lemma Extended(log: seq<Notice>, n: Notice)
    ensures Told(log + [n]) == if n.difficulty > 0.0 && n.job !in Told(log) then Told(log) + [n.job] else Told(log)
    ensures forall j: nat ::
      Agreed(log + [n], j) == if n.job == j && n.difficulty > 0.0 then n.difficulty else Agreed(log, j)
  {
    assert (log + [n])[..|log|] == log;
  }

  // ---- one connection beside the job protocol --------------------------

  datatype World = World(server: Jobs.State, conn: Conn, log: seq<Notice>)

  datatype Event =
    | Server(step: Jobs.Step)
    | Notify(difficulty: real)       // the current job goes out: a broadcast or a re-authorize

  ghost function Next(w: World, e: Event): World
    requires Jobs.Shape(w.server) && Sized(w.conn)
  {
    match e
    case Server(step) => w.(server := Jobs.Next(w.server, step))
    case Notify(d) =>
      if w.server.current.None? then w
      else
        var j := w.server.current.value;
        w.(conn := Recorded(w.conn, w.server.ring.jobs[j].id, d), log := w.log + [Notice(j, d)])
  }

  ghost predicate Safe(w: World) {
    Jobs.Shape(w.server) && Jobs.Ordered(w.server) && Sized(w.conn)
  }

  lemma StepKeepsSafe(w: World, e: Event)
    requires Safe(w)
    ensures Safe(Next(w, e))
  {
    hide Jobs.Shape, Jobs.Ordered, Jobs.Next;
    if e.Server? {
      Jobs.StepKeepsShape(w.server, e.step);
      Jobs.StepKeepsOrder(w.server, e.step);
    }
  }

  ghost function Start(): World {
    World(Jobs.Start(), Conn(seq(JOB_DIFF_RING, _ => BLANK), 0), [])
  }

  ghost function After(events: seq<Event>): (w: World)
    ensures Safe(w)
  {
    if events == [] then Start()
    else
      var w := After(events[..|events| - 1]);
      StepKeepsSafe(w, events[|events| - 1]);
      Next(w, events[|events| - 1])
  }

  // ---- the ring holds the last 34 jobs told ----------------------------

  /** The slot of the k-th job told. */
  function At(k: nat): (i: nat)
    ensures i < JOB_DIFF_RING
  {
    k % JOB_DIFF_RING
  }

  ghost predicate Increasing(s: seq<nat>, bound: nat) {
    && (forall i, k :: 0 <= i < k < |s| ==> s[i] < s[k])
    && forall i :: 0 <= i < |s| ==> s[i] < bound
  }

  /** Slot k holds the k-th job told, under the log. */
  ghost predicate HoldsAt(c: Conn, told: seq<nat>, jobs: seq<Jobs.Job>, log: seq<Notice>, k: nat)
    requires Sized(c) && Increasing(told, |jobs|) && k < |told|
  {
    c.entries[At(k)] == Entry(jobs[told[k]].id, Agreed(log, told[k]))
  }

  /** The k-th job told sits in slot k mod 34 until 34 more have been told. */
  ghost predicate Holds(c: Conn, told: seq<nat>, jobs: seq<Jobs.Job>, log: seq<Notice>)
    requires Sized(c) && Increasing(told, |jobs|)
  {
    && c.head == At(|told|)
    && (forall k: nat :: k < |told| && |told| - JOB_DIFF_RING <= k ==> HoldsAt(c, told, jobs, log, k))
    && (forall i :: |told| <= i < JOB_DIFF_RING ==> c.entries[i] == BLANK)
  }

  ghost predicate Inv(w: World)
    requires Sized(w.conn)
  {
    Increasing(Told(w.log), |w.server.ring.jobs|)
    && Holds(w.conn, Told(w.log), w.server.ring.jobs, w.log)
  }

  lemma AtWraps(k: nat)
    ensures At(k + JOB_DIFF_RING) == At(k)
    ensures k < JOB_DIFF_RING ==> At(k) == k
  {
  }

  /** The last job told that went into slot i. */
  lemma {:induction false} Latest(n: nat, i: nat) returns (k: nat)
    requires i < n && i < JOB_DIFF_RING
    ensures n - JOB_DIFF_RING <= k < n && At(k) == i
  {
    hide At;
    if i + JOB_DIFF_RING >= n {
      AtWraps(i);
      k := i;
    } else {
      k := Latest(n - JOB_DIFF_RING, i);
      AtWraps(k);
      k := k + JOB_DIFF_RING;
    }
  }

  /** Every slot is blank or holds a job told at most 34 jobs ago. */
  lemma SlotHolds(c: Conn, told: seq<nat>, jobs: seq<Jobs.Job>, log: seq<Notice>, i: nat)
    requires Sized(c) && Increasing(told, |jobs|) && Holds(c, told, jobs, log) && i < JOB_DIFF_RING
    ensures c.entries[i] == BLANK || Behind(c, told, jobs, log, i)
  {
    if i < |told| {
      var k := Latest(|told|, i);
      assert HoldsAt(c, told, jobs, log, k);
    }
  }

  ghost predicate Behind(c: Conn, told: seq<nat>, jobs: seq<Jobs.Job>, log: seq<Notice>, i: nat)
    requires Sized(c) && Increasing(told, |jobs|) && i < JOB_DIFF_RING
  {
    exists k: nat :: k < |told| && |told| - JOB_DIFF_RING <= k && At(k) == i
      && c.entries[i].id == jobs[told[k]].id
  }

  /** Looking up job j finds slot k mod 34 if j is the k-th job told and still held. */
  lemma SlotOf(c: Conn, told: seq<nat>, jobs: seq<Jobs.Job>, log: seq<Notice>, j: nat)
    requires Sized(c) && Increasing(told, |jobs|) && Holds(c, told, jobs, log)
    requires j < |jobs| && Jobs.UniqueIds(jobs)
    ensures var s := Slot(c.entries, jobs[j].id, 0);
      && (s < JOB_DIFF_RING ==> Behind(c, told, jobs, log, s) && IsAt(told, j, s))
      && (s == JOB_DIFF_RING ==>
            forall k: nat :: k < |told| && |told| - JOB_DIFF_RING <= k ==> told[k] != j)
      && s <= JOB_DIFF_RING
  {
    SlotIsFirst(c.entries, jobs[j].id, 0);
    var s := Slot(c.entries, jobs[j].id, 0);
    if s < JOB_DIFF_RING {
      SlotHolds(c, told, jobs, log, s);
      var k: nat :| k < |told| && |told| - JOB_DIFF_RING <= k && At(k) == s
        && c.entries[s].id == jobs[told[k]].id;
      assert told[k] == j;
    } else {
      forall k: nat | k < |told| && |told| - JOB_DIFF_RING <= k ensures told[k] != j {
        assert HoldsAt(c, told, jobs, log, k);
        assert c.entries[At(k)].id != jobs[j].id;
      }
    }
  }

  ghost predicate IsAt(told: seq<nat>, j: nat, s: nat) {
    exists k: nat :: k < |told| && |told| - JOB_DIFF_RING <= k && told[k] == j && At(k) == s
  }

  lemma SlotsApart(i: nat, k: nat)
    requires i < k < i + JOB_DIFF_RING
    ensures At(i) != At(k)
  {
  }

  lemma NextSlot(n: nat)
    ensures (At(n) + 1) % JOB_DIFF_RING == At(n + 1)
    ensures n < JOB_DIFF_RING ==> At(n) == n
  {
    var q, r := n / JOB_DIFF_RING, At(n);
    assert n == JOB_DIFF_RING * q + r;
    if r + 1 == JOB_DIFF_RING {
      assert n + 1 == JOB_DIFF_RING * (q + 1);
    } else {
      assert n + 1 == JOB_DIFF_RING * q + (r + 1);
    }
  }

  /** A job not told yet takes the head slot, pushing out the job told 34 before it. */
  lemma NewEntry(c: Conn, log: seq<Notice>, jobs: seq<Jobs.Job>, j: nat, d: real)
    requires Sized(c) && Increasing(Told(log), |jobs|) && Holds(c, Told(log), jobs, log)
    requires j == |jobs| - 1 && Jobs.UniqueIds(jobs) && d > 0.0 && j !in Told(log)
    ensures var log' := log + [Notice(j, d)];
      Increasing(Told(log'), |jobs|) && Holds(Recorded(c, jobs[j].id, d), Told(log'), jobs, log')
  {
    hide Told, Agreed, Slot, Behind, At;
    var told, log' := Told(log), log + [Notice(j, d)];
    SlotOf(c, told, jobs, log, j);
    Extended(log, Notice(j, d));
    var c' := Conn(c.entries[c.head := Entry(jobs[j].id, d)], (c.head + 1) % JOB_DIFF_RING);
    assert Recorded(c, jobs[j].id, d) == c';
    var told' := told + [j];
    NextSlot(|told|);
    assert c'.head == At(|told'|);
    assert Increasing(told', |jobs|);
    forall k: nat | k < |told'| && |told'| - JOB_DIFF_RING <= k ensures HoldsAt(c', told', jobs, log', k) {
      if k < |told| {
        assert HoldsAt(c, told, jobs, log, k);
        SlotsApart(k, |told|);
      }
    }
  }

  /** A job told again is the newest of them all, and its slot is rewritten in place. */
  lemma SameEntry(c: Conn, log: seq<Notice>, jobs: seq<Jobs.Job>, j: nat, d: real)
    requires Sized(c) && Increasing(Told(log), |jobs|) && Holds(c, Told(log), jobs, log)
    requires j == |jobs| - 1 && Jobs.UniqueIds(jobs) && d > 0.0 && j in Told(log)
    ensures var log' := log + [Notice(j, d)];
      Increasing(Told(log'), |jobs|) && Holds(Recorded(c, jobs[j].id, d), Told(log'), jobs, log')
  {
    hide Told, Agreed, Slot, Behind, At;
    var told, log' := Told(log), log + [Notice(j, d)];
    SlotOf(c, told, jobs, log, j);
    Extended(log, Notice(j, d));
    var last := |told| - 1;
    assert told[last] == j;
    var s := Slot(c.entries, jobs[j].id, 0);
    assert s == At(last);
    var c' := c.(entries := c.entries[s := Entry(jobs[j].id, d)]);
    assert Recorded(c, jobs[j].id, d) == c';
    forall k: nat | k < |told| && |told| - JOB_DIFF_RING <= k ensures HoldsAt(c', told, jobs, log', k) {
      assert HoldsAt(c, told, jobs, log, k);
      if k < last { SlotsApart(k, last); }
    }
  }

  /** The ring is read through the jobs' names and the agreements, and nothing else. */
  lemma HoldsCarries(c: Conn, told: seq<nat>, jobs: seq<Jobs.Job>, log: seq<Notice>,
                     jobs': seq<Jobs.Job>, log': seq<Notice>)
    requires Sized(c) && Increasing(told, |jobs|) && Holds(c, told, jobs, log)
    requires |jobs| <= |jobs'| && forall i :: 0 <= i < |jobs| ==> jobs'[i].id == jobs[i].id
    requires forall j: nat :: Agreed(log', j) == Agreed(log, j)
    ensures Increasing(told, |jobs'|) && Holds(c, told, jobs', log')
  {
    hide Agreed, At;
    forall k: nat | k < |told| && |told| - JOB_DIFF_RING <= k ensures HoldsAt(c, told, jobs', log', k) {
      assert HoldsAt(c, told, jobs, log, k);
    }
  }

  lemma NotifyKeepsInv(w: World, d: real)
    requires Safe(w) && Inv(w) && Jobs.UniqueIds(w.server.ring.jobs) && !w.server.closing
    ensures Inv(Next(w, Notify(d)))
  {
    hide Holds, Recorded, Told, Agreed;
    if w.server.current.Some? {
      var j := w.server.current.value;
      var jobs := w.server.ring.jobs;
      if d <= 0.0 {
        Unrecorded(w.conn, w.log, jobs, j, d);
      } else if j in Told(w.log) {
        SameEntry(w.conn, w.log, jobs, j, d);
      } else {
        NewEntry(w.conn, w.log, jobs, j, d);
      }
    }
  }

  lemma Unrecorded(c: Conn, log: seq<Notice>, jobs: seq<Jobs.Job>, j: nat, d: real)
    requires Sized(c) && Increasing(Told(log), |jobs|) && Holds(c, Told(log), jobs, log)
    requires j < |jobs| && d <= 0.0
    ensures var log' := log + [Notice(j, d)];
      Increasing(Told(log'), |jobs|) && Holds(Recorded(c, jobs[j].id, d), Told(log'), jobs, log')
  {
    hide Told, Agreed, Holds;
    Extended(log, Notice(j, d));
    HoldsCarries(c, Told(log), jobs, log, jobs, log + [Notice(j, d)]);
  }

  /** Swaps, sweeps and lookups do not touch the connection; job names never change. */
  lemma ServerKeepsInv(w: World, step: Jobs.Step)
    requires Safe(w) && Inv(w)
    ensures Inv(Next(w, Server(step)))
  {
    hide Jobs.Next, Told, Agreed, Holds;
    Jobs.StepIsOnward(w.server, step);
    HoldsCarries(w.conn, Told(w.log), w.server.ring.jobs, w.log, Next(w, Server(step)).server.ring.jobs, w.log);
  }

  lemma {:induction false} RunKeepsInv(events: seq<Event>)
    requires Jobs.UniqueIds(After(events).server.ring.jobs)
    ensures Inv(After(events))
  {
    hide Jobs.Ordered, Jobs.Next, Inv, Recorded;
    if events == [] {
      StartInv();
    } else {
      var w, e := After(events[..|events| - 1]), events[|events| - 1];
      NamesSurvive(w, e);
      RunKeepsInv(events[..|events| - 1]);
      match e {
        case Server(step) => ServerKeepsInv(w, step);
        case Notify(d) => if !w.server.closing { NotifyKeepsInv(w, d); }
      }
    }
  }

  lemma StartInv()
    ensures Inv(Start())
  {
  }

  lemma NamesSurvive(w: World, e: Event)
    requires Safe(w) && Jobs.UniqueIds(Next(w, e).server.ring.jobs)
    ensures Jobs.UniqueIds(w.server.ring.jobs)
  {
    hide Jobs.Next, Recorded;
    if e.Server? { Jobs.StepIsOnward(w.server, e.step); }
  }

  /** The jobs still in the ring: the last 34 told. */
  function Remembered(told: seq<nat>): seq<nat> {
    if |told| <= JOB_DIFF_RING then told else told[|told| - JOB_DIFF_RING..]
  }

  /** The ring answers for exactly the last 34 jobs told, with the latest agreement of each. */
  lemma LookedIs(w: World, j: nat)
    requires Sized(w.conn) && Inv(w) && Jobs.UniqueIds(w.server.ring.jobs) && j < |w.server.ring.jobs|
    ensures Looked(w.conn, w.server.ring.jobs[j].id)
      == if j in Remembered(Told(w.log)) then Agreed(w.log, j) else 0.0
  {
    hide Told, Agreed, Slot, At, Behind, Increasing;
    var told, jobs := Told(w.log), w.server.ring.jobs;
    SlotOf(w.conn, told, jobs, w.log, j);
    var s := Slot(w.conn.entries, jobs[j].id, 0);
    var from := if |told| <= JOB_DIFF_RING then 0 else |told| - JOB_DIFF_RING;
    assert Remembered(told) == told[from..];
    if s < JOB_DIFF_RING {
      var k: nat :| k < |told| && |told| - JOB_DIFF_RING <= k && told[k] == j && At(k) == s;
      assert HoldsAt(w.conn, told, jobs, w.log, k);
      assert told[from..][k - from] == j;
    } else {
      assert forall k: nat :: k < |told| - from ==> told[from..][k] == told[from + k];
    }
  }

  /** Told jobs are in publication order, so one of the last 34 published is one of the last 34 told. */
  lemma RecentIsRemembered(told: seq<nat>, n: nat, j: nat)
    requires Increasing(told, n) && j in told && n - j <= JOB_DIFF_RING
    ensures j in Remembered(told)
  {
    var k :| 0 <= k < |told| && told[k] == j;
    Spread(told, n, k);
    if |told| > JOB_DIFF_RING {
      var from := |told| - JOB_DIFF_RING;
      assert told[from..][k - from] == j;
    }
  }

  lemma {:induction false} Spread(told: seq<nat>, n: nat, k: nat)
    requires Increasing(told, n) && k < |told|
    ensures |told| - k <= n - told[k]
    decreases |told| - k
  {
    if k + 1 < |told| { Spread(told, n, k + 1); }
  }

  /**
   Over every run of publications, sweeps, lookups and notifies, a job of the last 34
   published is judged at the difficulty of its latest notify, and a job the
   connection was never told about reads as zero.
   */
  lemma JudgedAsAgreed(events: seq<Event>, j: nat)
    requires var jobs := After(events).server.ring.jobs;
      Jobs.UniqueIds(jobs) && |jobs| - 34 <= j < |jobs|
    ensures var w := After(events); Looked(w.conn, w.server.ring.jobs[j].id) == Agreed(w.log, j)
  {
    hide Jobs.Ordered, Looked, Agreed, Told, Remembered, Holds;
    RunKeepsInv(events);
    var w := After(events);
    LookedIs(w, j);
    if j in Told(w.log) {
      RecentIsRemembered(Told(w.log), |w.server.ring.jobs|, j);
    } else {
      UntoldIsZero(w.log, j);
      assert j !in Remembered(Told(w.log)) by { RememberedIsTold(Told(w.log), j); }
    }
  }

  lemma RememberedIsTold(told: seq<nat>, j: nat)
    ensures j in Remembered(told) ==> j in told
  {
  }

  /**
   Every job a lookup can resolve is judged at what was agreed, and stays so for the
   submit that holds it while sixteen more jobs are published.
   */
  lemma ResolvableIsJudgedAsAgreed(events: seq<Event>, j: nat)
    requires var s := After(events).server;
      Jobs.UniqueIds(s.ring.jobs) && !s.closing && Jobs.Resolvable(s, j)
    ensures var w := After(events);
      && j < |w.server.ring.jobs|
      && Looked(w.conn, w.server.ring.jobs[j].id) == Agreed(w.log, j)
      && |w.server.ring.jobs| + 16 - j <= 34
  {
    hide Looked, Agreed;
    var s := After(events).server;
    Jobs.ResolvableIsRecent(s, j);
    JudgedAsAgreed(events, j);
  }

  // ---- the ring in place -----------------------------------------------

  class Connection {
    const entries: array<Entry>
    var head: nat

    ghost predicate Valid()
      reads this
    {
      entries.Length == JOB_DIFF_RING && head < JOB_DIFF_RING
    }

    ghost function View(): (c: Conn)
      reads this, entries
      requires Valid()
      ensures Sized(c)
    {
      Conn(entries[..], head)
    }

    constructor ()
      ensures Valid() && fresh(entries) && View() == Start().conn
    {
      entries := new Entry[JOB_DIFF_RING](_ => BLANK);
      head := 0;
      new;
      assert entries[..] == Start().conn.entries;
    }

    method RecordJobDifficulty(id: string, difficulty: real)
      requires Valid()
      modifies this`head, entries
      ensures Valid() && View() == Recorded(old(View()), id, difficulty)
    {
      if id == "" || difficulty <= 0.0 { return; }
      var i: nat := 0;
      while i < JOB_DIFF_RING
        invariant i <= JOB_DIFF_RING && View() == old(View())
        invariant Slot(entries[..], id, 0) == Slot(entries[..], id, i)
      {
        if entries[i].id == id {
          entries[i] := Entry(id, difficulty);
          return;
        }
        i := i + 1;
      }
      entries[head] := Entry(id, difficulty);
      head := (head + 1) % JOB_DIFF_RING;
    }

    method JobDifficulty(id: string) returns (d: real)
      requires Valid()
      ensures d == Looked(View(), id)
    {
      d := 0.0;
      if id == "" { return; }
      var i: nat := 0;
      while i < JOB_DIFF_RING
        invariant i <= JOB_DIFF_RING
        invariant Slot(entries[..], id, 0) == Slot(entries[..], id, i)
      {
        if entries[i].id == id {
          d := entries[i].difficulty;
          return;
        }
        i := i + 1;
      }
    }
  }
}
