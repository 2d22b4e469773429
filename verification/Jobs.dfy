/**
 Job lifetime in the stratum server: a reference count per job, the current slot,
 the ring of retired jobs, and the submits that borrow a job while the publisher
 swaps, sweeps and frees behind them (src/stratum.c).

 A job is named by its publication number. Every step below is one critical section
 (or one atomic decrement); steps of the publisher and of the submits interleave in
 any order.
 */
module Jobs {
  import opened Options

  const RECENT_JOBS: nat := 16
  const RECENT_JOB_TTL_MS: int := 300000
  const TWO_64: int := 0x1_0000_0000_0000_0000

  /** A job's record; `live` until its memory is given back. */
  datatype Job = Job(id: string, created: nat, refs: int, live: bool)

  datatype Ring = Ring(jobs: seq<Job>, recent: seq<Option<nat>>, head: nat)

  /** What the publishing thread is in the middle of. */
  datatype Publisher =
    | Idle
    | Swapped(job: nat)
    | Sweeping(job: nat, cutoff: nat, slot: nat)

  datatype State = State(
    ring: Ring,
    current: Option<nat>,
    publisher: Publisher,
    holders: multiset<nat>,
    closing: bool,
    freed: nat)

  // ---- the reference count --------------------------------------------

  function Retain(jobs: seq<Job>, j: nat): (after: seq<Job>)
    requires j < |jobs|
    ensures |after| == |jobs|
  {
    jobs[j := jobs[j].(refs := jobs[j].refs + 1)]
  }

  /** Drops one reference; whoever sees the count at one destroys the job. */
  function Free(jobs: seq<Job>, j: nat): (after: seq<Job>)
    requires j < |jobs|
    ensures |after| == |jobs|
  {
    jobs[j := jobs[j].(refs := jobs[j].refs - 1, live := jobs[j].live && jobs[j].refs != 1)]
  }

  ghost predicate PointsInto(recent: seq<Option<nat>>, n: nat) {
    forall i :: 0 <= i < |recent| && recent[i].Some? ==> recent[i].value < n
  }

  ghost predicate RingShape(r: Ring) {
    && |r.recent| == RECENT_JOBS && r.head < RECENT_JOBS && PointsInto(r.recent, |r.jobs|)
  }

  function ClearSlot(r: Ring, i: nat): (r': Ring)
    requires i < |r.recent| && (r.recent[i].Some? ==> r.recent[i].value < |r.jobs|)
    ensures |r'.jobs| == |r.jobs|
  {
    if r.recent[i].Some?
    then r.(jobs := Free(r.jobs, r.recent[i].value), recent := r.recent[i := None])
    else r
  }

  /** The age test is on unsigned 64-bit milliseconds, so it wraps. */
  predicate Expired(created: nat, cutoff: nat) {
    (cutoff - created) % TWO_64 > RECENT_JOB_TTL_MS
  }

  /** Five minutes, by a clock that has not gone back; one read before the job was made counts as past it. */
  lemma ExpiredIff(created: nat, cutoff: nat)
    requires created < 0x1_0000_0000_0000_0000 && cutoff < 0x1_0000_0000_0000_0000
    ensures created <= cutoff ==> (Expired(created, cutoff) <==> cutoff - created > 300_000)
    ensures cutoff < created ==> (Expired(created, cutoff) <==> 0x1_0000_0000_0000_0000 - (created - cutoff) > 300_000)
  {
    if cutoff < created { assert (cutoff - created) % TWO_64 == cutoff - created + TWO_64; }
  }

  function SweepSlot(r: Ring, cutoff: nat, i: nat): (r': Ring)
    requires RingShape(r) && i < RECENT_JOBS
    ensures RingShape(r') && r'.head == r.head && |r'.jobs| == |r.jobs|
  {
    if r.recent[i].Some? && Expired(r.jobs[r.recent[i].value].created, cutoff) then ClearSlot(r, i) else r
  }

  function Place(r: Ring, j: nat): (r': Ring)
    requires RingShape(r) && j < |r.jobs|
    ensures RingShape(r') && |r'.jobs| == |r.jobs|
  {
    var c := ClearSlot(r, r.head);
    c.(recent := c.recent[r.head := Some(j)], head := (r.head + 1) % RECENT_JOBS)
  }

  /** The first slot from `i` on whose job carries the id. */
  function Match(r: Ring, id: string, i: nat): (found: Option<nat>)
    requires RingShape(r) && i <= RECENT_JOBS
    decreases RECENT_JOBS - i
  {
    if i == RECENT_JOBS then None
    else if r.recent[i].Some? && r.jobs[r.recent[i].value].id == id then r.recent[i]
    else Match(r, id, i + 1)
  }

  lemma {:induction false} MatchFinds(r: Ring, id: string, i: nat)
    requires RingShape(r) && i <= RECENT_JOBS
    ensures Match(r, id, i).Some? ==>
      Match(r, id, i) in r.recent && Match(r, id, i).value < |r.jobs| && r.jobs[Match(r, id, i).value].id == id
    ensures Match(r, id, i).None? ==>
      forall k :: i <= k < RECENT_JOBS && r.recent[k].Some? ==> r.jobs[r.recent[k].value].id != id
    decreases RECENT_JOBS - i
  {
    if i < RECENT_JOBS { MatchFinds(r, id, i + 1); }
  }

  // ---- the protocol ----------------------------------------------------

  datatype Step =
    | Publish(id: string, created: nat)      // swap the current job, keeping the old pointer
    | Lock(now: nat)                         // the retire takes the ring lock and reads the clock
    | Sweep                                  // one slot of the expiry sweep
    | Retire                                 // overwrite the head slot and unlock
    | FindCurrent(id: string)                // a lookup's first critical section
    | FindRecent(id: string)                 // and its second
    | Release(job: nat)                      // a submit lets go of its job
    | Close                                  // the server frees the current job
    | CloseSlot                              // and then the ring slot by slot, without the lock

  ghost predicate Shape(s: State) {
    && RingShape(s.ring)
    && (s.current.Some? ==> s.current.value < |s.ring.jobs|)
    && (!s.publisher.Idle? ==> s.publisher.job < |s.ring.jobs|)
    && (s.publisher.Sweeping? ==> s.publisher.slot <= RECENT_JOBS)
    && (forall j: nat :: j in s.holders ==> j < |s.ring.jobs|)
    && s.freed <= RECENT_JOBS
    && (if s.closing then s.publisher.Idle? && s.current.None? else s.freed == 0)
  }

  /** The publisher is joined before the server is freed; the connections are not. */
  ghost predicate Allowed(s: State, step: Step) {
    match step
    case Publish(_, _) => s.publisher.Idle? && !s.closing
    case Lock(_) => s.publisher.Swapped?
    case Sweep => s.publisher.Sweeping? && s.publisher.slot < RECENT_JOBS
    case Retire => s.publisher.Sweeping? && s.publisher.slot == RECENT_JOBS
    case FindCurrent(_) => true
    case FindRecent(_) => !s.publisher.Sweeping?
    case Release(j) => j in s.holders
    case Close => s.publisher.Idle? && !s.closing
    case CloseSlot => s.closing && s.freed < RECENT_JOBS
  }

  function Hand(s: State, found: Option<nat>): State
    requires found.Some? ==> found.value < |s.ring.jobs|
  {
    if found.None? then s
    else s.(ring := s.ring.(jobs := Retain(s.ring.jobs, found.value)), holders := s.holders + multiset{found.value})
  }

  function Drop(s: State, j: nat): State
    requires j < |s.ring.jobs|
  {
    s.(ring := s.ring.(jobs := Free(s.ring.jobs, j)))
  }

  /** The job's count drops, if there is one; the pointer stays where it is. */
  function DropAt(s: State, pointer: Option<nat>): State
    requires pointer.Some? ==> pointer.value < |s.ring.jobs|
  {
    if pointer.Some? then Drop(s, pointer.value) else s
  }

  function CurrentMatch(s: State, id: string): Option<nat>
    requires s.current.Some? ==> s.current.value < |s.ring.jobs|
  {
    if s.current.Some? && s.ring.jobs[s.current.value].id == id then s.current else None
  }

  ghost function Next(s: State, step: Step): State
    requires Shape(s)
  {
    if !Allowed(s, step) then s else
    match step
    case Publish(id, created) =>
      s.(ring := s.ring.(jobs := s.ring.jobs + [Job(id, created, 1, true)]),
         current := Some(|s.ring.jobs|),
         publisher := if s.current.Some? then Swapped(s.current.value) else Idle)
    case Lock(now) => s.(publisher := Sweeping(s.publisher.job, now, 0))
    case Sweep =>
      s.(ring := SweepSlot(s.ring, s.publisher.cutoff, s.publisher.slot),
         publisher := s.publisher.(slot := s.publisher.slot + 1))
    case Retire => s.(ring := Place(s.ring, s.publisher.job), publisher := Idle)
    case FindCurrent(id) => Hand(s, CurrentMatch(s, id))
    case FindRecent(id) => MatchFinds(s.ring, id, 0); Hand(s, Match(s.ring, id, 0))
    case Release(j) => Drop(s, j).(holders := s.holders - multiset{j})
    case Close => DropAt(s, s.current).(current := None, closing := true)
    case CloseSlot => DropAt(s, s.ring.recent[s.freed]).(freed := s.freed + 1)
  }

  lemma StepKeepsShape(s: State, step: Step)
    requires Shape(s)
    ensures Shape(Next(s, step))
  {
    hide Match, Expired;
    if step.FindRecent? { MatchFinds(s.ring, step.id, 0); }
  }

  /** A published job is current under its own id, with one reference, and the others are untouched. */
  lemma PublishTakesEffect(s: State, id: string, created: nat)
    requires Shape(s) && s.publisher.Idle? && !s.closing
    ensures var s', n := Next(s, Publish(id, created)), |s.ring.jobs|;
      && |s'.ring.jobs| == n + 1 && s'.ring.jobs[..n] == s.ring.jobs
      && s'.ring.jobs[n] == Job(id, created, 1, true) && s'.current == Some(n)
      && (s.current.Some? ==> s'.publisher == Swapped(s.current.value))
  {
  }

  /** A lookup hands out the current job if it has the id, and in the ring a job that has it, if any does. */
  lemma LookupHands(s: State, id: string)
    requires Shape(s)
    ensures var h := Next(s, FindCurrent(id)).holders;
      if s.current.Some? && s.ring.jobs[s.current.value].id == id
      then h == s.holders + multiset{s.current.value} else h == s.holders
    ensures !s.publisher.Sweeping? ==>
      var h := Next(s, FindRecent(id)).holders;
      if exists i :: 0 <= i < 16 && s.ring.recent[i].Some? && s.ring.jobs[s.ring.recent[i].value].id == id
      then exists i :: 0 <= i < 16 && s.ring.recent[i].Some? && s.ring.jobs[s.ring.recent[i].value].id == id
                       && h == s.holders + multiset{s.ring.recent[i].value}
      else h == s.holders
  {
    MatchFinds(s.ring, id, 0);
    hide Match;
  }

  // ---- the count is the number of pointers ----------------------------

  function One(b: bool): (n: nat)
  {
    if b then 1 else 0
  }

  /** How many of the slots not yet freed hold the job. */
  ghost function SlotRefs(recent: seq<Option<nat>>, freed: nat, j: nat): nat
    requires freed <= |recent|
  {
    multiset(recent[freed..])[Some(j)]
  }

  /** Who holds a reference: current slot, ring slots, the swapped-out pointer, the submits. */
  ghost function Refs(s: State, j: nat): nat
    requires s.freed <= |s.ring.recent|
  {
    One(s.current == Some(j))
    + SlotRefs(s.ring.recent, s.freed, j)
    + One(!s.publisher.Idle? && s.publisher.job == j)
    + s.holders[j]
  }

  ghost predicate Counted(s: State)
    requires s.freed <= |s.ring.recent|
  {
    forall j: nat :: j < |s.ring.jobs| ==>
      s.ring.jobs[j].refs == Refs(s, j) && (s.ring.jobs[j].live <==> s.ring.jobs[j].refs > 0)
  }

  ghost predicate Inv(s: State) {
    Shape(s) && Counted(s)
  }

  ghost function Start(): State {
    State(Ring([], seq(RECENT_JOBS, _ => None), 0), None, Idle, multiset{}, false, 0)
  }

  lemma StartInv()
    ensures Inv(Start())
  {
  }

  lemma SlotRefsSet(recent: seq<Option<nat>>, i: nat, v: Option<nat>, j: nat)
    requires i < |recent|
    ensures SlotRefs(recent[i := v], 0, j) == SlotRefs(recent, 0, j) - One(recent[i] == Some(j)) + One(v == Some(j))
  {
    assert recent[0..] == recent && recent[i := v][0..] == recent[i := v];
  }

  lemma SlotRefsNext(recent: seq<Option<nat>>, freed: nat, j: nat)
    requires freed < |recent|
    ensures SlotRefs(recent, freed, j) == One(recent[freed] == Some(j)) + SlotRefs(recent, freed + 1, j)
  {
    assert recent[freed..] == [recent[freed]] + recent[freed + 1..];
  }

  lemma SlotRefsIn(recent: seq<Option<nat>>, freed: nat, j: nat)
    requires freed <= |recent|
    ensures SlotRefs(recent, freed, j) > 0 <==> Some(j) in recent[freed..]
  {
  }

  /** Nobody points at a job that has not been published. */
  lemma NoRefsBeyond(s: State)
    requires Shape(s)
    ensures Refs(s, |s.ring.jobs|) == 0
  {
    SlotRefsIn(s.ring.recent, s.freed, |s.ring.jobs|);
  }

  lemma PublishKeeps(s: State, id: string, created: nat)
    requires Inv(s) && Allowed(s, Publish(id, created))
    ensures Inv(Next(s, Publish(id, created)))
  {
    hide SlotRefs;
    NoRefsBeyond(s);
  }

  /** One reference less, and one pointer less, to the same job. */
  lemma DropKeeps(s: State, d: State, j: nat)
    requires Inv(s) && Shape(d) && j < |s.ring.jobs| && d.ring.jobs == Free(s.ring.jobs, j)
    requires forall k: nat :: Refs(d, k) == Refs(s, k) - One(k == j)
    ensures Inv(d)
  {
    hide Refs;
    assert s.ring.jobs[j].refs == Refs(s, j) && Refs(d, j) == Refs(s, j) - 1;
  }

  /** The same jobs reached by as many pointers, laid out differently. */
  lemma MoveKeeps(s: State, d: State)
    requires Inv(s) && Shape(d) && d.ring.jobs == s.ring.jobs
    requires forall k: nat :: Refs(d, k) == Refs(s, k)
    ensures Inv(d)
  {
    hide Refs;
  }

  /** Clearing a slot and giving back its reference keep the books. */
  lemma ClearKeeps(s: State, i: nat)
    requires Inv(s) && i < RECENT_JOBS && s.freed == 0
    ensures Inv(s.(ring := ClearSlot(s.ring, i)))
    ensures ClearSlot(s.ring, i).recent[i].None? && ClearSlot(s.ring, i).head == s.ring.head
  {
    hide SlotRefs, Free, Counted;
    if s.ring.recent[i].Some? {
      forall j: nat { SlotRefsSet(s.ring.recent, i, None, j); }
      DropKeeps(s, s.(ring := ClearSlot(s.ring, i)), s.ring.recent[i].value);
    }
  }

  /** The swapped-out pointer moves into the cleared head slot. */
  lemma PlaceMoves(s: State, c: Ring)
    requires Shape(s) && s.publisher.Sweeping? && RingShape(c) && c.recent[s.ring.head].None?
    requires c.head == s.ring.head && |c.jobs| == |s.ring.jobs|
    ensures var h := s.ring.head;
      var d := s.(ring := Ring(c.jobs, c.recent[h := Some(s.publisher.job)], (h + 1) % RECENT_JOBS), publisher := Idle);
      Shape(d) && forall k: nat :: Refs(d, k) == Refs(s.(ring := c), k)
  {
    hide SlotRefs;
    var h := s.ring.head;
    forall k: nat { SlotRefsSet(c.recent, h, Some(s.publisher.job), k); }
  }

  lemma RetireKeeps(s: State)
    requires Inv(s) && Allowed(s, Retire)
    ensures Inv(Next(s, Retire))
  {
    hide Counted, Refs, ClearSlot, Free;
    var h := s.ring.head;
    ClearKeeps(s, h);
    var c := ClearSlot(s.ring, h);
    PlaceMoves(s, c);
    MoveKeeps(s.(ring := c), Next(s, Retire));
  }

  lemma HandKeeps(s: State, found: Option<nat>)
    requires Inv(s) && (found.Some? ==> found.value < |s.ring.jobs| && s.ring.jobs[found.value].live)
    ensures Inv(Hand(s, found))
  {
    hide SlotRefs, RingShape;
    if found.Some? { HandShape(s, found.value); }
  }

  lemma HandShape(s: State, j: nat)
    requires Shape(s) && j < |s.ring.jobs|
    ensures Shape(Hand(s, Some(j)))
  {
  }

  lemma SweepKeeps(s: State, step: Step)
    requires Inv(s) && Allowed(s, step) && (step.Lock? || step.Sweep?)
    ensures Inv(Next(s, step))
  {
    hide ClearSlot, Counted, SlotRefs, Expired;
    if step.Lock? {
      MoveKeeps(s, Next(s, step));
    } else {
      ClearKeeps(s, s.publisher.slot);
      var c := s.(ring := SweepSlot(s.ring, s.publisher.cutoff, s.publisher.slot));
      MoveKeeps(c, Next(s, step));
    }
  }

  lemma ReleaseKeeps(s: State, j: nat)
    requires Inv(s) && j in s.holders
    ensures Inv(Next(s, Release(j)))
  {
    hide SlotRefs, Counted;
    StepKeepsShape(s, Release(j));
    DropKeeps(s, Next(s, Release(j)), j);
  }

  lemma CloseKeeps(s: State, step: Step)
    requires Inv(s) && Allowed(s, step) && (step.Close? || step.CloseSlot?)
    ensures Inv(Next(s, step))
  {
    hide SlotRefs, Counted, Free;
    StepKeepsShape(s, step);
    var pointer := if step.Close? then s.current else s.ring.recent[s.freed];
    if step.CloseSlot? { forall j: nat { SlotRefsNext(s.ring.recent, s.freed, j); } }
    if pointer.Some? { DropKeeps(s, Next(s, step), pointer.value); } else { MoveKeeps(s, Next(s, step)); }
  }

  // ---- which jobs a step reads -----------------------------------------

  /** How many slots a lookup goes through: up to the first match, that one included. */
  function Scanned(r: Ring, id: string, i: nat): (n: nat)
    requires RingShape(r) && i <= RECENT_JOBS
    ensures i <= n <= RECENT_JOBS
    decreases RECENT_JOBS - i
  {
    if i == RECENT_JOBS then i
    else if r.recent[i].Some? && r.jobs[r.recent[i].value].id == id then i + 1
    else Scanned(r, id, i + 1)
  }

  lemma {:induction false} MatchIsScanned(r: Ring, id: string, i: nat)
    requires RingShape(r) && i <= RECENT_JOBS
    ensures Match(r, id, i).Some? ==> i < Scanned(r, id, i) && Match(r, id, i) == r.recent[Scanned(r, id, i) - 1]
    decreases RECENT_JOBS - i
  {
    if i < RECENT_JOBS { MatchIsScanned(r, id, i + 1); }
  }

  /** The step follows a pointer to the job: compares its id or age, or touches its count. */
  ghost predicate Reads(s: State, step: Step, j: nat)
    requires Shape(s)
  {
    Allowed(s, step) &&
    match step
    case Publish(_, _) => false
    case Lock(_) => false
    case Sweep => s.ring.recent[s.publisher.slot] == Some(j)
    case Retire => s.ring.recent[s.ring.head] == Some(j)
    case FindCurrent(_) => s.current == Some(j)
    case FindRecent(id) => Some(j) in s.ring.recent[..Scanned(s.ring, id, 0)]
    case Release(h) => h == j
    case Close => s.current == Some(j)
    case CloseSlot => s.ring.recent[s.freed] == Some(j)
  }

  /** Every job the step reads is still there. */
  ghost predicate ReadsLive(s: State, step: Step)
    requires Shape(s)
  {
    forall j: nat :: Reads(s, step, j) ==> j < |s.ring.jobs| && s.ring.jobs[j].live
  }

  /** Every pointer that carries a reference. */
  ghost predicate Reaches(s: State, j: nat)
    requires s.freed <= |s.ring.recent|
  {
    || s.current == Some(j)
    || Some(j) in s.ring.recent[s.freed..]
    || (!s.publisher.Idle? && s.publisher.job == j)
    || j in s.holders
  }

  /** A job is in memory exactly while something holds a reference to it. */
  lemma PointersLive(s: State)
    requires Inv(s)
    ensures forall j: nat :: j < |s.ring.jobs| ==> (s.ring.jobs[j].live <==> Reaches(s, j))
    ensures forall j: nat :: Reaches(s, j) ==> j < |s.ring.jobs|
  {
    hide SlotRefs;
    forall j: nat { SlotRefsIn(s.ring.recent, s.freed, j); }
  }

  /** Every slot the closing server has freed and the lookup goes through is empty, or its job is held elsewhere. */
  ghost predicate Held(s: State, id: string)
    requires Shape(s)
  {
    forall i: nat :: i < s.freed && i < Scanned(s.ring, id, 0) && s.ring.recent[i].Some? ==>
      Reaches(s, s.ring.recent[i].value)
  }

  /** Only a ring lookup can read a destroyed job, and it does exactly when it meets a freed slot nobody holds. */
  lemma ReadsLiveIff(s: State, step: Step)
    requires Inv(s)
    ensures ReadsLive(s, step) <==> !(step.FindRecent? && Allowed(s, step) && !Held(s, step.id))
  {
    hide Counted, Scanned;
    PointersLive(s);
    if step.FindRecent? && Allowed(s, step) {
      LookupReadsLiveIff(s, step.id);
    } else if step.CloseSlot? && Allowed(s, step) {
      assert s.ring.recent[s.freed..][0] == s.ring.recent[s.freed];
    } else if Allowed(s, step) && (step.Sweep? || step.Retire?) {
      assert s.ring.recent[0..] == s.ring.recent;
    }
  }

  lemma LookupReadsLiveIff(s: State, id: string)
    requires Inv(s) && Allowed(s, FindRecent(id))
    ensures ReadsLive(s, FindRecent(id)) <==> Held(s, id)
  {
    hide Counted, Scanned;
    PointersLive(s);
    var n := Scanned(s.ring, id, 0);
    if Held(s, id) {
      forall j: nat | Some(j) in s.ring.recent[..n] ensures j < |s.ring.jobs| && s.ring.jobs[j].live {
        var i: nat :| i < n && s.ring.recent[i] == Some(j);
        if i >= s.freed { assert s.ring.recent[s.freed..][i - s.freed] == Some(j); }
      }
    }
    if ReadsLive(s, FindRecent(id)) {
      forall i: nat | i < s.freed && i < n && s.ring.recent[i].Some? ensures Reaches(s, s.ring.recent[i].value) {
        assert s.ring.recent[..n][i] == s.ring.recent[i];
        assert Reads(s, FindRecent(id), s.ring.recent[i].value);
      }
    }
  }

  lemma FindKeeps(s: State, step: Step)
    requires Inv(s) && ReadsLive(s, step) && Allowed(s, step) && (step.FindCurrent? || step.FindRecent?)
    ensures Inv(Next(s, step))
  {
    hide Hand, Match, Counted, Scanned;
    MatchFinds(s.ring, step.id, 0);
    MatchIsScanned(s.ring, step.id, 0);
    var found := if step.FindCurrent? then CurrentMatch(s, step.id) else Match(s.ring, step.id, 0);
    if found.Some? {
      if step.FindRecent? {
        var n := Scanned(s.ring, step.id, 0);
        assert s.ring.recent[..n][n - 1] == found;
      }
      assert Reads(s, step, found.value);
    }
    HandKeeps(s, found);
  }

  /** What every step that reads only live jobs keeps: the count is the pointers, a job lives while it is counted. */
  lemma StepKeepsInv(s: State, step: Step)
    requires Inv(s) && ReadsLive(s, step)
    ensures Inv(Next(s, step))
  {
    hide Counted, SweepSlot, Place, ClearSlot, Hand, Drop, Reads;
    if Allowed(s, step) {
      match step {
        case Publish(id, created) => PublishKeeps(s, id, created);
        case Lock(_) => SweepKeeps(s, step);
        case Sweep => SweepKeeps(s, step);
        case Retire => RetireKeeps(s);
        case FindCurrent(_) => FindKeeps(s, step);
        case FindRecent(_) => FindKeeps(s, step);
        case Release(j) => ReleaseKeeps(s, j);
        case Close => CloseKeeps(s, step);
        case CloseSlot => CloseKeeps(s, step);
      }
    }
  }

  // ---- whole runs ------------------------------------------------------

  /** A job's name and age never change, and a destroyed job is never brought back. */
  ghost predicate Onward(a: seq<Job>, b: seq<Job>) {
    && |a| <= |b|
    && forall j :: 0 <= j < |a| ==>
         a[j].id == b[j].id && a[j].created == b[j].created && (b[j].live ==> a[j].live)
  }

  lemma AppendIsOnward(jobs: seq<Job>, job: Job)
    ensures Onward(jobs, jobs + [job])
  {
  }

  lemma CountIsOnward(jobs: seq<Job>, j: nat)
    requires j < |jobs|
    ensures Onward(jobs, Free(jobs, j)) && Onward(jobs, Retain(jobs, j))
  {
  }

  lemma StepIsOnward(s: State, step: Step)
    requires Shape(s)
    ensures Onward(s.ring.jobs, Next(s, step).ring.jobs)
  {
    hide Free, Retain, Match, Onward, Expired;
    OnwardRefl(s.ring.jobs);
    forall j: nat | j < |s.ring.jobs| { CountIsOnward(s.ring.jobs, j); }
    if step.FindRecent? { MatchFinds(s.ring, step.id, 0); }
    if step.Publish? { AppendIsOnward(s.ring.jobs, Job(step.id, step.created, 1, true)); }
  }

  lemma OnwardRefl(a: seq<Job>)
    ensures Onward(a, a)
  {
  }

  lemma OnwardTrans(a: seq<Job>, b: seq<Job>, c: seq<Job>)
    requires Onward(a, b) && Onward(b, c)
    ensures Onward(a, c)
  {
  }

  /** The state after a run; a step whose guard fails does not happen. */
  ghost function After(steps: seq<Step>): (s: State)
    ensures Shape(s)
  {
    if steps == [] then StartInv(); Start()
    else
      var s := After(steps[..|steps| - 1]);
      StepKeepsShape(s, steps[|steps| - 1]);
      Next(s, steps[|steps| - 1])
  }

  /** No step of the run reads a destroyed job. */
  ghost predicate SafeRun(steps: seq<Step>) {
    forall k: nat :: k < |steps| ==> ReadsLive(After(steps[..k]), steps[k])
  }

  /** Whenever the run looks into the ring, the freed slots it meets are held elsewhere. */
  ghost predicate LookupsHeld(steps: seq<Step>) {
    forall k: nat :: k < |steps| ==> LookupHeld(After(steps[..k]), steps[k])
  }

  ghost predicate LookupHeld(s: State, step: Step)
    requires Shape(s)
  {
    step.FindRecent? && Allowed(s, step) ==> Held(s, step.id)
  }

  lemma PrefixSafe(steps: seq<Step>, m: nat)
    requires m <= |steps|
    ensures SafeRun(steps) ==> SafeRun(steps[..m])
    ensures LookupsHeld(steps) ==> LookupsHeld(steps[..m])
  {
    hide ReadsLive, LookupHeld, After;
    forall k: nat | k < m ensures steps[..m][..k] == steps[..k] && steps[..m][k] == steps[k] {
    }
  }

  /** In a run that reads only live jobs the books are right all along. */
  lemma {:induction false} SafeRunKeepsInv(steps: seq<Step>)
    requires SafeRun(steps)
    ensures Inv(After(steps))
  {
    hide Inv, Next, ReadsLive;
    if steps == [] {
      StartInv();
    } else {
      var m := |steps| - 1;
      PrefixSafe(steps, m);
      SafeRunKeepsInv(steps[..m]);
      assert ReadsLive(After(steps[..m]), steps[m]);
      StepKeepsInv(After(steps[..m]), steps[m]);
    }
  }

  /**
   A run reads no destroyed job exactly when none of its ring lookups meets a slot that
   the closing server has freed and that nobody else holds.
   */
  lemma {:induction false} RunIsSafeIff(steps: seq<Step>)
    ensures SafeRun(steps) <==> LookupsHeld(steps)
  {
    hide Inv, Held, ReadsLive;
    if steps != [] {
      var m := |steps| - 1;
      var last := steps[m];
      RunIsSafeIff(steps[..m]);
      PrefixSafe(steps, m);
      if SafeRun(steps[..m]) {
        SafeRunKeepsInv(steps[..m]);
        ReadsLiveIff(After(steps[..m]), last);
        LastDecides(steps);
      }
    }
  }

  lemma LastDecides(steps: seq<Step>)
    requires steps != [] && SafeRun(steps[..|steps| - 1]) && LookupsHeld(steps[..|steps| - 1])
    ensures var m := |steps| - 1;
      && (SafeRun(steps) <==> ReadsLive(After(steps[..m]), steps[m]))
      && (LookupsHeld(steps) <==> LookupHeld(After(steps[..m]), steps[m]))
  {
    hide ReadsLive, LookupHeld, After;
    var m := |steps| - 1;
    forall k: nat | k < m ensures ReadsLive(After(steps[..k]), steps[k]) && LookupHeld(After(steps[..k]), steps[k]) {
      assert steps[..m][..k] == steps[..k] && steps[..m][k] == steps[k];
    }
  }

  /** No lookup in the ring once the server has begun to free it. */
  ghost predicate Quiet(steps: seq<Step>) {
    forall k: nat :: k < |steps| && steps[k].FindRecent? ==> After(steps[..k]).freed == 0
  }

  /**
   In every interleaving without a ring lookup after the server began to free the ring,
   a job's count is the number of references to it, it is destroyed exactly when that
   number is zero, and no step reads a destroyed job.
   */
  lemma EveryRunIsSafe(steps: seq<Step>, j: nat)
    requires Quiet(steps)
    ensures SafeRun(steps)
    ensures var s := After(steps);
      && (j < |s.ring.jobs| ==>
            && s.ring.jobs[j].refs == Refs(s, j)
            && (s.ring.jobs[j].live <==> Refs(s, j) > 0))
      && (Reaches(s, j) ==> j < |s.ring.jobs| && s.ring.jobs[j].live)
  {
    assert LookupsHeld(steps) by { hide After; }
    RunIsSafeIff(steps);
    SafeRunKeepsInv(steps);
    hide After, Refs;
    PointersLive(After(steps));
  }

  lemma {:induction false} DestroyedForGood(steps: seq<Step>, n: nat)
    requires n <= |steps|
    ensures Onward(After(steps[..n]).ring.jobs, After(steps).ring.jobs)
    decreases |steps|
  {
    hide Next, Onward;
    if n == |steps| {
      assert steps[..n] == steps;
      OnwardRefl(After(steps).ring.jobs);
    } else {
      var m := |steps| - 1;
      DestroyedForGood(steps[..m], n);
      assert steps[..m][..n] == steps[..n];
      var s := After(steps[..m]);
      assert After(steps) == Next(s, steps[m]);
      StepIsOnward(s, steps[m]);
      OnwardTrans(After(steps[..n]).ring.jobs, s.ring.jobs, After(steps).ring.jobs);
    }
  }

  /** Freeing the server leaks nothing: once the ring has been gone through and no submit is left, every job is gone. */
  lemma ClosedServerLeaksNothing(steps: seq<Step>, j: nat)
    requires SafeRun(steps)
    requires var s := After(steps);
      s.closing && s.freed == RECENT_JOBS && s.holders == multiset{} && j < |s.ring.jobs|
    ensures !After(steps).ring.jobs[j].live
  {
    SafeRunKeepsInv(steps);
    hide After;
    PointersLive(After(steps));
  }

  // ---- a lookup while the server is being freed --------------------------

  lemma AfterStep(steps: seq<Step>, step: Step)
    ensures After(steps + [step]) == Next(After(steps), step)
  {
    assert (steps + [step])[..|steps|] == steps;
  }

  lemma {:induction false} AfterSweeps(steps: seq<Step>, n: nat)
    ensures After(steps + seq(n, _ => Sweep)) == Sweeps(After(steps), n)
  {
    hide Next;
    if n == 0 {
      assert steps + seq(0, _ => Sweep) == steps;
    } else {
      AfterSweeps(steps, n - 1);
      assert steps + seq(n, _ => Sweep) == steps + seq(n - 1, _ => Sweep) + [Sweep];
      AfterStep(steps + seq(n - 1, _ => Sweep), Sweep);
    }
  }

  /** One job replaced and retired, then the server freed as far as its slot. */
  ghost function ClosedEarly(a: string, b: string): seq<Step> {
    [Publish(a, 0), Publish(b, 0), Lock(0)] + seq(RECENT_JOBS, _ => Sweep) + [Retire] + [Close] + [CloseSlot]
  }

  /** Then any lookup that misses the current job reads the destroyed one: the slot was freed and not cleared. */
  lemma LateLookupReadsDestroyed(a: string, b: string, id: string)
    ensures var s := After(ClosedEarly(a, b));
      && Allowed(s, FindRecent(id)) && Reads(s, FindRecent(id), 0)
      && 0 < |s.ring.jobs| && !s.ring.jobs[0].live
    ensures !SafeRun(ClosedEarly(a, b) + [FindRecent(id)])
  {
    hide After, Sweeps, Next, ReadsLive;
    var start := [Publish(a, 0), Publish(b, 0), Lock(0)];
    var swept := start + seq(RECENT_JOBS, _ => Sweep);
    var s0 := TwoPublished(a, b);
    AfterSweeps(start, RECENT_JOBS);
    SweepsAre(s0, RECENT_JOBS);
    NothingToSweep(s0.ring, 0, RECENT_JOBS);
    AfterStep(swept, Retire);
    AfterStep(swept + [Retire], Close);
    AfterStep(swept + [Retire] + [Close], CloseSlot);
    assert ClosedEarly(a, b) == swept + [Retire] + [Close] + [CloseSlot];
    FreedSlotDangles(After(swept), id);
    var run := ClosedEarly(a, b) + [FindRecent(id)];
    assert run[..|run| - 1] == ClosedEarly(a, b) && run[|run| - 1] == FindRecent(id);
  }

  lemma FreedSlotDangles(s: State, id: string)
    requires Shape(s) && |s.ring.jobs| == 2 && s.ring.head == 0 && s.ring.jobs[0].refs == 1
    requires s.publisher == Sweeping(0, 0, RECENT_JOBS) && s.current == Some(1) && s.ring.recent[0].None?
    ensures var s1 := Next(s, Retire);
      && Shape(s1) && Shape(Next(s1, Close))
      && var d := Next(Next(s1, Close), CloseSlot);
         && Shape(d) && Allowed(d, FindRecent(id)) && Reads(d, FindRecent(id), 0) && !ReadsLive(d, FindRecent(id))
         && 0 < |d.ring.jobs| && !d.ring.jobs[0].live
  {
    StepKeepsShape(s, Retire);
    var s1 := Next(s, Retire);
    StepKeepsShape(s1, Close);
    var s2 := Next(s1, Close);
    StepKeepsShape(s2, CloseSlot);
    var d := Next(s2, CloseSlot);
    assert d.ring.recent[0] == Some(0) && !d.ring.jobs[0].live;
    assert d.ring.recent[..Scanned(d.ring, id, 0)][0] == Some(0);
    assert Reads(d, FindRecent(id), 0);
  }

  lemma TwoPublished(a: string, b: string) returns (s: State)
    ensures s == After([Publish(a, 0), Publish(b, 0), Lock(0)])
    ensures s.ring == Ring([Job(a, 0, 1, true), Job(b, 0, 1, true)], Start().ring.recent, 0)
    ensures s.current == Some(1) && s.publisher == Sweeping(0, 0, 0) && s.holders == multiset{}
    ensures !s.closing && s.freed == 0
  {
    assert [] + [Publish(a, 0)] == [Publish(a, 0)];
    AfterStep([], Publish(a, 0));
    assert [Publish(a, 0)] + [Publish(b, 0)] == [Publish(a, 0), Publish(b, 0)];
    AfterStep([Publish(a, 0)], Publish(b, 0));
    assert [Publish(a, 0), Publish(b, 0)] + [Lock(0)] == [Publish(a, 0), Publish(b, 0), Lock(0)];
    AfterStep([Publish(a, 0), Publish(b, 0)], Lock(0));
    s := After([Publish(a, 0), Publish(b, 0), Lock(0)]);
  }

  /** An empty ring has nothing to sweep. */
  lemma {:induction false} NothingToSweep(r: Ring, cutoff: nat, n: nat)
    requires RingShape(r) && n <= RECENT_JOBS && forall i :: 0 <= i < RECENT_JOBS ==> r.recent[i].None?
    ensures SweepAll(r, cutoff, n) == r
  {
    if n > 0 { NothingToSweep(r, cutoff, n - 1); }
  }

  // ---- what a lookup can see -------------------------------------------

  /** The two critical sections together: a job answers to its id from the current slot or the ring. */
  ghost predicate Resolvable(s: State, j: nat) {
    s.current == Some(j) || Some(j) in s.ring.recent
  }

  function LookupOf(r: Ring, current: Option<nat>, id: string): (found: Option<nat>)
    requires RingShape(r) && (current.Some? ==> current.value < |r.jobs|)
    ensures found.Some? ==> found.value < |r.jobs|
  {
    MatchFinds(r, id, 0);
    if current.Some? && r.jobs[current.value].id == id then current else Match(r, id, 0)
  }

  ghost predicate UniqueIds(jobs: seq<Job>) {
    && (forall j :: 0 <= j < |jobs| ==> jobs[j].id != "")
    && forall i, j :: 0 <= i < j < |jobs| ==> jobs[i].id != jobs[j].id
  }

  /** With unique ids a lookup finds exactly the resolvable job of that id. */
  lemma LookupFindsResolvable(s: State, j: nat)
    requires Inv(s) && j < |s.ring.jobs| && UniqueIds(s.ring.jobs)
    ensures var id := s.ring.jobs[j].id;
      Resolvable(s, j) <==> LookupOf(s.ring, s.current, id) == Some(j)
  {
    MatchFinds(s.ring, s.ring.jobs[j].id, 0);
  }

  /**
   Between the swap and the end of the retire the replaced job is in neither place: a
   submit for work that was current a moment ago is answered "stale or unknown job".
   */
  lemma ReplacedJobIsUnseen(a: string, b: string)
    requires a != b
    ensures var s := After([Publish(a, 0), Publish(b, 0)]);
      && s.publisher == Swapped(0) && s.ring.jobs[0].id == a && s.ring.jobs[0].live
      && CurrentMatch(s, a) == None && Match(s.ring, a, 0) == None
  {
    var one, two := [Publish(a, 0)], [Publish(a, 0), Publish(b, 0)];
    assert one[..0] == [] && two[..1] == one;
    assert After(one) == Next(Start(), one[0]);
    var s := After(two);
    assert s == Next(After(one), two[1]);
    MatchFinds(s.ring, a, 0);
  }

  // ---- how long a replaced job stays solvable ---------------------------

  /** How many jobs have gone through the ring. */
  function Retired(s: State): int {
    if |s.ring.jobs| == 0 then 0 else |s.ring.jobs| - 1 - One(!s.publisher.Idle?)
  }

  /** The one publisher retires in publication order, so job k goes into slot k mod 16. */
  ghost predicate Ordered(s: State) {
    s.closing ||
    (&& s.current == (if |s.ring.jobs| == 0 then None else Some(|s.ring.jobs| - 1))
     && (!s.publisher.Idle? ==> s.publisher.job == |s.ring.jobs| - 2)
     && s.ring.head == Retired(s) % RECENT_JOBS
     && InOrder(s.ring.recent, Retired(s)))
  }

  ghost predicate InOrder(recent: seq<Option<nat>>, retired: int) {
    forall i :: 0 <= i < |recent| && recent[i].Some? ==>
      recent[i].value % RECENT_JOBS == i && retired - RECENT_JOBS <= recent[i].value < retired
  }

  lemma NextHead(n: nat)
    ensures (n % RECENT_JOBS + 1) % RECENT_JOBS == (n + 1) % RECENT_JOBS
    ensures n >= RECENT_JOBS ==> (n - RECENT_JOBS) % RECENT_JOBS == n % RECENT_JOBS
  {
    var q, r := n / RECENT_JOBS, n % RECENT_JOBS;
    assert n == RECENT_JOBS * q + r;
    if r + 1 == RECENT_JOBS {
      assert n + 1 == RECENT_JOBS * (q + 1);
    } else {
      assert n + 1 == RECENT_JOBS * q + (r + 1);
    }
  }

  /** Every other slot holds a job that is still among the last sixteen. */
  lemma PlaceInOrder(r: Ring, retired: nat)
    requires RingShape(r) && r.head == retired % RECENT_JOBS && InOrder(r.recent, retired)
    requires retired < |r.jobs|
    ensures InOrder(Place(r, retired).recent, retired + 1)
    ensures Place(r, retired).head == (retired + 1) % RECENT_JOBS
  {
    hide Free;
    NextHead(retired);
    var after := Place(r, retired).recent;
    forall i | 0 <= i < |after| && after[i].Some?
      ensures after[i].value % RECENT_JOBS == i && retired + 1 - RECENT_JOBS <= after[i].value < retired + 1
    {
      if i != r.head {
        assert after[i] == r.recent[i];
        assert after[i].value != retired - RECENT_JOBS;
      }
    }
  }

  lemma SweepInOrder(r: Ring, cutoff: nat, i: nat, retired: int)
    requires RingShape(r) && i < RECENT_JOBS && InOrder(r.recent, retired)
    ensures InOrder(SweepSlot(r, cutoff, i).recent, retired)
  {
    hide Free, Expired;
  }

  /** Order is about who is where, not about the counts. */
  lemma SameOrder(a: State, b: State)
    requires Ordered(a) && b.closing == a.closing && b.current == a.current && b.publisher == a.publisher
    requires b.ring.recent == a.ring.recent && b.ring.head == a.ring.head && |b.ring.jobs| == |a.ring.jobs|
    ensures Ordered(b)
  {
    hide InOrder;
  }

  lemma StepKeepsOrder(s: State, step: Step)
    requires Shape(s) && Ordered(s)
    ensures Ordered(Next(s, step))
  {
    hide Place, SweepSlot, Free, Retain, Match, InOrder, RingShape;
    if Allowed(s, step) && !s.closing {
      match step {
        case Retire => PlaceInOrder(s.ring, s.publisher.job);
        case Sweep => SweepInOrder(s.ring, s.publisher.cutoff, s.publisher.slot, Retired(s));
        case FindCurrent(_) => SameOrder(s, Next(s, step));
        case FindRecent(id) =>
          MatchFinds(s.ring, id, 0);
          SameOrder(s, Next(s, step));
        case Release(_) => SameOrder(s, Next(s, step));
        case _ =>
      }
    } else if Allowed(s, step) && step.FindRecent? {
      MatchFinds(s.ring, step.id, 0);
    }
  }

  lemma {:induction false} RunsAreOrdered(steps: seq<Step>)
    ensures Ordered(After(steps))
  {
    if steps != [] {
      RunsAreOrdered(steps[..|steps| - 1]);
      StepKeepsOrder(After(steps[..|steps| - 1]), steps[|steps| - 1]);
    }
  }

  /** A lookup never reaches back further than 18 publications. */
  lemma ResolvableIsRecent(s: State, j: nat)
    requires Shape(s) && Ordered(s) && !s.closing && Resolvable(s, j)
    ensures |s.ring.jobs| - 18 <= j < |s.ring.jobs|
  {
  }

  /** Among the last sixteen jobs to have gone into the ring. */
  predicate Recent(s: State, j: nat) {
    Retired(s) - RECENT_JOBS <= j < Retired(s)
  }

  /** The step is a sweep that comes to the job's slot after its retire, with a clock reading past the job's TTL. */
  ghost predicate Outdates(s: State, step: Step, j: nat) {
    && step.Sweep? && Allowed(s, step) && s.publisher.slot == j % RECENT_JOBS
    && j < |s.ring.jobs| && j < Retired(s) && Expired(s.ring.jobs[j].created, s.publisher.cutoff)
  }

  /** Some sweep since the job's retire found it older than the TTL. */
  ghost predicate SweptOut(steps: seq<Step>, j: nat) {
    exists k: nat :: k < |steps| && Outdates(After(steps[..k]), steps[k], j)
  }

  lemma SweptOutStep(steps: seq<Step>, j: nat)
    requires steps != []
    ensures var m := |steps| - 1;
      SweptOut(steps, j) <==> SweptOut(steps[..m], j) || Outdates(After(steps[..m]), steps[m], j)
  {
    hide After, Outdates;
    var m := |steps| - 1;
    assert forall k: nat :: k < m ==> steps[..m][..k] == steps[..k] && steps[..m][k] == steps[k];
    if SweptOut(steps[..m], j) {
      var k: nat :| k < m && Outdates(After(steps[..m][..k]), steps[..m][k], j);
      assert Outdates(After(steps[..k]), steps[k], j);
    }
  }

  ghost predicate InSlot(s: State, j: nat)
    requires |s.ring.recent| == RECENT_JOBS
  {
    s.ring.recent[j % RECENT_JOBS] == Some(j)
  }

  /** Jobs only ever go into the ring. */
  lemma StepRetires(s: State, step: Step)
    requires Shape(s) && Ordered(s)
    ensures !Next(s, step).closing ==> !s.closing && Retired(s) <= Retired(Next(s, step))
    ensures step.Retire? && Allowed(s, step) && !s.closing ==>
      Retired(Next(s, step)) == Retired(s) + 1 == s.publisher.job + 1
    ensures !step.Retire? && !Next(s, step).closing ==> Retired(Next(s, step)) == Retired(s)
  {
    hide Place, SweepSlot, Match, InOrder, RingShape;
    if step.FindRecent? { MatchFinds(s.ring, step.id, 0); }
  }

  lemma PlaceSlots(r: Ring, retired: nat, j: nat)
    requires RingShape(r) && r.head == retired % RECENT_JOBS && retired < |r.jobs|
    requires retired - RECENT_JOBS < j <= retired
    ensures Place(r, retired).recent[j % RECENT_JOBS] == if j == retired then Some(j) else r.recent[j % RECENT_JOBS]
  {
    hide Free;
  }

  lemma SweepSlots(r: Ring, cutoff: nat, i: nat, j: nat)
    requires RingShape(r) && i < RECENT_JOBS && j < |r.jobs|
    ensures SweepSlot(r, cutoff, i).recent[j % RECENT_JOBS] == Some(j) <==>
      r.recent[j % RECENT_JOBS] == Some(j) && !(i == j % RECENT_JOBS && Expired(r.jobs[j].created, cutoff))
  {
    hide Expired, Free;
  }

  /** A recent job is in its slot after a step exactly if the step put it there, or left it there. */
  lemma StepSlot(s: State, step: Step, j: nat)
    requires Shape(s) && Ordered(s) && !Next(s, step).closing && Recent(Next(s, step), j)
    ensures |Next(s, step).ring.recent| == RECENT_JOBS
    ensures InSlot(Next(s, step), j) <==> j >= Retired(s) || (InSlot(s, j) && !Outdates(s, step, j))
  {
    hide Place, SweepSlot, Expired, Match, InOrder;
    StepKeepsShape(s, step);
    StepRetires(s, step);
    if Allowed(s, step) {
      match step {
        case Retire => PlaceSlots(s.ring, s.publisher.job, j);
        case Sweep => SweepSlots(s.ring, s.publisher.cutoff, s.publisher.slot, j);
        case FindRecent(id) => MatchFinds(s.ring, id, 0);
        case _ =>
      }
    }
  }

  /** A recent job is in its slot exactly if no sweep since its retire found it expired. */
  lemma {:induction false} InSlotIff(steps: seq<Step>, j: nat)
    requires !After(steps).closing
    ensures j >= Retired(After(steps)) ==> !SweptOut(steps, j)
    ensures Recent(After(steps), j) ==> (InSlot(After(steps), j) <==> !SweptOut(steps, j))
  {
    hide Next, Outdates, SweptOut, InSlot;
    if steps == [] {
      NothingSwept(j);
    } else {
      var m := |steps| - 1;
      var s, step := After(steps[..m]), steps[m];
      RunsAreOrdered(steps[..m]);
      StepRetires(s, step);
      InSlotIff(steps[..m], j);
      SweptOutStep(steps, j);
      OutdatesRetired(s, step, j);
      if Recent(After(steps), j) { StepSlot(s, step, j); }
    }
  }

  lemma NothingSwept(j: nat)
    ensures !SweptOut([], j)
  {
  }

  lemma OutdatesRetired(s: State, step: Step, j: nat)
    ensures Outdates(s, step, j) ==> j < Retired(s) && step.Sweep?
  {
  }

  /**
   Exactly which jobs answer: the current one, and of the last sixteen retired those no
   sweep since their retire found older than the TTL. The one just replaced is among
   neither until its retire is done.
   */
  lemma SolvableIff(steps: seq<Step>, j: nat)
    requires !After(steps).closing && j < |After(steps).ring.jobs|
    ensures var s := After(steps);
      var retired := |s.ring.jobs| - 1 - (if s.publisher.Idle? then 0 else 1);
      Resolvable(s, j) <==> j == |s.ring.jobs| - 1 || (retired - 16 <= j < retired && !SweptOut(steps, j))
  {
    RunsAreOrdered(steps);
    InSlotIff(steps, j);
    hide After, SweptOut;
    var s := After(steps);
    assert s.ring.recent[j % RECENT_JOBS] in s.ring.recent;
  }

  /** In every run a replaced job answers to no lookup until its retire is done. */
  lemma ReplacedJobWaits(steps: seq<Step>)
    requires var s := After(steps); !s.closing && !s.publisher.Idle?
    ensures !Resolvable(After(steps), After(steps).publisher.job)
  {
    RunsAreOrdered(steps);
    hide After;
  }

  // ---- the loops under the ring lock -----------------------------------

  /** The expiry sweep over the first `n` slots. */
  function SweepAll(r: Ring, cutoff: nat, n: nat): (r': Ring)
    requires RingShape(r) && n <= RECENT_JOBS
    ensures RingShape(r') && r'.head == r.head && |r'.jobs| == |r.jobs|
  {
    if n == 0 then r else SweepSlot(SweepAll(r, cutoff, n - 1), cutoff, n - 1)
  }

  /** The publisher's steps under the lock, in a row. */
  ghost function Sweeps(s: State, n: nat): (s': State)
    requires Shape(s)
    ensures Shape(s')
  {
    if n == 0 then s else Next(Sweeps(s, n - 1), Sweep)
  }

  lemma {:induction false} SweepsAre(s: State, n: nat)
    requires Shape(s) && s.publisher.Sweeping? && s.publisher.slot == 0 && n <= RECENT_JOBS
    ensures Sweeps(s, n) == s.(ring := SweepAll(s.ring, s.publisher.cutoff, n),
                               publisher := Sweeping(s.publisher.job, s.publisher.cutoff, n))
  {
    hide SweepSlot, Place, ClearSlot, Hand, Drop, Match, RingShape;
    if n > 0 { SweepsAre(s, n - 1); }
  }

  class JobServer {
    var jobs: seq<Job>
    var current: Option<nat>
    const recent: array<Option<nat>>
    var head: nat

    ghost function View(): Ring
      reads this, recent
    {
      Ring(jobs, recent[..], head)
    }

    ghost predicate Valid()
      reads this, recent
    {
      RingShape(View()) && (current.Some? ==> current.value < |jobs|)
    }

    constructor ()
      ensures Valid() && fresh(recent)
      ensures View() == Start().ring && current.None?
    {
      jobs, current, head := [], None, 0;
      recent := new Option<nat>[RECENT_JOBS](_ => None);
      new;
      assert recent[..] == Start().ring.recent;
    }

    method Drop(j: nat)
      requires j < |jobs|
      modifies this`jobs
      ensures jobs == Free(old(jobs), j)
    {
      jobs := jobs[j := jobs[j].(refs := jobs[j].refs - 1, live := jobs[j].live && jobs[j].refs != 1)];
    }

    /** The whole critical section: sweep, free the slot about to be overwritten, place, advance. */
    method RetireJob(j: nat, cutoff: nat)
      requires Valid() && j < |jobs|
      modifies this`jobs, this`head, recent
      ensures Valid()
      ensures View() == Place(SweepAll(old(View()), cutoff, RECENT_JOBS), j)
    {
      ghost var was := View();
      var i: nat := 0;
      while i < RECENT_JOBS
        invariant i <= RECENT_JOBS && RingShape(View())
        invariant View() == SweepAll(was, cutoff, i)
      {
        assert View().recent[i] == recent[i];
        ghost var before := View();
        if recent[i].Some? && Expired(jobs[recent[i].value].created, cutoff) {
          Drop(recent[i].value);
          recent[i] := None;
        }
        assert View() == SweepSlot(before, cutoff, i);
        i := i + 1;
      }
      ghost var swept := View();
      assert swept.recent[head] == recent[head];
      if recent[head].Some? {
        Drop(recent[head].value);
      }
      recent[head] := Some(j);
      head := (head + 1) % RECENT_JOBS;
      assert View() == Place(swept, j);
    }

    /** Both lookups, one after the other: the current slot wins, then the first ring slot. */
    method FindJob(id: string) returns (found: Option<nat>)
      requires Valid()
      modifies this`jobs
      ensures Valid() && found == LookupOf(old(View()), old(current), id)
      ensures jobs == if found.None? then old(jobs) else Retain(old(jobs), found.value)
    {
      if current.Some? && jobs[current.value].id == id {
        found := current;
        jobs := jobs[current.value := jobs[current.value].(refs := jobs[current.value].refs + 1)];
        return;
      }
      var i: nat := 0;
      while i < RECENT_JOBS
        invariant i <= RECENT_JOBS && jobs == old(jobs)
        invariant Match(View(), id, 0) == Match(View(), id, i)
      {
        assert View().recent[i] == recent[i];
        if recent[i].Some? && jobs[recent[i].value].id == id {
          found := recent[i];
          jobs := jobs[recent[i].value := jobs[recent[i].value].(refs := jobs[recent[i].value].refs + 1)];
          return;
        }
        i := i + 1;
      }
      found := None;
    }
  }
}
