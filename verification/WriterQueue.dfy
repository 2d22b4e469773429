/**
 The store's batched writer: producers append accepted shares, rejects, blocks and
 credits to a bounded ring, one thread drains them into transactions, retries a
 failed commit and counts what it has to give up (src/store.c).
 */
module WriterQueue {

  datatype Kind = Share | Reject | Found | Credit

  datatype Event = Event(kind: Kind, worker: string, sats: int)

  const COMMIT_ATTEMPTS: nat := 3

  // ---- the ring --------------------------------------------------------

  datatype Queue = Queue(ring: seq<Event>, head: nat, tail: nat, count: nat)

  /** The slot `i` places after `from`, going round. */
  function Pos(cap: nat, from: nat, i: nat): nat
    requires from < cap && i <= cap
  {
    if from + i < cap then from + i else from + i - cap
  }

  lemma PosIsNext(cap: nat, from: nat)
    requires from < cap
    ensures (from + 1) % cap == Pos(cap, from, 1)
  {
    if from + 1 < cap { assert (from + 1) % cap == from + 1; } else { assert cap % cap == 0; }
  }

  ghost predicate Sound(q: Queue) {
    && q.tail < |q.ring| && q.count <= |q.ring|
    && q.head == Pos(|q.ring|, q.tail, q.count)
  }

  /** The events waiting, oldest first. */
  ghost function Waiting(q: Queue): (s: seq<Event>)
    requires Sound(q)
    ensures |s| == q.count
  {
    seq(q.count, i requires 0 <= i < q.count => q.ring[Pos(|q.ring|, q.tail, i)])
  }

  /** A full ring refuses the event and stays as it is. */
  function Put(q: Queue, e: Event): Queue
    requires q.head < |q.ring|
  {
    if q.count == |q.ring| then q
    else Queue(q.ring[q.head := e], (q.head + 1) % |q.ring|, q.tail, q.count + 1)
  }

  function Take(q: Queue, n: nat): Queue
    requires q.tail < |q.ring| && n <= q.count <= |q.ring|
  {
    q.(tail := Pos(|q.ring|, q.tail, n), count := q.count - n)
  }

  lemma PutAppends(q: Queue, e: Event)
    requires Sound(q)
    ensures Sound(Put(q, e))
    ensures Waiting(Put(q, e)) == if q.count == |q.ring| then Waiting(q) else Waiting(q) + [e]
  {
    PosIsNext(|q.ring|, q.head);
  }

  lemma TakeSplits(q: Queue, n: nat)
    requires Sound(q) && n <= q.count
    ensures Sound(Take(q, n))
    ensures Waiting(q)[..n] + Waiting(Take(q, n)) == Waiting(q)
  {
    forall i | 0 <= i < q.count - n ensures Waiting(Take(q, n))[i] == Waiting(q)[n + i] {
    }
    assert Waiting(Take(q, n)) == Waiting(q)[n..];
  }

  // ---- the protocol ----------------------------------------------------

  /** What happens to one event inside a transaction: whether its worker is resolved, and its row inserted. */
  datatype Fate = Fate(resolved: bool, inserted: bool)

  /** The fate of each event of a batch, by position. */
  type Fates = nat -> Fate

  /** A batch that committed may lack rows whose own insert failed. */
  datatype Outcome = Committed(fates: Fates) | Lost

  datatype Batch = Batch(events: seq<Event>, outcome: Outcome)

  /** Where the writer thread is: holding the queue lock, in the database, or on its way back. */
  datatype Writer =
    | Idle
    | Committing(batch: seq<Event>, seqAfter: int, attempt: nat)
    | Reporting(seqAfter: int)

  /** How one attempt at the transaction ended; only a commit leaves anything behind. */
  datatype Attempt = BeginFails | CommitFails(fates: Fates) | Commits(fates: Fates)

  /**
   `errors` is the pool's error counter. `accepted`, `unwritten` and `done` record what was
   queued, how many rows failed in batches that committed, and what became of every batch.
   */
  datatype State = State(
    queue: Queue,
    commitMax: nat,
    enqueueSeq: nat,
    committedSeq: int,
    eventsLost: nat,
    errors: nat,
    writer: Writer,
    accepted: seq<Event>,
    unwritten: nat,
    done: seq<Batch>)

  datatype Step =
    | Enqueue(event: Event)
    | Drain
    | Try(attempt: Attempt)
    | Report

  function Least(a: nat, b: nat): nat {
    if a < b then a else b
  }

  ghost function Next(s: State, step: Step): State
    requires Sound(s.queue)
  {
    match step
    case Enqueue(e) =>
      if s.queue.count == |s.queue.ring| then s
      else s.(queue := Put(s.queue, e), enqueueSeq := s.enqueueSeq + 1, accepted := s.accepted + [e])
    case Drain =>
      var n := Least(s.queue.count, s.commitMax);
      if !s.writer.Idle? || n == 0 then s
      else s.(queue := Take(s.queue, n),
              writer := Committing(Waiting(s.queue)[..n], s.enqueueSeq - (s.queue.count - n), 1))
    case Try(a) =>
      if !s.writer.Committing? then s
      else Tried(s, a)
    case Report =>
      if !s.writer.Reporting? then s else s.(committedSeq := s.writer.seqAfter, writer := Idle)
  }

  /** Shares and credits need their worker; a block with a named finder asks for it, and is written regardless. */
  predicate NeedsWorker(e: Event) {
    e.kind == Share || e.kind == Credit
  }

  predicate Written(e: Event, f: Fate) {
    f.inserted && (NeedsWorker(e) ==> f.resolved)
  }

  /** An unresolved worker is counted once by the lookup, and once more by an event that needs it. */
  function RowErrors(e: Event, f: Fate): nat {
    if NeedsWorker(e) && !f.resolved then 2
    else
      (if e.kind == Found && e.worker != "" && !f.resolved then 1 else 0) + (if f.inserted then 0 else 1)
  }

  /** The rows of a batch that were written. */
  function Kept(events: seq<Event>, fates: Fates): (r: seq<Event>)
    ensures |r| <= |events|
  {
    if events == [] then []
    else
      var n := |events| - 1;
      Kept(events[..n], fates) + if Written(events[n], fates(n)) then [events[n]] else []
  }

  function Missing(events: seq<Event>, fates: Fates): nat {
    |events| - |Kept(events, fates)|
  }

  /** What the rows of a batch add to the error counter: at least one for each that is missing. */
  function BatchErrors(events: seq<Event>, fates: Fates): (n: nat)
    ensures n >= Missing(events, fates)
  {
    if events == [] then 0
    else BatchErrors(events[..|events| - 1], fates) + RowErrors(events[|events| - 1], fates(|events| - 1))
  }

  /** What an attempt adds to the error counter. */
  function ErrorsOf(events: seq<Event>, a: Attempt): nat {
    match a
    case BeginFails => 1
    case CommitFails(fates) => BatchErrors(events, fates) + 1
    case Commits(fates) => BatchErrors(events, fates)
  }

  /** One attempt: commit, try again, or give the batch up. */
  function Tried(s: State, a: Attempt): State
    requires s.writer.Committing?
  {
    var w, errors := s.writer, s.errors + ErrorsOf(s.writer.batch, a);
    if a.Commits? then
      s.(done := s.done + [Batch(w.batch, Committed(a.fates))], writer := Reporting(w.seqAfter),
         errors := errors, unwritten := s.unwritten + Missing(w.batch, a.fates))
    else if w.attempt < COMMIT_ATTEMPTS then s.(writer := w.(attempt := w.attempt + 1), errors := errors)
    else
      s.(done := s.done + [Batch(w.batch, Lost)], eventsLost := s.eventsLost + |w.batch|,
         writer := Reporting(w.seqAfter), errors := errors)
  }

  // ---- where every event is ---------------------------------------------

  /** The events of the finished batches, in order. */
  ghost function Through(done: seq<Batch>): seq<Event> {
    if done == [] then [] else Through(done[..|done| - 1]) + done[|done| - 1].events
  }

  function Rows(b: Batch): seq<Event> {
    if b.outcome.Committed? then Kept(b.events, b.outcome.fates) else []
  }

  /** The events the database holds. */
  ghost function Stored(done: seq<Batch>): seq<Event> {
    if done == [] then [] else Stored(done[..|done| - 1]) + Rows(done[|done| - 1])
  }

  function InHand(w: Writer): seq<Event> {
    if w.Committing? then w.batch else []
  }

  lemma ThroughAppends(done: seq<Batch>, b: Batch)
    ensures Through(done + [b]) == Through(done) + b.events
    ensures Stored(done + [b]) == Stored(done) + Rows(b)
  {
    assert (done + [b])[..|done|] == done;
  }

  /**
   Every accepted event is in exactly one place, in the order it was accepted: a
   finished batch, the batch in hand, or the ring. The counters agree with that.
   */
  ghost predicate Accounted(s: State) {
    && Sound(s.queue)
    && s.accepted == Through(s.done) + InHand(s.writer) + Waiting(s.queue)
    && s.enqueueSeq == |s.accepted|
    && s.eventsLost + s.unwritten + |Stored(s.done)| == |Through(s.done)|
    && s.unwritten <= s.errors && (s.errors == 0 ==> s.eventsLost == 0)
  }

  ghost predicate Reported(s: State) {
    match s.writer
    case Idle => s.committedSeq == |Through(s.done)|
    case Committing(batch, seqAfter, attempt) =>
      && s.committedSeq == |Through(s.done)| && seqAfter == s.committedSeq + |batch|
      && 0 < |batch| <= s.commitMax && 1 <= attempt <= COMMIT_ATTEMPTS
    case Reporting(seqAfter) => s.committedSeq < seqAfter == |Through(s.done)|
  }

  ghost predicate Inv(s: State) {
    Accounted(s) && Reported(s)
  }

  lemma EnqueueKeeps(s: State, e: Event)
    requires Inv(s)
    ensures Inv(Next(s, Enqueue(e)))
  {
    hide Waiting, Put;
    PutAppends(s.queue, e);
    if s.queue.count < |s.queue.ring| {
      var front := Through(s.done) + InHand(s.writer);
      assert front + (Waiting(s.queue) + [e]) == (front + Waiting(s.queue)) + [e];
    }
  }

  lemma DrainKeeps(s: State)
    requires Inv(s)
    ensures Inv(Next(s, Drain))
  {
    hide Waiting, Take;
    var n := Least(s.queue.count, s.commitMax);
    if s.writer.Idle? && n > 0 {
      TakeSplits(s.queue, n);
      assert s.queue.count <= s.enqueueSeq;
      var batch, rest := Waiting(s.queue)[..n], Waiting(Take(s.queue, n));
      assert Through(s.done) + [] + (batch + rest) == Through(s.done) + batch + rest;
    }
  }

  /** A batch that leaves the writer's hands is still accounted for. */
  lemma FinishKeeps(s: State, outcome: Outcome, t: State)
    requires Inv(s) && s.writer.Committing?
    requires var b := Batch(s.writer.batch, outcome);
      && t.done == s.done + [b] && t.writer == Reporting(s.writer.seqAfter)
      && t.eventsLost + t.unwritten + |Rows(b)| == s.eventsLost + s.unwritten + |b.events|
    requires t.unwritten <= t.errors && (t.errors == 0 ==> t.eventsLost == 0)
    requires t.queue == s.queue && t.accepted == s.accepted
    requires t.enqueueSeq == s.enqueueSeq && t.committedSeq == s.committedSeq
    ensures Inv(t)
  {
    hide Waiting, Rows, Through, Stored;
    ThroughAppends(s.done, Batch(s.writer.batch, outcome));
    assert Through(s.done) + s.writer.batch == Through(t.done);
    assert Through(t.done) + [] == Through(t.done);
  }

  lemma TryKeeps(s: State, a: Attempt)
    requires Inv(s)
    ensures Inv(Next(s, Try(a)))
  {
    hide Waiting, Through, Stored, Kept, BatchErrors;
    if s.writer.Committing? {
      var t := Next(s, Try(a));
      if a.Commits? {
        FinishKeeps(s, Committed(a.fates), t);
      } else if s.writer.attempt == COMMIT_ATTEMPTS {
        FinishKeeps(s, Lost, t);
      }
    }
  }

  lemma StepKeepsInv(s: State, step: Step)
    requires Inv(s)
    ensures Inv(Next(s, step))
  {
    match step {
      case Enqueue(e) => EnqueueKeeps(s, e);
      case Drain => DrainKeeps(s);
      case Try(a) => TryKeeps(s, a);
      case Report => hide Through, Stored, Waiting;
    }
  }

  ghost predicate Config(cap: nat, commitMax: nat) {
    0 < cap && 0 < commitMax
  }

  const BLANK: Event := Event(Share, "", 0)

  ghost function Start(cap: nat, commitMax: nat): (s: State)
    requires Config(cap, commitMax)
    ensures Inv(s)
  {
    State(Queue(seq(cap, _ => BLANK), 0, 0, 0), commitMax, 0, 0, 0, 0, Idle, [], 0, [])
  }

  /** The state after any interleaving of producers, drains, attempts and reports. */
  ghost function After(start: State, steps: seq<Step>): (s: State)
    requires Inv(start)
    ensures Inv(s)
    decreases |steps|
  {
    if steps == [] then start
    else
      var s := After(start, steps[..|steps| - 1]);
      StepKeepsInv(s, steps[|steps| - 1]);
      Next(s, steps[|steps| - 1])
  }

  /**
   Over every run the accepted events are, in order, those of the finished batches,
   the batch in hand and the ring, and each one is stored, counted as lost, a row that
   failed on its own, or still on its way.
   */
  lemma NothingIsDroppedSilently(cap: nat, commitMax: nat, steps: seq<Step>)
    requires Config(cap, commitMax)
    ensures var s := After(Start(cap, commitMax), steps);
      && s.accepted == Through(s.done) + InHand(s.writer) + Waiting(s.queue)
      && s.enqueueSeq == |s.accepted|
           == |Stored(s.done)| + s.eventsLost + s.unwritten + |InHand(s.writer)| + s.queue.count
  {
    hide Through, Stored, Start, After, Reported, Waiting;
    var s := After(Start(cap, commitMax), steps);
    assert Accounted(s);
  }

  // ---- flush -----------------------------------------------------------

  /** History is only ever added to, and the committed sequence number only grows. */
  ghost predicate Grows(a: State, b: State) {
    && a.accepted <= b.accepted && a.done <= b.done
    && a.committedSeq <= b.committedSeq && a.eventsLost <= b.eventsLost && a.errors <= b.errors
  }

  lemma StepGrows(s: State, step: Step)
    requires Inv(s)
    ensures Grows(s, Next(s, step))
  {
    hide Through, Stored, Waiting, Put, Take;
  }

  lemma {:induction false} RunGrows(start: State, steps: seq<Step>, n: nat)
    requires Inv(start) && n <= |steps|
    ensures Grows(After(start, steps[..n]), After(start, steps))
    decreases |steps|
  {
    hide Through, Stored, Waiting, Next;
    if n == |steps| {
      assert steps[..n] == steps;
    } else {
      var m := |steps| - 1;
      RunGrows(start, steps[..m], n);
      assert steps[..m][..n] == steps[..n];
      StepGrows(After(start, steps[..m]), steps[m]);
      assert After(start, steps) == Next(After(start, steps[..m]), steps[m]);
    }
  }

  /** The flush waits until the committed number reaches what had been queued when it began. */
  predicate FlushReturns(target: nat, s: State) {
    s.committedSeq >= target
  }

  /**
   A flush that returns has seen every event queued before it through its batch; and
   once they are through and the writer has reported, it returns.
   */
  lemma FlushSeesAllThrough(start: State, steps: seq<Step>, n: nat)
    requires Inv(start) && n <= |steps|
    ensures var before, s := After(start, steps[..n]), After(start, steps);
      && (FlushReturns(before.enqueueSeq, s) ==> before.accepted <= Through(s.done))
      && (!s.writer.Reporting? && before.accepted <= Through(s.done) ==> FlushReturns(before.enqueueSeq, s))
  {
    hide Through, Stored, Waiting, After;
    RunGrows(start, steps, n);
    var before, s := After(start, steps[..n]), After(start, steps);
    assert Through(s.done) <= s.accepted;
    assert s.committedSeq <= |Through(s.done)|;
  }

  lemma {:induction false} AllKept(events: seq<Event>, fates: Fates)
    requires |Kept(events, fates)| == |events|
    ensures Kept(events, fates) == events
  {
    if events != [] {
      AllKept(events[..|events| - 1], fates);
      assert events == events[..|events| - 1] + [events[|events| - 1]];
    }
  }

  lemma {:induction false} NothingMissingIsStored(done: seq<Batch>)
    ensures |Stored(done)| <= |Through(done)|
    ensures |Stored(done)| == |Through(done)| ==> Stored(done) == Through(done)
  {
    hide Kept;
    if done != [] {
      var last := done[|done| - 1];
      NothingMissingIsStored(done[..|done| - 1]);
      if last.outcome.Committed? && |Rows(last)| == |last.events| { AllKept(last.events, last.outcome.fates); }
    }
  }

  /** With nothing lost and no row failed, the flushed events are in the database, first and in order. */
  lemma FlushPersists(start: State, steps: seq<Step>, n: nat)
    requires Inv(start) && n <= |steps|
    requires var before, s := After(start, steps[..n]), After(start, steps);
      FlushReturns(before.enqueueSeq, s) && s.eventsLost == 0 && s.unwritten == 0
    ensures After(start, steps[..n]).accepted <= Stored(After(start, steps).done)
  {
    hide Through, Stored, Waiting, After;
    FlushSeesAllThrough(start, steps, n);
    NothingMissingIsStored(After(start, steps).done);
  }

  /**
   A flush over everything that has been through a batch means persisted exactly when
   nothing was counted as lost and no row failed; the error counter at zero says both.
   */
  lemma FlushPersistsIff(start: State, steps: seq<Step>, n: nat)
    requires Inv(start) && n <= |steps|
    requires var before, s := After(start, steps[..n]), After(start, steps);
      FlushReturns(before.enqueueSeq, s) && |Through(s.done)| == before.enqueueSeq
    ensures var before, s := After(start, steps[..n]), After(start, steps);
      && (before.accepted <= Stored(s.done) <==> s.eventsLost == 0 && s.unwritten == 0)
      && (s.errors == 0 ==> before.accepted <= Stored(s.done))
  {
    hide Through, Stored, Waiting, After;
    var s := After(start, steps);
    if s.eventsLost == 0 && s.unwritten == 0 { FlushPersists(start, steps, n); }
  }

  // ---- which rows, how many errors --------------------------------------

  /** The row went in: its insert succeeded, and the worker a share or a credit needs was there. */
  predicate WentIn(e: Event, f: Fate) {
    f.inserted && (f.resolved || e.kind == Reject || e.kind == Found)
  }

  /** The rows written are those at `idx`, in the batch's order. */
  ghost predicate AreRows(rows: seq<Event>, events: seq<Event>, fates: Fates, idx: seq<nat>) {
    && |rows| == |idx|
    && (forall j :: 0 <= j < |idx| ==> idx[j] < |events| && rows[j] == events[idx[j]])
    && (forall i, j :: 0 <= i < j < |idx| ==> idx[i] < idx[j])
    && (forall i: nat :: i < |events| ==> (i in idx <==> WentIn(events[i], fates(i))))
  }

  /** A row that fails takes no other with it: exactly those that went in are written, in order. */
  lemma {:induction false} KeptAre(events: seq<Event>, fates: Fates) returns (idx: seq<nat>)
    ensures AreRows(Kept(events, fates), events, fates, idx)
  {
    idx := [];
    if events != [] {
      var n := |events| - 1;
      var before := KeptAre(events[..n], fates);
      var rows := Kept(events[..n], fates);
      var went := WentIn(events[n], fates(n));
      idx := if went then before + [n] else before;
      assert Kept(events, fates) == if went then rows + [events[n]] else rows;
      hide Kept;
      RowsStep(rows, events, fates, before, n);
    }
  }

  lemma RowsStep(rows: seq<Event>, events: seq<Event>, fates: Fates, idx: seq<nat>, n: nat)
    requires |events| == n + 1 && AreRows(rows, events[..n], fates, idx)
    ensures WentIn(events[n], fates(n)) ==> AreRows(rows + [events[n]], events, fates, idx + [n])
    ensures !WentIn(events[n], fates(n)) ==> AreRows(rows, events, fates, idx)
  {
    hide WentIn;
    assert forall i: nat :: i < n ==> events[..n][i] == events[i];
    assert n !in idx;
    forall i: nat | i < n ensures i in idx <==> WentIn(events[i], fates(i)) {
      assert i in idx <==> WentIn(events[..n][i], fates(i));
    }
  }

  /** What can go wrong with a row. */
  datatype Trouble = NoWorker | NotInserted | NoFinder

  predicate Has(t: Trouble, e: Event, f: Fate) {
    var needed := e.kind == Share || e.kind == Credit;
    match t
    case NoWorker => needed && !f.resolved
    case NotInserted => !f.inserted && !(needed && !f.resolved)
    case NoFinder => e.kind == Found && e.worker != "" && !f.resolved
  }

  function CountOf(t: Trouble, events: seq<Event>, fates: Fates): nat {
    if events == [] then 0
    else
      var n := |events| - 1;
      CountOf(t, events[..n], fates) + if Has(t, events[n], fates(n)) then 1 else 0
  }

  /**
   Two errors for a share or credit without its worker, one for any other row that did not
   go in, and one for a block's finder that could not be resolved.
   */
  lemma {:induction false} ErrorsAre(events: seq<Event>, fates: Fates)
    ensures BatchErrors(events, fates) == 2 * CountOf(NoWorker, events, fates) + CountOf(NotInserted, events, fates)
                                          + CountOf(NoFinder, events, fates)
  {
    if events != [] { ErrorsAre(events[..|events| - 1], fates); }
  }

  // ---- the retries -----------------------------------------------------

  function Tries(s: State, attempts: seq<Attempt>): State
    decreases |attempts|
  {
    if attempts == [] || !s.writer.Committing? then s else Tries(Tried(s, attempts[0]), attempts[1..])
  }

  /** The first commit among the attempts decides the batch; every attempt up to it counts its errors. */
  datatype Decision = Decision(outcome: Outcome, errors: nat)

  function Decide(events: seq<Event>, attempts: seq<Attempt>): Decision {
    if attempts == [] then Decision(Lost, 0)
    else
      var a, e := attempts[0], ErrorsOf(events, attempts[0]);
      if a.Commits? then Decision(Committed(a.fates), e)
      else
        var rest := Decide(events, attempts[1..]);
        rest.(errors := rest.errors + e)
  }

  lemma DecideThree(events: seq<Event>, a: Attempt, b: Attempt, c: Attempt)
    ensures var d := Decide(events, [a, b, c]);
      if a.Commits? then d == Decision(Committed(a.fates), ErrorsOf(events, a))
      else if b.Commits? then d == Decision(Committed(b.fates), ErrorsOf(events, a) + ErrorsOf(events, b))
      else
        && d.errors == ErrorsOf(events, a) + ErrorsOf(events, b) + ErrorsOf(events, c)
        && d.outcome == if c.Commits? then Committed(c.fates) else Lost
  {
    hide ErrorsOf;
    assert [a, b, c][1..] == [b, c] && [b, c][1..] == [c] && [c][1..] == [];
    assert Decide(events, []) == Decision(Lost, 0);
    assert Decide(events, [c]).outcome == if c.Commits? then Committed(c.fates) else Lost;
  }

  /** A transaction that cannot begin or cannot commit is one error more. */
  lemma AttemptErrors(events: seq<Event>, fates: Fates)
    ensures ErrorsOf(events, BeginFails) == 1
    ensures ErrorsOf(events, CommitFails(fates)) == ErrorsOf(events, Commits(fates)) + 1
    ensures ErrorsOf(events, Commits(fates)) == BatchErrors(events, fates)
  {
  }

  /** The retry loop ends as the steps do: stored by the first commit among three, else lost once. */
  lemma AttemptsDecide(s: State, a: Attempt, b: Attempt, c: Attempt)
    requires s.writer.Committing? && s.writer.attempt == 1
    ensures var t, d := Tries(s, [a, b, c]), Decide(s.writer.batch, [a, b, c]);
      && t.writer == Reporting(s.writer.seqAfter) && t.committedSeq == s.committedSeq && t.queue == s.queue
      && t.done == s.done + [Batch(s.writer.batch, d.outcome)]
      && t.errors == s.errors + d.errors
      && t.eventsLost == s.eventsLost + (if d.outcome.Lost? then |s.writer.batch| else 0)
  {
    hide ErrorsOf, Missing, BatchErrors;
    DecideThree(s.writer.batch, a, b, c);
    TriesThree(s, a, b, c);
  }

  lemma TriesThree(s: State, a: Attempt, b: Attempt, c: Attempt)
    requires s.writer.Committing? && s.writer.attempt == 1
    ensures Tries(s, [a, b, c]) ==
      if a.Commits? then Tried(s, a)
      else if b.Commits? then Tried(Tried(s, a), b)
      else Tried(Tried(Tried(s, a), b), c)
  {
    hide ErrorsOf, Missing, BatchErrors;
    assert [a, b, c][1..] == [b, c] && [b, c][1..] == [c] && [c][1..] == [];
    var s1 := Tried(s, a);
    assert Tries(s, [a, b, c]) == Tries(s1, [b, c]);
    if !a.Commits? {
      var s2 := Tried(s1, b);
      assert Tries(s1, [b, c]) == Tries(s2, [c]);
      if !b.Commits? { assert Tries(s2, [c]) == Tries(Tried(s2, c), []); }
    }
  }

  // ---- a flush over a batch that was given up ----------------------------

  lemma AfterStep(start: State, steps: seq<Step>, step: Step)
    requires Inv(start)
    ensures After(start, steps + [step]) == Next(After(start, steps), step)
  {
    assert (steps + [step])[..|steps|] == steps;
  }

  /** One event queued, drained, and three attempts that do not commit. */
  function DoomedRun(e: Event, a: Attempt, b: Attempt, c: Attempt): seq<Step> {
    [Enqueue(e)] + [Drain] + [Try(a)] + [Try(b)] + [Try(c)] + [Report]
  }

  /**
   From a fresh store, whatever the event: the flush that began after it was queued
   returns, and the event is not in the database. The number the flush waits for is
   not, as its comment says, the highest that was persisted.
   */
  lemma FlushReturnsOnLoss(cap: nat, commitMax: nat, e: Event, a: Attempt, b: Attempt, c: Attempt)
    requires Config(cap, commitMax) && !a.Commits? && !b.Commits? && !c.Commits?
    ensures var start, run := Start(cap, commitMax), DoomedRun(e, a, b, c);
      && After(start, run[..1]).accepted == [e] && After(start, run[..1]).enqueueSeq == 1
      && FlushReturns(1, After(start, run))
      && Stored(After(start, run).done) == [] && After(start, run).eventsLost == 1
  {
    hide After, Next, Stored;
    var start := Start(cap, commitMax);
    var s2 := Drained(cap, commitMax, e);
    var head := [Enqueue(e)] + [Drain];
    AfterStep(start, head, Try(a));
    AfterStep(start, head + [Try(a)], Try(b));
    AfterStep(start, head + [Try(a)] + [Try(b)], Try(c));
    AfterStep(start, head + [Try(a)] + [Try(b)] + [Try(c)], Report);
    var _, _, _ := GivenUp(s2, e, a, b, c);
    var run := DoomedRun(e, a, b, c);
    assert run[..1] == [Enqueue(e)];
  }

  lemma Drained(cap: nat, commitMax: nat, e: Event) returns (s: State)
    requires Config(cap, commitMax)
    ensures s == After(Start(cap, commitMax), [Enqueue(e)] + [Drain])
    ensures s.writer == Committing([e], 1, 1) && s.done == [] && s.eventsLost == 0
    ensures var one := After(Start(cap, commitMax), [Enqueue(e)]); one.accepted == [e] && one.enqueueSeq == 1
  {
    hide After, Waiting, Put, Take;
    var start := Start(cap, commitMax);
    assert After(start, []) == start by { AfterNothing(start); }
    assert [] + [Enqueue(e)] == [Enqueue(e)];
    AfterStep(start, [], Enqueue(e));
    var one := After(start, [Enqueue(e)]);
    PutAppends(start.queue, e);
    PutCounts(start.queue, e);
    assert Waiting(one.queue) == [] + [e];
    AfterStep(start, [Enqueue(e)], Drain);
    s := After(start, [Enqueue(e)] + [Drain]);
    assert Waiting(one.queue)[..1] == [e];
  }

  lemma AfterNothing(start: State)
    requires Inv(start)
    ensures After(start, []) == start
  {
  }

  lemma PutCounts(q: Queue, e: Event)
    requires Sound(q) && q.count < |q.ring|
    ensures Put(q, e).count == q.count + 1 && (q.count == 0 ==> Waiting(q) == [])
  {
  }

  lemma GivenUp(s: State, e: Event, a: Attempt, b: Attempt, c: Attempt) returns (s1: State, s2: State, s3: State)
    requires Inv(s) && s.writer == Committing([e], 1, 1) && s.done == [] && s.eventsLost == 0
    requires !a.Commits? && !b.Commits? && !c.Commits?
    ensures s1 == Next(s, Try(a)) && Inv(s1)
    ensures s2 == Next(s1, Try(b)) && Inv(s2)
    ensures s3 == Next(s2, Try(c)) && Inv(s3)
    ensures var s4 := Next(s3, Report); s4.committedSeq == 1 && Stored(s4.done) == [] && s4.eventsLost == 1
  {
    hide Waiting, Through, Accounted, Reported, ErrorsOf;
    StepKeepsInv(s, Try(a));
    assert Sound(s.queue) by { SoundIn(s); }
    s1 := Next(s, Try(a));
    StepKeepsInv(s1, Try(b));
    assert Sound(s1.queue) by { SoundIn(s1); }
    s2 := Next(s1, Try(b));
    StepKeepsInv(s2, Try(c));
    assert Sound(s2.queue) by { SoundIn(s2); }
    s3 := Next(s2, Try(c));
    assert s3.done == [] + [Batch([e], Lost)];
    ThroughAppends([], Batch([e], Lost));
  }

  lemma SoundIn(s: State)
    requires Inv(s)
    ensures Sound(s.queue)
  {
  }

  // ---- the loops -------------------------------------------------------

  class Store {
    const ring: array<Event>
    var head: nat
    var tail: nat
    var count: nat
    var enqueueSeq: nat
    const commitMax: nat
    var batches: nat
    var errors: nat

    ghost predicate Valid()
      reads this, ring
    {
      Sound(View()) && 0 < commitMax && count <= enqueueSeq
    }

    ghost function View(): Queue
      reads this, ring
    {
      Queue(ring[..], head, tail, count)
    }

    constructor (cap: nat, commitMax: nat)
      requires Config(cap, commitMax)
      ensures Valid() && fresh(ring) && this.commitMax == commitMax && enqueueSeq == 0
      ensures View() == Start(cap, commitMax).queue
    {
      this.ring := new Event[cap](_ => BLANK);
      this.commitMax := commitMax;
      head, tail, count, enqueueSeq, batches, errors := 0, 0, 0, 0, 0, 0;
      new;
      assert ring[..] == Start(cap, commitMax).queue.ring;
    }

    method EnqueueEvent(e: Event) returns (ok: bool)
      requires Valid()
      modifies this`head, this`count, this`enqueueSeq, ring
      ensures Valid() && View() == Put(old(View()), e)
      ensures ok <==> old(count) < ring.Length
      ensures Waiting(View()) == if ok then Waiting(old(View())) + [e] else Waiting(old(View()))
      ensures enqueueSeq == old(enqueueSeq) + if ok then 1 else 0
    {
      PutAppends(View(), e);
      if count == ring.Length { return false; }
      ring[head] := e;
      head := (head + 1) % ring.Length;
      count := count + 1;
      enqueueSeq := enqueueSeq + 1;
      ok := true;
      assert View() == Put(old(View()), e);
    }

    /** Copies out the oldest events, at most one batch of them. */
    method DrainBatch() returns (batch: seq<Event>, seqAfter: nat)
      requires Valid()
      modifies this`tail, this`count
      ensures Valid() && batch + Waiting(View()) == Waiting(old(View()))
      ensures |batch| == Least(old(count), commitMax)
      ensures View() == Take(old(View()), |batch|) && seqAfter == enqueueSeq - count
    {
      ghost var was := View();
      var n := if count > commitMax then commitMax else count;
      batch := [];
      var i: nat := 0;
      TakeSplits(was, n);
      while i < n
        invariant i <= n && i == |batch|
        invariant ring[..] == was.ring && head == was.head && count == was.count
        invariant tail == Pos(ring.Length, was.tail, i)
        invariant batch == Waiting(was)[..i]
      {
        PosIsNext(ring.Length, tail);
        assert Waiting(was)[i] == ring[tail];
        batch := batch + [ring[tail]];
        tail := (tail + 1) % ring.Length;
        i := i + 1;
      }
      count := count - n;
      seqAfter := enqueueSeq - count;
      assert View() == Take(was, n);
    }

    /** One event after another; what fails is counted and passed over. */
    method WriteRows(events: seq<Event>, fates: Fates) returns (rows: seq<Event>)
      modifies this`errors
      ensures rows == Kept(events, fates) && errors == old(errors) + BatchErrors(events, fates)
    {
      rows := [];
      assert events[..0] == [];
      for i := 0 to |events|
        invariant rows == Kept(events[..i], fates) && errors == old(errors) + BatchErrors(events[..i], fates)
      {
        assert events[..i + 1][..i] == events[..i];
        var e, f := events[i], fates(i);
        if NeedsWorker(e) && !f.resolved {
          errors := errors + 2;
        } else {
          if e.kind == Found && e.worker != "" && !f.resolved { errors := errors + 1; }
          if f.inserted { rows := rows + [e]; } else { errors := errors + 1; }
        }
      }
      assert events[..|events|] == events;
    }

    /** Tries the transaction until it commits or the attempts run out; what a failed attempt wrote is rolled back. */
    method CommitBatch(events: seq<Event>, attempts: seq<Attempt>) returns (outcome: Outcome, rows: seq<Event>)
      requires |attempts| >= COMMIT_ATTEMPTS
      modifies this`batches, this`errors
      ensures var d := Decide(events, attempts[..COMMIT_ATTEMPTS]);
        outcome == d.outcome && errors == old(errors) + d.errors
      ensures rows == Rows(Batch(events, outcome))
      ensures batches == old(batches) + if outcome.Committed? then 1 else 0
    {
      hide Kept, Missing, BatchErrors;
      ghost var tried := attempts[..COMMIT_ATTEMPTS];
      var i: nat := 0;
      while i < COMMIT_ATTEMPTS
        invariant i <= COMMIT_ATTEMPTS && batches == old(batches) && errors >= old(errors)
        invariant Decide(events, tried).outcome == Decide(events, tried[i..]).outcome
        invariant Decide(events, tried).errors == errors - old(errors) + Decide(events, tried[i..]).errors
      {
        assert tried[i..][0] == attempts[i] && tried[i..][1..] == tried[i + 1..];
        match attempts[i] {
          case BeginFails => errors := errors + 1;
          case CommitFails(fates) =>
            rows := WriteRows(events, fates);
            errors := errors + 1;
          case Commits(fates) =>
            rows := WriteRows(events, fates);
            batches := batches + 1;
            return Committed(fates), rows;
        }
        i := i + 1;
      }
      return Lost, [];
    }
  }
}
