/**
 The per-address authorize limiter: a fixed table probed eight deep, with expiry and
 eviction, that refuses an address after too many failures (src/stratum.c).
 */
module AuthTable {
  import opened Options

  const SLOTS: nat := 1024
  const PROBE: nat := 8
  const TWO_64: int := 0x1_0000_0000_0000_0000
  const TWO_63: int := 0x8000_0000_0000_0000

  /** A slot; an empty address means it is free. */
  datatype Entry = Entry(ip: string, fails: nat, start: nat, reported: bool)

  type Table = seq<Entry>

  /** `home` hashes an address to a slot; both limits are milliseconds and failures. */
  datatype Limits = Limits(home: string -> nat, lockout: nat, maxFail: nat)

  ghost predicate Usable(l: Limits) {
    0 < l.lockout < TWO_63 && 0 < l.maxFail && forall ip :: l.home(ip) < SLOTS
  }

  /** The k-th slot of an address's run. */
  function At(home: nat, k: nat): (i: nat)
    ensures i < SLOTS
  {
    (home + k) % SLOTS
  }

  /** Unsigned: a clock reading older than the window looks enormously late. */
  predicate Expired(l: Limits, e: Entry, now: nat) {
    (now - e.start) % TWO_64 >= l.lockout
  }

  predicate IsFree(l: Limits, e: Entry, now: nat) {
    e.ip == "" || Expired(l, e, now)
  }

  // ---- the probe -------------------------------------------------------

  /** The address's slot, from the k-th of its run on. */
  function Hit(t: Table, home: nat, ip: string, k: nat): (i: Option<nat>)
    requires |t| == SLOTS && k <= PROBE
    ensures i.Some? ==> i.value < SLOTS && t[i.value].ip == ip
    decreases PROBE - k
  {
    if k == PROBE then None
    else if t[At(home, k)].ip == ip then Some(At(home, k))
    else Hit(t, home, ip, k + 1)
  }

  /** The first free slot among the first n of the run. */
  function FirstFree(l: Limits, t: Table, home: nat, now: nat, n: nat): (i: Option<nat>)
    requires |t| == SLOTS && n <= PROBE
    ensures i.Some? ==> i.value < SLOTS
  {
    if n == 0 then None
    else
      var before := FirstFree(l, t, home, now, n - 1);
      if before.Some? then before
      else if IsFree(l, t[At(home, n - 1)], now) then Some(At(home, n - 1)) else None
  }

  /** The slot among the first n of the run whose window began earliest. */
  function Oldest(t: Table, home: nat, n: nat): (i: nat)
    requires |t| == SLOTS && 1 <= n <= PROBE
    ensures i < SLOTS
  {
    if n == 1 then At(home, 0)
    else
      var before := Oldest(t, home, n - 1);
      if t[At(home, n - 1)].start < t[before].start then At(home, n - 1) else before
  }

  function Claim(l: Limits, t: Table, home: nat, now: nat): (i: nat)
    requires |t| == SLOTS
    ensures i < SLOTS
  {
    var free := FirstFree(l, t, home, now, PROBE);
    if free.Some? then free.value else Oldest(t, home, PROBE)
  }

  // ---- the operations --------------------------------------------------

  /** An expired count is forgotten; the slot is kept. */
  function Renewed(l: Limits, e: Entry, now: nat): Entry {
    if Expired(l, e, now) then Entry(e.ip, 0, now, false) else e
  }

  function Found(l: Limits, t: Table, ip: string): (i: Option<nat>)
    requires |t| == SLOTS
    ensures i.Some? ==> i.value < SLOTS
  {
    Hit(t, l.home(ip), ip, 0)
  }

  predicate Locked(l: Limits, t: Table, ip: string, now: nat)
    requires |t| == SLOTS
  {
    var i := Found(l, t, ip);
    i.Some? && Renewed(l, t[i.value], now).fails >= l.maxFail
  }

  function Gated(l: Limits, t: Table, ip: string, now: nat): (t': Table)
    requires |t| == SLOTS
    ensures |t'| == SLOTS
  {
    var i := Found(l, t, ip);
    if i.None? then t
    else
      var e := Renewed(l, t[i.value], now);
      t[i.value := if e.fails >= l.maxFail then e.(reported := true) else e]
  }

  function Failed(l: Limits, t: Table, ip: string, now: nat): (t': Table)
    requires |t| == SLOTS
    ensures |t'| == SLOTS
  {
    var i := Found(l, t, ip);
    if i.Some? then
      var e := Renewed(l, t[i.value], now);
      t[i.value := e.(fails := e.fails + 1)]
    else t[Claim(l, t, l.home(ip), now) := Entry(ip, 1, now, false)]
  }

  function Succeeded(l: Limits, t: Table, ip: string, now: nat): (t': Table)
    requires |t| == SLOTS
    ensures |t'| == SLOTS
  {
    var i := Found(l, t, ip);
    if i.None? then t else t[i.value := Renewed(l, t[i.value], now).(ip := "")]
  }

  // ---- runs ------------------------------------------------------------

  /**
   What happens to the table, in lock order. Failures and successes read the clock
   under the lock; the gate reads it before, so its reading may be behind.
   */
  datatype Event =
    | Gate(ip: string, time: nat)
    | Fail(ip: string, time: nat)
    | Success(ip: string, time: nat)

  ghost predicate Clocked(log: seq<Event>) {
    && (forall i :: 0 <= i < |log| ==> log[i].ip != "" && log[i].time < TWO_63)
    && forall i, j :: 0 <= i < j < |log| && !log[j].Gate? ==> log[i].time <= log[j].time
  }

  function Next(l: Limits, t: Table, e: Event): (t': Table)
    requires |t| == SLOTS
    ensures |t'| == SLOTS
  {
    match e
    case Gate(ip, now) => Gated(l, t, ip, now)
    case Fail(ip, now) => Failed(l, t, ip, now)
    case Success(ip, now) => Succeeded(l, t, ip, now)
  }

  const BLANK: Entry := Entry("", 0, 0, false)

  function Empty(): (t: Table)
    ensures |t| == SLOTS && forall i :: 0 <= i < SLOTS ==> t[i] == BLANK
  {
    seq(SLOTS, _ => BLANK)
  }

  function After(l: Limits, log: seq<Event>): (t: Table)
    ensures |t| == SLOTS
  {
    if log == [] then Empty() else Next(l, After(l, log[..|log| - 1]), log[|log| - 1])
  }

  /** Failures of the address at or after `from` with no successful authorize since. */
  function Earned(log: seq<Event>, ip: string, from: int): nat {
    if log == [] then 0
    else
      var last, before := log[|log| - 1], log[..|log| - 1];
      if last == Success(ip, last.time) then 0
      else Earned(before, ip, from) + (if last == Fail(ip, last.time) && last.time >= from then 1 else 0)
  }

  lemma EarnedStep(log: seq<Event>, e: Event, ip: string, from: int)
    ensures Earned(log + [e], ip, from)
      == if e == Success(ip, e.time) then 0
         else Earned(log, ip, from) + (if e == Fail(ip, e.time) && e.time >= from then 1 else 0)
  {
    assert (log + [e])[..|log|] == log;
  }

  lemma {:induction false} EarnedGrows(log: seq<Event>, ip: string, from: int, to: int)
    requires from <= to
    ensures Earned(log, ip, to) <= Earned(log, ip, from)
  {
    if log != [] { EarnedGrows(log[..|log| - 1], ip, from, to); }
  }

  // ---- an address has one slot, in its own run -------------------------

  ghost predicate InRun(home: nat, i: nat) {
    exists k: nat :: k < PROBE && At(home, k) == i
  }

  ghost predicate Placed(l: Limits, t: Table)
    requires |t| == SLOTS
  {
    && (forall i :: 0 <= i < SLOTS && t[i].ip != "" ==> InRun(l.home(t[i].ip), i))
    && forall i, j :: 0 <= i < j < SLOTS && t[i].ip != "" ==> t[i].ip != t[j].ip
  }

  lemma {:induction false} HitMisses(t: Table, home: nat, ip: string, k: nat)
    requires |t| == SLOTS && k <= PROBE && Hit(t, home, ip, k).None?
    ensures forall m: nat :: k <= m < PROBE ==> t[At(home, m)].ip != ip
    decreases PROBE - k
  {
    if k < PROBE { HitMisses(t, home, ip, k + 1); }
  }

  /** The probe finds the address if it is anywhere in the table. */
  lemma FoundIs(l: Limits, t: Table, ip: string)
    requires |t| == SLOTS && Placed(l, t) && ip != ""
    ensures Found(l, t, ip).None? ==> forall i :: 0 <= i < SLOTS ==> t[i].ip != ip
    ensures Found(l, t, ip).Some? ==> t[Found(l, t, ip).value].ip == ip
    ensures Found(l, t, ip).Some? ==> forall i :: 0 <= i < SLOTS && t[i].ip == ip ==> i == Found(l, t, ip).value
  {
    hide At;
    if Found(l, t, ip).None? { HitMisses(t, l.home(ip), ip, 0); }
  }

  lemma {:induction false} FreeInRun(l: Limits, t: Table, home: nat, now: nat, n: nat)
    requires |t| == SLOTS && n <= PROBE
    ensures FirstFree(l, t, home, now, n).Some? ==> InRun(home, FirstFree(l, t, home, now, n).value)
  {
    if n > 0 {
      FreeInRun(l, t, home, now, n - 1);
      assert InRun(home, At(home, n - 1));
    }
  }

  lemma {:induction false} OldestInRun(t: Table, home: nat, n: nat)
    requires |t| == SLOTS && 1 <= n <= PROBE
    ensures InRun(home, Oldest(t, home, n))
  {
    assert InRun(home, At(home, n - 1));
    if n > 1 { OldestInRun(t, home, n - 1); }
  }

  lemma ClaimInRun(l: Limits, t: Table, home: nat, now: nat)
    requires |t| == SLOTS
    ensures InRun(home, Claim(l, t, home, now))
  {
    FreeInRun(l, t, home, now, PROBE);
    OldestInRun(t, home, PROBE);
  }

  /** A slot is only ever claimed among the eight after the address's home, going round. */
  lemma ClaimIsNear(l: Limits, t: Table, home: nat, now: nat) returns (k: nat)
    requires |t| == 1024
    ensures k < 8 && Claim(l, t, home, now) == (home + k) % 1024
  {
    ClaimInRun(l, t, home, now);
    hide Claim;
    k :| k < PROBE && At(home, k) == Claim(l, t, home, now);
  }

  /** A live slot is given up only when every slot of the run is live, and then it is the oldest. */
  lemma ClaimEvictsOldest(l: Limits, t: Table, home: nat, now: nat, k: nat)
    requires |t| == SLOTS && k < 8 && !IsFree(l, t[Claim(l, t, home, now)], now)
    ensures !IsFree(l, t[At(home, k)], now) && t[Claim(l, t, home, now)].start <= t[At(home, k)].start
  {
    FreeIsFirst(l, t, home, now, PROBE);
    OldestIsFirst(t, home, PROBE);
  }

  lemma {:induction false} FreeIsFirst(l: Limits, t: Table, home: nat, now: nat, n: nat)
    requires |t| == SLOTS && n <= PROBE
    ensures var f := FirstFree(l, t, home, now, n);
      && (f.Some? ==> IsFree(l, t[f.value], now))
      && (f.None? ==> forall k: nat :: k < n ==> !IsFree(l, t[At(home, k)], now))
  {
    hide At, IsFree;
    if n > 0 { FreeIsFirst(l, t, home, now, n - 1); }
  }

  lemma {:induction false} OldestIsFirst(t: Table, home: nat, n: nat)
    requires |t| == SLOTS && 1 <= n <= PROBE
    ensures forall k: nat :: k < n ==> t[Oldest(t, home, n)].start <= t[At(home, k)].start
  {
    hide At;
    if n > 1 { OldestIsFirst(t, home, n - 1); }
  }

  // ---- no lockout that was not earned ----------------------------------

  ghost predicate Counted(t: Table, log: seq<Event>)
    requires |t| == SLOTS
  {
    forall i :: 0 <= i < SLOTS && t[i].ip != "" ==> t[i].fails <= Earned(log, t[i].ip, t[i].start)
  }

  /** No window starts after the latest clock reading. */
  ghost predicate Started(t: Table, log: seq<Event>)
    requires |t| == SLOTS
  {
    forall i :: 0 <= i < SLOTS ==> t[i].start == 0 || ReadBy(log, t[i].start)
  }

  ghost predicate ReadBy(log: seq<Event>, time: nat) {
    exists k :: 0 <= k < |log| && time <= log[k].time
  }

  ghost predicate Inv(l: Limits, t: Table, log: seq<Event>)
    requires |t| == SLOTS
  {
    Placed(l, t) && Counted(t, log) && Started(t, log)
  }

  /** One slot rewritten, under its own address or freed, keeps the table's shape. */
  lemma WriteKeepsPlaced(l: Limits, t: Table, i: nat, e: Entry)
    requires |t| == SLOTS && Placed(l, t) && i < SLOTS
    requires e.ip != "" ==> InRun(l.home(e.ip), i) && forall j :: 0 <= j < SLOTS && j != i ==> t[j].ip != e.ip
    ensures Placed(l, t[i := e])
  {
    hide InRun;
  }

  /** Counts stay earned when the log grows by an event of another address. */
  lemma WriteKeepsCounted(t: Table, log: seq<Event>, i: nat, e: Entry, event: Event)
    requires |t| == SLOTS && Counted(t, log) && i < SLOTS
    requires e.ip != "" ==> e.fails <= Earned(log + [event], e.ip, e.start)
    requires event.Success? ==> forall j :: 0 <= j < SLOTS && j != i ==> t[j].ip != event.ip
    ensures Counted(t[i := e], log + [event])
  {
    hide Earned;
    var t' := t[i := e];
    forall j | 0 <= j < SLOTS && t'[j].ip != ""
      ensures t'[j].fails <= Earned(log + [event], t'[j].ip, t'[j].start)
    {
      if j != i { EarnedStep(log, event, t[j].ip, t[j].start); }
    }
  }

  lemma WriteKeepsStarted(t: Table, log: seq<Event>, i: nat, e: Entry, event: Event)
    requires |t| == SLOTS && Started(t, log) && i < SLOTS
    requires e.start == t[i].start || e.start == event.time
    ensures Started(t[i := e], log + [event])
  {
    var t' := t[i := e];
    forall j | 0 <= j < SLOTS ensures t'[j].start == 0 || ReadBy(log + [event], t'[j].start) {
      var start := t'[j].start;
      if start == event.time && j == i {
        assert (log + [event])[|log|].time >= start;
      } else if start != 0 {
        var k :| 0 <= k < |log| && start <= log[k].time;
        assert (log + [event])[k].time >= start;
      }
    }
  }

  /** The clock has not gone back since any window began. */
  lemma StartIsPast(t: Table, log: seq<Event>, event: Event, i: nat)
    requires |t| == SLOTS && Started(t, log) && i < SLOTS && Clocked(log + [event]) && !event.Gate?
    ensures t[i].start <= event.time
  {
    if t[i].start != 0 {
      var k :| 0 <= k < |log| && t[i].start <= log[k].time;
      assert (log + [event])[k] == log[k] && (log + [event])[|log|] == event;
    }
  }

  /** The slot an event rewrites and what it writes there. */
  function Target(l: Limits, t: Table, e: Event): (i: Option<nat>)
    requires |t| == SLOTS
    ensures i.Some? ==> i.value < SLOTS
  {
    var found := Found(l, t, e.ip);
    if found.Some? then found
    else if e.Fail? then Some(Claim(l, t, l.home(e.ip), e.time)) else None
  }

  lemma NextIsWrite(l: Limits, t: Table, e: Event)
    requires |t| == SLOTS
    ensures Target(l, t, e).None? ==> Next(l, t, e) == t
    ensures Target(l, t, e).Some? ==>
      var i := Target(l, t, e).value;
      Next(l, t, e) == t[i := Next(l, t, e)[i]]
  {
    hide Found, Claim, Renewed;
  }

  /** What is written: under the event's address, or freed; a count of what the log earned. */
  lemma WrittenIs(l: Limits, t: Table, log: seq<Event>, e: Event)
    requires Usable(l) && |t| == SLOTS && Inv(l, t, log) && Clocked(log + [e])
    requires Target(l, t, e).Some?
    ensures var i := Target(l, t, e).value; var w := Next(l, t, e)[i];
      && (w.ip == e.ip || w.ip == "") && (e.Success? ==> w.ip == "")
      && (w.start == t[i].start || w.start == e.time)
      && (w.ip != "" ==> w.fails <= Earned(log + [e], w.ip, w.start))
  {
    hide Earned, Hit, Claim, Expired;
    assert (log + [e])[|log|] == e;
    FoundIs(l, t, e.ip);
    var i := Target(l, t, e).value;
    EarnedStep(log, e, e.ip, e.time);
    EarnedStep(log, e, e.ip, t[i].start);
    if e.Fail? { StartIsPast(t, log, e, i); }
  }

  /** The slot an event writes is the address's own or in its run, and no other holds it. */
  lemma TargetIsOwn(l: Limits, t: Table, e: Event)
    requires |t| == SLOTS && Placed(l, t) && e.ip != "" && Target(l, t, e).Some?
    ensures InRun(l.home(e.ip), Target(l, t, e).value)
    ensures forall j :: 0 <= j < SLOTS && j != Target(l, t, e).value ==> t[j].ip != e.ip
  {
    hide Hit, Claim;
    FoundIs(l, t, e.ip);
    if Found(l, t, e.ip).None? { ClaimInRun(l, t, l.home(e.ip), e.time); }
  }

  lemma StepKeepsInv(l: Limits, t: Table, log: seq<Event>, e: Event)
    requires Usable(l) && |t| == SLOTS && Inv(l, t, log) && Clocked(log + [e])
    ensures Inv(l, Next(l, t, e), log + [e])
  {
    hide Next, Placed, Counted, Started, Earned, Found, Target;
    assert e.ip != "" by { assert (log + [e])[|log|] == e; }
    NextIsWrite(l, t, e);
    if Target(l, t, e).None? {
      MissKeepsInv(l, t, log, e);
    } else {
      var i := Target(l, t, e).value;
      var w := Next(l, t, e)[i];
      WrittenIs(l, t, log, e);
      TargetIsOwn(l, t, e);
      WriteKeepsPlaced(l, t, i, w);
      WriteKeepsCounted(t, log, i, w, e);
      WriteKeepsStarted(t, log, i, w, e);
    }
  }

  lemma MissKeepsInv(l: Limits, t: Table, log: seq<Event>, e: Event)
    requires |t| == SLOTS && Inv(l, t, log) && e.ip != "" && Target(l, t, e).None?
    ensures Inv(l, t, log + [e])
  {
    hide Earned, Placed;
    FoundIs(l, t, e.ip);
    assert t == t[0 := t[0]];
    if t[0].ip != "" { EarnedStep(log, e, t[0].ip, t[0].start); }
    WriteKeepsCounted(t, log, 0, t[0], e);
    WriteKeepsStarted(t, log, 0, t[0], e);
  }

  lemma {:induction false} RunKeepsInv(l: Limits, log: seq<Event>)
    requires Usable(l) && Clocked(log)
    ensures Inv(l, After(l, log), log)
  {
    hide Next, Placed, Counted, Started, Clocked;
    if log == [] {
      EmptyInv(l);
    } else {
      var before, last := log[..|log| - 1], log[|log| - 1];
      assert log == before + [last];
      ClockedPrefix(before, last);
      RunKeepsInv(l, before);
      StepKeepsInv(l, After(l, before), before, last);
    }
  }

  lemma EmptyInv(l: Limits)
    ensures Inv(l, Empty(), [])
  {
  }

  lemma ClockedPrefix(log: seq<Event>, e: Event)
    requires Clocked(log + [e])
    ensures Clocked(log)
  {
    forall i | 0 <= i < |log| ensures log[i] == (log + [e])[i] {
    }
  }

  /**
   Over every run, with expiries, hash collisions and evictions, the gate refuses an
   address only if it failed `maxFail` times within the lockout period with no
   successful authorize since.
   */
  lemma LockoutIsEarned(l: Limits, log: seq<Event>, ip: string, now: nat)
    requires Usable(l) && Clocked(log) && ip != "" && now < TWO_63
    requires Locked(l, After(l, log), ip, now)
    ensures Earned(log, ip, now - l.lockout + 1) >= l.maxFail
  {
    hide Earned, After, Clocked, Placed;
    RunKeepsInv(l, log);
    var t := After(l, log);
    FoundIs(l, t, ip);
    var i := Found(l, t, ip).value;
    assert !Expired(l, t[i], now);
    StartIsRecent(l, t, log, i, now);
    EarnedGrows(log, ip, now - l.lockout + 1, t[i].start);
  }

  /** Below 2^63 a reading behind the window's start is older than any lockout. */
  lemma Age(now: nat, start: nat)
    requires now < TWO_63 && start < TWO_63
    ensures (now - start) % TWO_64 == if start <= now then now - start else 0x1_0000_0000_0000_0000 - (start - now)
  {
  }

  lemma StartIsRecent(l: Limits, t: Table, log: seq<Event>, i: nat, now: nat)
    requires Usable(l) && |t| == SLOTS && Started(t, log) && Clocked(log) && i < SLOTS && now < TWO_63
    requires !Expired(l, t[i], now)
    ensures now - l.lockout < t[i].start <= now
  {
    assert t[i].start < TWO_63 by {
      if t[i].start != 0 { var k :| 0 <= k < |log| && t[i].start <= log[k].time; }
    }
    Age(now, t[i].start);
  }

  /**
   Exactly when the gate refuses: the slot counts enough failures, and the reading is
   neither past the window nor, the reading being taken before the lock, ahead of its start.
   */
  lemma LockedIff(l: Limits, t: Table, ip: string, now: nat)
    requires Usable(l) && |t| == SLOTS && now < TWO_63
    requires forall i :: 0 <= i < SLOTS ==> t[i].start < TWO_63
    ensures Locked(l, t, ip, now) <==>
      && Found(l, t, ip).Some?
      && var e := t[Found(l, t, ip).value]; e.fails >= l.maxFail && e.start <= now < e.start + l.lockout
  {
    hide Found;
    if Found(l, t, ip).Some? { Age(now, t[Found(l, t, ip).value].start); }
  }

  /** The slot holds an address whose window is open. */
  predicate IsLive(l: Limits, e: Entry, now: nat) {
    e.ip != "" && e.start <= now < e.start + l.lockout
  }

  /** A live slot is evicted only when the eight slots of the run are all live, and then it is the oldest of them. */
  lemma EvictsOnlyWhenFull(l: Limits, t: Table, home: nat, now: nat, k: nat)
    requires Usable(l) && |t| == 1024 && now < TWO_63 && k < 8
    requires forall i :: 0 <= i < 1024 ==> t[i].start < TWO_63
    requires IsLive(l, t[Claim(l, t, home, now)], now)
    ensures IsLive(l, t[(home + k) % 1024], now) && t[Claim(l, t, home, now)].start <= t[(home + k) % 1024].start
  {
    FreeIffNotLive(l, t[Claim(l, t, home, now)], now);
    FreeIffNotLive(l, t[At(home, k)], now);
    ClaimEvictsOldest(l, t, home, now, k);
  }

  lemma FreeIffNotLive(l: Limits, e: Entry, now: nat)
    requires Usable(l) && now < TWO_63 && e.start < TWO_63
    ensures IsFree(l, e, now) <==> !IsLive(l, e, now)
  {
    Age(now, e.start);
  }

  // ---- and an earned one is imposed ------------------------------------

  /** The address has no live count: the next failure opens a new window. */
  predicate Fresh(l: Limits, t: Table, ip: string, now: nat)
    requires |t| == SLOTS
  {
    var i := Found(l, t, ip);
    i.None? || Expired(l, t[i.value], now)
  }

  /** The address's slot counts n failures in a window that began at `start`. */
  ghost predicate Tallied(l: Limits, t: Table, ip: string, n: nat, start: nat)
    requires |t| == SLOTS
  {
    var i := Found(l, t, ip);
    i.Some? && t[i.value].fails == n && t[i.value].start == start
  }

  /** A slot of the run that now holds the address, and no slot did before it, is what the probe finds. */
  lemma {:induction false} HitAt(t: Table, home: nat, ip: string, k: nat, m: nat)
    requires |t| == SLOTS && k <= m < PROBE && t[At(home, m)].ip == ip
    requires forall j :: 0 <= j < SLOTS && t[j].ip == ip ==> j == At(home, m)
    ensures Hit(t, home, ip, k) == Some(At(home, m))
    decreases PROBE - k
  {
    hide At;
    if t[At(home, k)].ip != ip { HitAt(t, home, ip, k + 1, m); }
  }

  lemma FailTallies(l: Limits, t: Table, ip: string, now: nat, n: nat, start: nat)
    requires |t| == SLOTS && Placed(l, t) && ip != "" && 0 < l.lockout
    requires if n == 0 then Fresh(l, t, ip, now) && start == now
             else Tallied(l, t, ip, n, start) && start <= now < start + l.lockout && now < TWO_63
    ensures Tallied(l, Failed(l, t, ip, now), ip, n + 1, start)
    ensures Placed(l, Failed(l, t, ip, now))
  {
    hide Placed, InRun, Claim, FirstFree, Oldest, Hit;
    FoundIs(l, t, ip);
    TargetIsOwn(l, t, Fail(ip, now));
    var i := Target(l, t, Fail(ip, now)).value;
    var t' := Failed(l, t, ip, now);
    assert t' == t[i := t'[i]] && t'[i].ip == ip;
    WriteKeepsPlaced(l, t, i, t'[i]);
    OwnIsFound(l, t', ip, i);
    if n > 0 { assert (now - start) % TWO_64 == now - start; }
  }

  lemma OwnIsFound(l: Limits, t: Table, ip: string, i: nat)
    requires |t| == SLOTS && InRun(l.home(ip), i) && t[i].ip == ip
    requires forall j :: 0 <= j < SLOTS && t[j].ip == ip ==> j == i
    ensures Found(l, t, ip) == Some(i)
  {
    var m: nat :| m < PROBE && At(l.home(ip), m) == i;
    HitAt(t, l.home(ip), ip, 0, m);
  }

  /** Another address, out of room in its run, takes this one's slot. */
  predicate Evicts(l: Limits, t: Table, e: Event, ip: string)
    requires |t| == SLOTS
  {
    && e.ip != ip && e.Fail? && Found(l, t, ip).Some? && Found(l, t, e.ip).None?
    && Claim(l, t, l.home(e.ip), e.time) == Found(l, t, ip).value
  }

  /** Other addresses leave an address's count alone exactly when they do not evict it. */
  lemma OthersKeepTallyIff(l: Limits, t: Table, e: Event, ip: string, n: nat, start: nat)
    requires |t| == SLOTS && Placed(l, t) && e.ip != "" && ip != "" && e.ip != ip && Tallied(l, t, ip, n, start)
    ensures Tallied(l, Next(l, t, e), ip, n, start) <==> !Evicts(l, t, e, ip)
    ensures Evicts(l, t, e, ip) ==> Found(l, Next(l, t, e), ip).None?
  {
    hide Placed, InRun, Claim, Hit, Expired;
    FoundIs(l, t, ip);
    FoundIs(l, t, e.ip);
    NextIsWrite(l, t, e);
    KeepsPlaced(l, t, e);
    var i, t' := Found(l, t, ip).value, Next(l, t, e);
    FoundIs(l, t', ip);
    if Target(l, t, e) == Some(i) {
      assert t'[i].ip == e.ip;
    } else {
      assert t'[i] == t[i];
      assert Found(l, t', ip) == Some(i);
    }
  }

  /** The event is a failure or a gate of the address inside its window, or leaves its slot alone. */
  predicate Leaves(l: Limits, t: Table, e: Event, ip: string, start: nat)
    requires |t| == SLOTS
  {
    if e.ip == ip then !e.Success? && start <= e.time < start + l.lockout else !Evicts(l, t, e, ip)
  }

  function FailsOf(log: seq<Event>, ip: string): nat {
    if log == [] then 0
    else FailsOf(log[..|log| - 1], ip) + if log[|log| - 1] == Fail(ip, log[|log| - 1].time) then 1 else 0
  }

  lemma LeavesTallies(l: Limits, t: Table, e: Event, ip: string, n: nat, start: nat)
    requires Usable(l) && |t| == SLOTS && Placed(l, t) && e.ip != "" && ip != "" && 0 < n
    requires Tallied(l, t, ip, n, start) && Leaves(l, t, e, ip, start) && e.time < TWO_63
    ensures Tallied(l, Next(l, t, e), ip, n + if e == Fail(ip, e.time) then 1 else 0, start)
  {
    hide Placed, Claim, Hit, Tallied;
    if e.ip != ip {
      OthersKeepTallyIff(l, t, e, ip, n, start);
    } else if e.Fail? {
      FailTallies(l, t, ip, e.time, n, start);
    } else {
      GateTallies(l, t, ip, e.time, n, start);
    }
  }

  lemma GateTallies(l: Limits, t: Table, ip: string, now: nat, n: nat, start: nat)
    requires Usable(l) && |t| == SLOTS && Placed(l, t) && ip != ""
    requires Tallied(l, t, ip, n, start) && start <= now < start + l.lockout && now < TWO_63
    ensures Tallied(l, Gated(l, t, ip, now), ip, n, start)
  {
    hide Placed, InRun, Hit;
    FoundIs(l, t, ip);
    TargetIsOwn(l, t, Gate(ip, now));
    var i := Found(l, t, ip).value;
    Age(now, start);
    OwnIsFound(l, Gated(l, t, ip, now), ip, i);
  }

  /** From the failure that opened the window on, nothing but failures and gates of the address touches its slot. */
  ghost predicate Undisturbed(l: Limits, before: seq<Event>, rest: seq<Event>, ip: string, start: nat) {
    forall k :: 0 <= k < |rest| ==> Leaves(l, After(l, before + rest[..k]), rest[k], ip, start)
  }

  lemma {:induction false} RunTallies(l: Limits, past: seq<Event>, ip: string, start: nat, rest: seq<Event>)
    requires Usable(l) && ip != "" && Clocked(past + [Fail(ip, start)] + rest)
    requires Fresh(l, After(l, past), ip, start) && Undisturbed(l, past + [Fail(ip, start)], rest, ip, start)
    ensures Tallied(l, After(l, past + [Fail(ip, start)] + rest), ip, 1 + FailsOf(rest, ip), start)
    decreases |rest|
  {
    hide Clocked, Tallied, Leaves, Next, Fresh, After, Placed, Undisturbed, FailsOf, Usable;
    var begun := past + [Fail(ip, start)];
    if rest == [] {
      assert begun + rest == begun;
      ClockedPrefix(past, Fail(ip, start));
      OpeningTallies(l, past, ip, start);
      NoFails(ip);
    } else {
      var m := |rest| - 1;
      var log, e := begun + rest[..m], rest[m];
      assert begun + rest == log + [e];
      ClockedPrefix(log, e);
      ClockedLast(log, e);
      UndisturbedPrefix(l, begun, rest, ip, start);
      RunTallies(l, past, ip, start, rest[..m]);
      PlacedAfter(l, log);
      LeavesTallies(l, After(l, log), e, ip, 1 + FailsOf(rest[..m], ip), start);
      OneMore(l, log, e);
      OneMoreFails(rest, ip);
    }
  }

  lemma NoFails(ip: string)
    ensures FailsOf([], ip) == 0
  {
  }

  lemma OneMoreFails(log: seq<Event>, ip: string)
    requires log != []
    ensures var m := |log| - 1;
      FailsOf(log, ip) == FailsOf(log[..m], ip) + if log[m] == Fail(ip, log[m].time) then 1 else 0
  {
  }

  lemma UndisturbedPrefix(l: Limits, before: seq<Event>, rest: seq<Event>, ip: string, start: nat)
    requires rest != [] && Undisturbed(l, before, rest, ip, start)
    ensures var m := |rest| - 1;
      Undisturbed(l, before, rest[..m], ip, start) && Leaves(l, After(l, before + rest[..m]), rest[m], ip, start)
  {
    hide Leaves, After;
    var m := |rest| - 1;
    assert forall k :: 0 <= k < m ==> rest[..m][k] == rest[k] && rest[..m][..k] == rest[..k];
  }

  lemma OpeningTallies(l: Limits, past: seq<Event>, ip: string, start: nat)
    requires Usable(l) && ip != "" && Clocked(past) && Fresh(l, After(l, past), ip, start)
    ensures Tallied(l, After(l, past + [Fail(ip, start)]), ip, 1, start)
  {
    hide Tallied, Fresh, Failed, After, Placed, Clocked;
    PlacedAfter(l, past);
    OneMore(l, past, Fail(ip, start));
    FailTallies(l, After(l, past), ip, start, 0, start);
  }

  lemma PlacedAfter(l: Limits, log: seq<Event>)
    requires Usable(l) && Clocked(log)
    ensures Placed(l, After(l, log))
    ensures forall i :: 0 <= i < SLOTS ==> After(l, log)[i].start < TWO_63
  {
    hide After, Placed, Counted;
    RunKeepsInv(l, log);
    var t := After(l, log);
    forall i | 0 <= i < SLOTS ensures t[i].start < TWO_63 {
      if t[i].start != 0 {
        var k :| 0 <= k < |log| && t[i].start <= log[k].time;
        assert log[k].time < TWO_63;
      }
    }
  }

  lemma ClockedLast(log: seq<Event>, e: Event)
    requires Clocked(log + [e])
    ensures e.ip != "" && e.time < TWO_63
  {
    assert (log + [e])[|log|] == e;
  }

  /**
   Over every run, an address with no live count that starts failing is refused for the
   rest of its window exactly from the `maxFail`-th failure on, whatever other
   addresses do, until one evicts its slot or it succeeds.
   */
  lemma LockoutIsImposed(l: Limits, past: seq<Event>, ip: string, start: nat, rest: seq<Event>, now: nat)
    requires Usable(l) && ip != "" && Clocked(past + [Fail(ip, start)] + rest)
    requires Fresh(l, After(l, past), ip, start) && Undisturbed(l, past + [Fail(ip, start)], rest, ip, start)
    requires start <= now < start + l.lockout && now < TWO_63
    ensures Locked(l, After(l, past + [Fail(ip, start)] + rest), ip, now) <==> 1 + FailsOf(rest, ip) >= l.maxFail
  {
    hide After, Clocked, Fresh, Undisturbed, Found;
    var log := past + [Fail(ip, start)] + rest;
    PlacedAfter(l, log);
    RunTallies(l, past, ip, start, rest);
    LockedIff(l, After(l, log), ip, now);
  }

  // ---- a reading taken before the lock ---------------------------------

  /** n failures of one address at the same time. */
  function Burst(ip: string, time: nat, n: nat): (log: seq<Event>)
    ensures |log| == n
  {
    seq(n, _ => Fail(ip, time))
  }

  lemma {:induction false} BurstFails(ip: string, time: nat, n: nat)
    ensures FailsOf(Burst(ip, time, n), ip) == n
  {
    if n > 0 {
      BurstFails(ip, time, n - 1);
      assert Burst(ip, time, n)[..n - 1] == Burst(ip, time, n - 1);
    }
  }

  /**
   An address that has earned its lockout, and a gate whose reading is one millisecond
   older than the window: the unsigned age wraps, the caller is let through, and the
   count is forgotten for everybody after it.
   */
  lemma StaleGateForgets(l: Limits, ip: string, time: nat)
    requires Usable(l) && ip != "" && 0 < time < TWO_63
    ensures var log := Burst(ip, time, l.maxFail);
      && Clocked(log + [Gate(ip, time - 1)])
      && Locked(l, After(l, log), ip, time)
      && !Locked(l, After(l, log), ip, time - 1)
      && !Locked(l, After(l, log + [Gate(ip, time - 1)]), ip, time)
  {
    hide After, Found, Fresh, Placed, Locked, Gated;
    var log, rest := Burst(ip, time, l.maxFail), Burst(ip, time, l.maxFail - 1);
    assert log == [] + [Fail(ip, time)] + rest;
    NothingYet(l, ip, time);
    BurstFails(ip, time, l.maxFail - 1);
    RunTallies(l, [], ip, time, rest);
    LockoutIsImposed(l, [], ip, time, rest, time);
    var t := After(l, log);
    PlacedAfter(l, log);
    LockedIff(l, t, ip, time - 1);
    Age(time - 1, time);
    OneMore(l, log, Gate(ip, time - 1));
    Forgotten(l, t, ip, time - 1, time);
  }

  lemma OneMore(l: Limits, log: seq<Event>, e: Event)
    ensures After(l, log + [e]) == Next(l, After(l, log), e)
  {
    assert (log + [e])[..|log|] == log;
  }

  lemma NothingYet(l: Limits, ip: string, time: nat)
    requires ip != ""
    ensures Fresh(l, After(l, []), ip, time)
  {
    var i := Found(l, Empty(), ip);
  }

  /** A gate that takes the window for expired leaves nothing to refuse anybody by. */
  lemma Forgotten(l: Limits, t: Table, ip: string, read: nat, now: nat)
    requires Usable(l) && |t| == SLOTS && Placed(l, t) && ip != "" && Found(l, t, ip).Some?
    requires Expired(l, t[Found(l, t, ip).value], read)
    ensures !Locked(l, Gated(l, t, ip, read), ip, now)
  {
    hide Placed, InRun, Hit, Expired;
    FoundIs(l, t, ip);
    TargetIsOwn(l, t, Gate(ip, read));
    OwnIsFound(l, Gated(l, t, ip, read), ip, Found(l, t, ip).value);
  }

  // ---- the table in place ----------------------------------------------

  class Limiter {
    const slots: array<Entry>
    const limits: Limits

    ghost predicate Valid()
      reads this, slots
    {
      slots.Length == SLOTS && Usable(limits) && Placed(limits, slots[..])
    }

    constructor (limits: Limits)
      requires Usable(limits)
      ensures Valid() && fresh(slots) && this.limits == limits && slots[..] == Empty() && slots.Length == 1024
    {
      slots := new Entry[SLOTS](_ => BLANK);
      this.limits := limits;
      new;
      assert slots[..] == Empty();
      EmptyInv(limits);
    }

    /** One pass over the run: the address's slot, or the one a new address would take. */
    method Find(ip: string, now: nat) returns (hit: bool, i: nat)
      requires slots.Length == SLOTS && ip != ""
      ensures hit <==> Found(limits, slots[..], ip).Some?
      ensures i < SLOTS
      ensures i == if hit then Found(limits, slots[..], ip).value else Claim(limits, slots[..], limits.home(ip), now)
    {
      hide At;
      var home := limits.home(ip);
      ghost var t := slots[..];
      var free: Option<nat> := None;
      var oldest: Option<nat> := None;
      var k: nat := 0;
      while k < PROBE
        invariant k <= PROBE && Hit(t, home, ip, 0) == Hit(t, home, ip, k)
        invariant free == FirstFree(limits, t, home, now, k)
        invariant if k == 0 then oldest.None? else oldest == Some(Oldest(t, home, k))
      {
        var j := At(home, k);
        var e := slots[j];
        assert e == t[j];
        if e.ip == ip {
          return true, j;
        }
        if IsFree(limits, e, now) && free.None? { free := Some(j); }
        if oldest.None? || e.start < slots[oldest.value].start { oldest := Some(j); }
        k := k + 1;
      }
      return false, if free.Some? then free.value else oldest.value;
    }

    method AuthGate(ip: string, now: nat) returns (locked: bool)
      requires Valid() && ip != ""
      modifies slots
      ensures Valid() && slots[..] == Gated(limits, old(slots[..]), ip, now)
      ensures locked == Locked(limits, old(slots[..]), ip, now)
    {
      ghost var t := slots[..];
      var hit, i := Find(ip, now);
      locked := false;
      if hit {
        var e := slots[i];
        if Expired(limits, e, now) { e := Entry(e.ip, 0, now, false); }
        if e.fails >= limits.maxFail {
          locked := true;
          e := e.(reported := true);
        }
        KeepsPlaced(limits, t, Gate(ip, now));
        slots[i] := e;
      }
    }

    method AuthFailed(ip: string, now: nat)
      requires Valid() && ip != ""
      modifies slots
      ensures Valid() && slots[..] == Failed(limits, old(slots[..]), ip, now)
    {
      ghost var t := slots[..];
      var hit, i := Find(ip, now);
      var e := slots[i];
      if !hit || Expired(limits, e, now) { e := Entry(ip, 0, now, false); }
      KeepsPlaced(limits, t, Fail(ip, now));
      slots[i] := e.(fails := e.fails + 1);
    }

    method AuthSucceeded(ip: string, now: nat)
      requires Valid() && ip != ""
      modifies slots
      ensures Valid() && slots[..] == Succeeded(limits, old(slots[..]), ip, now)
      ensures forall i :: 0 <= i < SLOTS ==> slots[i].ip != ip
    {
      ghost var t := slots[..];
      FoundIs(limits, t, ip);
      var hit, i := Find(ip, now);
      if hit {
        var e := slots[i];
        if Expired(limits, e, now) { e := Entry(e.ip, 0, now, false); }
        KeepsPlaced(limits, t, Success(ip, now));
        slots[i] := e.(ip := "");
      }
    }
  }

  lemma KeepsPlaced(l: Limits, t: Table, e: Event)
    requires |t| == SLOTS && Placed(l, t) && e.ip != ""
    ensures Placed(l, Next(l, t, e))
  {
    hide Placed, InRun, Claim, Expired;
    NextIsWrite(l, t, e);
    if Target(l, t, e).Some? {
      var i := Target(l, t, e).value;
      TargetIsOwn(l, t, e);
      FoundIs(l, t, e.ip);
      assert Next(l, t, e)[i].ip == e.ip || Next(l, t, e)[i].ip == "";
      WriteKeepsPlaced(l, t, i, Next(l, t, e)[i]);
    }
  }
}
