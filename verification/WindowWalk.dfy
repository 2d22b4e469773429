/**
 The bounded backward walk that finds the PPLNS window (store_pplns_window in
 src/store.c) against the whole-table running sum it replaces.
 */
module WindowWalk {
  import opened Sums

  /** One accepted share. Row ids grow, and difficulties are exact reals. */
  datatype ShareRow = ShareRow(id: int, workerId: int, difficulty: real)

  ghost predicate IsTable(t: seq<ShareRow>) {
    && (forall i, j :: 0 <= i < j < |t| ==> t[i].id < t[j].id)
    && (forall i :: 0 <= i < |t| ==> t[i].difficulty >= 0.0 && t[i].id > 0)
  }

  /** The running total of row `i` counted from the newest row backwards, row `i` included. */
  function Running(t: seq<ShareRow>, i: nat): real
    decreases |t| - i
  {
    if i >= |t| then 0.0 else t[i].difficulty + Running(t, i + 1)
  }

  /** running - difficulty < window: the share that crosses the boundary counts whole. */
  predicate InWindow(t: seq<ShareRow>, window: real, i: nat) {
    i < |t| && Running(t, i + 1) < window
  }

  function Difficulties(t: seq<ShareRow>): (r: seq<real>)
    ensures |r| == |t|
    ensures forall i :: 0 <= i < |r| ==> r[i] == t[i].difficulty
  {
    seq(|t|, i requires 0 <= i < |t| => t[i].difficulty)
  }

  lemma {:induction false} RunningIsSum(t: seq<ShareRow>, i: nat)
    requires i <= |t|
    ensures Running(t, i) == SumReal(Difficulties(t[i..]))
    decreases |t| - i
  {
    if i == |t| {
      assert Difficulties(t[i..]) == [];
    } else {
      RunningIsSum(t, i + 1);
      assert Difficulties(t[i..]) == [t[i].difficulty] + Difficulties(t[i + 1..]);
      SumRealCons(t[i].difficulty, Difficulties(t[i + 1..]));
    }
  }

  /** A row is in the window exactly when the rows newer than it do not fill it. */
  lemma InWindowIff(t: seq<ShareRow>, window: real, i: nat)
    requires i < |t|
    ensures InWindow(t, window, i) <==> SumReal(Difficulties(t[i + 1..])) < window
  {
    RunningIsSum(t, i + 1);
  }

  /** The window over the whole table, as a set of row indices. */
  ghost function FullWindow(t: seq<ShareRow>, window: real): (r: set<nat>)
    ensures forall i: nat :: i in r <==> InWindow(t, window, i)
  {
    set i: nat | i < |t| && InWindow(t, window, i)
  }

  lemma {:induction false} RunningIsMonotone(t: seq<ShareRow>, i: nat, j: nat)
    requires IsTable(t) && i <= j
    ensures Running(t, i) >= Running(t, j) >= 0.0
    decreases |t| - i
  {
    if i < |t| {
      RunningIsMonotone(t, i + 1, if i < j then j else i + 1);
      if i == j { RunningIsMonotone(t, i + 1, i + 1); }
    }
  }

  /** With non-negative difficulties the window is the newest rows, from some row on. */
  lemma WindowIsSuffix(t: seq<ShareRow>, window: real, a: nat)
    requires IsTable(t) && InWindow(t, window, a) && Running(t, a) >= window
    ensures forall i: nat :: InWindow(t, window, i) <==> a <= i < |t|
  {
    hide Running, IsTable;
    forall i: nat ensures InWindow(t, window, i) <==> a <= i < |t| {
      if i < a { RunningIsMonotone(t, i + 1, a); } else { RunningIsMonotone(t, a + 1, i + 1); }
    }
  }

  // ---- the boundary query ---------------------------------------------

  /** The first row of the newest `batch` ones. */
  function BatchStart(t: seq<ShareRow>, batch: nat): (lo: nat)
    ensures lo <= |t|
  {
    if batch >= |t| then 0 else |t| - batch
  }

  /** One row of the aggregate the query returns. */
  datatype Probe = Probe(minId: int, covered: real, count: nat, maxId: int)

  function CountFrom(t: seq<ShareRow>, window: real, i: nat): nat
    decreases |t| - i
  {
    if i >= |t| then 0 else (if InWindow(t, window, i) then 1 else 0) + CountFrom(t, window, i + 1)
  }

  ghost predicate InBatch(t: seq<ShareRow>, lo: nat, window: real, i: nat) {
    lo <= i < |t| && InWindow(t, window, i)
  }

  ghost predicate HasId(t: seq<ShareRow>, lo: nat, window: real, id: int) {
    exists i: nat :: InBatch(t, lo, window, i) && t[i].id == id
  }

  ghost predicate HasRunning(t: seq<ShareRow>, lo: nat, window: real, r: real) {
    exists i: nat :: InBatch(t, lo, window, i) && Running(t, i) == r
  }

  /** Every row of the batch inside the window lies within the aggregate. */
  ghost predicate Covers(t: seq<ShareRow>, lo: nat, window: real, p: Probe) {
    forall i: nat :: InBatch(t, lo, window, i) ==>
      p.count > 0 && p.minId <= t[i].id <= p.maxId && Running(t, i) <= p.covered
  }

  /** MIN(id), MAX(running), COUNT(*), MAX(id) over the batch's rows inside the window. */
  ghost predicate IsProbe(t: seq<ShareRow>, lo: nat, window: real, p: Probe) {
    && p.count == CountFrom(t, window, lo)
    && (p.count > 0 ==>
          HasId(t, lo, window, p.minId) && HasId(t, lo, window, p.maxId) && HasRunning(t, lo, window, p.covered))
    && Covers(t, lo, window, p)
  }

  /** Fold one more row into the aggregate. */
  function Widen(p: Probe, id: int, running: real): Probe {
    if p.count == 0 then Probe(id, running, 1, id)
    else Probe(if id < p.minId then id else p.minId,
               if running > p.covered then running else p.covered,
               p.count + 1,
               if id > p.maxId then id else p.maxId)
  }

  lemma CoversStep(t: seq<ShareRow>, window: real, i: nat, p: Probe)
    requires i < |t| && Covers(t, i + 1, window, p)
    ensures Covers(t, i, window, if InWindow(t, window, i) then Widen(p, t[i].id, Running(t, i)) else p)
  {
    hide Running, InWindow;
    var q := if InWindow(t, window, i) then Widen(p, t[i].id, Running(t, i)) else p;
    forall k: nat | InBatch(t, i, window, k)
      ensures q.count > 0 && q.minId <= t[k].id <= q.maxId && Running(t, k) <= q.covered
    {
      if k > i { assert InBatch(t, i + 1, window, k); }
    }
  }

  lemma Wider(t: seq<ShareRow>, window: real, i: nat)
    requires i < |t|
    ensures forall id :: HasId(t, i + 1, window, id) ==> HasId(t, i, window, id)
    ensures forall r :: HasRunning(t, i + 1, window, r) ==> HasRunning(t, i, window, r)
    ensures InWindow(t, window, i) ==> HasId(t, i, window, t[i].id) && HasRunning(t, i, window, Running(t, i))
  {
    hide Running, InWindow;
    assert forall k: nat :: InBatch(t, i + 1, window, k) ==> InBatch(t, i, window, k);
    if InWindow(t, window, i) { assert InBatch(t, i, window, i); }
  }

  lemma ProbeStep(t: seq<ShareRow>, window: real, i: nat, p: Probe, q: Probe)
    requires i < |t| && IsProbe(t, i + 1, window, p)
    requires q == if InWindow(t, window, i) then Widen(p, t[i].id, Running(t, i)) else p
    ensures IsProbe(t, i, window, q)
  {
    hide Running, InWindow, HasId, HasRunning, Covers;
    CoversStep(t, window, i, p);
    Wider(t, window, i);
    assert CountFrom(t, window, i) == (if InWindow(t, window, i) then 1 else 0) + CountFrom(t, window, i + 1);
  }

  /** The query, reading the newest `batch` rows and nothing before them. */
  method BoundaryQuery(t: seq<ShareRow>, batch: nat, window: real) returns (p: Probe)
    ensures IsProbe(t, BatchStart(t, batch), window, p)
  {
    var lo := BatchStart(t, batch);
    p := Probe(0, 0.0, 0, 0);
    var i := |t|;
    var running := 0.0;
    while i > lo
      invariant lo <= i <= |t| && running == Running(t, i)
      invariant IsProbe(t, i, window, p)
    {
      i := i - 1;
      var d := t[i];
      running := running + d.difficulty;
      ghost var before := p;
      if running - d.difficulty < window { p := Widen(p, d.id, running); }
      ProbeStep(t, window, i, before, p);
    }
  }

  // ---- the walk -------------------------------------------------------

  datatype Bounds = Bounds(cutoff: int, top: int)

  datatype Walk = Unproven | Settled(bounds: Bounds)

  const INT64_MAX: int := 0x7fff_ffff_ffff_ffff

  /** The rows the payout query reads: an id range over the table as it is by then. */
  ghost function Selected(t: seq<ShareRow>, b: Bounds): (r: set<nat>)
    ensures forall i: nat :: i in r <==> i < |t| && b.cutoff <= t[i].id <= b.top
  {
    set i: nat | i < |t| && b.cutoff <= t[i].id <= b.top
  }

  /** `later` is the table after more shares were appended to `t`. */
  ghost predicate Extends(later: seq<ShareRow>, t: seq<ShareRow>) {
    IsTable(later) && t <= later
  }

  /** The bounds stand for the whole-table window of `t`, whatever is appended afterwards. */
  ghost predicate Pins(t: seq<ShareRow>, window: real, b: Bounds) {
    forall later :: Extends(later, t) ==> Selected(later, b) == FullWindow(t, window)
  }

  lemma SuffixIsPinned(t: seq<ShareRow>, window: real, a: nat, b: Bounds)
    requires IsTable(t) && a < |t| && b == Bounds(t[a].id, t[|t| - 1].id)
    requires forall i: nat :: InWindow(t, window, i) <==> a <= i < |t|
    ensures Pins(t, window, b)
  {
    hide InWindow;
    forall later | Extends(later, t) ensures Selected(later, b) == FullWindow(t, window) {
      assert later[a] == t[a] && later[|t| - 1] == t[|t| - 1];
      forall i: nat ensures i in Selected(later, b) <==> i in FullWindow(t, window) {
      }
    }
  }

  lemma {:induction false} CountOfAll(t: seq<ShareRow>, window: real, lo: nat)
    requires lo <= |t| && forall i: nat :: lo <= i < |t| ==> InWindow(t, window, i)
    ensures CountFrom(t, window, lo) == |t| - lo
    decreases |t| - lo
  {
    if lo < |t| { CountOfAll(t, window, lo + 1); }
  }

  /** While the batch has not reached the window, every row it read is inside it. */
  lemma {:induction false} UncoveredMeansAll(t: seq<ShareRow>, lo: nat, window: real, p: Probe, i: nat)
    requires IsTable(t) && IsProbe(t, lo, window, p) && window > 0.0 && p.covered < window
    requires lo <= i < |t|
    ensures InWindow(t, window, i)
    decreases |t| - i
  {
    if i + 1 < |t| {
      UncoveredMeansAll(t, lo, window, p, i + 1);
      assert InBatch(t, lo, window, i + 1);
    }
  }

  /** A batch that reached past the window has found its oldest row. */
  lemma CoveredIsPinned(t: seq<ShareRow>, batch: nat, window: real, p: Probe)
    requires IsTable(t) && IsProbe(t, BatchStart(t, batch), window, p) && p.count > 0
    requires window > 0.0 && p.covered >= window
    ensures Pins(t, window, Bounds(p.minId, p.maxId))
  {
    var lo := BatchStart(t, batch);
    var a: nat :| InBatch(t, lo, window, a) && Running(t, a) == p.covered;
    WindowIsSuffix(t, window, a);
    hide Running, InWindow;
    assert InBatch(t, lo, window, a) && InBatch(t, lo, window, |t| - 1);
    var b: nat :| InBatch(t, lo, window, b) && t[b].id == p.minId;
    var c: nat :| InBatch(t, lo, window, c) && t[c].id == p.maxId;
    assert b == a && c == |t| - 1;
    SuffixIsPinned(t, window, a, Bounds(p.minId, p.maxId));
  }

  /** A batch that could not be filled has read the whole table. */
  lemma ExhaustedIsPinned(t: seq<ShareRow>, batch: nat, window: real, p: Probe)
    requires IsTable(t) && IsProbe(t, BatchStart(t, batch), window, p) && p.count > 0
    requires window > 0.0 && p.covered < window && p.count < batch
    ensures Pins(t, window, Bounds(p.minId, p.maxId))
  {
    var lo := BatchStart(t, batch);
    forall i: nat | lo <= i < |t| ensures InWindow(t, window, i) {
      UncoveredMeansAll(t, lo, window, p, i);
    }
    CountOfAll(t, window, lo);
    assert lo == 0;
    hide Running, CountFrom;
    assert InBatch(t, lo, window, 0) && InBatch(t, lo, window, |t| - 1);
    var b: nat :| InBatch(t, lo, window, b) && t[b].id == p.minId;
    var c: nat :| InBatch(t, lo, window, c) && t[c].id == p.maxId;
    assert b == 0 && c == |t| - 1;
    SuffixIsPinned(t, window, 0, Bounds(p.minId, p.maxId));
  }

  /** A batch that was filled without covering the window is the newest `batch` rows, all inside it. */
  lemma UncoveredBatch(t: seq<ShareRow>, batch: nat, window: real, p: Probe)
    requires IsTable(t) && IsProbe(t, BatchStart(t, batch), window, p) && 0 < batch <= p.count
    requires window > 0.0 && p.covered < window
    ensures |t| >= batch && Bounds(p.minId, p.maxId) == NewestRows(t, batch)
  {
    var lo := BatchStart(t, batch);
    forall i: nat | lo <= i < |t| ensures InWindow(t, window, i) {
      UncoveredMeansAll(t, lo, window, p, i);
    }
    CountOfAll(t, window, lo);
    hide Running, CountFrom;
    assert InBatch(t, lo, window, lo) && InBatch(t, lo, window, |t| - 1);
    var b: nat :| InBatch(t, lo, window, b) && t[b].id == p.minId;
    var c: nat :| InBatch(t, lo, window, c) && t[c].id == p.maxId;
    assert b == lo && c == |t| - 1;
  }

  /** The id range of the newest `batch` rows. */
  function NewestRows(t: seq<ShareRow>, batch: nat): Bounds
    requires 0 < batch <= |t|
  {
    Bounds(t[|t| - batch].id, t[|t| - 1].id)
  }

  /** The newest row is always inside the window, so only an empty table yields no rows. */
  lemma EmptyIffNoRows(t: seq<ShareRow>, lo: nat, window: real, p: Probe)
    requires window > 0.0 && lo <= |t| && (lo < |t| || t == []) && IsProbe(t, lo, window, p)
    ensures p.count == 0 <==> t == []
  {
    if t != [] { assert InBatch(t, lo, window, |t| - 1); }
  }

  datatype Query = Failed | Rows(table: seq<ShareRow>)

  function Batch(k: nat): (b: nat)
    ensures b >= 4096
  {
    if k == 0 then 4096 else 4 * Batch(k - 1)
  }

  const LAST_STEP: nat := 25

  lemma BatchLimit(k: nat)
    ensures Batch(25) == 0x4000_0000_0000_0000
    ensures k <= LAST_STEP ==> (Batch(k) > INT64_MAX / 4 <==> k == LAST_STEP)
  {
    assert Batch(5) == 0x40_0000;
    assert Batch(10) == 0x1_0000_0000;
    assert Batch(15) == 0x400_0000_0000;
    assert Batch(20) == 0x10_0000_0000_0000;
    assert Batch(24) == 0x1000_0000_0000_0000;
    if k < 24 { BatchGrows(k, 24); }
  }

  lemma {:induction false} BatchGrows(i: nat, j: nat)
    requires i <= j
    ensures Batch(i) <= Batch(j)
  {
    if i < j { BatchGrows(i, j - 1); }
  }

  ghost predicate LastBatch(q: Query, batch: nat, b: Bounds) {
    q.Rows? && 0 < batch <= |q.table| && b == NewestRows(q.table, batch)
  }

  /**
   The walk: batches growing x4 until one covers the window or runs out of table.
   Each step is its own read, so each may see a different table or fail; `read(k)`
   is what step `k` saw. It ends for any reads, and on a table with rows a boundary
   that was not proved is never returned. A table found empty settles the walk: with
   the range open if it was empty from the start, and with the last batch read if it
   was emptied in between, which needs somebody else to delete shares.
   */
  method WindowBounds(read: nat -> Query, window: real) returns (w: Walk, step: nat)
    requires window > 0.0
    requires forall k :: read(k).Rows? ==> IsTable(read(k).table)
    ensures step <= LAST_STEP
    ensures w.Settled? ==> read(step).Rows?
    ensures w.Settled? && read(step).table != [] ==> Pins(read(step).table, window, w.bounds)
    ensures w.Settled? && read(step).table == [] ==>
      if step == 0 then w.bounds == Bounds(0, 0x7fff_ffff_ffff_ffff)
      else LastBatch(read(step - 1), Batch(step - 1), w.bounds)
    ensures w.Unproven? ==> read(step).Failed? || (step == LAST_STEP && |read(step).table| >= 0x4000_0000_0000_0000)
  {
    hide IsTable, IsProbe, Pins, Running, CountFrom;
    var cutoff, top := 0, INT64_MAX;
    step := 0;
    var batch := 4096;
    while true
      invariant step <= LAST_STEP && batch == Batch(step)
      invariant step > 0 ==> LastBatch(read(step - 1), Batch(step - 1), Bounds(cutoff, top))
      invariant step == 0 ==> (cutoff, top) == (0, INT64_MAX)
      decreases LAST_STEP - step
    {
      if read(step).Failed? { return Unproven, step; }
      var t := read(step).table;
      var p := BoundaryQuery(t, batch, window);
      EmptyIffNoRows(t, BatchStart(t, batch), window, p);
      ProbeCount(t, batch, window, p);
      if p.count == 0 { return Settled(Bounds(cutoff, top)), step; }
      cutoff, top := p.minId, p.maxId;
      if p.covered >= window {
        CoveredIsPinned(t, batch, window, p);
        return Settled(Bounds(cutoff, top)), step;
      }
      if p.count < batch {
        ExhaustedIsPinned(t, batch, window, p);
        return Settled(Bounds(cutoff, top)), step;
      }
      UncoveredBatch(t, batch, window, p);
      BatchLimit(step);
      if batch > INT64_MAX / 4 { return Unproven, step; }
      batch := batch * 4;
      step := step + 1;
    }
  }

  lemma {:induction false} CountIsBounded(t: seq<ShareRow>, window: real, lo: nat)
    requires lo <= |t|
    ensures CountFrom(t, window, lo) <= |t| - lo
    decreases |t| - lo
  {
    hide InWindow;
    if lo < |t| { CountIsBounded(t, window, lo + 1); }
  }

  lemma ProbeCount(t: seq<ShareRow>, batch: nat, window: real, p: Probe)
    requires IsProbe(t, BatchStart(t, batch), window, p)
    ensures p.count <= |t|
  {
    CountIsBounded(t, window, BatchStart(t, batch));
  }

  /**
   The one path that pins nothing: an empty table leaves the range open, so shares
   committed before the payout query are read by it. The bounds are right exactly
   when none arrive.
   */
  lemma EmptyTablePinsNothing(later: seq<ShareRow>, window: real)
    requires Extends(later, []) && window > 0.0
    requires forall i :: 0 <= i < |later| ==> later[i].id <= INT64_MAX
    ensures Selected(later, Bounds(0, INT64_MAX)) == FullWindow([], window) <==> later == []
  {
    assert forall i: nat :: !InWindow([], window, i);
    assert FullWindow([], window) == {};
    if later != [] { assert 0 in Selected(later, Bounds(0, INT64_MAX)); }
  }

  /** Two shares of difficulty 600 against a window of 500: the open range pays both, the window only one. */
  lemma EmptyTableOverpays()
    ensures var later := [ShareRow(1, 7, 600.0), ShareRow(2, 8, 600.0)];
      && Extends(later, [])
      && Selected(later, Bounds(0, INT64_MAX)) == {0, 1} && FullWindow(later, 500.0) == {1}
  {
    var later := [ShareRow(1, 7, 600.0), ShareRow(2, 8, 600.0)];
    assert Running(later, 2) == 0.0 && Running(later, 1) == 600.0;
    forall i: nat ensures i in Selected(later, Bounds(0, INT64_MAX)) <==> i in {0, 1} {
    }
    forall i: nat ensures i in FullWindow(later, 500.0) <==> i in {1} {
    }
  }
}
