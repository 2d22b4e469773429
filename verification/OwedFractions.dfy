/**
 What each miner is owed: the deltas a block stages for its payees, worker by worker,
 and the ledger they add up to over every run (src/stratum.c, src/store.c).
 */
module OwedFractions {
  import opened Sums
  import opened FractionLedger
  import Pplns
  import P = PayoutPipeline
  import W = WindowPayout
  import Options

  // ---- one payee's delta -------------------------------------------------

  /**
   Entitlement minus payment, without division: a skipped payee is owed its part of the
   window, a paid one what its part of the window exceeds its part of the paid claims by.
   */
  predicate IsDelta(delta: real, sats: real, paid: bool, total: real, own: real) {
    if paid then Times(Times(delta, total), own) == Times(sats, own - total)
    else Times(delta, total) == sats
  }

  lemma PaidDelta(a: real, b: real, sats: real, total: real, own: real)
    requires Times(a, total) == sats && Times(b, own) == sats
    ensures Times(Times(a - b, total), own) == Times(sats, own - total)
  {
    assert (a - b) * total * own == (a * total) * own - (b * own) * total;
  }

  lemma UnitQuota(part: real, whole: real)
    requires whole > 0.0
    ensures Times(Quota(1, part, whole), whole) == part
  {
    QuotaIs(1, part, whole);
  }

  lemma DeltaIs(sats: seq<int>, paid: seq<bool>, i: nat)
    requires i < |sats| == |paid| && SumInt(sats) > 0 && SumInt(OwnOf(sats, paid)) > 0
    ensures IsDelta(Deltas(sats, paid)[i], sats[i] as real, paid[i], SumInt(sats) as real,
                    SumInt(OwnOf(sats, paid)) as real)
  {
    hide Quota, Times, SumInt;
    var total, own, s := SumInt(sats) as real, SumInt(OwnOf(sats, paid)) as real, sats[i] as real;
    UnitQuota(s, total);
    UnitQuota(s, own);
    if paid[i] { PaidDelta(Quota(1, s, total), Quota(1, s, own), s, total, own); }
  }

  /** A skipped payee's delta is positive when its claim is. */
  lemma SkippedIsOwed(sats: seq<int>, paid: seq<bool>, i: nat)
    requires i < |sats| == |paid| && SumInt(sats) > 0 && SumInt(OwnOf(sats, paid)) > 0
    requires !paid[i] && sats[i] > 0
    ensures Deltas(sats, paid)[i] > 0.0
  {
    DeltaIs(sats, paid, i);
    hide Deltas, SumInt;
    PositiveFactor(Deltas(sats, paid)[i], SumInt(sats) as real);
  }

  lemma PositiveFactor(x: real, w: real)
    requires w > 0.0 && Times(x, w) > 0.0
    ensures x > 0.0
  {
  }

  // ---- sums for one worker -----------------------------------------------

  /** What the ledger says a worker is owed. */
  function OwedTo(rows: seq<Row>, x: int): real {
    if rows == [] then 0.0 else (if rows[0].workerId == x then rows[0].owed else 0.0) + OwedTo(rows[1..], x)
  }

  /** What the rows staged for a block hold for a worker. */
  function PendingTo(pending: seq<PendingRow>, hash: string, x: int): real {
    if pending == [] then 0.0
    else
      var n := |pending| - 1;
      PendingTo(pending[..n], hash, x)
      + if pending[n].hash == hash && pending[n].workerId == x then pending[n].delta else 0.0
  }

  function DeltaTo(ds: seq<Delta>, x: int): real {
    if ds == [] then 0.0
    else
      var n := |ds| - 1;
      DeltaTo(ds[..n], x) + if ds[n].workerId == x then ds[n].delta else 0.0
  }

  lemma {:induction false} UpsertTo(rows: seq<Row>, workerId: int, d: real, x: int)
    ensures OwedTo(Upsert(rows, workerId, d), x) == OwedTo(rows, x) + if workerId == x then d else 0.0
  {
    if rows != [] && rows[0].workerId != workerId {
      UpsertTo(rows[1..], workerId, d, x);
      assert Upsert(rows, workerId, d)[1..] == Upsert(rows[1..], workerId, d);
    }
  }

  /** Applying a block moves each worker by exactly what is staged for it. */
  lemma {:induction false} ApplyTo(ledger: seq<Row>, pending: seq<PendingRow>, hash: string, x: int)
    ensures OwedTo(ApplyHash(ledger, pending, hash), x) == OwedTo(ledger, x) + PendingTo(pending, hash, x)
  {
    hide OwedTo;
    if pending != [] {
      var n := |pending| - 1;
      ApplyTo(ledger, pending[..n], hash, x);
      UpsertTo(ApplyHash(ledger, pending[..n], hash), pending[n].workerId, pending[n].delta, x);
    }
  }

  lemma PendingToAppend(pending: seq<PendingRow>, row: PendingRow, hash: string, x: int)
    ensures PendingTo(pending + [row], hash, x)
         == PendingTo(pending, hash, x) + if row.hash == hash && row.workerId == x then row.delta else 0.0
  {
    assert (pending + [row])[..|pending|] == pending;
  }

  lemma {:induction false} DropTo(pending: seq<PendingRow>, hash: string, other: string, x: int)
    ensures PendingTo(DropHash(pending, hash), other, x) == if other == hash then 0.0 else PendingTo(pending, other, x)
  {
    if pending != [] {
      var n := |pending| - 1;
      DropTo(pending[..n], hash, other, x);
      var kept := DropHash(pending[..n], hash);
      PendingToAppend(kept, pending[n], other, x);
      assert DropHash(pending, hash) == if pending[n].hash == hash then kept else kept + [pending[n]];
      hide DropHash;
    }
  }

  lemma DeltaToAppend(ds: seq<Delta>, d: Delta, x: int)
    ensures DeltaTo(ds + [d], x) == DeltaTo(ds, x) + if d.workerId == x then d.delta else 0.0
  {
    assert (ds + [d])[..|ds|] == ds;
  }

  lemma {:induction false} RowsTo(pending: seq<PendingRow>, hash: string, ds: seq<Delta>, other: string, x: int)
    ensures PendingTo(pending + RowsFor(hash, ds), other, x)
         == PendingTo(pending, other, x) + if other == hash then DeltaTo(ds, x) else 0.0
  {
    if ds == [] {
      assert pending + RowsFor(hash, ds) == pending;
    } else {
      hide PendingTo, RowsFor, AmountsOf;
      var n := |ds| - 1;
      var row := PendingRow(hash, ds[n].workerId, ds[n].delta);
      RowsForStep(hash, ds);
      RowsTo(pending, hash, ds[..n], other, x);
      PendingToAppend(pending + RowsFor(hash, ds[..n]), row, other, x);
      assert pending + (RowsFor(hash, ds[..n]) + [row]) == pending + RowsFor(hash, ds[..n]) + [row];
    }
  }

  /** Rows without a worker are not written; everybody else's delta is. */
  lemma {:induction false} WritableTo(ds: seq<Delta>, x: int)
    ensures DeltaTo(Writable(ds), x) == if x > 0 then DeltaTo(ds, x) else 0.0
  {
    if ds != [] {
      var n := |ds| - 1;
      WritableTo(ds[..n], x);
      var before := Writable(ds[..n]);
      DeltaToAppend(before, ds[n], x);
      assert Writable(ds) == if ds[n].workerId > 0 then before + [ds[n]] else before;
      hide Writable;
    }
  }

  /** One row per block and worker, as the unique index has it. */
  ghost predicate OneRowPerKey(pending: seq<PendingRow>) {
    forall i, j :: 0 <= i < j < |pending| ==>
      pending[i].hash != pending[j].hash || pending[i].workerId != pending[j].workerId
  }

  lemma {:induction false} PendingToCons(row: PendingRow, pending: seq<PendingRow>, hash: string, x: int)
    ensures PendingTo([row] + pending, hash, x)
         == (if row.hash == hash && row.workerId == x then row.delta else 0.0) + PendingTo(pending, hash, x)
  {
    if pending != [] {
      var n := |pending| - 1;
      PendingToCons(row, pending[..n], hash, x);
      assert ([row] + pending)[..n + 1] == [row] + pending[..n];
    }
  }

  lemma {:induction false} NoneFor(pending: seq<PendingRow>, hash: string, x: int)
    requires forall i :: 0 <= i < |pending| ==> pending[i].hash != hash || pending[i].workerId != x
    ensures PendingTo(pending, hash, x) == 0.0
  {
    if pending != [] { NoneFor(pending[..|pending| - 1], hash, x); }
  }

  /** Staging a row again replaces it; nobody else's row moves. */
  lemma {:induction false} StageRowTo(pending: seq<PendingRow>, row: PendingRow, hash: string, x: int)
    requires OneRowPerKey(pending)
    ensures PendingTo(StageRow(pending, row), hash, x)
         == if hash == row.hash && x == row.workerId then row.delta else PendingTo(pending, hash, x)
  {
    hide PendingTo;
    if pending == [] {
      NoneFor([], hash, x);
      PendingToCons(row, [], hash, x);
      assert [row] + [] == [row];
    } else {
      var first, rest := pending[0], pending[1..];
      assert pending == [first] + rest;
      PendingToCons(first, rest, hash, x);
      if first.hash == row.hash && first.workerId == row.workerId {
        PendingToCons(row, rest, hash, x);
        if hash == row.hash && x == row.workerId { NoneFor(rest, hash, x); }
      } else {
        StageRowTo(rest, row, hash, x);
        PendingToCons(first, StageRow(rest, row), hash, x);
      }
    }
  }

  // ---- every run -----------------------------------------------------------

  /** A staging that was written. */
  predicate Staged(s: Step) {
    s.StageStep? && s.commits && Writable(s.ds) != [] && StageAccepts(s.ds)
  }

  /** The deltas each block was staged with. */
  function Given(steps: seq<Step>): map<string, seq<Delta>> {
    if steps == [] then map[]
    else
      var n := |steps| - 1;
      var before := Given(steps[..n]);
      if Staged(steps[n]) then before[steps[n].hash := steps[n].ds] else before
  }

  /** What a block was staged with for a worker; a worker without an id is never written. */
  function GivenTo(given: map<string, seq<Delta>>, hash: string, x: int): real {
    if hash in given && x > 0 then DeltaTo(given[hash], x) else 0.0
  }

  /** The deltas of the blocks applied so far, for one worker. */
  function AppliedTo(given: map<string, seq<Delta>>, applied: seq<string>, x: int): real {
    if applied == [] then 0.0
    else
      var n := |applied| - 1;
      AppliedTo(given, applied[..n], x) + GivenTo(given, applied[n], x)
  }

  predicate IsSettled(r: Run, hash: string) {
    hash in r.applied || hash in r.discarded
  }

  /** The queue holds what the undecided blocks were staged with, and the ledger what the applied ones were. */
  ghost predicate Matches(r: Run, given: map<string, seq<Delta>>, x: int) {
    && given.Keys == r.staged
    && (forall hash :: PendingTo(r.t.pending, hash, x) == if IsSettled(r, hash) then 0.0 else GivenTo(given, hash, x))
    && OwedTo(r.t.ledger, x) == AppliedTo(given, r.applied, x)
  }

  /** Staging another block changes nothing that was given to the blocks already applied. */
  lemma {:induction false} AppliedToKeeps(given: map<string, seq<Delta>>, hash: string, ds: seq<Delta>,
                                          applied: seq<string>, x: int)
    requires hash !in applied
    ensures AppliedTo(given[hash := ds], applied, x) == AppliedTo(given, applied, x)
  {
    hide DeltaTo;
    if applied != [] { AppliedToKeeps(given, hash, ds, applied[..|applied| - 1], x); }
  }

  lemma StageMatches(r: Run, given: map<string, seq<Delta>>, s: Step, x: int)
    requires Inv(r) && Allowed(r, s) && Staged(s) && Matches(r, given, x)
    ensures Matches(Next(r, s), given[s.hash := s.ds], x)
  {
    var w, r' := Writable(s.ds), Next(r, s);
    forall i | 0 <= i < |r.t.pending| ensures r.t.pending[i].hash != s.hash {
      assert r.t.pending[i] in r.t.pending;
    }
    StageAllFresh(r.t.pending, s.hash, s.ds);
    WritableTo(s.ds, x);
    hide Writable, DistinctWorkers, PendingTo, DeltaTo, OwedTo, AppliedTo, Balance, Slack, PendingSum, RowsFor;
    assert !IsSettled(r, s.hash) && s.hash !in r.applied;
    forall hash ensures PendingTo(r'.t.pending, hash, x)
      == if IsSettled(r', hash) then 0.0 else GivenTo(given[s.hash := s.ds], hash, x)
    {
      RowsTo(r.t.pending, s.hash, w, hash, x);
    }
    AppliedToKeeps(given, s.hash, s.ds, r.applied, x);
  }

  lemma AppliedToAppend(given: map<string, seq<Delta>>, applied: seq<string>, hash: string, x: int)
    ensures AppliedTo(given, applied + [hash], x) == AppliedTo(given, applied, x) + GivenTo(given, hash, x)
  {
    assert (applied + [hash])[..|applied|] == applied;
  }

  lemma SettleOneMatches(r: Run, given: map<string, seq<Delta>>, v: Verdict, x: int)
    requires Inv(r) && HasRows(r.t, v.hash) && Matches(r, given, x)
    ensures Matches(SettledBy(r, v), given, x)
  {
    hide ApplyHash, DropHash, PendingTo, OwedTo, AppliedTo, GivenTo, Balance, Slack, PendingSum, OneRowEach;
    var r' := SettledBy(r, v);
    assert !IsSettled(r, v.hash);
    ApplyTo(r.t.ledger, r.t.pending, v.hash, x);
    AppliedToAppend(given, r.applied, v.hash, x);
    forall hash ensures PendingTo(r'.t.pending, hash, x) == if IsSettled(r', hash) then 0.0 else GivenTo(given, hash, x)
    {
      DropTo(r.t.pending, v.hash, hash, x);
    }
  }

  lemma {:induction false} SettleMatches(r: Run, given: map<string, seq<Delta>>, vs: seq<Verdict>, n: nat, x: int)
    requires Inv(r) && Allowed(r, SettleStep(vs, true)) && n <= |vs| && Matches(r, given, x)
    ensures Matches(Settled(r, vs[..n]), given, x)
    decreases n
  {
    hide Inv, HasRows, SettledBy, Matches;
    if n == 0 {
      assert vs[..0] == [];
    } else {
      SettleMatches(r, given, vs, n - 1, x);
      SettleKeepsInv(r, vs, n - 1);
      assert vs[..n][..n - 1] == vs[..n - 1];
      SettleOneMatches(Settled(r, vs[..n - 1]), given, vs[n - 1], x);
    }
  }

  lemma StepMatches(r: Run, given: map<string, seq<Delta>>, s: Step, x: int)
    requires Inv(r) && Allowed(r, s) && Matches(r, given, x)
    ensures Matches(Next(r, s), if Staged(s) then given[s.hash := s.ds] else given, x)
  {
    hide Inv, Matches, Settled, StageAll;
    if Staged(s) {
      StageMatches(r, given, s, x);
    } else if s.SettleStep? && s.commits {
      SettleMatches(r, given, s.vs, |s.vs|, x);
      assert s.vs[..|s.vs|] == s.vs;
    }
  }

  lemma StartMatches(x: int)
    ensures Matches(START, map[], x)
  {
  }

  /**
   Over every run of stagings and settlements, with transactions failing anywhere: what a
   worker is owed is the sum of the deltas its blocks were staged with, over exactly the
   blocks applied; and the queue still holds the others' in full.
   */
  lemma {:induction false} OwedIsWhatWasApplied(rs: seq<Run>, steps: seq<Step>, n: nat, x: int)
    requires IsRun(rs, steps) && n < |rs|
    ensures Matches(rs[n], Given(steps[..n]), x)
    decreases n
  {
    hide Inv, Next, Allowed, Matches, Staged;
    if n == 0 {
      StartMatches(x);
    } else {
      OwedIsWhatWasApplied(rs, steps, n - 1, x);
      LedgerIsSafe(rs, steps, n - 1);
      StepMatches(rs[n - 1], Given(steps[..n - 1]), steps[n - 1], x);
      assert steps[..n][..n - 1] == steps[..n - 1];
    }
  }

  // ---- from a block's payees to the next block's order ----------------------

  ghost predicate DistinctIds(ids: seq<int>) {
    forall i, j :: 0 <= i < j < |ids| ==> ids[i] != ids[j]
  }

  lemma {:induction false} KeptTo(ids: seq<int>, deltas: seq<real>, x: int)
    requires |ids| == |deltas| && x !in ids
    ensures DeltaTo(Kept(ids, deltas), x) == 0.0
  {
    if deltas != [] {
      var n := |deltas| - 1;
      KeptTo(ids[..n], deltas[..n], x);
      var before := Kept(ids[..n], deltas[..n]);
      DeltaToAppend(before, Delta(ids[n], deltas[n]), x);
      assert Kept(ids, deltas) == if Significant(deltas[n]) then before + [Delta(ids[n], deltas[n])] else before;
      hide Kept;
    }
  }

  /** Each payee's worker is staged with its own delta, or nothing if that is negligible. */
  lemma {:induction false} KeptIsOwn(ids: seq<int>, deltas: seq<real>, i: nat)
    requires i < |ids| == |deltas| && DistinctIds(ids)
    ensures DeltaTo(Kept(ids, deltas), ids[i]) == if Significant(deltas[i]) then deltas[i] else 0.0
  {
    var n := |deltas| - 1;
    var before := Kept(ids[..n], deltas[..n]);
    DeltaToAppend(before, Delta(ids[n], deltas[n]), ids[i]);
    assert Kept(ids, deltas) == if Significant(deltas[n]) then before + [Delta(ids[n], deltas[n])] else before;
    hide Kept;
    if i < n { KeptIsOwn(ids[..n], deltas[..n], i); } else { KeptTo(ids[..n], deltas[..n], ids[i]); }
  }

  /**
   A miner the coinbase skipped waits its turn: when the block stands, what it is owed rises
   by its part of the window, and a claim that carries it and clears the floor is eligible
   for a reserved slot.
   */
  lemma SkippedIsPromoted(r: Run, given: map<string, seq<Delta>>, hash: string, sats: seq<int>, paid: seq<bool>,
                          ids: seq<int>, i: nat)
    requires i < |sats| == |paid| == |ids| && DistinctIds(ids) && ids[i] > 0
    requires SumInt(sats) > 0 && SumInt(OwnOf(sats, paid)) > 0
    requires !paid[i] && sats[i] > 0 && Significant(Deltas(sats, paid)[i])
    requires Inv(r) && HasRows(r.t, hash) && Matches(r, given, ids[i])
    requires hash in given && given[hash] == Kept(ids, Deltas(sats, paid))
    ensures var before, after := OwedTo(r.t.ledger, ids[i]), OwedTo(SettledBy(r, Verdict(hash, true)).t.ledger, ids[i]);
      && Times(after - before, SumInt(sats) as real) == sats[i] as real
      && (before >= 0.0 ==> forall address: string, difficulty: real, amount: int, floor: int :: amount >= floor ==>
            Pplns.Eligible([Pplns.Claim(address, difficulty, ids[i], after)], [amount], floor, 0))
  {
    hide Deltas, Kept, OwnOf, SumInt, DropHash, ApplyHash, OwedTo, PendingTo, DeltaTo, Balance, Slack, PendingSum;
    hide AppliedTo, OneRowEach, Times;
    DeltaIs(sats, paid, i);
    SkippedIsOwed(sats, paid, i);
    KeptIsOwn(ids, Deltas(sats, paid), i);
    ApplyTo(r.t.ledger, r.t.pending, hash, ids[i]);
    assert !IsSettled(r, hash);
  }

  /**
   The delta staged for a claim's worker is that claim's own: by what the claim was split,
   and by whether the coinbase paid it, wherever the payment order put it.
   */
  lemma ClaimDelta(w: P.Window, budget: nat, script: string -> Options.Option<W.Script>, r: W.WindowResult, j: nat)
    returns (i: nat, delta: real)
    requires w.Accepted() && j < |w.claims|
    requires forall a, b :: 0 <= a < b < |w.claims| ==> w.claims[a].workerId != w.claims[b].workerId
    requires W.IsPayout(r, w.reward, w.Payees(), w.operator, w.feeBps, budget, w.Floor(), W.REPL_CAP, script)
    ensures i < |w.Payees()| == |r.paidPayee| == |w.WorkerIds()| && w.Payees()[i] == w.ByClaim()[j]
    ensures var sats := Pplns.SatsOf(w.Payees());
      && SumInt(sats) == w.reward - w.Fee() > 0 && SumInt(OwnOf(sats, r.paidPayee)) > 0
      && IsDelta(delta, w.ByClaim()[j].sats as real, r.paidPayee[i], (w.reward - w.Fee()) as real,
                 SumInt(OwnOf(sats, r.paidPayee)) as real)
      && DeltaTo(Kept(w.WorkerIds(), Deltas(sats, r.paidPayee)), w.claims[j].workerId)
           == if delta > 0.000000000001 || delta < -0.000000000001 then delta else 0.0
  {
    hide SumInt, Pplns.SplitPayees, Pplns.PaymentOrder, Pplns.FeeOf, Pplns.FloorOf, Pplns.SplitAccepts;
    hide Deltas, Kept, DeltaTo, IsDelta, W.IsPayout, OwnOf, Distinct;
    P.WindowAddsUp(w);
    var k := P.PayoutMarks(w, budget, script, r);
    var sats, ids := Pplns.SatsOf(w.Payees()), w.WorkerIds();
    P.PaidClaimsArePositive(sats, r.paidPayee, k);
    i := PositionOf(w, j);
    hide P.InOrder;
    delta := Deltas(sats, r.paidPayee)[i];
    DeltaIs(sats, r.paidPayee, i);
    IdsStayDistinct(w);
    KeptIsOwn(ids, Deltas(sats, r.paidPayee), i);
  }

  lemma PositionOf(w: P.Window, j: nat) returns (i: nat)
    requires w.total > 0.0 && w.claims != [] && j < |w.claims|
    ensures i < |w.Payees()| == |w.WorkerIds()| == |w.claims|
    ensures w.Payees()[i] == w.ByClaim()[j] && w.WorkerIds()[i] == w.claims[j].workerId
  {
    hide Pplns.SplitPayees, Pplns.PaymentOrder;
    w.OrderIsPerm();
    assert j in w.Order();
    i :| 0 <= i < |w.Order()| && w.Order()[i] == j;
  }

  lemma IdsStayDistinct(w: P.Window)
    requires w.total > 0.0 && w.claims != []
    requires forall a, b :: 0 <= a < b < |w.claims| ==> w.claims[a].workerId != w.claims[b].workerId
    ensures DistinctIds(w.WorkerIds())
  {
    hide Pplns.SplitPayees, Pplns.PaymentOrder;
    w.OrderIsPerm();
    var order := w.Order();
    forall a, b | 0 <= a < b < |order| ensures w.WorkerIds()[a] != w.WorkerIds()[b] {
      assert order[a] != order[b];
    }
  }
}