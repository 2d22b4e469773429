/**
 Who is credited: each worker's account against the shares it brought to the windows of
 the blocks distributed, over every run (store_pplns_distribute in src/store.c).
 */
module WorkerCredits {
  import opened Options
  import opened Sums
  import opened WindowWalk
  import opened BlockStatus
  import opened Distribution
  import opened Settlement

  // ---- one worker's part ------------------------------------------------

  /** The difficulty the worker's own shares bring to the window, from row `i` on. */
  function Brought(t: seq<ShareRow>, window: real, x: int, i: nat): real
    decreases |t| - i
  {
    if i >= |t| then 0.0
    else (if InWindow(t, window, i) && t[i].workerId == x then t[i].difficulty else 0.0) + Brought(t, window, x, i + 1)
  }

  /** What rows of grouped work hold for the worker. */
  function WorkOf(ws: seq<Work>, x: int): real {
    if ws == [] then 0.0 else (if ws[0].workerId == x then ws[0].difficulty else 0.0) + WorkOf(ws[1..], x)
  }

  /** What rows of credits hold for the worker. */
  function SatsTo(cs: seq<Credit>, x: int): int {
    if cs == [] then 0
    else
      var n := |cs| - 1;
      SatsTo(cs[..n], x) + if cs[n].workerId == x then cs[n].sats else 0
  }

  ghost predicate OneEach(ws: seq<Work>) {
    forall i, j :: 0 <= i < j < |ws| ==> ws[i].workerId != ws[j].workerId
  }

  lemma {:induction false} AddWorkTo(ws: seq<Work>, workerId: int, d: real, x: int)
    ensures WorkOf(AddWork(ws, workerId, d), x) == WorkOf(ws, x) + if workerId == x then d else 0.0
  {
    if ws != [] && ws[0].workerId != workerId {
      AddWorkTo(ws[1..], workerId, d, x);
      assert AddWork(ws, workerId, d)[1..] == AddWork(ws[1..], workerId, d);
    }
  }

  lemma {:induction false} AddWorkIds(ws: seq<Work>, workerId: int, d: real)
    requires OneEach(ws)
    ensures OneEach(AddWork(ws, workerId, d))
    ensures forall k :: 0 <= k < |AddWork(ws, workerId, d)| ==> var w := AddWork(ws, workerId, d)[k];
      w.workerId == workerId || exists j :: 0 <= j < |ws| && ws[j].workerId == w.workerId
  {
    if ws != [] && ws[0].workerId != workerId {
      AddWorkIds(ws[1..], workerId, d);
    }
  }

  /** The grouping holds each worker once, with what it brought. */
  lemma {:induction false} GroupHolds(t: seq<ShareRow>, window: real, i: nat, x: int)
    ensures OneEach(GroupFrom(t, window, i)) && WorkOf(GroupFrom(t, window, i), x) == Brought(t, window, x, i)
    decreases |t| - i
  {
    hide InWindow, OneEach, AddWork, WorkOf;
    if i >= |t| {
      NoWork(x);
    } else {
      GroupHolds(t, window, i + 1, x);
      AddWorkTo(GroupFrom(t, window, i + 1), t[i].workerId, t[i].difficulty, x);
      AddWorkIds(GroupFrom(t, window, i + 1), t[i].workerId, t[i].difficulty);
    }
  }

  lemma NoWork(x: int)
    ensures OneEach([]) && WorkOf([], x) == 0.0
  {
  }

  lemma {:induction false} WorkOfAppend(ws: seq<Work>, w: Work, x: int)
    ensures WorkOf(ws + [w], x) == WorkOf(ws, x) + if w.workerId == x then w.difficulty else 0.0
  {
    if ws == [] {
      assert ([] + [w])[1..] == [];
    } else {
      WorkOfAppend(ws[1..], w, x);
      assert (ws + [w])[1..] == ws[1..] + [w];
    }
  }

  lemma {:induction false} AbsentHasNone(ws: seq<Work>, x: int)
    requires forall i :: 0 <= i < |ws| ==> ws[i].workerId != x
    ensures WorkOf(ws, x) == 0.0
  {
    if ws != [] { AbsentHasNone(ws[1..], x); }
  }

  lemma SatsToAppend(cs: seq<Credit>, c: Credit, x: int)
    ensures SatsTo(cs + [c], x) == SatsTo(cs, x) + if c.workerId == x then c.sats else 0
  {
    assert (cs + [c])[..|cs|] == cs;
  }

  /** A worker's credit is the truncated share of its own work. */
  lemma {:induction false} CreditsTo(payable: int, ws: seq<Work>, total: real, x: int)
    requires total > 0.0 && payable >= 0 && OneEach(ws) && forall i :: 0 <= i < |ws| ==> ws[i].difficulty >= 0.0
    ensures SatsTo(CreditsOf(payable, ws, total), x) == Share(payable, WorkOf(ws, x), total)
  {
    hide Share, WorkOf, SatsTo, CreditsOf, OneEach, SumInt, Shares;
    NoWorkNoShare(payable, total);
    if ws == [] {
      NoWork(x);
      NoCredits(payable, total, x);
    } else {
      var n := |ws| - 1;
      PrefixOneEach(ws);
      CreditsTo(payable, ws[..n], total, x);
      CreditsToStep(payable, ws, total, x);
    }
  }

  lemma NoCredits(payable: int, total: real, x: int)
    ensures SatsTo(CreditsOf(payable, [], total), x) == 0
  {
  }

  lemma PrefixOneEach(ws: seq<Work>)
    requires ws != [] && OneEach(ws)
    ensures var n := |ws| - 1; OneEach(ws[..n]) && forall i :: 0 <= i < n ==> ws[..n][i].workerId != ws[n].workerId
  {
  }

  lemma CreditsToStep(payable: int, ws: seq<Work>, total: real, x: int)
    requires total > 0.0 && payable >= 0 && ws != [] && ws[|ws| - 1].difficulty >= 0.0
    requires Share(payable, 0.0, total) == 0
    requires var n := |ws| - 1; forall i :: 0 <= i < n ==> ws[..n][i].workerId != ws[n].workerId
    requires var n := |ws| - 1;
      SatsTo(CreditsOf(payable, ws[..n], total), x) == Share(payable, WorkOf(ws[..n], x), total)
    ensures SatsTo(CreditsOf(payable, ws, total), x) == Share(payable, WorkOf(ws, x), total)
  {
    hide Share, WorkOf, SatsTo, CreditsOf, SumInt, Shares;
    var n := |ws| - 1;
    var amt := Share(payable, ws[n].difficulty, total);
    assert ws == ws[..n] + [ws[n]];
    WorkOfAppend(ws[..n], ws[n], x);
    if ws[n].workerId == x { AbsentHasNone(ws[..n], x); }
    ShareIsNonNegative(payable, ws[n].difficulty, total);
    CreditsStep(payable, ws, total);
    SatsToAppend(CreditsOf(payable, ws[..n], total), Credit(ws[n].workerId, amt), x);
  }

  // ---- one block ---------------------------------------------------------

  /** What a distribution owes the worker: its share of what is payable, by its part of the window. */
  function DueTo(p: Payment, x: int): int {
    var payable, total := PayableOf(GrossOf(p.row), p.feeBps), WindowTotal(p.shares, p.row.window, 0);
    if payable <= 0 || total <= 0.0 then 0 else Share(payable, Brought(p.shares, p.row.window, x, 0), total)
  }

  lemma BlockCreditsTo(payable: int, rows: seq<ShareRow>, window: real, x: int)
    requires IsTable(rows) && payable >= 0
    ensures var total := WindowTotal(rows, window, 0);
      SatsTo(BlockCredits(payable, rows, window), x) ==
        if total > 0.0 then Share(payable, Brought(rows, window, x, 0), total) else 0
  {
    hide Share, WorkOf, IsTable, GroupFrom, WindowTotal, Brought, OneEach;
    var ws, total := GroupFrom(rows, window, 0), WindowTotal(rows, window, 0);
    GroupHolds(rows, window, 0, x);
    GroupNonNegative(rows, window, 0);
    if total > 0.0 { CreditsTo(payable, ws, total, x); }
  }

  lemma {:induction false} AddCreditTo(rows: seq<Credit>, c: Credit, x: int)
    ensures SatsTo(AddCredit(rows, c), x) == SatsTo(rows, x) + if c.workerId == x then c.sats else 0
  {
    hide SatsTo;
    NothingTo(x);
    if rows == [] {
      SatsToCons(c, [], x);
      assert [c] + [] == [c];
    } else {
      assert rows == [rows[0]] + rows[1..];
      SatsToCons(rows[0], rows[1..], x);
      if rows[0].workerId == c.workerId {
        SatsToCons(Credit(c.workerId, rows[0].sats + c.sats), rows[1..], x);
      } else {
        AddCreditTo(rows[1..], c, x);
        SatsToCons(rows[0], AddCredit(rows[1..], c), x);
      }
    }
  }

  lemma NothingTo(x: int)
    ensures SatsTo([], x) == 0
  {
  }

  lemma {:induction false} SatsToCons(c: Credit, cs: seq<Credit>, x: int)
    ensures SatsTo([c] + cs, x) == (if c.workerId == x then c.sats else 0) + SatsTo(cs, x)
  {
    var n := |cs| - 1;
    if cs != [] {
      SatsToCons(c, cs[..n], x);
      assert ([c] + cs)[..n + 1] == [c] + cs[..n];
    }
  }

  lemma {:induction false} AddCreditsTo(rows: seq<Credit>, cs: seq<Credit>, x: int)
    ensures SatsTo(AddCredits(rows, cs), x) == SatsTo(rows, x) + SatsTo(cs, x)
  {
    if cs != [] {
      var n := |cs| - 1;
      AddCreditsTo(rows, cs[..n], x);
      AddCreditTo(AddCredits(rows, cs[..n]), cs[n], x);
      hide AddCredit;
    }
  }

  /** Distributing a block adds to each worker's account exactly what that block owes it. */
  lemma DistributedTo(s: Store, i: nat, feeBps: int, x: int)
    requires ValidStore(s) && i < |s.blocks|
    ensures SatsTo(Distributed(s, i, feeBps).credits, x) == SatsTo(s.credits, x) + DueTo(PaymentFor(s, i, feeBps), x)
  {
    hide PayableOf, Share, BlockCredits, WindowTotal, Brought, AddCredits, SumInt, SatsTo;
    var b := s.blocks[i];
    var payable := PayableOf(GrossOf(b), feeBps);
    AddCreditsTo(s.credits, CreditsFor(s, i, feeBps), x);
    NothingTo(x);
    if payable > 0 {
      if b.hash in s.anchors { UpToIsAnchored(s.shares, s.anchors[b.hash]); }
      BlockCreditsTo(payable, AnchoredRows(s, b.hash), b.window, x);
    }
  }

  /** What is owed, without division: in proportion to the work brought, less than a sat short. */
  lemma DueIs(p: Payment, x: int)
    ensures var payable, total := PayableOf(p.row.reward + p.row.fee, p.feeBps), WindowTotal(p.shares, p.row.window, 0);
      var due, brought := DueTo(p, x), Brought(p.shares, p.row.window, x, 0);
      if payable <= 0 || total <= 0.0 then due == 0
      else IsShare(due, payable, brought, total)
  {
    hide PayableOf, Share, WindowTotal, Brought;
    var payable, total := PayableOf(GrossOf(p.row), p.feeBps), WindowTotal(p.shares, p.row.window, 0);
    if total > 0.0 { ShareIs(payable, Brought(p.shares, p.row.window, x, 0), total); }
  }

  // ---- every run ---------------------------------------------------------

  /** What the payments owe the worker together. */
  function AllDueTo(ps: seq<Payment>, x: int): int {
    if ps == [] then 0
    else
      var n := |ps| - 1;
      AllDueTo(ps[..n], x) + DueTo(ps[n], x)
  }

  lemma {:induction false} AllDueToConcat(ps: seq<Payment>, qs: seq<Payment>, x: int)
    ensures AllDueTo(ps + qs, x) == AllDueTo(ps, x) + AllDueTo(qs, x)
  {
    hide DueTo;
    if qs == [] {
      assert ps + qs == ps;
    } else {
      var n := |qs| - 1;
      AllDueToConcat(ps, qs[..n], x);
      assert (ps + qs)[..|ps + qs| - 1] == ps + qs[..n];
    }
  }

  lemma OneDueTo(ps: seq<Payment>, p: Payment, x: int)
    ensures AllDueTo(ps + [p], x) == AllDueTo(ps, x) + DueTo(p, x) && AllDueTo([], x) == 0
  {
    hide DueTo;
    assert (ps + [p])[..|ps|] == ps;
  }

  lemma {:induction false} PassPaysWorkers(s: Store, due: seq<nat>, feeBps: int, lands: nat -> bool, n: nat, x: int)
    requires ValidStore(s) && n <= |due| && IsDueList(s, due)
    ensures SatsTo(DistributePass(s, due, feeBps, lands, n).0.credits, x)
         == SatsTo(s.credits, x) + AllDueTo(PassPayments(s, due, feeBps, lands, n), x)
  {
    hide DistributePass, PassPayments, Distributed, PaymentFor, DueTo, AllDueTo, SatsTo, Due;
    if n == 0 {
      PassStart(s, due, feeBps, lands);
      OneDueTo([], Payment(0, Block("", 0, Pending, 0, 0, 0, 0.0, false), 0, 0, []), x);
    } else {
      PassPaysWorkers(s, due, feeBps, lands, n - 1, x);
      PassStep(s, due, feeBps, lands, n - 1);
      PassStoreIsValid(s, due, feeBps, lands, n - 1);
      var before := DistributePass(s, due, feeBps, lands, n - 1).0;
      DistributedTo(before, due[n - 1], feeBps, x);
      OneDueTo(PassPayments(s, due, feeBps, lands, n - 1), PaymentFor(before, due[n - 1], feeBps), x);
    }
  }

  lemma PassStoreIsValid(s: Store, due: seq<nat>, feeBps: int, lands: nat -> bool, n: nat)
    requires ValidStore(s) && n <= |due| && IsDueList(s, due)
    ensures ValidStore(DistributePass(s, due, feeBps, lands, n).0)
  {
    hide DistributePass, Due, IsTable;
    PassKeeps(s, due, feeBps, lands, n);
  }

  lemma StepPaysWorkers(w: World, s: Step, x: int)
    requires Inv(w) && Allowed(w, s)
    ensures var w' := Next(w, s);
      && w.payments <= w'.payments
      && SatsTo(w'.store.credits, x) == SatsTo(w.store.credits, x) + AllDueTo(w'.payments[|w.payments|..], x)
  {
    hide DueTo, AllDueTo, SatsTo, Due, AfterStatus, DistributePass, PassPayments, L.Next, Accounted, L.Inv, IsTable;
    OneDueTo([], Payment(0, Block("", 0, Pending, 0, 0, 0, 0.0, false), 0, 0, []), x);
    var w' := Next(w, s);
    if s.Reconciled? && s.pass.tip > 0 && s.pass.pplns {
      var p := s.pass;
      AfterStatusKeeps(w.store.blocks, w.store.tips, w.gbh, p.tip, p.cands, p.answers, p.writes);
      var blocks := AfterStatus(w.store.blocks, w.store.tips, w.gbh, p.tip, p.cands, p.answers, p.writes).0;
      var s1 := w.store.(blocks := blocks);
      PassPaysWorkers(s1, p.due, p.feeBps, p.lands, |p.due|, x);
      assert w'.payments[|w.payments|..] == PassPayments(s1, p.due, p.feeBps, p.lands, |p.due|);
    } else {
      assert w'.payments[|w.payments|..] == [];
    }
  }

  /**
   Over every run of finds, shares, reorgs and passes, with failures anywhere: what a worker
   has been credited is the sum, over the blocks distributed, of its truncated share of each.
   */
  lemma {:induction false} WorkersArePaidTheirShare(ws: seq<World>, steps: seq<Step>, n: nat, x: int)
    requires IsRun(ws, steps) && n < |ws|
    ensures SatsTo(ws[n].store.credits, x) == AllDueTo(ws[n].payments, x)
    decreases n
  {
    hide Inv, Next, Allowed, SatsTo, AllDueTo, DueTo;
    if n == 0 {
      NobodyPaid(x);
    } else {
      WorkersArePaidTheirShare(ws, steps, n - 1, x);
      RunIsSound(ws, steps, n - 1);
      StepPaysWorkers(ws[n - 1], steps[n - 1], x);
      AllDueToSplit(ws[n - 1].payments, ws[n].payments, x);
    }
  }

  lemma NobodyPaid(x: int)
    ensures SatsTo(Settlement.START.store.credits, x) == 0 == AllDueTo(Settlement.START.payments, x)
  {
  }

  lemma AllDueToSplit(before: seq<Payment>, after: seq<Payment>, x: int)
    requires before <= after
    ensures AllDueTo(after, x) == AllDueTo(before, x) + AllDueTo(after[|before|..], x)
  {
    assert after == before + after[|before|..];
    AllDueToConcat(before, after[|before|..], x);
  }

  // ---- which shares a block pays -----------------------------------------

  /** The shares accepted by a run of steps, oldest first. */
  function SharesOf(steps: seq<Step>): seq<ShareRow> {
    if steps == [] then []
    else
      var n := |steps| - 1;
      SharesOf(steps[..n]) + if steps[n].Shared? then [steps[n].row] else []
  }

  /** The step is the share that found the block. */
  predicate Files(s: Step, hash: string) {
    s.Shared? && s.blockHash == Some(hash)
  }

  ghost predicate IsLastFiled(steps: seq<Step>, hash: string, m: nat, n: nat)
    requires n <= |steps|
  {
    m < n && Files(steps[m], hash) && forall i :: m < i < n ==> !Files(steps[i], hash)
  }

  /** Everything accepted up to the share that found the block, that share included; nothing if there is none. */
  ghost predicate AreItsShares(steps: seq<Step>, hash: string, n: nat, rows: seq<ShareRow>)
    requires n <= |steps|
  {
    || (exists m: nat :: IsLastFiled(steps, hash, m, n) && rows == SharesOf(steps[..m + 1]))
    || (rows == [] && forall m :: 0 <= m < n ==> !Files(steps[m], hash))
  }

  /** Only shares add to the share table and to the anchors. */
  lemma SharesStep(w: World, s: Step)
    requires Allowed(w, s)
    ensures var s' := Next(w, s).store;
      if s.Shared? then
        && s'.shares == w.store.shares + [s.row]
        && s'.anchors == if s.blockHash.Some? then w.store.anchors[s.blockHash.value := s.row.id] else w.store.anchors
      else s'.shares == w.store.shares && s'.anchors == w.store.anchors
  {
    hide AfterStatus, DistributePass, PassPayments, L.Next, Due, IsTable;
    if s.Reconciled? && s.pass.tip > 0 && s.pass.pplns {
      var p := s.pass;
      var blocks := AfterStatus(w.store.blocks, w.store.tips, w.gbh, p.tip, p.cands, p.answers, p.writes).0;
      PassKeeps(w.store.(blocks := blocks), p.due, p.feeBps, p.lands, |p.due|);
    }
  }

  lemma SharesOfStep(steps: seq<Step>, n: nat)
    requires n < |steps|
    ensures SharesOf(steps[..n + 1]) == SharesOf(steps[..n]) + if steps[n].Shared? then [steps[n].row] else []
    ensures SharesOf(steps[..0]) == []
  {
    assert steps[..n + 1][..n] == steps[..n];
  }

  lemma {:induction false} TableIsHistory(ws: seq<World>, steps: seq<Step>, n: nat)
    requires IsRun(ws, steps) && n < |ws|
    ensures ws[n].store.shares == SharesOf(steps[..n])
    decreases n
  {
    hide Next, Allowed, SharesOf;
    if n == 0 {
      NoShares(steps);
    } else {
      TableIsHistory(ws, steps, n - 1);
      SharesStep(ws[n - 1], steps[n - 1]);
      SharesOfStep(steps, n - 1);
    }
  }

  lemma NoShares(steps: seq<Step>)
    ensures SharesOf(steps[..0]) == []
  {
  }

  lemma {:induction false} HistoryGrows(steps: seq<Step>, m: nat, n: nat)
    requires m <= n <= |steps|
    ensures SharesOf(steps[..m]) <= SharesOf(steps[..n])
    decreases n
  {
    if m < n {
      hide SharesOf;
      HistoryGrows(steps, m, n - 1);
      SharesOfStep(steps, n - 1);
    }
  }

  /** The anchor of a block is the id of the share that found it. */
  lemma {:induction false} AnchorWasFiled(ws: seq<World>, steps: seq<Step>, n: nat, hash: string) returns (m: nat)
    requires IsRun(ws, steps) && n < |ws|
    ensures if hash in ws[n].store.anchors then
      IsLastFiled(steps, hash, m, n) && ws[n].store.anchors[hash] == steps[m].row.id
      else forall i :: 0 <= i < n ==> !Files(steps[i], hash)
    decreases n
  {
    hide Next, Allowed;
    m := 0;
    if n > 0 {
      SharesStep(ws[n - 1], steps[n - 1]);
      if Files(steps[n - 1], hash) {
        m := n - 1;
      } else {
        m := AnchorWasFiled(ws, steps, n - 1, hash);
      }
    }
  }

  lemma UpToPrefix(t: seq<ShareRow>, rows: seq<ShareRow>)
    requires IsTable(t) && rows <= t && rows != []
    ensures UpTo(t, rows[|rows| - 1].id) == rows
  {
    hide UpTo;
    var anchor := rows[|rows| - 1].id;
    UpToIsAnchored(t, anchor);
    assert IsAnchored(t, anchor, rows);
    SameAnchoredRows(t, anchor, UpTo(t, anchor), rows);
  }

  /** The rows a distribution reads are the shares accepted up to the one that found the block. */
  lemma AnchoredAreItsShares(ws: seq<World>, steps: seq<Step>, n: nat, hash: string)
    requires IsRun(ws, steps) && n < |ws|
    ensures n <= |steps| && AreItsShares(steps, hash, n, AnchoredRows(ws[n].store, hash))
  {
    RunIsSound(ws, steps, n);
    var m := AnchorWasFiled(ws, steps, n, hash);
    TableIsHistory(ws, steps, n);
    hide Accounted, L.Inv, IsTable, Files, SharesOf, UpTo;
    if hash in ws[n].store.anchors {
      var rows := SharesOf(steps[..m + 1]);
      HistoryGrows(steps, m + 1, n);
      SharesOfStep(steps, m);
      assert steps[m].Shared? by { FilesIsShared(steps[m], hash); }
      assert rows[|rows| - 1] == steps[m].row;
      UpToPrefix(ws[n].store.shares, rows);
    }
  }

  lemma FilesIsShared(s: Step, hash: string)
    requires Files(s, hash)
    ensures s.Shared?
  {
  }

  /** The payments of a pass read the rows anchored in its store. */
  ghost predicate ReadAnchored(s: Store, ps: seq<Payment>) {
    forall i :: 0 <= i < |ps| ==> ps[i].shares == AnchoredRows(s, ps[i].row.hash)
  }

  lemma {:induction false} PassReadsAnchored(s: Store, due: seq<nat>, feeBps: int, lands: nat -> bool, n: nat)
    requires n <= |due| && IsDueList(s, due)
    ensures ReadAnchored(s, PassPayments(s, due, feeBps, lands, n))
  {
    hide Due, DistributePass, PassPayments, CreditsFor;
    if n == 0 {
      PassStart(s, due, feeBps, lands);
    } else {
      PassReadsAnchored(s, due, feeBps, lands, n - 1);
      PassStep(s, due, feeBps, lands, n - 1);
      PassKeeps(s, due, feeBps, lands, n - 1);
    }
  }

  lemma StepReadsAnchored(w: World, s: Step)
    requires Inv(w) && Allowed(w, s)
    ensures var w' := Next(w, s);
      w.payments <= w'.payments && ReadAnchored(w.store, w'.payments[|w.payments|..])
  {
    hide Due, AfterStatus, DistributePass, PassPayments, L.Next, Accounted, L.Inv, IsTable;
    if s.Reconciled? && s.pass.tip > 0 && s.pass.pplns {
      var p, w' := s.pass, Next(w, s);
      var blocks := AfterStatus(w.store.blocks, w.store.tips, w.gbh, p.tip, p.cands, p.answers, p.writes).0;
      var s1 := w.store.(blocks := blocks);
      PassReadsAnchored(s1, p.due, p.feeBps, p.lands, |p.due|);
      assert w'.payments[|w.payments|..] == PassPayments(s1, p.due, p.feeBps, p.lands, |p.due|);
    }
  }

  /**
   Over every run, a block's payment reads exactly the shares accepted up to the one that
   found it, as of the pass that paid it: none that came later, whoever's it is.
   */
  lemma {:induction false} PaymentReadsItsShares(ws: seq<World>, steps: seq<Step>, n: nat, i: nat) returns (k: nat)
    requires IsRun(ws, steps) && n < |ws| && i < |ws[n].payments|
    ensures k < n && AreItsShares(steps, ws[n].payments[i].row.hash, k, ws[n].payments[i].shares)
    decreases n
  {
    k := 0;
    if n > 0 {
      hide Inv, Next, Allowed, AreItsShares, ReadAnchored, AnchoredRows;
      RunIsSound(ws, steps, n - 1);
      StepReadsAnchored(ws[n - 1], steps[n - 1]);
      var before, after := ws[n - 1].payments, ws[n].payments;
      if i < |before| {
        k := PaymentReadsItsShares(ws, steps, n - 1, i);
      } else {
        k := n - 1;
        NewReadsAnchored(ws[n - 1].store, before, after, i);
        AnchoredAreItsShares(ws, steps, n - 1, after[i].row.hash);
      }
    }
  }

  lemma NewReadsAnchored(s: Store, before: seq<Payment>, after: seq<Payment>, i: nat)
    requires before <= after && ReadAnchored(s, after[|before|..]) && |before| <= i < |after|
    ensures after[i].shares == AnchoredRows(s, after[i].row.hash)
  {
    assert after[|before|..][i - |before|] == after[i];
  }
}
