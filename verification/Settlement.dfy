/**
 One confirmation pass over the store (reconcile_blocks_pass in src/reconcile.c) and
 every run of passes: statuses, the payout queue's settlement, and the distribution
 of matured blocks, with backend answers and failed transactions as arbitrary inputs.
 */
module Settlement {
  import opened Options
  import opened Sums
  import opened WindowWalk
  import opened BlockStatus
  import opened Distribution
  import L = FractionLedger

  /** The tables a pass reads and writes. `anchors` is the newest share filed under each block hash. */
  datatype Store = Store(blocks: seq<Block>, tips: seq<Tip>, shares: seq<ShareRow>,
                         anchors: map<string, int>, credits: seq<Credit>)

  ghost predicate ValidStore(s: Store) {
    UniqueHashes(s.blocks) && IsTable(s.shares)
  }

  // ---- credits --------------------------------------------------------

  /** INSERT .. ON CONFLICT(worker_id) DO UPDATE SET accrued_sats = accrued_sats + excluded. */
  function AddCredit(rows: seq<Credit>, c: Credit): seq<Credit> {
    if rows == [] then [c]
    else if rows[0].workerId == c.workerId then [Credit(c.workerId, rows[0].sats + c.sats)] + rows[1..]
    else [rows[0]] + AddCredit(rows[1..], c)
  }

  function AddCredits(rows: seq<Credit>, cs: seq<Credit>): seq<Credit> {
    if cs == [] then rows else AddCredit(AddCredits(rows, cs[..|cs| - 1]), cs[|cs| - 1])
  }

  function Accrued(rows: seq<Credit>): int {
    SumInt(SatsOf(rows))
  }

  lemma AccruedCons(c: Credit, rows: seq<Credit>)
    ensures Accrued([c] + rows) == c.sats + Accrued(rows)
  {
    assert SatsOf([c] + rows) == [c.sats] + SatsOf(rows);
    SumIntConcat([c.sats], SatsOf(rows));
    SumIntShort(c.sats);
  }

  lemma NothingAccrued()
    ensures Accrued([]) == 0
  {
    assert SatsOf([]) == [];
  }

  lemma {:induction false} AddCreditAccrues(rows: seq<Credit>, c: Credit)
    ensures Accrued(AddCredit(rows, c)) == Accrued(rows) + c.sats
  {
    NothingAccrued();
    hide Accrued;
    if rows == [] {
      AccruedCons(c, []);
      assert [c] + [] == [c];
    } else {
      assert rows == [rows[0]] + rows[1..];
      AccruedCons(rows[0], rows[1..]);
      if rows[0].workerId == c.workerId {
        AccruedCons(Credit(c.workerId, rows[0].sats + c.sats), rows[1..]);
      } else {
        AddCreditAccrues(rows[1..], c);
        AccruedCons(rows[0], AddCredit(rows[1..], c));
      }
    }
  }

  /** Crediting adds exactly what was credited. */
  lemma {:induction false} AddCreditsAccrue(rows: seq<Credit>, cs: seq<Credit>)
    ensures Accrued(AddCredits(rows, cs)) == Accrued(rows) + SumInt(SatsOf(cs))
  {
    if cs == [] {
      assert SatsOf(cs) == [];
    } else {
      var n := |cs| - 1;
      AddCreditsAccrue(rows, cs[..n]);
      AddCreditAccrues(AddCredits(rows, cs[..n]), cs[n]);
      assert SatsOf(cs)[..n] == SatsOf(cs[..n]);
      hide AddCredit;
    }
  }

  // ---- distributing one block -----------------------------------------

  /** The shares at or before the block's own: everything up to the anchor id. */
  function UpTo(t: seq<ShareRow>, id: int): (r: seq<ShareRow>)
    ensures r <= t
  {
    if t == [] || t[|t| - 1].id <= id then t else UpTo(t[..|t| - 1], id)
  }

  lemma {:induction false} UpToIsAnchored(t: seq<ShareRow>, id: int)
    requires IsTable(t)
    ensures IsAnchored(t, id, UpTo(t, id)) && IsTable(UpTo(t, id))
  {
    if t != [] && t[|t| - 1].id > id {
      UpToIsAnchored(t[..|t| - 1], id);
    }
  }

  /**
   The coinbase rail and the credit rail read the same window: what the bounded walk
   pinned is, at any later time, the row set of a distribution anchored on the share
   that was newest when it walked.
   */
  lemma WalkIsDistributorWindow(t: seq<ShareRow>, later: seq<ShareRow>, window: real, b: Bounds)
    requires IsTable(t) && t != [] && Extends(later, t) && Pins(t, window, b)
    ensures Selected(later, b) == FullWindow(UpTo(later, t[|t| - 1].id), window)
  {
    var anchor := t[|t| - 1].id;
    var rows := UpTo(later, anchor);
    UpToIsAnchored(later, anchor);
    assert forall i :: 0 <= i < |t| ==> later[i] == t[i];
    assert later[|t| - 1].id <= anchor && forall i :: |t| <= i < |later| ==> later[i].id > anchor;
    SameAnchoredRows(later, anchor, rows, t);
  }

  lemma SameAnchoredRows(t: seq<ShareRow>, anchor: int, a: seq<ShareRow>, b: seq<ShareRow>)
    requires IsAnchored(t, anchor, a) && IsAnchored(t, anchor, b)
    ensures a == b
  {
    assert forall i :: 0 <= i < |t| ==> (i < |a| <==> t[i].id <= anchor) && (i < |b| <==> t[i].id <= anchor);
    assert |a| <= |t| && |b| <= |t|;
    assert |a| == |b| by {
      var shorter := if |a| < |b| then |a| else |b|;
      assert shorter < |t| ==> (shorter < |a| <==> t[shorter].id <= anchor);
    }
    assert a == t[..|a|] && b == t[..|b|];
  }

  function AnchoredRows(s: Store, hash: string): seq<ShareRow> {
    if hash in s.anchors then UpTo(s.shares, s.anchors[hash]) else []
  }

  predicate Due(b: Block) {
    b.status == Confirmed && !b.distributed && b.confirmations >= MATURITY && b.window > 0.0
  }

  function Latched(blocks: seq<Block>, i: nat): seq<Block>
    requires i < |blocks|
  {
    blocks[i := blocks[i].(distributed := true)]
  }

  function CreditsFor(s: Store, i: nat, feeBps: int): seq<Credit>
    requires i < |s.blocks|
  {
    var b := s.blocks[i];
    var payable := PayableOf(GrossOf(b), feeBps);
    if payable <= 0 then [] else BlockCredits(payable, AnchoredRows(s, b.hash), b.window)
  }

  /** The committed effect of distributing block `i`: its credits and its latch. */
  function Distributed(s: Store, i: nat, feeBps: int): Store
    requires i < |s.blocks|
  {
    s.(blocks := Latched(s.blocks, i), credits := AddCredits(s.credits, CreditsFor(s, i, feeBps)))
  }

  /** A block with nothing to share out is latched outside any transaction, and a failure there is ignored. */
  predicate NothingToShare(s: Store, i: nat, feeBps: int)
    requires i < |s.blocks|
  {
    PayableOf(GrossOf(s.blocks[i]), feeBps) <= 0
  }

  /** The blocks due at the start of a pass, each once. */
  ghost predicate IsDueList(s: Store, due: seq<nat>) {
    && (forall i :: 0 <= i < |due| ==> due[i] < |s.blocks| && Due(s.blocks[due[i]]))
    && (forall i, j :: 0 <= i < j < |due| ==> due[i] != due[j])
    && (forall k: nat :: k < |s.blocks| && Due(s.blocks[k]) ==> k in due)
  }

  /** The store after the first `n` due blocks; `lands(k)` is whether the transaction of block `k` commits. */
  function DistributePass(s: Store, due: seq<nat>, feeBps: int, lands: nat -> bool, n: nat): (r: (Store, bool))
    requires n <= |due| && forall i :: 0 <= i < |due| ==> due[i] < |s.blocks|
    ensures |r.0.blocks| == |s.blocks|
  {
    if n == 0 then (s, true)
    else
      var (before, ok) := DistributePass(s, due, feeBps, lands, n - 1);
      if !ok then (before, false)
      else if lands(n - 1) then (Distributed(before, due[n - 1], feeBps), true)
      else (before, NothingToShare(before, due[n - 1], feeBps))
  }

  /** Everything but the latches and the credits. */
  ghost predicate SameButPaid(a: Store, b: Store) {
    && b.tips == a.tips && b.shares == a.shares && b.anchors == a.anchors && |b.blocks| == |a.blocks|
    && forall k :: 0 <= k < |a.blocks| ==>
         b.blocks[k] == a.blocks[k].(distributed := b.blocks[k].distributed)
         && (a.blocks[k].distributed ==> b.blocks[k].distributed)
  }

  lemma {:induction false} PassKeeps(s: Store, due: seq<nat>, feeBps: int, lands: nat -> bool, n: nat)
    requires n <= |due| && IsDueList(s, due)
    ensures var r := DistributePass(s, due, feeBps, lands, n).0;
      && SameButPaid(s, r)
      && (forall k: nat :: k < |s.blocks| && k !in due[..n] ==> r.blocks[k] == s.blocks[k])
  {
    hide CreditsFor, AddCredits, NothingToShare, Due;
    if n > 0 {
      PassKeeps(s, due, feeBps, lands, n - 1);
      assert due[..n] == due[..n - 1] + [due[n - 1]];
    }
  }

  /** When every transaction lands, no due block is left undistributed. */
  lemma {:induction false} PassPaysAll(s: Store, due: seq<nat>, feeBps: int, lands: nat -> bool, n: nat)
    requires n <= |due| && IsDueList(s, due) && forall k: nat :: k < |due| ==> lands(k)
    ensures var r := DistributePass(s, due, feeBps, lands, n);
      r.1 && forall k: nat :: k < n ==> r.0.blocks[due[k]].distributed
  {
    hide CreditsFor, AddCredits, NothingToShare, Due;
    if n > 0 {
      PassPaysAll(s, due, feeBps, lands, n - 1);
      PassKeeps(s, due, feeBps, lands, n - 1);
    }
  }

  // ---- payments -------------------------------------------------------

  /** One committed distribution, with the row as it stood when it was paid and the shares up to its anchor. */
  datatype Payment = Payment(block: nat, row: Block, feeBps: int, total: int, shares: seq<ShareRow>)

  function PaymentFor(s: Store, i: nat, feeBps: int): Payment
    requires i < |s.blocks|
  {
    Payment(i, s.blocks[i], feeBps, SumInt(SatsOf(CreditsFor(s, i, feeBps))), AnchoredRows(s, s.blocks[i].hash))
  }

  function PassPayments(s: Store, due: seq<nat>, feeBps: int, lands: nat -> bool, n: nat): seq<Payment>
    requires n <= |due| && forall i :: 0 <= i < |due| ==> due[i] < |s.blocks|
  {
    if n == 0 then []
    else
      var (before, ok) := DistributePass(s, due, feeBps, lands, n - 1);
      PassPayments(s, due, feeBps, lands, n - 1)
        + if ok && lands(n - 1) then [PaymentFor(before, due[n - 1], feeBps)] else []
  }

  function TotalsOf(ps: seq<Payment>): (r: seq<int>)
    ensures |r| == |ps|
    ensures forall i :: 0 <= i < |r| ==> r[i] == ps[i].total
  {
    seq(|ps|, i requires 0 <= i < |ps| => ps[i].total)
  }

  lemma TotalsAppend(ps: seq<Payment>, p: Payment)
    ensures SumInt(TotalsOf(ps + [p])) == SumInt(TotalsOf(ps)) + p.total
  {
    assert TotalsOf(ps + [p]) == TotalsOf(ps) + [p.total];
    SumIntAppend(TotalsOf(ps), p.total);
  }

  /**
   A payment is only ever made from a confirmed row at least 100 deep, and pays out what
   is payable from it, short of less than a sat per worker; nothing without shares.
   */
  ghost predicate SoundPayment(p: Payment) {
    var payable := PayableOf(GrossOf(p.row), p.feeBps);
    && p.row.status == Confirmed && p.row.confirmations >= 100 && !p.row.distributed && p.row.window > 0.0
    && 0 <= p.total
    && (payable > 0 ==> p.total <= payable)
    && (payable > 0 && WindowTotal(p.shares, p.row.window, 0) > 0.0 ==>
          payable - p.total < |GroupFrom(p.shares, p.row.window, 0)|)
    && (payable <= 0 || p.shares == [] ==> p.total == 0)
  }

  lemma NoSharesNoCredits(payable: int, window: real)
    ensures SumInt(SatsOf(BlockCredits(payable, [], window))) == 0
  {
    assert SatsOf(BlockCredits(payable, [], window)) == [];
  }

  /** A block no share is filed under is latched without crediting anybody. */
  lemma UnanchoredBlockPaysNobody(s: Store, i: nat, feeBps: int)
    requires i < |s.blocks| && s.blocks[i].hash !in s.anchors
    ensures Distributed(s, i, feeBps).credits == s.credits && Distributed(s, i, feeBps).blocks[i].distributed
  {
    assert GroupFrom([], s.blocks[i].window, 0) == [];
    assert CreditsFor(s, i, feeBps) == [];
  }

  lemma PaymentIsSound(s: Store, i: nat, feeBps: int)
    requires ValidStore(s) && i < |s.blocks| && Due(s.blocks[i])
    ensures SoundPayment(PaymentFor(s, i, feeBps))
  {
    hide PayableOf;
    var b := s.blocks[i];
    var payable := PayableOf(GrossOf(b), feeBps);
    if payable > 0 {
      if b.hash in s.anchors { UpToIsAnchored(s.shares, s.anchors[b.hash]); }
      CreditsAreSolvent(payable, AnchoredRows(s, b.hash), b.window);
      NoSharesNoCredits(payable, b.window);
    } else {
      assert SatsOf(CreditsFor(s, i, feeBps)) == [];
    }
  }

  /** The ledger of payments against the store: each latched once, and credits conserved. */
  ghost predicate Accounted(s: Store, ps: seq<Payment>) {
    && Accrued(s.credits) == SumInt(TotalsOf(ps))
    && (forall i :: 0 <= i < |ps| ==>
          SoundPayment(ps[i]) && ps[i].block < |s.blocks| && s.blocks[ps[i].block].distributed)
    && (forall i, j :: 0 <= i < j < |ps| ==> ps[i].block != ps[j].block)
  }

  lemma PayOne(s: Store, ps: seq<Payment>, i: nat, feeBps: int)
    requires ValidStore(s) && Accounted(s, ps) && i < |s.blocks| && Due(s.blocks[i])
    ensures ValidStore(Distributed(s, i, feeBps))
    ensures Accounted(Distributed(s, i, feeBps), ps + [PaymentFor(s, i, feeBps)])
  {
    hide SumInt, Accrued, TotalsOf, CreditsFor, AddCredits, SoundPayment, IsTable;
    var p := PaymentFor(s, i, feeBps);
    PaymentIsSound(s, i, feeBps);
    AddCreditsAccrue(s.credits, CreditsFor(s, i, feeBps));
    TotalsAppend(ps, p);
    forall k, m | 0 <= k < m < |ps + [p]| ensures (ps + [p])[k].block != (ps + [p])[m].block {
      if m == |ps| { assert s.blocks[ps[k].block].distributed; }
    }
  }

  /** A due row is still as it was when its turn comes. */
  lemma DueRowWaits(s: Store, due: seq<nat>, feeBps: int, lands: nat -> bool, n: nat)
    requires n < |due| && IsDueList(s, due)
    ensures var before := DistributePass(s, due, feeBps, lands, n).0;
      due[n] < |before.blocks| && before.blocks[due[n]] == s.blocks[due[n]] && Due(before.blocks[due[n]])
  {
    PassKeeps(s, due, feeBps, lands, n);
    hide DistributePass, SameButPaid, Due;
    assert due[n] !in due[..n];
  }

  lemma PassStart(s: Store, due: seq<nat>, feeBps: int, lands: nat -> bool)
    requires forall i :: 0 <= i < |due| ==> due[i] < |s.blocks|
    ensures DistributePass(s, due, feeBps, lands, 0) == (s, true) && PassPayments(s, due, feeBps, lands, 0) == []
  {
  }

  lemma PassStep(s: Store, due: seq<nat>, feeBps: int, lands: nat -> bool, n: nat)
    requires n < |due| && forall i :: 0 <= i < |due| ==> due[i] < |s.blocks|
    ensures var (before, ok) := DistributePass(s, due, feeBps, lands, n);
      var paid := PassPayments(s, due, feeBps, lands, n);
      if ok && lands(n) then
        && DistributePass(s, due, feeBps, lands, n + 1).0 == Distributed(before, due[n], feeBps)
        && PassPayments(s, due, feeBps, lands, n + 1) == paid + [PaymentFor(before, due[n], feeBps)]
      else
        && DistributePass(s, due, feeBps, lands, n + 1).0 == before
        && PassPayments(s, due, feeBps, lands, n + 1) == paid
  {
    hide Distributed, PaymentFor, NothingToShare;
  }

  /**
   A transaction that fails ends the pass, with nothing of its own written; only a block
   with nothing payable, whose latch is set outside any transaction, is passed over.
   */
  lemma FailureEndsPass(s: Store, due: seq<nat>, feeBps: int, lands: nat -> bool, n: nat)
    requires n < |due| && IsDueList(s, due) && DistributePass(s, due, feeBps, lands, n).1
    ensures var before, after := DistributePass(s, due, feeBps, lands, n), DistributePass(s, due, feeBps, lands, n + 1);
      if lands(n) then after.1 && after.0.blocks[due[n]].distributed
      else after.0 == before.0 && (after.1 <==> PayableOf(s.blocks[due[n]].reward + s.blocks[due[n]].fee, feeBps) <= 0)
  {
    hide CreditsFor, AddCredits, PayableOf, Due;
    PassKeeps(s, due, feeBps, lands, n);
  }

  lemma {:induction false} PassIsAccounted(s: Store, ps: seq<Payment>, due: seq<nat>, feeBps: int,
                                           lands: nat -> bool, n: nat)
    requires ValidStore(s) && Accounted(s, ps) && n <= |due| && IsDueList(s, due)
    ensures var r := DistributePass(s, due, feeBps, lands, n).0;
      ValidStore(r) && Accounted(r, ps + PassPayments(s, due, feeBps, lands, n))
  {
    hide Accounted, ValidStore, Distributed, PaymentFor, Due, DistributePass, PassPayments;
    if n == 0 {
      PassStart(s, due, feeBps, lands);
      assert ps + [] == ps;
    } else {
      DueRowWaits(s, due, feeBps, lands, n - 1);
      PassStep(s, due, feeBps, lands, n - 1);
      PassIsAccounted(s, ps, due, feeBps, lands, n - 1);
      var (before, ok) := DistributePass(s, due, feeBps, lands, n - 1);
      var paid := PassPayments(s, due, feeBps, lands, n - 1);
      if ok && lands(n - 1) {
        PayOne(before, ps + paid, due[n - 1], feeBps);
        var one := [PaymentFor(before, due[n - 1], feeBps)];
        assert ps + (paid + one) == ps + paid + one;
      }
    }
  }

  // ---- one pass -------------------------------------------------------

  /** How many candidates are judged before the first answer that is not a hash. */
  function Checked(answers: nat -> Answer, i: nat, m: nat): (c: nat)
    requires i <= m
    ensures i <= c <= m && (c < m ==> !answers(c).Hash?)
    ensures forall k :: i <= k < c ==> answers(k).Hash?
    decreases m - i
  {
    if i < m && answers(i).Hash? then Checked(answers, i + 1, m) else i
  }

  /** Which status updates land: one per judged candidate, then the two of the templates pass. */
  datatype Writes = Writes(node: nat -> bool, resolves: bool, orphans: bool)

  /** The rows and the latch after the status half of a pass. */
  function AfterStatus(blocks: seq<Block>, tips: seq<Tip>, gbh: GbhState, tip: int, cands: seq<nat>,
                       answers: nat -> Answer, writes: Writes): (r: (seq<Block>, GbhState))
    requires forall i :: 0 <= i < |cands| ==> cands[i] < |blocks|
  {
    if gbh < 0 then (TemplatesStored(blocks, tips, tip, writes.resolves, writes.orphans), gbh)
    else
      var c := Checked(answers, 0, |cands|);
      var judged := JudgeAll(blocks, cands, answers, writes.node, tip, c);
      var templates := TemplatesStored(judged, tips, tip, writes.resolves, writes.orphans);
      if c < |cands| && answers(c).Unsupported? then (templates, -1)
      else if c < |cands| then (judged, if c > 0 then 1 else gbh)
      else if c > 0 || gbh > 0 then (judged, 1)
      else (templates, gbh)
  }

  lemma AfterStatusKeeps(blocks: seq<Block>, tips: seq<Tip>, gbh: GbhState, tip: int, cands: seq<nat>,
                         answers: nat -> Answer, writes: Writes)
    requires UniqueHashes(blocks) && IsCandidateList(blocks, tip, cands)
    ensures var r := AfterStatus(blocks, tips, gbh, tip, cands, answers, writes);
      && UniqueHashes(r.0) && OnlyVerdicts(blocks, r.0)
      && (gbh == -1 ==> r.1 == -1)
  {
    hide JudgeAll, TemplatesStored, UniqueHashes, OnlyVerdicts;
    TemplatesStoredKeeps(blocks, tips, tip, writes.resolves, writes.orphans);
    var c := Checked(answers, 0, |cands|);
    JudgeAllKeeps(blocks, cands, answers, writes.node, tip, c);
    var judged := JudgeAll(blocks, cands, answers, writes.node, tip, c);
    TemplatesStoredKeeps(judged, tips, tip, writes.resolves, writes.orphans);
    OnlyVerdictsTrans(blocks, judged, TemplatesStored(judged, tips, tip, writes.resolves, writes.orphans));
  }

  /** What a pass is given: the tip, the backend's answers, and what fails. */
  datatype Pass = Pass(tip: int, pplns: bool, feeBps: int, cands: seq<nat>, answers: nat -> Answer, writes: Writes,
                       verdicts: seq<L.Verdict>, settles: bool, due: seq<nat>, lands: nat -> bool)

  /** A verdict is a block's status, for blocks that have been decided. */
  ghost predicate AreVerdicts(blocks: seq<Block>, vs: seq<L.Verdict>) {
    forall i :: 0 <= i < |vs| ==> exists k: nat :: k < |blocks| && Decides(blocks[k], vs[i])
  }

  predicate Decides(b: Block, v: L.Verdict) {
    b.hash == v.hash && b.status == if v.confirmed then Confirmed else Orphaned
  }

  ghost predicate IsDecided(blocks: seq<Block>, hash: string) {
    exists k: nat :: k < |blocks| && blocks[k].hash == hash && HasVerdict(blocks[k])
  }

  predicate HasVerdict(b: Block) {
    b.status == Confirmed || b.status == Orphaned
  }

  /** The staged blocks whose fate is known, and whose rows are still in the queue. */
  ghost function Unsettled(blocks: seq<Block>, t: L.Tables): (hs: set<string>)
    ensures forall h :: h in hs <==> L.HasRows(t, h) && IsDecided(blocks, h)
  {
    set h | h in L.StagedHashes(t) && IsDecided(blocks, h)
  }

  /** The query stops at its limit; short of that it lists every decided block. */
  ghost predicate ListsAll(blocks: seq<Block>, t: L.Tables, vs: seq<L.Verdict>) {
    |vs| < L.SETTLE_LIMIT ==> Unsettled(blocks, t) <= L.HashesOf(vs)
  }

  /** Rows listed by the queries the pass runs. */
  ghost predicate IsPass(s: Store, gbh: GbhState, q: L.Run, p: Pass) {
    && IsCandidateList(s.blocks, p.tip, p.cands)
    && var s1 := s.(blocks := AfterStatus(s.blocks, s.tips, gbh, p.tip, p.cands, p.answers, p.writes).0);
       && AreVerdicts(s1.blocks, p.verdicts)
       && L.Allowed(q, L.SettleStep(p.verdicts, p.settles))
       && ListsAll(s1.blocks, q.t, p.verdicts)
       && IsDueList(s1, p.due)
  }

  /** The store, the backend latch and the payout queue. */
  datatype World = World(store: Store, gbh: GbhState, queue: L.Run, payments: seq<Payment>)

  ghost function AfterPass(w: World, p: Pass): World
    requires IsPass(w.store, w.gbh, w.queue, p)
  {
    if p.tip <= 0 then w
    else
      var (blocks, gbh) := AfterStatus(w.store.blocks, w.store.tips, w.gbh, p.tip, p.cands, p.answers, p.writes);
      var s1 := w.store.(blocks := blocks);
      var queue := L.Next(w.queue, L.SettleStep(p.verdicts, p.settles));
      if !p.pplns then World(s1, gbh, queue, w.payments)
      else
        World(DistributePass(s1, p.due, p.feeBps, p.lands, |p.due|).0, gbh, queue,
              w.payments + PassPayments(s1, p.due, p.feeBps, p.lands, |p.due|))
  }

  // ---- whole runs -----------------------------------------------------

  datatype Step =
    | Found(block: Block)                                  // filed pending, or rejected by submitblock
    | Shared(row: ShareRow, blockHash: Option<string>)
    | Seen(tip: Tip)
    | Trimmed(n: nat)                                      // the oldest observations are deleted
    | Staged(hash: string, ds: seq<L.Delta>, commits: bool)
    | Reconciled(pass: Pass)

  ghost predicate Allowed(w: World, s: Step) {
    match s
    case Found(b) => (b.status == Pending || b.status == Rejected) && b.confirmations == 0 && !b.distributed
    case Shared(row, _) => IsTable(w.store.shares + [row])
    case Seen(_) => true
    case Trimmed(n) => n <= |w.store.tips|
    case Staged(hash, ds, commits) => L.Allowed(w.queue, L.StageStep(hash, ds, commits))
    case Reconciled(p) => IsPass(w.store, w.gbh, w.queue, p)
  }

  ghost function Next(w: World, s: Step): World
    requires Allowed(w, s)
  {
    match s
    case Found(b) => w.(store := w.store.(blocks := Record(w.store.blocks, b)))
    case Shared(row, hash) =>
      w.(store := w.store.(shares := w.store.shares + [row],
                           anchors := if hash.Some? then w.store.anchors[hash.value := row.id] else w.store.anchors))
    case Seen(tip) => w.(store := w.store.(tips := w.store.tips + [tip]))
    case Trimmed(n) => w.(store := w.store.(tips := w.store.tips[n..]))
    case Staged(hash, ds, commits) => w.(queue := L.Next(w.queue, L.StageStep(hash, ds, commits)))
    case Reconciled(p) => AfterPass(w, p)
  }

  ghost predicate Inv(w: World) {
    ValidStore(w.store) && Accounted(w.store, w.payments) && L.Inv(w.queue)
  }

  /** Rows keep their identity and place, latches are never cleared, rejected rows never change. */
  ghost predicate Onward(before: World, after: World) {
    && |before.store.blocks| <= |after.store.blocks|
    && (forall k :: 0 <= k < |before.store.blocks| ==>
          var a, b := before.store.blocks[k], after.store.blocks[k];
          && a.hash == b.hash && a.reward == b.reward && a.fee == b.fee
          && (a.distributed ==> b.distributed)
          && (a.status == Rejected ==> b == a))
    && before.payments <= after.payments
    && (before.gbh == -1 ==> after.gbh == -1)
  }

  lemma OnwardRefl(w: World)
    ensures Onward(w, w)
  {
  }

  lemma OnwardTrans(a: World, b: World, c: World)
    requires Onward(a, b) && Onward(b, c)
    ensures Onward(a, c)
  {
  }

  /** A status pass changes no latch and no credit, so the accounts still hold. */
  lemma StatusKeepsAccounts(s: Store, blocks: seq<Block>, ps: seq<Payment>)
    requires ValidStore(s) && Accounted(s, ps) && UniqueHashes(blocks) && OnlyVerdicts(s.blocks, blocks)
    ensures ValidStore(s.(blocks := blocks)) && Accounted(s.(blocks := blocks), ps)
  {
    hide SoundPayment, SumInt;
  }

  lemma StatusIsOnward(w: World, blocks: seq<Block>, gbh: GbhState, queue: L.Run)
    requires OnlyVerdicts(w.store.blocks, blocks) && (w.gbh == -1 ==> gbh == -1)
    ensures Onward(w, World(w.store.(blocks := blocks), gbh, queue, w.payments))
  {
  }

  lemma PayingIsOnward(w: World, store: Store, payments: seq<Payment>)
    requires SameButPaid(w.store, store) && |store.blocks| == |w.store.blocks|
    requires forall k :: 0 <= k < |store.blocks| && w.store.blocks[k].status == Rejected ==>
      store.blocks[k] == w.store.blocks[k]
    ensures Onward(w, World(store, w.gbh, w.queue, w.payments + payments))
  {
  }

  lemma PassKeepsInv(w: World, p: Pass)
    requires Inv(w) && IsPass(w.store, w.gbh, w.queue, p)
    ensures Inv(AfterPass(w, p)) && Onward(w, AfterPass(w, p))
  {
    OnwardRefl(w);
    hide Accounted, UniqueHashes, AfterStatus, DistributePass, PassPayments, L.Inv, L.Next;
    hide Onward, OnlyVerdicts, SameButPaid;
    hide IsTable, Unresolved, AreVerdicts, ListsAll, L.Allowed, Due;
    if p.tip > 0 {
      AfterStatusKeeps(w.store.blocks, w.store.tips, w.gbh, p.tip, p.cands, p.answers, p.writes);
      L.StepKeepsInv(w.queue, L.SettleStep(p.verdicts, p.settles));
      var (blocks, gbh) := AfterStatus(w.store.blocks, w.store.tips, w.gbh, p.tip, p.cands, p.answers, p.writes);
      var queue := L.Next(w.queue, L.SettleStep(p.verdicts, p.settles));
      var w1 := World(w.store.(blocks := blocks), gbh, queue, w.payments);
      StatusKeepsAccounts(w.store, blocks, w.payments);
      StatusIsOnward(w, blocks, gbh, queue);
      if p.pplns {
        var paid := DistributePass(w1.store, p.due, p.feeBps, p.lands, |p.due|).0;
        PassIsAccounted(w1.store, w.payments, p.due, p.feeBps, p.lands, |p.due|);
        PassKeeps(w1.store, p.due, p.feeBps, p.lands, |p.due|);
        PassSkipsRejected(w1.store, p.due, p.feeBps, p.lands);
        PayingIsOnward(w1, paid, PassPayments(w1.store, p.due, p.feeBps, p.lands, |p.due|));
        OnwardTrans(w, w1, AfterPass(w, p));
      }
    }
  }

  /** Distribution touches confirmed rows only. */
  lemma PassSkipsRejected(s: Store, due: seq<nat>, feeBps: int, lands: nat -> bool)
    requires IsDueList(s, due)
    ensures var r := DistributePass(s, due, feeBps, lands, |due|).0;
      && |r.blocks| == |s.blocks|
      && forall k :: 0 <= k < |s.blocks| && s.blocks[k].status == Rejected ==> r.blocks[k] == s.blocks[k]
  {
    PassKeeps(s, due, feeBps, lands, |due|);
    hide DistributePass, SameButPaid;
    assert due[..|due|] == due;
  }

  lemma FoundKeepsInv(w: World, b: Block)
    requires Inv(w) && Allowed(w, Found(b))
    ensures Inv(Next(w, Found(b))) && Onward(w, Next(w, Found(b)))
  {
    RecordKeepsUnique(w.store.blocks, b);
    hide SoundPayment, SumInt, L.Inv, IsTable;
  }

  lemma StepKeepsInv(w: World, s: Step)
    requires Inv(w) && Allowed(w, s)
    ensures Inv(Next(w, s)) && Onward(w, Next(w, s))
  {
    match s {
      case Found(b) => FoundKeepsInv(w, b);
      case Shared(_, _) => hide SoundPayment, SumInt, L.Inv;
      case Seen(_) => hide SoundPayment, SumInt, L.Inv;
      case Trimmed(_) => hide SoundPayment, SumInt, L.Inv;
      case Staged(hash, ds, commits) =>
        L.StepKeepsInv(w.queue, L.StageStep(hash, ds, commits));
        hide SoundPayment, SumInt, L.Inv, L.Next;
      case Reconciled(p) => PassKeepsInv(w, p);
    }
  }

  const START := World(Store([], [], [], map[], []), 0, L.START, [])

  ghost predicate IsRun(ws: seq<World>, steps: seq<Step>) {
    && |ws| == |steps| + 1 && ws[0] == START
    && forall i :: 0 <= i < |steps| ==> Allowed(ws[i], steps[i]) && ws[i + 1] == Next(ws[i], steps[i])
  }

  /**
   Over every run of finds, shares, reorgs and passes, with failures anywhere: no block
   is distributed twice, every distribution came from a confirmed row at least 100 deep
   and stayed within what was payable, and the credits are exactly what was distributed.
   */
  lemma {:induction false} RunIsSound(ws: seq<World>, steps: seq<Step>, n: nat)
    requires IsRun(ws, steps) && n < |ws|
    ensures Inv(ws[n])
    decreases n
  {
    if n == 0 {
      NothingAccrued();
      assert TotalsOf([]) == [];
      assert L.OwedOf([]) == [];
    } else {
      hide Inv, Next, Allowed, Onward;
      RunIsSound(ws, steps, n - 1);
      StepKeepsInv(ws[n - 1], steps[n - 1]);
    }
  }

  /** Rejected is terminal, a latch is never cleared, and a backend without getblockhash is never asked again. */
  lemma {:induction false} RunIsOnward(ws: seq<World>, steps: seq<Step>, i: nat, n: nat)
    requires IsRun(ws, steps) && i <= n < |ws|
    ensures Onward(ws[i], ws[n])
    decreases n
  {
    hide Inv, Next, Allowed, Onward;
    if i == n {
      OnwardRefl(ws[i]);
    } else {
      RunIsOnward(ws, steps, i, n - 1);
      RunIsSound(ws, steps, n - 1);
      StepKeepsInv(ws[n - 1], steps[n - 1]);
      OnwardTrans(ws[i], ws[n - 1], ws[n]);
    }
  }

  /**
   No sequence of backend answers makes a PPLNS pass skip distribution: if its
   transactions land, every block due after the status half is distributed.
   */
  lemma PassNeverSkips(w: World, p: Pass)
    requires IsPass(w.store, w.gbh, w.queue, p) && p.tip > 0 && p.pplns
    requires forall k: nat :: k < |p.due| ==> p.lands(k)
    ensures var blocks := AfterStatus(w.store.blocks, w.store.tips, w.gbh, p.tip, p.cands, p.answers, p.writes).0;
      var after := AfterPass(w, p).store.blocks;
      && |after| == |blocks|
      && forall k: nat :: k < |blocks| && Matured(blocks[k]) ==> after[k].distributed
  {
    hide AfterStatus, Due, L.Next, DistributePass, Matured, SameButPaid;
    var blocks := AfterStatus(w.store.blocks, w.store.tips, w.gbh, p.tip, p.cands, p.answers, p.writes).0;
    var s1 := w.store.(blocks := blocks);
    PassKeeps(s1, p.due, p.feeBps, p.lands, |p.due|);
    forall k: nat | k < |blocks| && Matured(blocks[k]) ensures AfterPass(w, p).store.blocks[k].distributed {
      MaturedIsPaid(s1, p.due, p.feeBps, p.lands, k);
    }
    assert |AfterPass(w, p).store.blocks| == |blocks|;
  }

  /** Confirmed at least 100 deep, with a window to pay. */
  predicate Matured(b: Block) {
    b.status == Confirmed && b.confirmations >= 100 && b.window > 0.0
  }

  lemma MaturedIsPaid(s: Store, due: seq<nat>, feeBps: int, lands: nat -> bool, k: nat)
    requires IsDueList(s, due) && k < |s.blocks| && Matured(s.blocks[k]) && forall i: nat :: i < |due| ==> lands(i)
    ensures DistributePass(s, due, feeBps, lands, |due|).0.blocks[k].distributed
  {
    hide DistributePass;
    PassKeeps(s, due, feeBps, lands, |due|);
    PassPaysAll(s, due, feeBps, lands, |due|);
    if !s.blocks[k].distributed {
      assert k in due;
      var j :| 0 <= j < |due| && due[j] == k;
    }
  }

  lemma ListedAreUnsettled(blocks: seq<Block>, q: L.Run, vs: seq<L.Verdict>)
    requires AreVerdicts(blocks, vs) && L.Allowed(q, L.SettleStep(vs, true))
    ensures L.HashesOf(vs) <= Unsettled(blocks, q.t)
  {
    forall h | h in L.HashesOf(vs) ensures h in Unsettled(blocks, q.t) {
      var i :| 0 <= i < |vs| && vs[i].hash == h;
      assert IsDecided(blocks, vs[i].hash);
    }
  }

  lemma UnsettledAfter(blocks: seq<Block>, q: L.Run, vs: seq<L.Verdict>)
    ensures Unsettled(blocks, L.Settled(q, vs).t) == Unsettled(blocks, q.t) - L.HashesOf(vs)
  {
    hide L.Settled, L.HasRows, L.HashesOf, IsDecided, L.StagedHashes;
    L.SettledHashes(q, vs);
  }

  lemma SplitCount(whole: set<string>, part: set<string>)
    requires part <= whole
    ensures |whole - part| == |whole| - |part|
  {
    assert whole == (whole - part) + part;
  }

  /** Settling takes the listed blocks out of those waiting, and all of them if they fit one query. */
  lemma SettlementClears(blocks: seq<Block>, q: L.Run, vs: seq<L.Verdict>)
    requires AreVerdicts(blocks, vs) && L.Allowed(q, L.SettleStep(vs, true)) && ListsAll(blocks, q.t, vs)
    ensures var before, after := Unsettled(blocks, q.t), Unsettled(blocks, L.Settled(q, vs).t);
      && after <= before
      && |after| == if |before| <= 64 then 0 else |before| - 64
  {
    hide L.Settled, L.HasRows, L.HashesOf, Unsettled, AreVerdicts;
    ListedAreUnsettled(blocks, q, vs);
    UnsettledAfter(blocks, q, vs);
    L.DistinctCount(vs);
    SplitCount(Unsettled(blocks, q.t), L.HashesOf(vs));
  }

  lemma SameVerdicts(a: Store, b: Store, t: L.Tables)
    requires SameButPaid(a, b)
    ensures Unsettled(a.blocks, t) == Unsettled(b.blocks, t)
  {
    forall h ensures IsDecided(a.blocks, h) <==> IsDecided(b.blocks, h) {
      if IsDecided(a.blocks, h) {
        var k: nat :| k < |a.blocks| && a.blocks[k].hash == h && HasVerdict(a.blocks[k]);
        assert b.blocks[k].hash == h;
      }
      if IsDecided(b.blocks, h) {
        var k: nat :| k < |b.blocks| && b.blocks[k].hash == h && HasVerdict(b.blocks[k]);
        assert a.blocks[k].hash == h;
      }
    }
  }

  /**
   A pass whose settlement commits leaves no decided block waiting, or 64 fewer when more
   of them were staged than one query lists.
   */
  lemma PassSettlesAll(w: World, p: Pass)
    requires IsPass(w.store, w.gbh, w.queue, p) && p.tip > 0 && p.settles
    ensures var blocks := AfterStatus(w.store.blocks, w.store.tips, w.gbh, p.tip, p.cands, p.answers, p.writes).0;
      var w' := AfterPass(w, p);
      var before, after := Unsettled(blocks, w.queue.t), Unsettled(w'.store.blocks, w'.queue.t);
      && after <= before
      && |after| == if |before| <= 64 then 0 else |before| - 64
  {
    hide AfterStatus, Due, Unsettled, SameButPaid, DistributePass;
    var blocks := AfterStatus(w.store.blocks, w.store.tips, w.gbh, p.tip, p.cands, p.answers, p.writes).0;
    var s1 := w.store.(blocks := blocks);
    SettlementClears(s1.blocks, w.queue, p.verdicts);
    if p.pplns {
      PassKeeps(s1, p.due, p.feeBps, p.lands, |p.due|);
      SameVerdicts(s1, AfterPass(w, p).store, AfterPass(w, p).queue.t);
    }
  }

  // ---- applied or discarded by the block's fate ---------------------------

  /** Some row of the hash has this status. */
  ghost predicate Stands(blocks: seq<Block>, hash: string, status: Status) {
    exists k: nat :: k < |blocks| && blocks[k].hash == hash && blocks[k].status == status
  }

  ghost predicate Lists(vs: seq<L.Verdict>, hash: string, confirmed: bool) {
    exists i :: 0 <= i < |vs| && vs[i] == L.Verdict(hash, confirmed)
  }

  lemma {:induction false} SettledLists(r: L.Run, vs: seq<L.Verdict>, hash: string)
    ensures hash in L.Settled(r, vs).applied <==> hash in r.applied || Lists(vs, hash, true)
    ensures hash in L.Settled(r, vs).discarded <==> hash in r.discarded || Lists(vs, hash, false)
  {
    if vs != [] {
      var n := |vs| - 1;
      SettledLists(r, vs[..n], hash);
      ListsStep(vs, hash, true);
      ListsStep(vs, hash, false);
      hide Lists, L.SettleOne;
    }
  }

  lemma ListsStep(vs: seq<L.Verdict>, hash: string, confirmed: bool)
    requires vs != []
    ensures var n := |vs| - 1;
      Lists(vs, hash, confirmed) <==> Lists(vs[..n], hash, confirmed) || vs[n] == L.Verdict(hash, confirmed)
  {
    var n := |vs| - 1;
    if Lists(vs[..n], hash, confirmed) {
      var i :| 0 <= i < n && vs[..n][i] == L.Verdict(hash, confirmed);
      assert vs[i] == L.Verdict(hash, confirmed);
    }
    if Lists(vs, hash, confirmed) && vs[n] != L.Verdict(hash, confirmed) {
      var i :| 0 <= i < |vs| && vs[i] == L.Verdict(hash, confirmed);
      assert vs[..n][i] == L.Verdict(hash, confirmed);
    }
  }

  lemma ListedStands(blocks: seq<Block>, vs: seq<L.Verdict>, hash: string, confirmed: bool)
    requires AreVerdicts(blocks, vs) && Lists(vs, hash, confirmed)
    ensures Stands(blocks, hash, if confirmed then Confirmed else Orphaned)
  {
    var i :| 0 <= i < |vs| && vs[i] == L.Verdict(hash, confirmed);
    var k: nat :| k < |blocks| && Decides(blocks[k], vs[i]);
    assert blocks[k].hash == hash;
  }

  lemma PaidStands(a: Store, b: Store, hash: string, status: Status)
    requires SameButPaid(a, b) && Stands(a.blocks, hash, status)
    ensures Stands(b.blocks, hash, status)
  {
    var k: nat :| k < |a.blocks| && a.blocks[k].hash == hash && a.blocks[k].status == status;
    assert b.blocks[k].hash == hash;
  }

  /** A block newly settled has its fate in the store the step leaves. */
  ghost predicate SettledBy(before: World, after: World, hash: string) {
    && (hash in after.queue.applied ==> hash in before.queue.applied || Stands(after.store.blocks, hash, Confirmed))
    && (hash in after.queue.discarded ==> hash in before.queue.discarded || Stands(after.store.blocks, hash, Orphaned))
  }

  lemma StepSettles(w: World, s: Step, hash: string)
    requires Allowed(w, s)
    ensures SettledBy(w, Next(w, s), hash)
  {
    hide AfterStatus, DistributePass, PassPayments, Due, Stands, Lists, SameButPaid, L.Settled, AreVerdicts;
    if s.Reconciled? && s.pass.tip > 0 && s.pass.settles {
      var p, after := s.pass, Next(w, s);
      var blocks := AfterStatus(w.store.blocks, w.store.tips, w.gbh, p.tip, p.cands, p.answers, p.writes).0;
      var s1 := w.store.(blocks := blocks);
      SettledLists(w.queue, p.verdicts, hash);
      if p.pplns { PassKeeps(s1, p.due, p.feeBps, p.lands, |p.due|); }
      if Lists(p.verdicts, hash, true) {
        ListedStands(blocks, p.verdicts, hash, true);
        if p.pplns { PaidStands(s1, after.store, hash, Confirmed); }
      }
      if Lists(p.verdicts, hash, false) {
        ListedStands(blocks, p.verdicts, hash, false);
        if p.pplns { PaidStands(s1, after.store, hash, Orphaned); }
      }
    }
  }

  lemma NothingSettled(ws: seq<World>, steps: seq<Step>, hash: string)
    requires IsRun(ws, steps)
    ensures hash !in ws[0].queue.applied && hash !in ws[0].queue.discarded
  {
  }

  /**
   Over every run, a staged block is applied by a pass that has it confirmed, and discarded
   by one that has it orphaned.
   */
  lemma {:induction false} SettledByItsFate(ws: seq<World>, steps: seq<Step>, n: nat, hash: string, status: Status)
    returns (k: nat)
    requires IsRun(ws, steps) && n < |ws|
    requires status == Confirmed || status == Orphaned
    requires if status == Confirmed then hash in ws[n].queue.applied else hash in ws[n].queue.discarded
    ensures k < n && steps[k].Reconciled? && Stands(ws[k + 1].store.blocks, hash, status)
    decreases n
  {
    hide Next, Allowed, Stands, L.HasRows;
    NothingSettled(ws, steps, hash);
    k := n - 1;
    StepSettles(ws[n - 1], steps[n - 1], hash);
    var before := ws[n - 1].queue;
    if if status == Confirmed then hash in before.applied else hash in before.discarded {
      k := SettledByItsFate(ws, steps, n - 1, hash, status);
    } else {
      OnlyPassesSettle(ws[n - 1], steps[n - 1], hash);
    }
  }

  lemma OnlyPassesSettle(w: World, s: Step, hash: string)
    requires Allowed(w, s)
    ensures !s.Reconciled? ==>
      && (hash in Next(w, s).queue.applied <==> hash in w.queue.applied)
      && (hash in Next(w, s).queue.discarded <==> hash in w.queue.discarded)
  {
    hide L.StageAll, L.Writable, L.StageAccepts;
  }

  // ---- the pass as the store runs it -----------------------------------

  function InsertByHeight(blocks: seq<Block>, s: seq<nat>, k: nat): (r: seq<nat>)
    requires k < |blocks| && forall i :: 0 <= i < |s| ==> s[i] < |blocks|
    ensures |r| == |s| + 1 && forall i :: 0 <= i < |r| ==> r[i] < |blocks|
  {
    if s == [] then [k]
    else if blocks[k].height < blocks[s[0]].height then [k] + s
    else [s[0]] + InsertByHeight(blocks, s[1..], k)
  }

  lemma {:induction false} InsertByHeightIn(blocks: seq<Block>, s: seq<nat>, k: nat)
    requires k < |blocks| && forall i :: 0 <= i < |s| ==> s[i] < |blocks|
    ensures forall x: nat :: x in InsertByHeight(blocks, s, k) <==> x in s || x == k
  {
    if s != [] && !(blocks[k].height < blocks[s[0]].height) {
      InsertByHeightIn(blocks, s[1..], k);
      assert s == [s[0]] + s[1..];
    }
  }

  ghost predicate OrderedByHeight(blocks: seq<Block>, s: seq<nat>) {
    && (forall i :: 0 <= i < |s| ==> s[i] < |blocks|)
    && (forall i, j :: 0 <= i < j < |s| ==> s[i] != s[j] && blocks[s[i]].height <= blocks[s[j]].height)
  }

  lemma OrderedCons(blocks: seq<Block>, k: nat, t: seq<nat>)
    requires k < |blocks| && OrderedByHeight(blocks, t)
    requires forall x: nat :: x in t ==> x < |blocks| && x != k && blocks[k].height <= blocks[x].height
    ensures OrderedByHeight(blocks, [k] + t)
  {
    assert forall j :: 0 <= j < |t| ==> t[j] in t;
  }

  lemma {:induction false} InsertKeepsOrder(blocks: seq<Block>, s: seq<nat>, k: nat)
    requires k < |blocks| && OrderedByHeight(blocks, s) && k !in s
    ensures OrderedByHeight(blocks, InsertByHeight(blocks, s, k))
  {
    if s == [] {
    } else {
      var rest := s[1..];
      assert s == [s[0]] + rest;
      forall x: nat | x in rest ensures x < |blocks| && x != s[0] && blocks[s[0]].height <= blocks[x].height {
        var i :| 0 <= i < |rest| && rest[i] == x;
        assert s[i + 1] == x;
      }
      assert OrderedByHeight(blocks, rest);
      if blocks[k].height < blocks[s[0]].height {
        OrderedCons(blocks, k, s);
      } else {
        InsertKeepsOrder(blocks, rest, k);
        InsertByHeightIn(blocks, rest, k);
        OrderedCons(blocks, s[0], InsertByHeight(blocks, rest, k));
      }
    }
  }

  /** The due blocks, lowest first. */
  method DueBlocks(s: Store) returns (due: seq<nat>)
    ensures IsDueList(s, due) && OrderedByHeight(s.blocks, due)
  {
    hide Due;
    due := [];
    for k := 0 to |s.blocks|
      invariant OrderedByHeight(s.blocks, due)
      invariant forall x: nat :: x in due <==> x < k && Due(s.blocks[x])
    {
      if Due(s.blocks[k]) {
        InsertKeepsOrder(s.blocks, due, k);
        InsertByHeightIn(s.blocks, due, k);
        due := InsertByHeight(s.blocks, due, k);
      }
    }
    assert forall i :: 0 <= i < |due| ==> due[i] in due;
  }

  /** Credit a block's workers one by one. */
  method CreditAll(rows: seq<Credit>, cs: seq<Credit>) returns (r: seq<Credit>)
    ensures r == AddCredits(rows, cs)
  {
    hide AddCredit;
    r := rows;
    assert cs[..0] == [];
    for i := 0 to |cs|
      invariant r == AddCredits(rows, cs[..i])
    {
      assert cs[..i + 1][..i] == cs[..i];
      r := AddCredit(r, cs[i]);
    }
    assert cs[..|cs|] == cs;
  }

  /** One transaction per block; the first that fails ends the pass with nothing of its own written. */
  method DistributeDue(s: Store, due: seq<nat>, feeBps: int, lands: nat -> bool) returns (r: Store, ok: bool)
    requires forall i :: 0 <= i < |due| ==> due[i] < |s.blocks|
    ensures (r, ok) == DistributePass(s, due, feeBps, lands, |due|)
  {
    hide CreditsFor, NothingToShare, AddCredits;
    r, ok := s, true;
    for n := 0 to |due|
      invariant (r, ok) == DistributePass(s, due, feeBps, lands, n)
    {
      if ok {
        var i := due[n];
        var credits := CreditAll(r.credits, CreditsFor(r, i, feeBps));
        if lands(n) {
          r := r.(blocks := Latched(r.blocks, i), credits := credits);
        } else {
          ok := NothingToShare(r, i, feeBps);
        }
      }
    }
  }

  class Pool {
    var store: Store
    var gbh: GbhState
    var queue: L.Tables

    constructor ()
      ensures store == Store([], [], [], map[], []) && gbh == 0 && queue == L.Tables([], [])
    {
      store, gbh, queue := Store([], [], [], map[], []), 0, L.Tables([], []);
    }

    /** One confirmation pass. Distribution sits on the single exit path. */
    method Reconcile(tip: int, pplns: bool, feeBps: int, cands: seq<nat>, answers: nat -> Answer,
                     writes: Writes, verdicts: seq<L.Verdict>, settles: bool, lands: nat -> bool)
      returns (ranDistribution: bool, distributionOk: bool, due: seq<nat>)
      requires UniqueHashes(store.blocks) && IsCandidateList(store.blocks, tip, cands)
      requires |verdicts| <= L.SETTLE_LIMIT
      modifies this
      ensures tip <= 0 ==> store == old(store) && gbh == old(gbh) && queue == old(queue) && !ranDistribution
      ensures tip > 0 ==>
        var (blocks, g) := AfterStatus(old(store.blocks), old(store.tips), old(gbh), tip, cands, answers, writes);
        var s1 := old(store).(blocks := blocks);
        && gbh == g
        && queue == (if settles then L.SettleAll(old(queue), verdicts) else old(queue))
        && ranDistribution == pplns
        && (!pplns ==> store == s1)
        && (pplns ==> IsDueList(s1, due) && (store, distributionOk) == DistributePass(s1, due, feeBps, lands, |due|))
    {
      hide DistributePass, JudgeAll, TemplatesStored, UniqueHashes, L.SettleAll;
      ranDistribution, distributionOk, due := false, true, [];
      if tip <= 0 { return; }
      var settled := false;
      var blocks := store.blocks;
      if gbh >= 0 {
        var checked;
        blocks, gbh, settled, checked := NodePass(store.blocks, gbh, tip, cands, answers, writes.node);
        CheckedIs(answers, 0, |cands|, checked);
      }
      if !settled { blocks := TemplatesStored(blocks, store.tips, tip, writes.resolves, writes.orphans); }
      store := store.(blocks := blocks);
      var applied, discarded;
      queue, applied, discarded := L.Settle(queue, verdicts, settles);
      if pplns {
        ranDistribution := true;
        due := DueBlocks(store);
        var s', ok := DistributeDue(store, due, feeBps, lands);
        store, distributionOk := s', ok;
      }
    }
  }

  lemma {:induction false} CheckedIs(answers: nat -> Answer, i: nat, m: nat, c: nat)
    requires i <= c <= m && (c < m ==> !answers(c).Hash?)
    requires forall k :: i <= k < c ==> answers(k).Hash?
    ensures Checked(answers, i, m) == c
    decreases m - i
  {
    if i < c { CheckedIs(answers, i + 1, m, c); }
  }
}
