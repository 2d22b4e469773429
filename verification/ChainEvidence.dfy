/**
 What stands behind a distribution: over every run, each block that was paid had been
 named, by the node or by the observed chain of template tips, in a confirmation pass
 whose tip was at least 100 blocks up (src/reconcile.c, src/store.c).
 */
module ChainEvidence {
  import opened Options
  import opened BlockStatus
  import opened Settlement

  function Depth(tip: int, height: int): int {
    if tip - height + 1 > 0 then tip - height + 1 else 0
  }

  /** The node answered the block's hash when asked for its height. */
  ghost predicate NodeNamed(w: World, p: Pass, b: Block) {
    w.gbh >= 0 && exists c: nat :: NamedBy(w, p, b, c)
  }

  ghost predicate NamedBy(w: World, p: Pass, b: Block, c: nat) {
    && c < Checked(p.answers, 0, |p.cands|) && p.cands[c] < |w.store.blocks|
    && w.store.blocks[p.cands[c]].height == b.height && p.answers(c) == Hash(b.hash)
  }

  /** The latest tip seen above the block builds on it. */
  predicate TipNamed(w: World, b: Block) {
    Observed(w.store.tips, b.height + 1) == Some(b.hash)
  }

  /** The pass found the block in the chain, this deep. */
  ghost predicate Attests(w: World, p: Pass, b: Block) {
    && p.tip > 0 && b.confirmations == Depth(p.tip, b.height)
    && (NodeNamed(w, p, b) || TipNamed(w, b))
  }

  /** Same block, same verdict. */
  predicate SameVerdict(a: Block, b: Block) {
    a.hash == b.hash && a.height == b.height && a.status == b.status && a.confirmations == b.confirmations
  }

  // ---- one pass --------------------------------------------------------

  /** A row the node's answers leave confirmed was confirmed before, or is named by its own answer. */
  lemma NodeRow(w: World, p: Pass, k: nat)
    requires IsCandidateList(w.store.blocks, p.tip, p.cands) && w.gbh >= 0 && p.tip > 0 && k < |w.store.blocks|
    requires var c := Checked(p.answers, 0, |p.cands|);
      JudgeAll(w.store.blocks, p.cands, p.answers, p.writes.node, p.tip, c)[k].status == Confirmed
    ensures var c := Checked(p.answers, 0, |p.cands|);
      var b := JudgeAll(w.store.blocks, p.cands, p.answers, p.writes.node, p.tip, c)[k];
      SameVerdict(w.store.blocks[k], b) || Attests(w, p, b)
  {
    hide JudgeAll, Checked;
    var c := Checked(p.answers, 0, |p.cands|);
    JudgeAllRows(w.store.blocks, p.cands, p.answers, p.writes.node, p.tip, c, k);
    if k in p.cands[..c] {
      var i: nat :| i < c && p.cands[i] == k;
      var b := JudgeAll(w.store.blocks, p.cands, p.answers, p.writes.node, p.tip, c)[k];
      if p.writes.node(i) { assert NamedBy(w, p, b, i); }
    }
  }

  /** A row the templates pass leaves confirmed was so before, or is named by the latest tip above it. */
  lemma TemplatesRow(blocks: seq<Block>, w: World, p: Pass, k: nat)
    requires p.tip > 0 && k < |blocks|
    requires TemplatesStored(blocks, w.store.tips, p.tip, p.writes.resolves, p.writes.orphans)[k].status == Confirmed
    ensures var b := TemplatesStored(blocks, w.store.tips, p.tip, p.writes.resolves, p.writes.orphans)[k];
      SameVerdict(blocks[k], b) || Attests(w, p, b)
  {
    hide Observed;
  }

  lemma StatusRow(w: World, p: Pass, k: nat)
    requires IsPass(w.store, w.gbh, w.queue, p) && p.tip > 0 && k < |w.store.blocks|
    ensures var blocks := AfterStatus(w.store.blocks, w.store.tips, w.gbh, p.tip, p.cands, p.answers, p.writes).0;
      && |blocks| == |w.store.blocks|
      && (blocks[k].status == Confirmed ==> SameVerdict(w.store.blocks[k], blocks[k]) || Attests(w, p, blocks[k]))
  {
    hide JudgeAll, TemplatesStored, Checked, Attests, IsDueList, AreVerdicts;
    var blocks := w.store.blocks;
    var after := AfterStatus(blocks, w.store.tips, w.gbh, p.tip, p.cands, p.answers, p.writes).0;
    if w.gbh < 0 {
      if after[k].status == Confirmed { TemplatesRow(blocks, w, p, k); }
    } else {
      var judged := JudgeAll(blocks, p.cands, p.answers, p.writes.node, p.tip, Checked(p.answers, 0, |p.cands|));
      if judged[k].status == Confirmed { NodeRow(w, p, k); }
      if after != judged && after[k].status == Confirmed {
        TemplatesRow(judged, w, p, k);
        if !Attests(w, p, after[k]) { SameIsAttested(w, p, judged[k], after[k]); }
      }
    }
  }

  /** Evidence is about the block and its depth, nothing else of the row. */
  lemma SameIsAttested(w: World, p: Pass, a: Block, b: Block)
    requires SameVerdict(a, b)
    ensures Attests(w, p, a) ==> Attests(w, p, b)
  {
    if NodeNamed(w, p, a) {
      var c: nat :| NamedBy(w, p, a, c);
      assert NamedBy(w, p, b, c);
    }
  }

  /** The payments are of due rows as they stand in the store. */
  ghost predicate AreRows(s: Store, ps: seq<Payment>) {
    forall i :: 0 <= i < |ps| ==> ps[i].block < |s.blocks| && ps[i].row == s.blocks[ps[i].block] && Due(ps[i].row)
  }

  /** Every payment of a pass is of a row as the status half left it. */
  lemma {:induction false} PaymentsAreRows(s: Store, due: seq<nat>, feeBps: int, lands: nat -> bool, n: nat)
    requires n <= |due| && IsDueList(s, due)
    ensures AreRows(s, PassPayments(s, due, feeBps, lands, n))
  {
    hide Due, DistributePass, PassPayments;
    if n == 0 {
      PassStart(s, due, feeBps, lands);
    } else {
      PaymentsAreRows(s, due, feeBps, lands, n - 1);
      DueRowWaits(s, due, feeBps, lands, n - 1);
      PassStep(s, due, feeBps, lands, n - 1);
    }
  }

  // ---- whole runs ------------------------------------------------------

  /** The step is a pass that attests the block. */
  ghost predicate Witnesses(w: World, s: Step, b: Block) {
    s.Reconciled? && Attests(w, s.pass, b)
  }

  /** Some pass of the run so far found the block in the chain, this deep. */
  ghost predicate Attested(ws: seq<World>, steps: seq<Step>, n: nat, b: Block)
    requires n <= |steps| <= |ws|
  {
    exists i :: 0 <= i < n && Witnesses(ws[i], steps[i], b)
  }

  /** Confirmed rows and paid rows rest on evidence. */
  ghost predicate Grounded(ws: seq<World>, steps: seq<Step>, n: nat)
    requires n <= |steps| < |ws|
  {
    && (forall k :: 0 <= k < |ws[n].store.blocks| && ws[n].store.blocks[k].status == Confirmed ==>
          Attested(ws, steps, n, ws[n].store.blocks[k]))
    && (forall i :: 0 <= i < |ws[n].payments| ==> Attested(ws, steps, n, ws[n].payments[i].row))
  }

  /** A row confirmed after a step was confirmed alike before it, or the step attests it. */
  lemma StepRow(w: World, s: Step, k: nat)
    requires Inv(w) && Allowed(w, s) && k < |Next(w, s).store.blocks| && Next(w, s).store.blocks[k].status == Confirmed
    ensures var b := Next(w, s).store.blocks[k];
      (k < |w.store.blocks| && SameVerdict(w.store.blocks[k], b)) || Witnesses(w, s, b)
  {
    hide Attests, AfterStatus, DistributePass, PassPayments, L.Next, Accounted;
    if s.Reconciled? && s.pass.tip > 0 {
      var p := s.pass;
      var blocks := AfterStatus(w.store.blocks, w.store.tips, w.gbh, p.tip, p.cands, p.answers, p.writes).0;
      var s1 := w.store.(blocks := blocks);
      if p.pplns { PassKeeps(s1, p.due, p.feeBps, p.lands, |p.due|); }
      StatusLength(w, p);
      StatusRow(w, p, k);
      SameIsAttested(w, p, blocks[k], Next(w, s).store.blocks[k]);
    }
  }

  lemma StatusLength(w: World, p: Pass)
    requires IsPass(w.store, w.gbh, w.queue, p)
    ensures var blocks := AfterStatus(w.store.blocks, w.store.tips, w.gbh, p.tip, p.cands, p.answers, p.writes).0;
      |blocks| == |w.store.blocks|
  {
    hide JudgeAll, TemplatesStored, Checked;
  }

  /** A payment after a step was there before it, or is of a row that was confirmed alike or that the step attests. */
  lemma StepPayment(w: World, s: Step, i: nat)
    requires Inv(w) && Allowed(w, s) && i < |Next(w, s).payments|
    ensures var row := Next(w, s).payments[i].row;
      || (i < |w.payments| && row == w.payments[i].row)
      || Witnesses(w, s, row)
      || exists k :: 0 <= k < |w.store.blocks| && SameVerdict(w.store.blocks[k], row) && row.status == Confirmed
  {
    hide Attests, AfterStatus, DistributePass, PassPayments, L.Next, Accounted;
    if s.Reconciled? && s.pass.tip > 0 && s.pass.pplns && i >= |w.payments| {
      var p := s.pass;
      var blocks := AfterStatus(w.store.blocks, w.store.tips, w.gbh, p.tip, p.cands, p.answers, p.writes).0;
      var s1 := w.store.(blocks := blocks);
      PaymentsAreRows(s1, p.due, p.feeBps, p.lands, |p.due|);
      var ps, j := PassPayments(s1, p.due, p.feeBps, p.lands, |p.due|), i - |w.payments|;
      StatusLength(w, p);
      assert 0 <= j < |ps| && ps[j].block < |s1.blocks| && ps[j].row == s1.blocks[ps[j].block] && Due(ps[j].row);
      assert Next(w, s).payments[i] == ps[j];
      StatusRow(w, p, ps[j].block);
    }
  }

  lemma {:induction false} RunIsGrounded(ws: seq<World>, steps: seq<Step>, n: nat)
    requires IsRun(ws, steps) && n < |ws|
    ensures Grounded(ws, steps, n)
    decreases n
  {
    hide Inv, Next, Allowed, Witnesses;
    if n > 0 {
      RunIsGrounded(ws, steps, n - 1);
      RunIsSound(ws, steps, n - 1);
      var w, s, after := ws[n - 1], steps[n - 1], ws[n];
      forall b | Attested(ws, steps, n - 1, b) ensures Attested(ws, steps, n, b) {
        var i :| 0 <= i < n - 1 && Witnesses(ws[i], steps[i], b);
        assert Witnesses(ws[i], steps[i], b);
      }
      forall k | 0 <= k < |after.store.blocks| && after.store.blocks[k].status == Confirmed
        ensures Attested(ws, steps, n, after.store.blocks[k])
      {
        StepRow(w, s, k);
        if !Witnesses(w, s, after.store.blocks[k]) {
          AttestedAlike(ws, steps, n - 1, w.store.blocks[k], after.store.blocks[k]);
        }
      }
      forall i | 0 <= i < |after.payments| ensures Attested(ws, steps, n, after.payments[i].row) {
        StepPayment(w, s, i);
        var row := after.payments[i].row;
        if !Witnesses(w, s, row) && !(i < |w.payments| && row == w.payments[i].row) {
          var k :| 0 <= k < |w.store.blocks| && SameVerdict(w.store.blocks[k], row) && row.status == Confirmed;
          AttestedAlike(ws, steps, n - 1, w.store.blocks[k], row);
        }
      }
    }
  }

  lemma AttestedAlike(ws: seq<World>, steps: seq<Step>, n: nat, a: Block, b: Block)
    requires n <= |steps| <= |ws| && Attested(ws, steps, n, a) && SameVerdict(a, b)
    ensures Attested(ws, steps, n, b)
  {
    hide Attests;
    var i :| 0 <= i < n && Witnesses(ws[i], steps[i], a);
    SameIsAttested(ws[i], steps[i].pass, a, b);
    assert Witnesses(ws[i], steps[i], b);
  }

  /** The pass named the block, with its tip at least 100 blocks up, the block's own included. */
  ghost predicate FoundBuried(w: World, s: Step, b: Block) {
    s.Reconciled? && s.pass.tip - b.height + 1 >= 100 && (NodeNamed(w, s.pass, b) || TipNamed(w, b))
  }

  /**
   Over every run with failures anywhere, every payment is of a block that an earlier or
   the same pass found in the chain, named by the node or by the latest tip above it,
   at least 100 deep under that pass's tip.
   */
  lemma PaymentIsBuried(ws: seq<World>, steps: seq<Step>, n: nat, i: nat)
    requires IsRun(ws, steps) && n < |ws| && i < |ws[n].payments|
    ensures exists k :: 0 <= k < n && FoundBuried(ws[k], steps[k], ws[n].payments[i].row)
  {
    hide IsRun, L.Inv, NodeNamed, TipNamed;
    RunIsGrounded(ws, steps, n);
    RunIsSound(ws, steps, n);
    var row := ws[n].payments[i].row;
    assert SoundPayment(ws[n].payments[i]);
    assert |ws| == |steps| + 1 by { RunLength(ws, steps); }
    var k :| 0 <= k < n && Witnesses(ws[k], steps[k], row);
    assert FoundBuried(ws[k], steps[k], row);
  }

  lemma RunLength(ws: seq<World>, steps: seq<Step>)
    requires IsRun(ws, steps)
    ensures |ws| == |steps| + 1
  {
  }
}
