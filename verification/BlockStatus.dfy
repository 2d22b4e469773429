/**
 Which of the pool's blocks are in the chain: the getblockhash pass, the fallback
 that reads the observed chain of template tips, and what both leave alone
 (src/reconcile.c, src/store.c).
 */
module BlockStatus {
  import opened Options

  datatype Status = Pending | Confirmed | Orphaned | Rejected

  datatype Block = Block(hash: string, height: int, status: Status, confirmations: int,
                         reward: int, fee: int, window: real, distributed: bool)

  /** A template seen from the node: the parent it builds on, at its height. Newest last. */
  datatype Tip = Tip(height: int, prevHash: string)

  const FINAL_DEPTH: int := 100
  const MAX_PER_TICK: nat := 16

  ghost predicate UniqueHashes(blocks: seq<Block>) {
    forall i, j :: 0 <= i < j < |blocks| ==> blocks[i].hash != blocks[j].hash
  }

  /** INSERT OR IGNORE under the unique hash index. */
  function Record(blocks: seq<Block>, b: Block): seq<Block> {
    if exists i :: 0 <= i < |blocks| && blocks[i].hash == b.hash then blocks else blocks + [b]
  }

  lemma RecordKeepsUnique(blocks: seq<Block>, b: Block)
    requires UniqueHashes(blocks)
    ensures UniqueHashes(Record(blocks, b)) && blocks <= Record(blocks, b)
  {
  }

  /** A block is filed once, last; a hash already filed changes nothing. */
  lemma RecordFilesOnce(blocks: seq<Block>, b: Block)
    ensures var r := Record(blocks, b);
      if forall i :: 0 <= i < |blocks| ==> blocks[i].hash != b.hash
      then |r| == |blocks| + 1 && r[|blocks|] == b && r[..|blocks|] == blocks
      else r == blocks
  {
  }

  /** The parts of a row no confirmation pass may touch. */
  predicate SameRow(a: Block, b: Block) {
    && a.hash == b.hash && a.height == b.height && a.reward == b.reward && a.fee == b.fee
    && a.window == b.window && a.distributed == b.distributed
  }

  /** Rows keep their identity, and a rejected row is not touched at all. */
  ghost predicate OnlyVerdicts(before: seq<Block>, after: seq<Block>) {
    && |after| == |before|
    && forall i :: 0 <= i < |before| ==>
         SameRow(before[i], after[i]) && (before[i].status == Rejected ==> after[i] == before[i])
  }

  lemma OnlyVerdictsRefl(a: seq<Block>)
    ensures OnlyVerdicts(a, a)
  {
  }

  lemma OnlyVerdictsTrans(a: seq<Block>, b: seq<Block>, c: seq<Block>)
    requires OnlyVerdicts(a, b) && OnlyVerdicts(b, c)
    ensures OnlyVerdicts(a, c)
  {
  }

  // ---- the node's own answer ------------------------------------------

  /** UPDATE .. SET status, confirmations WHERE hash = ?. */
  function SetStatus(blocks: seq<Block>, hash: string, status: Status, confirmations: int): (r: seq<Block>)
    ensures |r| == |blocks|
  {
    seq(|blocks|, i requires 0 <= i < |blocks| =>
      if blocks[i].hash == hash then
        blocks[i].(status := status, confirmations := if confirmations < 0 then 0 else confirmations)
      else blocks[i])
  }

  predicate Unresolved(b: Block, tip: int) {
    (b.status == Pending || b.status == Confirmed) && b.confirmations < FINAL_DEPTH && b.height <= tip
  }

  /** The candidates one tick re-checks: distinct unresolved rows, a bounded number of them. */
  ghost predicate IsCandidateList(blocks: seq<Block>, tip: int, cands: seq<nat>) {
    && |cands| <= MAX_PER_TICK
    && (forall i :: 0 <= i < |cands| ==> cands[i] < |blocks| && Unresolved(blocks[cands[i]], tip))
    && (forall i, j :: 0 <= i < j < |cands| ==> cands[i] != cands[j])
  }

  /** What the backend answers to one getblockhash call. */
  datatype Answer = Unsupported | Transient | Hash(hash: string)

  /** Row `i` after the node has said which hash stands at its height. */
  function Judged(b: Block, have: string, tip: int): Block {
    if have == b.hash then
      b.(status := Confirmed, confirmations := if tip - b.height + 1 < 0 then 0 else tip - b.height + 1)
    else b.(status := Orphaned, confirmations := 0)
  }

  lemma SetStatusIsOne(blocks: seq<Block>, i: nat, have: string, tip: int)
    requires UniqueHashes(blocks) && i < |blocks|
    ensures var b := blocks[i]; var same := have == b.hash;
      SetStatus(blocks, b.hash, if same then Confirmed else Orphaned, if same then tip - b.height + 1 else 0)
        == blocks[i := Judged(b, have, tip)]
  {
  }

  /** 0 = not asked yet, 1 = served, -1 = never will be. */
  type GbhState = s: int | -1 <= s <= 1

  /** The rows after the first `n` candidates were judged; `wrote(i)` is whether the i-th update landed. */
  function JudgeAll(blocks: seq<Block>, cands: seq<nat>, answers: nat -> Answer, wrote: nat -> bool, tip: int, n: nat)
    : (r: seq<Block>)
    requires n <= |cands| && forall i :: 0 <= i < n ==> cands[i] < |blocks| && answers(i).Hash?
    ensures |r| == |blocks|
  {
    if n == 0 then blocks
    else
      var before := JudgeAll(blocks, cands, answers, wrote, tip, n - 1);
      var k := cands[n - 1];
      if wrote(n - 1) then before[k := Judged(before[k], answers(n - 1).hash, tip)] else before
  }

  /** Judging one untouched, unresolved row keeps the rows' identities. */
  lemma JudgeOneKeeps(blocks: seq<Block>, before: seq<Block>, k: nat, have: string, tip: int)
    requires UniqueHashes(before) && OnlyVerdicts(blocks, before)
    requires k < |blocks| && before[k] == blocks[k] && blocks[k].status != Rejected
    ensures var r := before[k := Judged(before[k], have, tip)]; UniqueHashes(r) && OnlyVerdicts(blocks, r)
  {
    var r := before[k := Judged(before[k], have, tip)];
    assert forall i :: 0 <= i < |r| ==> r[i].hash == before[i].hash;
    assert forall i :: 0 <= i < |r| && i != k ==> r[i] == before[i];
  }

  /** Exactly the rows whose update landed are judged, each from the row it was; the rest stay. */
  lemma {:induction false} JudgeAllRows(blocks: seq<Block>, cands: seq<nat>, answers: nat -> Answer,
                                        wrote: nat -> bool, tip: int, n: nat, k: nat)
    requires IsCandidateList(blocks, tip, cands) && k < |blocks|
    requires n <= |cands| && forall i :: 0 <= i < n ==> answers(i).Hash?
    ensures k !in cands[..n] ==> JudgeAll(blocks, cands, answers, wrote, tip, n)[k] == blocks[k]
    ensures forall i: nat :: i < n && cands[i] == k ==>
      JudgeAll(blocks, cands, answers, wrote, tip, n)[k]
        == if wrote(i) then Judged(blocks[k], answers(i).hash, tip) else blocks[k]
  {
    hide Judged, Unresolved;
    if n > 0 {
      JudgeAllRows(blocks, cands, answers, wrote, tip, n - 1, k);
      assert cands[..n] == cands[..n - 1] + [cands[n - 1]];
    }
  }

  /** What the node says decides: confirmed at its depth if the hash is the block's own, orphaned if not. */
  lemma NodeDecides(blocks: seq<Block>, cands: seq<nat>, answers: nat -> Answer, wrote: nat -> bool, tip: int, n: nat,
                    i: nat)
    requires IsCandidateList(blocks, tip, cands) && i < n <= |cands| && wrote(i)
    requires forall i :: 0 <= i < n ==> answers(i).Hash?
    ensures var a, b := blocks[cands[i]], JudgeAll(blocks, cands, answers, wrote, tip, n)[cands[i]];
      && SameRow(a, b)
      && (answers(i).hash == a.hash ==> b.status == Confirmed && b.confirmations == tip - a.height + 1)
      && (answers(i).hash != a.hash ==> b.status == Orphaned && b.confirmations == 0)
  {
    JudgeAllRows(blocks, cands, answers, wrote, tip, n, cands[i]);
    hide JudgeAll;
  }

  /** The node is not asked about a row a hundred deep, above the tip, orphaned or rejected, and does not change it. */
  lemma SettledRowsStay(blocks: seq<Block>, cands: seq<nat>, answers: nat -> Answer, wrote: nat -> bool, tip: int,
                        n: nat, k: nat)
    requires IsCandidateList(blocks, tip, cands) && n <= |cands| && k < |blocks|
    requires forall i :: 0 <= i < n ==> answers(i).Hash?
    requires var b := blocks[k];
      b.confirmations >= 100 || b.height > tip || b.status == Orphaned || b.status == Rejected
    ensures k !in cands && JudgeAll(blocks, cands, answers, wrote, tip, n)[k] == blocks[k]
  {
    JudgeAllRows(blocks, cands, answers, wrote, tip, n, k);
    hide JudgeAll;
  }

  /** Pending, or confirmed less than a hundred deep, and not above the tip. */
  predicate IsOpen(b: Block, tip: int) {
    (b.status == Pending || b.status == Confirmed) && b.confirmations < 100 && b.height <= tip
  }

  /** A pass asks about at most sixteen rows, each once, and open ones only. */
  lemma CandidatesAreOpen(blocks: seq<Block>, tip: int, cands: seq<nat>)
    ensures IsCandidateList(blocks, tip, cands) <==>
      && |cands| <= 16
      && (forall i :: 0 <= i < |cands| ==> cands[i] < |blocks| && IsOpen(blocks[cands[i]], tip))
      && (forall i, j :: 0 <= i < j < |cands| ==> cands[i] != cands[j])
  {
  }

  lemma {:induction false} JudgeAllKeeps(blocks: seq<Block>, cands: seq<nat>, answers: nat -> Answer,
                                         wrote: nat -> bool, tip: int, n: nat)
    requires UniqueHashes(blocks) && IsCandidateList(blocks, tip, cands)
    requires n <= |cands| && forall i :: 0 <= i < n ==> answers(i).Hash?
    ensures var r := JudgeAll(blocks, cands, answers, wrote, tip, n); UniqueHashes(r) && OnlyVerdicts(blocks, r)
  {
    hide UniqueHashes, OnlyVerdicts, Judged;
    if n == 0 {
      OnlyVerdictsRefl(blocks);
    } else {
      JudgeAllKeeps(blocks, cands, answers, wrote, tip, n - 1);
      var before, k := JudgeAll(blocks, cands, answers, wrote, tip, n - 1), cands[n - 1];
      JudgeAllRows(blocks, cands, answers, wrote, tip, n - 1, k);
      assert k !in cands[..n - 1];
      JudgeOneKeeps(blocks, before, k, answers(n - 1).hash, tip);
    }
  }

  /**
   The getblockhash loop. Stops at the first unsupported or transient answer; rows
   not yet reached are left alone. `settled` says the fallback must not run.
   */
  method NodePass(blocks: seq<Block>, gbh: GbhState, tip: int, cands: seq<nat>, answers: nat -> Answer,
                  wrote: nat -> bool)
    returns (r: seq<Block>, gbh': GbhState, settled: bool, checked: nat)
    requires UniqueHashes(blocks) && IsCandidateList(blocks, tip, cands) && gbh >= 0
    ensures checked <= |cands| && forall i :: 0 <= i < checked ==> answers(i).Hash?
    ensures r == JudgeAll(blocks, cands, answers, wrote, tip, checked)
    ensures checked < |cands| ==> !answers(checked).Hash?
    ensures gbh' == if checked < |cands| && answers(checked).Unsupported? then -1 else if checked > 0 then 1 else gbh
    ensures settled <==> gbh' > 0 || (checked < |cands| && answers(checked).Transient?)
  {
    hide UniqueHashes, OnlyVerdicts, SetStatus, Unresolved;
    r, gbh', settled, checked := blocks, gbh, false, 0;
    while checked < |cands|
      invariant checked <= |cands| && forall i :: 0 <= i < checked ==> answers(i).Hash?
      invariant r == JudgeAll(blocks, cands, answers, wrote, tip, checked)
      invariant gbh' == if checked > 0 then 1 else gbh
      invariant !settled
    {
      var k := cands[checked];
      match answers(checked) {
        case Unsupported =>
          gbh' := -1;
          break;
        case Transient =>
          settled := true;
          break;
        case Hash(have) =>
          gbh' := 1;
          JudgeAllKeeps(blocks, cands, answers, wrote, tip, checked);
          SetStatusIsOne(r, k, have, tip);
          if wrote(checked) {
            var same := have == r[k].hash;
            r := SetStatus(r, r[k].hash, if same then Confirmed else Orphaned,
                           if same then tip - r[k].height + 1 else 0);
          }
          checked := checked + 1;
      }
    }
    if gbh' > 0 { settled := true; }
  }

  // ---- the chain of template tips -------------------------------------

  /** The newest observation at a height. */
  function Observed(tips: seq<Tip>, height: int): Option<string> {
    if tips == [] then None
    else if tips[|tips| - 1].height == height then Some(tips[|tips| - 1].prevHash)
    else Observed(tips[..|tips| - 1], height)
  }

  /** First the latest tip above the block decides; then heights outside the chain are orphaned. */
  function Resolve(b: Block, tips: seq<Tip>, tip: int): Block {
    var seen := Observed(tips, b.height + 1);
    if b.status == Rejected || seen.None? then b
    else if seen.value == b.hash then
      b.(status := Confirmed, confirmations := if tip - b.height + 1 > 0 then tip - b.height + 1 else 0)
    else b.(status := Orphaned, confirmations := 0)
  }

  function Impossible(b: Block, tip: int): Block {
    if b.status != Rejected && tip > 0 && (b.height <= 0 || b.height > tip) then
      b.(status := Orphaned, confirmations := 0)
    else b
  }

  function TemplatesPass(blocks: seq<Block>, tips: seq<Tip>, tip: int): (r: seq<Block>)
    ensures |r| == |blocks|
    ensures forall i :: 0 <= i < |r| ==> r[i] == Impossible(Resolve(blocks[i], tips, tip), tip)
  {
    seq(|blocks|, i requires 0 <= i < |blocks| => Impossible(Resolve(blocks[i], tips, tip), tip))
  }

  /** The pass is idempotent, touches only verdicts, and never a rejected row. */
  lemma TemplatesPassIsIdempotent(blocks: seq<Block>, tips: seq<Tip>, tip: int)
    ensures TemplatesPass(TemplatesPass(blocks, tips, tip), tips, tip) == TemplatesPass(blocks, tips, tip)
    ensures OnlyVerdicts(blocks, TemplatesPass(blocks, tips, tip))
    ensures UniqueHashes(blocks) ==> UniqueHashes(TemplatesPass(blocks, tips, tip))
  {
    hide Observed;
  }

  /** The pass as stored: each of its two updates is one statement and may fail. */
  function TemplatesStored(blocks: seq<Block>, tips: seq<Tip>, tip: int, resolves: bool, orphans: bool): (r: seq<Block>)
    ensures |r| == |blocks|
  {
    seq(|blocks|, i requires 0 <= i < |blocks| =>
      var b := if resolves then Resolve(blocks[i], tips, tip) else blocks[i];
      if orphans then Impossible(b, tip) else b)
  }

  /** Whatever fails, only verdicts change, and never a rejected row's; with nothing failing it is the pass. */
  lemma TemplatesStoredKeeps(blocks: seq<Block>, tips: seq<Tip>, tip: int, resolves: bool, orphans: bool)
    ensures var r := TemplatesStored(blocks, tips, tip, resolves, orphans);
      && OnlyVerdicts(blocks, r)
      && (UniqueHashes(blocks) ==> UniqueHashes(r))
      && (resolves && orphans ==> r == TemplatesPass(blocks, tips, tip))
  {
    hide Observed;
  }

  /**
   A block inside the chain's heights is confirmed exactly when the latest tip seen
   above it builds on it -- also when an earlier tip did and a reorg replaced it, and
   also when it had been orphaned before.
   */
  lemma {:induction false} LatestTipDecides(blocks: seq<Block>, tips: seq<Tip>, tip: int, i: nat, k: nat)
    requires i < |blocks| && blocks[i].status != Rejected && 0 < blocks[i].height <= tip
    requires k < |tips| && tips[k].height == blocks[i].height + 1
    requires forall j :: k < j < |tips| ==> tips[j].height != blocks[i].height + 1
    ensures var b := TemplatesPass(blocks, tips, tip)[i];
      if tips[k].prevHash == b.hash then b.status == Confirmed && b.confirmations == tip - b.height + 1
      else b.status == Orphaned && b.confirmations == 0
  {
    ObservedIsLatest(tips, blocks[i].height + 1, k);
  }

  /** A height outside the chain is orphaned; inside it, a block with no tip above it yet is left alone. */
  lemma WithoutATip(blocks: seq<Block>, tips: seq<Tip>, tip: int, i: nat)
    requires i < |blocks| && blocks[i].status != Rejected && tip > 0
    requires forall j :: 0 <= j < |tips| ==> tips[j].height != blocks[i].height + 1
    ensures var a, b := blocks[i], TemplatesPass(blocks, tips, tip)[i];
      if 0 < a.height <= tip then b == a else b.status == Orphaned && b.confirmations == 0
  {
    NotObserved(tips, blocks[i].height + 1);
  }

  lemma {:induction false} NotObserved(tips: seq<Tip>, height: int)
    requires forall j :: 0 <= j < |tips| ==> tips[j].height != height
    ensures Observed(tips, height) == None
  {
    if tips != [] { NotObserved(tips[..|tips| - 1], height); }
  }

  lemma {:induction false} ObservedIsLatest(tips: seq<Tip>, height: int, k: nat)
    requires k < |tips| && tips[k].height == height
    requires forall j :: k < j < |tips| ==> tips[j].height != height
    ensures Observed(tips, height) == Some(tips[k].prevHash)
  {
    if k < |tips| - 1 { ObservedIsLatest(tips[..|tips| - 1], height, k); }
  }
}
