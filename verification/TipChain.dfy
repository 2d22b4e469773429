/**
 The observed tips against the chain itself: the node's chain grows and is reorganised
 between the pool's steps, a template shows only the block it builds on, and a block is
 judged by the newest template above it, which may be older than a reorg
 (src/store.c, src/reconcile.c).
 */
module TipChain {
  import opened Options
  import opened BlockStatus
  import opened Settlement
  import opened ChainEvidence
  import opened Distribution
  import opened Sums
  import opened WindowWalk
  import WF = WalletFunding

  // ---- the chain -------------------------------------------------------

  /** The node's best chain, by height, moves by one block or switches branch above `keep` blocks. */
  datatype Move = Extend(hash: string) | Reorg(keep: nat, branch: seq<string>)

  function Moved(chain: seq<string>, m: Move): seq<string> {
    match m
    case Extend(hash) => chain + [hash]
    case Reorg(keep, branch) => if keep <= |chain| then chain[..keep] + branch else chain
  }

  function Chain(moves: seq<Move>): seq<string> {
    if moves == [] then [] else Moved(Chain(moves[..|moves| - 1]), moves[|moves| - 1])
  }

  /** The block is in the chain, at its height. */
  predicate InChain(chain: seq<string>, height: int, hash: string) {
    0 <= height < |chain| && chain[height] == hash
  }

  /** The move replaces what stands at the height. */
  predicate Replaces(m: Move, height: int) {
    m.Reorg? && m.keep <= height
  }

  /** No reorg replaced the height between the two moments. */
  ghost predicate Untouched(moves: seq<Move>, a: nat, b: nat, height: int)
    requires b <= |moves|
  {
    forall i: nat :: a <= i < b ==> !Replaces(moves[i], height)
  }

  /** The i-th move puts the hash at the height: as the next block, or on the branch switched to. */
  predicate Places(moves: seq<Move>, i: nat, height: int, hash: string)
    requires i < |moves|
  {
    var before, m := Chain(moves[..i]), moves[i];
    match m
    case Extend(h) => |before| == height && h == hash
    case Reorg(keep, branch) =>
      keep <= |before| && 0 <= height - keep < |branch| && branch[height - keep] == hash
  }

  /** The hash came back after the first moment, and was not replaced again before the second. */
  ghost predicate Restored(moves: seq<Move>, a: nat, b: nat, height: int, hash: string)
    requires b <= |moves|
  {
    exists i: nat :: a <= i < b && Places(moves, i, height, hash) && Untouched(moves, i + 1, b, height)
  }

  lemma ChainStep(moves: seq<Move>, b: nat)
    requires 0 < b <= |moves|
    ensures Chain(moves[..b]) == Moved(Chain(moves[..b - 1]), moves[b - 1])
  {
    assert moves[..b][..b - 1] == moves[..b - 1];
  }

  lemma {:induction false} Stays(moves: seq<Move>, a: nat, b: nat, height: int, hash: string)
    requires a <= b <= |moves| && Untouched(moves, a, b, height) && InChain(Chain(moves[..a]), height, hash)
    ensures InChain(Chain(moves[..b]), height, hash)
    decreases b
  {
    if a < b {
      hide Chain;
      Stays(moves, a, b - 1, height, hash);
      ChainStep(moves, b);
    }
  }

  /** A block of the chain was there before and not replaced since, or was placed since and not replaced after that. */
  lemma {:induction false} CameFrom(moves: seq<Move>, a: nat, b: nat, height: int, hash: string)
    requires a <= b <= |moves| && InChain(Chain(moves[..b]), height, hash)
    ensures Untouched(moves, a, b, height) || Restored(moves, a, b, height, hash)
    decreases b
  {
    hide Chain, Places, InChain, Replaces;
    if a < b {
      if Places(moves, b - 1, height, hash) {
        assert Untouched(moves, b, b, height);
      } else {
        WasThere(moves, b, height, hash);
        CameFrom(moves, a, b - 1, height, hash);
        if Restored(moves, a, b - 1, height, hash) {
          var i: nat :| a <= i < b - 1 && Places(moves, i, height, hash) && Untouched(moves, i + 1, b - 1, height);
          assert Untouched(moves, i + 1, b, height);
        }
      }
    }
  }

  /** A block the last move did not place was there before it, and the move did not replace it. */
  lemma WasThere(moves: seq<Move>, b: nat, height: int, hash: string)
    requires 0 < b <= |moves| && InChain(Chain(moves[..b]), height, hash) && !Places(moves, b - 1, height, hash)
    ensures InChain(Chain(moves[..b - 1]), height, hash) && !Replaces(moves[b - 1], height)
  {
    hide Chain;
    ChainStep(moves, b);
  }

  /** A block seen in the chain is in it later exactly when no reorg replaced it, or it came back for good. */
  lemma StillInChainIff(moves: seq<Move>, a: nat, b: nat, height: int, hash: string)
    requires a <= b <= |moves| && InChain(Chain(moves[..a]), height, hash)
    ensures InChain(Chain(moves[..b]), height, hash) <==>
      Untouched(moves, a, b, height) || Restored(moves, a, b, height, hash)
  {
    hide Chain;
    if Untouched(moves, a, b, height) {
      Stays(moves, a, b, height, hash);
    } else if Restored(moves, a, b, height, hash) {
      var i: nat :| a <= i < b && Places(moves, i, height, hash) && Untouched(moves, i + 1, b, height);
      ChainStep(moves, i + 1);
      Stays(moves, i + 1, b, height, hash);
    }
    if InChain(Chain(moves[..b]), height, hash) { CameFrom(moves, a, b, height, hash); }
  }

  // ---- what the pool saw of it -----------------------------------------

  /** A template builds on the last block of the chain. */
  predicate ShowsTip(chain: seq<string>, tip: Tip) {
    chain != [] && tip == Tip(|chain|, chain[|chain| - 1])
  }

  /** The node answers with the hash that stands at the candidate's height. */
  ghost predicate AnswersFrom(chain: seq<string>, w: World, p: Pass) {
    forall c: nat :: c < |p.cands| && p.cands[c] < |w.store.blocks| && p.answers(c).Hash? ==>
      InChain(chain, w.store.blocks[p.cands[c]].height, p.answers(c).hash)
  }

  ghost predicate StepIsTrue(chain: seq<string>, w: World, s: Step) {
    && (s.Seen? ==> ShowsTip(chain, s.tip))
    && (s.Reconciled? ==> AnswersFrom(chain, w, s.pass))
  }

  /** Step i runs when the chain has made its first `at[i]` moves, and templates and answers are of that chain. */
  ghost predicate IsTrueRun(ws: seq<World>, steps: seq<Step>, moves: seq<Move>, at: seq<nat>) {
    && IsRun(ws, steps) && |at| == |steps| == |ws| - 1
    && (forall i, j :: 0 <= i <= j < |at| ==> at[i] <= at[j] <= |moves|)
    && (forall i :: 0 <= i < |steps| ==> StepIsTrue(Chain(moves[..at[i]]), ws[i], steps[i]))
  }

  /** Step m is the latest before step n to show a template at the height. */
  ghost predicate IsLastSeen(steps: seq<Step>, height: int, m: nat, n: nat)
    requires n <= |steps|
  {
    && m < n && steps[m].Seen? && steps[m].tip.height == height
    && forall i :: m < i < n && steps[i].Seen? ==> steps[i].tip.height != height
  }

  lemma {:induction false} ObservedInNewest(tips: seq<Tip>, k: nat, height: int)
    requires k <= |tips| && Observed(tips[k..], height).Some?
    ensures Observed(tips, height) == Observed(tips[k..], height)
  {
    var n := |tips| - 1;
    if k < |tips| && tips[n].height != height {
      assert tips[k..][..|tips[k..]| - 1] == tips[..n][k..];
      ObservedInNewest(tips[..n], k, height);
    }
  }

  /** Only templates add to the tips, and only trimming takes from them. */
  lemma TipsStep(w: World, s: Step)
    requires Allowed(w, s)
    ensures Next(w, s).store.tips == match s
      case Seen(tip) => w.store.tips + [tip]
      case Trimmed(n) => w.store.tips[n..]
      case _ => w.store.tips
  {
    hide AfterStatus, DistributePass, PassPayments, L.Next, Due;
    if s.Reconciled? && s.pass.tip > 0 && s.pass.pplns {
      var p := s.pass;
      var blocks := AfterStatus(w.store.blocks, w.store.tips, w.gbh, p.tip, p.cands, p.answers, p.writes).0;
      PassKeeps(w.store.(blocks := blocks), p.due, p.feeBps, p.lands, |p.due|);
    }
  }

  /** What is observed at a height is what the latest template at that height showed. */
  lemma {:induction false} ObservedWasSeen(ws: seq<World>, steps: seq<Step>, n: nat, height: int) returns (m: nat)
    requires IsRun(ws, steps) && n < |ws| && Observed(ws[n].store.tips, height).Some?
    ensures IsLastSeen(steps, height, m, n) && Observed(ws[n].store.tips, height) == Some(steps[m].tip.prevHash)
    decreases n
  {
    hide Next, Allowed;
    m := 0;
    if n > 0 {
      var w, s := ws[n - 1], steps[n - 1];
      TipsStep(w, s);
      if s.Seen? && s.tip.height == height {
        m := n - 1;
      } else {
        if s.Trimmed? {
          TrimmedFits(w, s);
          ObservedInNewest(w.store.tips, s.n, height);
        }
        if s.Seen? { assert (w.store.tips + [s.tip])[..|w.store.tips|] == w.store.tips; }
        m := ObservedWasSeen(ws, steps, n - 1, height);
      }
    }
  }

  lemma TrimmedFits(w: World, s: Step)
    requires Allowed(w, s) && s.Trimmed?
    ensures s.n <= |w.store.tips|
  {
  }

  /**
   A block the latest tip names is in the chain exactly when no reorg has replaced its
   height since that tip was seen, or the block has come back since.
   */
  lemma NamedIsInChainIff(ws: seq<World>, steps: seq<Step>, moves: seq<Move>, at: seq<nat>, n: nat, b: Block)
    returns (m: nat)
    requires IsTrueRun(ws, steps, moves, at) && n < |steps| && TipNamed(ws[n], b)
    ensures IsLastSeen(steps, b.height + 1, m, n)
    ensures InChain(Chain(moves[..at[n]]), b.height, b.hash) <==>
      Untouched(moves, at[m], at[n], b.height) || Restored(moves, at[m], at[n], b.height, b.hash)
  {
    hide Chain, IsRun, Untouched, Restored, Observed;
    m := ObservedWasSeen(ws, steps, n, b.height + 1);
    assert StepIsTrue(Chain(moves[..at[m]]), ws[m], steps[m]);
    StillInChainIff(moves, at[m], at[n], b.height, b.hash);
  }

  lemma NodeNamedIsInChain(chain: seq<string>, w: World, p: Pass, b: Block)
    requires NodeNamed(w, p, b) && AnswersFrom(chain, w, p)
    ensures InChain(chain, b.height, b.hash)
  {
    hide Checked;
    var c: nat :| NamedBy(w, p, b, c);
  }

  /** A reorg replaced the height after the template above it was last seen. */
  ghost predicate ReplacedSince(steps: seq<Step>, moves: seq<Move>, at: seq<nat>, height: int, k: nat)
    requires k < |steps| == |at| && forall i :: 0 <= i < |at| ==> at[i] <= |moves|
  {
    exists m: nat :: IsLastSeen(steps, height + 1, m, k) && !Untouched(moves, at[m], at[k], height)
  }

  /** The pass found the block buried; and it was in the chain, or a reorg had gone by unseen. */
  ghost predicate FoundInChain(ws: seq<World>, steps: seq<Step>, moves: seq<Move>, at: seq<nat>, k: nat, b: Block)
    requires IsTrueRun(ws, steps, moves, at) && k < |steps|
  {
    && FoundBuried(ws[k], steps[k], b)
    && (InChain(Chain(moves[..at[k]]), b.height, b.hash) || ReplacedSince(steps, moves, at, b.height, k))
  }

  /**
   Over every run of the pool beside every history of the chain, a payment is of a block
   that some pass found at least 100 deep, and that stood in the chain at that pass, unless
   a reorg replaced its height after the template above it was last seen.
   */
  lemma PaymentIsInChain(ws: seq<World>, steps: seq<Step>, moves: seq<Move>, at: seq<nat>, n: nat, i: nat)
    requires IsTrueRun(ws, steps, moves, at) && n < |ws| && i < |ws[n].payments|
    ensures exists k: nat :: k < n && FoundInChain(ws, steps, moves, at, k, ws[n].payments[i].row)
  {
    hide Chain, IsRun, Untouched, Restored, Attests, NodeNamed, TipNamed;
    PaymentIsBuried(ws, steps, n, i);
    var b := ws[n].payments[i].row;
    var k: nat :| k < n && FoundBuried(ws[k], steps[k], b);
    var chain := Chain(moves[..at[k]]);
    assert StepIsTrue(chain, ws[k], steps[k]);
    if NodeNamed(ws[k], steps[k].pass, b) {
      NodeNamedIsInChain(chain, ws[k], steps[k].pass, b);
    } else {
      var m := NamedIsInChainIff(ws, steps, moves, at, k, b);
      assert !InChain(chain, b.height, b.hash) ==> !Untouched(moves, at[m], at[k], b.height);
    }
    assert FoundInChain(ws, steps, moves, at, k, b);
  }

  // ---- a reorg no template showed --------------------------------------

  const OURS: Block := Block("a", 1, Pending, 0, 5000, 0, 1.0, false)
  const SHARE: ShareRow := ShareRow(1, 7, 1.0)

  /** Our block is reorganised out by a branch of a hundred. */
  const REORGED: seq<Move> := [Extend("g"), Extend("a"), Reorg(1, seq(100, _ => "b"))]

  /** A PPLNS pass at height 100 that judges by the tips. */
  const STALE_PASS: Pass :=
    Pass(100, true, 0, [], _ => Transient, Writes(_ => true, true, true), [], true, [0], _ => true)

  /** A share finds the block, the template above it is seen, and only then is it reorganised out. */
  const STALE: seq<Step> := [Shared(SHARE, Some("a")), Found(OURS), Seen(Tip(2, "a")), Reconciled(STALE_PASS)]
  const STALE_AT: seq<nat> := [2, 2, 2, 3]

  function StaleStore(b: Block): Store {
    Store([b], [Tip(2, "a")], [SHARE], map["a" := 1], [])
  }

  function Mature(): Block {
    OURS.(status := Confirmed, confirmations := 100)
  }

  lemma StaleStatus()
    ensures AfterStatus([OURS], [Tip(2, "a")], 0, 100, [], STALE_PASS.answers, STALE_PASS.writes) == ([Mature()], 0)
  {
    assert Observed([Tip(2, "a")], 2) == Some("a");
    assert TemplatesStored([OURS], [Tip(2, "a")], 100, true, true) == [Mature()];
  }

  lemma StalePayment()
    ensures var s := StaleStore(Mature());
      && IsDueList(s, [0])
      && PassPayments(s, [0], 0, STALE_PASS.lands, 1) == [PaymentFor(s, 0, 0)]
      && PaymentFor(s, 0, 0).row == Mature() && PaymentFor(s, 0, 0).total == 5000
  {
    var s := StaleStore(Mature());
    assert s.shares[..0] == [];
    assert AnchoredRows(s, "a") == s.shares;
    WF.OneWorkerTakesAll(5000, SHARE, 1.0);
    assert SatsOf(CreditsFor(s, 0, 0)) == [5000];
    SumIntShort(5000);
    hide CreditsFor, AddCredits, SatsOf;
    PassStart(s, [0], 0, STALE_PASS.lands);
    PassStep(s, [0], 0, STALE_PASS.lands, 0);
  }

  lemma StalePass()
    ensures var w := World(StaleStore(OURS), 0, L.START, []);
      && IsPass(w.store, 0, w.queue, STALE_PASS)
      && AfterPass(w, STALE_PASS).payments == [PaymentFor(StaleStore(Mature()), 0, 0)]
  {
    StaleStatus();
    StalePayment();
    hide AfterStatus, PaymentFor, DistributePass, PassPayments, IsDueList;
    assert L.StagedHashes(L.START.t) == {};
    var w := World(StaleStore(OURS), 0, L.START, []);
    assert w.store.(blocks := [Mature()]) == StaleStore(Mature());
  }

  lemma ReorgedChain()
    ensures Chain(REORGED[..2]) == ["g", "a"] && Chain(REORGED[..3]) == ["g"] + seq(100, _ => "b")
  {
    ChainStep(REORGED, 1);
    ChainStep(REORGED, 2);
    ChainStep(REORGED, 3);
  }

  /** A run that pays a block no longer in the chain: no template at its height + 1 came after the reorg. */
  lemma ReorgedBlockIsPaid() returns (ws: seq<World>)
    ensures IsTrueRun(ws, STALE, REORGED, STALE_AT)
    ensures |ws[4].payments| == 1 && ws[4].payments[0].row.hash == "a" && ws[4].payments[0].total == 5000
    ensures !InChain(Chain(REORGED[..STALE_AT[3]]), 1, "a")
  {
    StalePass();
    StalePayment();
    ReorgedChain();
    hide IsPass, AfterPass, Chain, PaymentFor, IsDueList, PassPayments;
    var w1 := World(Store([], [], [SHARE], map["a" := 1], []), 0, L.START, []);
    var w2 := World(Store([OURS], [], [SHARE], map["a" := 1], []), 0, L.START, []);
    var w3 := World(StaleStore(OURS), 0, L.START, []);
    ws := [Settlement.START, w1, w2, w3, AfterPass(w3, STALE_PASS)];
    assert Next(ws[0], STALE[0]) == w1;
    assert Next(ws[1], STALE[1]) == w2;
    assert Next(ws[2], STALE[2]) == w3;
  }
}
