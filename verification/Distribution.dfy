/**
 PPLNS distribution of matured blocks (store_pplns_distribute in src/store.c): the
 window anchored on the block's own share, credits by truncated share, one
 transaction and one latch per block.
 */
module Distribution {
  import opened Sums
  import opened WindowWalk
  import opened BlockStatus
  import Pplns

  const MATURITY: int := 100
  const DUST_SATS: int := Pplns.DUST_SATS

  /** The shares at or before a block's own share. */
  ghost predicate IsAnchored(t: seq<ShareRow>, anchor: int, rows: seq<ShareRow>) {
    rows <= t && (forall i :: 0 <= i < |t| ==> (t[i].id <= anchor <==> i < |rows|))
  }

  /** The difficulty one worker brought to the window. */
  datatype Work = Work(workerId: int, difficulty: real)

  function DiffsOf(ws: seq<Work>): (r: seq<real>)
    ensures |r| == |ws|
    ensures forall i :: 0 <= i < |r| ==> r[i] == ws[i].difficulty
  {
    seq(|ws|, i requires 0 <= i < |ws| => ws[i].difficulty)
  }

  /** GROUP BY worker_id, one row at a time. */
  function AddWork(ws: seq<Work>, workerId: int, d: real): seq<Work> {
    if ws == [] then [Work(workerId, d)]
    else if ws[0].workerId == workerId then [Work(workerId, ws[0].difficulty + d)] + ws[1..]
    else [ws[0]] + AddWork(ws[1..], workerId, d)
  }

  /** The window's work per worker: rows inside the window, from row `i` to the newest. */
  function GroupFrom(t: seq<ShareRow>, window: real, i: nat): seq<Work>
    decreases |t| - i
  {
    if i >= |t| then []
    else
      var rest := GroupFrom(t, window, i + 1);
      if InWindow(t, window, i) then AddWork(rest, t[i].workerId, t[i].difficulty) else rest
  }

  /** The total the window divides by. */
  function WindowTotal(t: seq<ShareRow>, window: real, i: nat): real
    decreases |t| - i
  {
    if i >= |t| then 0.0
    else (if InWindow(t, window, i) then t[i].difficulty else 0.0) + WindowTotal(t, window, i + 1)
  }

  lemma WorkCons(w: Work, ws: seq<Work>)
    ensures SumReal(DiffsOf([w] + ws)) == w.difficulty + SumReal(DiffsOf(ws))
  {
    assert DiffsOf([w] + ws) == [w.difficulty] + DiffsOf(ws);
    SumRealCons(w.difficulty, DiffsOf(ws));
  }

  lemma {:induction false} AddWorkSum(ws: seq<Work>, workerId: int, d: real)
    ensures SumReal(DiffsOf(AddWork(ws, workerId, d))) == SumReal(DiffsOf(ws)) + d
  {
    assert SumReal(DiffsOf([])) == 0.0 by { assert DiffsOf([]) == []; }
    hide SumReal, DiffsOf;
    if ws == [] {
      WorkCons(Work(workerId, d), []);
      assert [Work(workerId, d)] + [] == [Work(workerId, d)];
    } else {
      assert ws == [ws[0]] + ws[1..];
      WorkCons(ws[0], ws[1..]);
      if ws[0].workerId == workerId {
        WorkCons(Work(workerId, ws[0].difficulty + d), ws[1..]);
      } else {
        AddWorkSum(ws[1..], workerId, d);
        WorkCons(ws[0], AddWork(ws[1..], workerId, d));
      }
    }
  }

  /** Grouping loses nothing: the workers' totals sum to the window's. */
  lemma {:induction false} GroupSum(t: seq<ShareRow>, window: real, i: nat)
    ensures SumReal(DiffsOf(GroupFrom(t, window, i))) == WindowTotal(t, window, i)
    decreases |t| - i
  {
    hide InWindow;
    if i < |t| {
      GroupSum(t, window, i + 1);
      AddWorkSum(GroupFrom(t, window, i + 1), t[i].workerId, t[i].difficulty);
      hide SumReal, AddWork;
    } else {
      assert DiffsOf(GroupFrom(t, window, i)) == [];
    }
  }

  // ---- what a block credits -------------------------------------------

  /** Net of the operator fee, under the coinbase's own dust rule. */
  function PayableOf(gross: int, feeBps: int): int {
    if 0 < feeBps <= 10000 && (gross * feeBps) / 10000 >= DUST_SATS then gross - (gross * feeBps) / 10000 else gross
  }

  /** The fee is the rate in whole basis points, rounded down, and dropped below 546 sats. */
  lemma PayableIs(gross: int, feeBps: int, fee: int)
    requires 10000 * fee <= gross * feeBps < 10000 * (fee + 1)
    ensures PayableOf(gross, feeBps) == if 0 < feeBps <= 10000 && fee >= 546 then gross - fee else gross
  {
    assert (gross * feeBps) / 10000 == fee;
  }

  /** The fee taken out of a block at distribution. */
  function CutOf(gross: int, feeBps: int): int {
    gross - PayableOf(gross, feeBps)
  }

  function GrossOf(b: Block): int {
    b.reward + b.fee
  }

  /** The credits of one block, by worker. */
  datatype Credit = Credit(workerId: int, sats: int)

  function SatsOf(cs: seq<Credit>): (r: seq<int>)
    ensures |r| == |cs|
    ensures forall i :: 0 <= i < |r| ==> r[i] == cs[i].sats
  {
    seq(|cs|, i requires 0 <= i < |cs| => cs[i].sats)
  }

  /** Truncating division; a worker whose share truncates to nothing is not credited. */
  function CreditsOf(payable: int, ws: seq<Work>, total: real): (r: seq<Credit>)
    ensures |r| <= |ws|
  {
    if ws == [] || !(total > 0.0) then []
    else
      var n := |ws| - 1;
      var amt := Share(payable, ws[n].difficulty, total);
      CreditsOf(payable, ws[..n], total) +
        if ws[n].difficulty > 0.0 && amt > 0 then [Credit(ws[n].workerId, amt)] else []
  }

  lemma CreditsStep(payable: int, ws: seq<Work>, total: real)
    requires total > 0.0 && ws != []
    ensures var n := |ws| - 1;
      var amt := Share(payable, ws[n].difficulty, total);
      var before := CreditsOf(payable, ws[..n], total);
      && SumInt(Shares(payable, DiffsOf(ws), total)) == SumInt(Shares(payable, DiffsOf(ws[..n]), total)) + amt
      && CreditsOf(payable, ws, total) ==
           (if ws[n].difficulty > 0.0 && amt > 0 then before + [Credit(ws[n].workerId, amt)] else before)
      && SumInt(SatsOf(before + [Credit(ws[n].workerId, amt)])) == SumInt(SatsOf(before)) + amt
  {
    hide Share;
    var n := |ws| - 1;
    var amt := Share(payable, ws[n].difficulty, total);
    var before := CreditsOf(payable, ws[..n], total);
    assert Shares(payable, DiffsOf(ws), total)[..n] == Shares(payable, DiffsOf(ws[..n]), total);
    assert SatsOf(before + [Credit(ws[n].workerId, amt)]) == SatsOf(before) + [amt];
    SumIntAppend(SatsOf(before), amt);
  }

  lemma NoWorkNoShare(payable: int, total: real)
    requires total > 0.0
    ensures Share(payable, 0.0, total) == 0
  {
    ZeroPart(payable as real, total);
  }

  /** Leaving out the workers whose share truncates to nothing loses nothing. */
  lemma {:induction false} CreditsBound(payable: int, ws: seq<Work>, total: real)
    requires total > 0.0 && payable >= 0 && forall i :: 0 <= i < |ws| ==> ws[i].difficulty >= 0.0
    ensures 0 <= SumInt(SatsOf(CreditsOf(payable, ws, total))) == SumInt(Shares(payable, DiffsOf(ws), total))
    ensures forall i :: 0 <= i < |CreditsOf(payable, ws, total)| ==> CreditsOf(payable, ws, total)[i].sats > 0
  {
    if ws == [] {
      assert SatsOf(CreditsOf(payable, ws, total)) == [];
      assert Shares(payable, DiffsOf(ws), total) == [];
    } else {
      hide Share, Shares, SumInt, CreditsOf, SatsOf, DiffsOf;
      var n := |ws| - 1;
      CreditsBound(payable, ws[..n], total);
      ShareIsNonNegative(payable, ws[n].difficulty, total);
      NoWorkNoShare(payable, total);
      CreditsStep(payable, ws, total);
    }
  }

  lemma {:induction false} AddWorkNonNegative(ws: seq<Work>, workerId: int, d: real)
    requires d >= 0.0 && forall i :: 0 <= i < |ws| ==> ws[i].difficulty >= 0.0
    ensures forall i :: 0 <= i < |AddWork(ws, workerId, d)| ==> AddWork(ws, workerId, d)[i].difficulty >= 0.0
  {
    if ws != [] && ws[0].workerId != workerId { AddWorkNonNegative(ws[1..], workerId, d); }
  }

  lemma {:induction false} GroupNonNegative(t: seq<ShareRow>, window: real, i: nat)
    requires IsTable(t)
    ensures forall k :: 0 <= k < |GroupFrom(t, window, i)| ==> GroupFrom(t, window, i)[k].difficulty >= 0.0
    decreases |t| - i
  {
    hide InWindow, AddWork;
    if i < |t| {
      GroupNonNegative(t, window, i + 1);
      AddWorkNonNegative(GroupFrom(t, window, i + 1), t[i].workerId, t[i].difficulty);
    }
  }

  /** The credits of a block whose anchored shares are `rows`. */
  function BlockCredits(payable: int, rows: seq<ShareRow>, window: real): seq<Credit> {
    CreditsOf(payable, GroupFrom(rows, window, 0), WindowTotal(rows, window, 0))
  }

  /** A block never credits more than is payable from it, and less only by truncation, under a sat per worker. */
  lemma CreditsAreSolvent(payable: int, rows: seq<ShareRow>, window: real)
    requires IsTable(rows) && payable >= 0
    ensures 0 <= SumInt(SatsOf(BlockCredits(payable, rows, window))) <= payable
    ensures WindowTotal(rows, window, 0) > 0.0 ==>
      payable - SumInt(SatsOf(BlockCredits(payable, rows, window))) < |GroupFrom(rows, window, 0)|
    ensures var cs := BlockCredits(payable, rows, window); forall i :: 0 <= i < |cs| ==> cs[i].sats > 0
  {
    var ws, total := GroupFrom(rows, window, 0), WindowTotal(rows, window, 0);
    if total > 0.0 {
      GroupSum(rows, window, 0);
      GroupNonNegative(rows, window, 0);
      CreditsBound(payable, ws, total);
      SharesOfWhole(payable, DiffsOf(ws), total);
    } else {
      assert SatsOf(BlockCredits(payable, rows, window)) == [];
    }
  }
}
