/**
 The composition main.c performs for a coinbase-direct window (split, order,
 permute) followed by the resolver that turns the payees into outputs.
 */
module PayoutPipeline {
  import opened Options
  import opened Sums
  import opened Pplns
  import opened WindowPayout
  import L = FractionLedger

  /** `payees` in the given order. */
  function InOrder(payees: seq<Payee>, order: seq<nat>): (r: seq<Payee>)
    requires Indices(order, |payees|)
    ensures |r| == |order|
    ensures forall i :: 0 <= i < |r| ==> r[i] == payees[order[i]]
  {
    seq(|order|, i requires 0 <= i < |order| => payees[order[i]])
  }

  /** Permuting payees changes neither their total nor how many fall below the floor. */
  lemma PermutedTotals(payees: seq<Payee>, order: seq<nat>, floor: int)
    requires IsPerm(order, |payees|)
    ensures SumInt(SatsOf(InOrder(payees, order))) == SumInt(SatsOf(payees))
    ensures SumInt(BelowMarks(SatsOf(InOrder(payees, order)), floor)) == SumInt(BelowMarks(SatsOf(payees), floor))
  {
    var s := SatsOf(payees);
    SumPermuted(s, order);
    SumPermuted(BelowMarks(s, floor), order);
    hide SumInt;
    assert SatsOf(InOrder(payees, order)) == Permuted(s, order);
    assert BelowMarks(SatsOf(InOrder(payees, order)), floor) == Permuted(BelowMarks(s, floor), order);
  }

  /** The window of a job: what each claim is worth, and the order they are paid in. */
  datatype Window = Window(reward: int, feeBps: int, operator: string, claims: seq<Claim>, total: real,
                           floorSats: int, expected: nat)
  {
    function Fee(): int { FeeOf(reward, feeBps, operator != "") }

    function Payable(): int { reward - Fee() }

    function Floor(): int { FloorOf(floorSats) }

    ghost predicate Accepted() {
      && total > 0.0 && claims != []
      && SplitAccepts(reward, feeBps, operator != "", claims, MAX_PAYOUT_OUTPUTS, total)
    }

    function ByClaim(): seq<Payee>
      requires total > 0.0 && claims != []
    {
      SplitPayees(Payable(), claims, total)
    }

    function Order(): seq<nat>
      requires total > 0.0 && claims != []
    {
      PaymentOrder(claims, expected, SatsOf(ByClaim()), Floor())
    }

    /** How many claims the splitter predicts the floor will drop. */
    function PredictedBelow(): int
      requires total > 0.0 && claims != []
    {
      SumInt(BelowMarks(SatsOf(ByClaim()), Floor()))
    }

    lemma OrderIsPerm()
      requires total > 0.0 && claims != []
      ensures IsPerm(Order(), |claims|) && Indices(Order(), |claims|) && |Order()| == |claims|
    {
      OrderIsPermutation(claims, expected, SatsOf(ByClaim()), Floor());
    }

    ghost function Payees(): seq<Payee>
      requires total > 0.0 && claims != []
    {
      OrderIsPerm();
      InOrder(ByClaim(), Order())
    }

    ghost function WorkerIds(): (ids: seq<int>)
      requires total > 0.0 && claims != []
    {
      OrderIsPerm();
      seq(|claims|, i requires 0 <= i < |claims| => claims[Order()[i]].workerId)
    }
  }

  /** Each claim's payee with its worker, in the order of the claims. */
  function PairsByClaim(w: Window): seq<(Payee, int)>
    requires w.total > 0.0 && w.claims != []
  {
    seq(|w.claims|, j requires 0 <= j < |w.claims| => (w.ByClaim()[j], w.claims[j].workerId))
  }

  function Paired(payees: seq<Payee>, ids: seq<int>): (r: seq<(Payee, int)>)
    requires |payees| == |ids|
    ensures |r| == |ids|
    ensures forall i :: 0 <= i < |r| ==> r[i] == (payees[i], ids[i])
  {
    seq(|ids|, i requires 0 <= i < |ids| => (payees[i], ids[i]))
  }

  /** Payees and workers stand in one fair order of the claims. */
  ghost predicate StandInOrder(w: Window, payees: seq<Payee>, ids: seq<int>, order: seq<nat>)
    requires w.total > 0.0 && w.claims != []
  {
    && IsFairOrder(w.claims, w.expected, SatsOf(w.ByClaim()), w.Floor(), order)
    && |payees| == |ids| == |order|
    && forall i :: 0 <= i < |order| ==> payees[i] == w.ByClaim()[order[i]] && ids[i] == w.claims[order[i]].workerId
  }

  lemma PairsArePermuted(w: Window, payees: seq<Payee>, ids: seq<int>, order: seq<nat>)
    requires w.total > 0.0 && w.claims != [] && IsPerm(order, |w.claims|) && |payees| == |ids| == |w.claims|
    requires forall i :: 0 <= i < |ids| ==> payees[i] == w.ByClaim()[order[i]] && ids[i] == w.claims[order[i]].workerId
    ensures multiset(Paired(payees, ids)) == multiset(PairsByClaim(w))
  {
    hide SplitPayees;
    PermutedMultiset(PairsByClaim(w), Paired(payees, ids), order);
  }

  /**
   Attach a window to a job. A window nobody clears the floor of is held back, so
   that the refusal is not repeated per connection.
   */
  method AttachWindow(w: Window) returns (r: Outcome<(seq<Payee>, seq<int>)>)
    ensures r.Done? <==> w.Accepted() && w.PredictedBelow() < |w.claims|
    ensures r.Done? ==> r.value == (w.Payees(), w.WorkerIds())
    ensures r.Done? ==>
      var (payees, ids) := r.value;
      && |payees| == |ids| == |w.claims|
      && multiset(Paired(payees, ids)) == multiset(PairsByClaim(w))
      && exists order: seq<nat> :: StandInOrder(w, payees, ids, order)
    ensures |w.claims| > 200 ==> r.Refused?
  {
    hide FeeOf, FloorOf, SumInt, BelowMarks, SplitPayees, PaymentOrder, IsPerm, IsPromoted;
    var sp := SplitWindow(w.reward, w.feeBps, w.operator != "", w.claims, w.total, w.floorSats, MAX_PAYOUT_OUTPUTS);
    if sp.Refused? { return Refused(sp.why); }
    assert sp.value.payees == w.ByClaim();
    if sp.value.belowFloor >= |w.claims| { return Refused(NobodyToPay); }
    var o := OrderClaims(w.claims, w.expected, SatsOf(sp.value.payees), w.floorSats);
    w.OrderIsPerm();
    var order, byClaim := o.value, sp.value.payees;
    assert order == w.Order();
    var payees, ids := [], [];
    for i := 0 to |w.claims|
      invariant |payees| == |ids| == i
      invariant forall k :: 0 <= k < i ==> payees[k] == byClaim[order[k]] && ids[k] == w.claims[order[k]].workerId
    {
      payees := payees + [byClaim[order[i]]];
      ids := ids + [w.claims[order[i]].workerId];
    }
    assert payees == w.Payees() && ids == w.WorkerIds();
    PairsArePermuted(w, payees, ids, order);
    assert StandInOrder(w, payees, ids, order);
    r := Done((payees, ids));
  }

  /**
   Every window the splitter accepts passes the resolver's sum check: both take the
   same fee under the same dust rule, and the permutation changes no total. The
   splitter's prediction of the floor's victims is the resolver's count.
   */
  lemma WindowAddsUp(w: Window)
    requires w.Accepted()
    ensures SumInt(SatsOf(w.Payees())) == w.reward - FeeOf(w.reward, w.feeBps, w.operator != "")
    ensures forall i :: 0 <= i < |w.Payees()| ==> w.Payees()[i].sats >= 0
    ensures SumInt(BelowMarks(SatsOf(w.Payees()), w.Floor())) == w.PredictedBelow()
    ensures |w.Payees()| == |w.claims|
  {
    hide SumInt, SplitPayees, BelowMarks, PaymentOrder, FeeOf, FloorOf, SplitAccepts, IsPerm;
    w.OrderIsPerm();
    assert SumInt(SatsOf(w.ByClaim())) == w.Payable()
        && forall i :: 0 <= i < |w.claims| ==> w.ByClaim()[i].sats >= 0 by {
      SplitIsExact(w.reward, w.feeBps, w.operator != "", w.claims, MAX_PAYOUT_OUTPUTS, w.total);
    }
    PermutedTotals(w.ByClaim(), w.Order(), w.Floor());
  }

  /** Every claim is payable by address, and so is the operator if it takes a fee. */
  ghost predicate Addressed(w: Window, script: string -> Option<Script>) {
    && (w.Fee() > 0 ==> script(w.operator).Some?)
    && forall i :: 0 <= i < |w.claims| ==> w.claims[i].address != "" && script(w.claims[i].address).Some?
  }

  lemma PayeesAreReadable(w: Window, script: string -> Option<Script>)
    requires w.Accepted() && Addressed(w, script)
    ensures forall i :: 0 <= i < |w.Payees()| ==>
      w.Payees()[i].address != "" && script(w.Payees()[i].address).Some?
  {
    hide SumInt, SplitPayees, PaymentOrder, FeeOf, FloorOf, SplitAccepts, IsPerm;
    w.OrderIsPerm();
    assert forall i :: 0 <= i < |w.claims| ==> w.ByClaim()[i].address == w.claims[i].address by {
      SplitIsExact(w.reward, w.feeBps, w.operator != "", w.claims, MAX_PAYOUT_OUTPUTS, w.total);
    }
    forall i | 0 <= i < |w.Payees()|
      ensures w.Payees()[i].address != "" && script(w.Payees()[i].address).Some?
    {
      assert w.Payees()[i] == w.ByClaim()[w.Order()[i]];
    }
  }

  lemma SomebodyFitsInAnyOrder(payees: seq<Payee>, order: seq<nat>, floor: int, budget: nat,
                               script: string -> Option<Script>)
    requires IsPerm(order, |payees|)
    ensures (exists j :: 0 <= j < |order| && FitsAlone(InOrder(payees, order)[j], floor, budget, script))
      <==> (exists i :: 0 <= i < |payees| && FitsAlone(payees[i], floor, budget, script))
  {
    hide FitsAlone;
    if i :| 0 <= i < |payees| && FitsAlone(payees[i], floor, budget, script) {
      assert i in order;
      var j :| 0 <= j < |order| && order[j] == i;
      assert FitsAlone(InOrder(payees, order)[j], floor, budget, script);
    }
    if j :| 0 <= j < |order| && FitsAlone(InOrder(payees, order)[j], floor, budget, script) {
      assert FitsAlone(payees[order[j]], floor, budget, script);
    }
  }

  /**
   From accepted window to coinbase, end to end: with readable addresses the block
   is paid exactly when some claim above the floor fits the byte budget alone.
   */
  lemma WindowIsPaidIff(w: Window, budget: nat, script: string -> Option<Script>)
    requires w.Accepted() && Addressed(w, script)
    ensures ResolveAccepts(w.reward, w.Payees(), w.operator, w.feeBps, budget, w.Floor(), REPL_CAP, script)
      <==> exists i :: 0 <= i < |w.claims| && FitsAlone(w.ByClaim()[i], w.Floor(), budget, script)
  {
    assert w.reward > 0;
    hide SumInt, SplitPayees, BelowMarks, PaymentOrder, FeeOf, FloorOf, FitsAlone, SplitAccepts, IsPerm, InOrder;
    hide ResolveAccepts;
    WindowAddsUp(w);
    w.OrderIsPerm();
    PayeesAreReadable(w, script);
    ResolverPaysIff(w.reward, w.Payees(), w.operator, w.feeBps, budget, w.Floor(), REPL_CAP, script);
    SomebodyFitsInAnyOrder(w.ByClaim(), w.Order(), w.Floor(), budget, script);
  }

  /** The block pays out to the satoshi, the operator gets its fee and nothing else, no survivor loses. */
  lemma BlockIsConserved(w: Window, budget: nat, script: string -> Option<Script>, r: WindowResult)
    requires w.Accepted()
    requires IsPayout(r, w.reward, w.Payees(), w.operator, w.feeBps, budget, w.Floor(), REPL_CAP, script)
    ensures SumInt(OutSats(r.outs)) == w.reward
    ensures SumInt(OutSats(r.outs[r.paidCount..])) == w.Fee()
    ensures SumInt(OutSats(r.outs[..r.paidCount])) == w.Payable()
    ensures r.droppedBelow == w.PredictedBelow()
  {
    hide SumInt, SplitPayees, PaymentOrder, BelowMarks, SplitAccepts, FeeOf, FloorOf, Select, PaysMiners, IsScaled;
    WindowAddsUp(w);
    var tail := r.outs[r.paidCount..];
    if w.Fee() > 0 {
      assert tail == [ReplOut(script(w.operator).value, w.Fee())];
      assert OutSats(tail) == [w.Fee()];
    } else {
      assert OutSats(tail) == [];
    }
    SumIntShort(w.Fee());
  }

  /**
   When a slot is reserved, the longest-waiting claim above the floor is paid if its
   output alone fits: the promotion survives the byte budget.
   */
  lemma LongestWaitingIsPaid(w: Window, budget: nat, script: string -> Option<Script>, x: nat)
    requires w.Accepted() && ReservedSlots(w.expected, |w.claims|) > 0
    requires Eligible(w.claims, SatsOf(w.ByClaim()), w.Floor(), x)
    requires forall y: nat :: Eligible(w.claims, SatsOf(w.ByClaim()), w.Floor(), y) && y != x ==>
      Before(OwedOf(w.claims), x, y)
    requires FitsAlone(w.ByClaim()[x], w.Floor(), budget, script)
    ensures w.Order()[0] == x
    ensures var p := Select(w.Payees(), w.Floor(), REPL_CAP, budget, script, |w.Payees()|);
      p.Some? ==> p.value.paid != [] && p.value.paid[0] == 0
  {
    LongestWaitingIsFirst(w.claims, w.expected, SatsOf(w.ByClaim()), w.Floor(), x);
    w.OrderIsPerm();
    assert w.Order()[..1][0] == x;
    FirstIsPaid(w.Payees(), w.Floor(), REPL_CAP, budget, script, |w.Payees()|);
  }

  /** One block, from window to outputs. */
  method PayWindow(w: Window, maxBytes: nat, fixedBytes: nat, script: string -> Option<Script>)
    returns (attached: bool, r: Outcome<WindowResult>)
    ensures attached <==> w.Accepted() && w.PredictedBelow() < |w.claims|
    ensures attached && r.Refused? ==> r.why != SumMismatch
    ensures attached && r.Done? ==>
      && IsPayout(r.value, w.reward, w.Payees(), w.operator, w.feeBps, BudgetOf(maxBytes, fixedBytes), w.Floor(),
                  REPL_CAP, script)
      && SumInt(OutSats(r.value.outs)) == w.reward
      && SumInt(OutSats(r.value.outs[r.value.paidCount..])) == w.Fee()
      && r.value.droppedBelow == w.PredictedBelow()
    ensures attached && Addressed(w, script) ==>
      (r.Done? <==>
        exists i :: 0 <= i < |w.claims| && FitsAlone(w.ByClaim()[i], w.Floor(), BudgetOf(maxBytes, fixedBytes), script))
  {
    hide FeeOf, FloorOf, BudgetOf, SumInt, BelowMarks, SplitPayees, PaymentOrder;
    hide IsPayout, ResolveAccepts, FitsAlone, SplitAccepts;
    var a := AttachWindow(w);
    if a.Refused? { return false, Refused(a.why); }
    attached := true;
    WindowAddsUp(w);
    ghost var budget := BudgetOf(maxBytes, fixedBytes);
    r := ResolveWindow(w.reward, a.value.0, w.operator, w.feeBps, maxBytes, fixedBytes, w.floorSats, REPL_CAP, script);
    if r.Done? { BlockIsConserved(w, budget, script, r.value); }
    if Addressed(w, script) { WindowIsPaidIff(w, budget, script); }
  }

  // ---- what the block leaves in the payout queue ------------------------

  /** Somebody was paid, so the survivors' own claims are worth something. */
  lemma PaidClaimsArePositive(sats: seq<int>, marks: seq<bool>, i: nat)
    requires |sats| == |marks| && i < |sats| && marks[i] && sats[i] > 0
    requires forall k :: 0 <= k < |sats| ==> sats[k] >= 0
    ensures SumInt(sats) > 0 && SumInt(L.OwnOf(sats, marks)) > 0
  {
    SumIntBounds(sats, i);
    SumIntBounds(L.OwnOf(sats, marks), i);
  }

  lemma PayoutMarks(w: Window, budget: nat, script: string -> Option<Script>, r: WindowResult) returns (i: nat)
    requires w.Accepted()
    requires IsPayout(r, w.reward, w.Payees(), w.operator, w.feeBps, budget, w.Floor(), REPL_CAP, script)
    ensures |r.paidPayee| == |w.Payees()| == |w.claims| && i < |w.claims|
    ensures r.paidPayee[i] && w.Payees()[i].sats > 0
  {
    WindowAddsUp(w);
    assert |w.claims| <= MAX_PAYOUT_OUTPUTS;
    hide SumInt, SplitPayees, PaymentOrder, BelowMarks, SplitAccepts, FeeOf, Select, PaysMiners, IsScaled, BytesOf;
    var p := Select(w.Payees(), w.Floor(), REPL_CAP, budget, script, |w.Payees()|).value;
    SelectFits(w.Payees(), w.Floor(), REPL_CAP, budget, script, |w.Payees()|);
    i := p.paid[0];
    assert p.paid[0] in p.paid;
  }

  /**
   The deltas a paid block leaves behind always pass the staging check: with every
   worker known, no block that paid its window is refused by the payout queue.
   */
  lemma BlockDeltasAreStaged(w: Window, budget: nat, script: string -> Option<Script>, r: WindowResult)
    requires w.Accepted()
    requires IsPayout(r, w.reward, w.Payees(), w.operator, w.feeBps, budget, w.Floor(), REPL_CAP, script)
    requires forall i :: 0 <= i < |w.claims| ==> w.claims[i].workerId > 0
    ensures var sats := SatsOf(w.Payees());
      && |sats| == |r.paidPayee| == |w.WorkerIds()| <= L.MAX_PAYEES
      && SumInt(sats) > 0 && SumInt(L.OwnOf(sats, r.paidPayee)) > 0
      && SumReal(L.Deltas(sats, r.paidPayee)) == 0.0
      && L.StageAccepts(L.Kept(w.WorkerIds(), L.Deltas(sats, r.paidPayee)))
  {
    hide SumInt, SumReal, SplitPayees, PaymentOrder, BelowMarks, FeeOf, FloorOf, IsPayout;
    hide L.Deltas, L.Kept, L.StageAccepts;
    var i := PayoutMarks(w, budget, script, r);
    WindowAddsUp(w);
    w.OrderIsPerm();
    var sats := SatsOf(w.Payees());
    PaidClaimsArePositive(sats, r.paidPayee, i);
    L.DeltasCancel(sats, r.paidPayee);
    L.FilteredSetBalances(sats, r.paidPayee, w.WorkerIds());
  }
}
