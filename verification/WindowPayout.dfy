/**
 Turning a PPLNS window into coinbase outputs (resolve_window_outputs in
 src/coinbase.c): fee off the top, greedy payment in the caller's order under a
 dust floor and a byte budget, and redistribution of what could not be paid.
 */
module WindowPayout {
  import opened Options
  import opened Sums
  import opened Bytes
  import opened Pplns

  const DEFAULT_MAX_BYTES: nat := 1000
  const MAX_PAYOUT_OUTPUTS: nat := 200

  /** Room for every payee and the operator. */
  const REPL_CAP: nat := MAX_PAYOUT_OUTPUTS + 1

  type Script = seq<Byte>

  datatype ReplOut = ReplOut(spk: Script, sats: int)

  datatype WindowResult = WindowResult(
    outs: seq<ReplOut>, paidPayee: seq<bool>, paidCount: nat, paidSats: int,
    droppedBelow: int, droppedCapped: int, redistributed: int, fee: int)

  /** Serialized size of one output: value, length prefix, script. */
  function OutSize(spkLen: nat): (r: nat)
    ensures r >= 9
  {
    8 + (if spkLen < 253 then 1 else if spkLen <= 0xffff then 3 else 5) + spkLen
  }

  function BudgetOf(maxBytes: nat, fixedBytes: nat): (r: nat)
    ensures r > 0 ==> r + fixedBytes == if maxBytes == 0 then 1000 else maxBytes
    ensures r == 0 ==> fixedBytes >= if maxBytes == 0 then 1000 else maxBytes
  {
    var m := if maxBytes == 0 then DEFAULT_MAX_BYTES else maxBytes;
    if m > fixedBytes then m - fixedBytes else 0
  }

  // ---- who is paid ----------------------------------------------------

  /** The greedy pass so far: indices paid, bytes spent, and what was dropped. */
  datatype Picked = Picked(paid: seq<nat>, bytes: nat, below: int, capped: int, dropped: int)

  function Select(payees: seq<Payee>, floor: int, cap: nat, budget: nat,
                  script: string -> Option<Script>, k: nat): Option<Picked>
    requires k <= |payees|
  {
    if k == 0 then Some(Picked([], 0, 0, 0, 0))
    else
      match Select(payees, floor, cap, budget, script, k - 1)
      case None => None
      case Some(p) => SelectOne(payees[k - 1], floor, cap, budget, script, k - 1, p)
  }

  function SelectOne(pe: Payee, floor: int, cap: nat, budget: nat,
                     script: string -> Option<Script>, k: nat, p: Picked): Option<Picked>
  {
    if pe.sats < floor then Some(p.(below := p.below + 1, dropped := p.dropped + pe.sats))
    else if |p.paid| + 1 >= cap then Some(p.(capped := p.capped + 1, dropped := p.dropped + pe.sats))
    else
      match script(pe.address)
      case None => None
      case Some(spk) =>
        if p.bytes + OutSize(|spk|) > budget then
          Some(p.(capped := p.capped + 1, dropped := p.dropped + pe.sats))
        else Some(p.(paid := p.paid + [k], bytes := p.bytes + OutSize(|spk|)))
  }

  /** The claims of the payees at the given indices. */
  function OwnOf(payees: seq<Payee>, paid: seq<nat>): (r: seq<int>)
    requires Indices(paid, |payees|)
    ensures |r| == |paid|
    ensures forall i :: 0 <= i < |r| ==> r[i] == payees[paid[i]].sats
  {
    seq(|paid|, i requires 0 <= i < |paid| => payees[paid[i]].sats)
  }

  /** The serialized size of the outputs for the given addresses. */
  function BytesOf(outs: seq<ReplOut>): nat {
    if outs == [] then 0 else BytesOf(outs[..|outs| - 1]) + OutSize(|outs[|outs| - 1].spk|)
  }

  ghost predicate Increasing(s: seq<nat>) {
    forall i, j :: 0 <= i < j < |s| ==> s[i] < s[j]
  }

  /** Every paid payee clears the floor and has a script. */
  ghost predicate PaidClear(payees: seq<Payee>, floor: int, script: string -> Option<Script>, paid: seq<nat>)
    requires Indices(paid, |payees|)
  {
    forall i :: 0 <= i < |paid| ==> payees[paid[i]].sats >= floor && script(payees[paid[i]].address).Some?
  }

  /** What the greedy pass over the first `k` payees guarantees. */
  ghost predicate Fits(payees: seq<Payee>, floor: int, cap: nat, budget: nat,
                       script: string -> Option<Script>, k: nat, p: Picked)
    requires k <= |payees|
  {
    && Increasing(p.paid) && Indices(p.paid, k) && p.bytes <= budget
    && (|p.paid| > 0 ==> |p.paid| < cap)
    && Indices(p.paid, |payees|) && PaidClear(payees, floor, script, p.paid)
    && p.dropped + SumInt(OwnOf(payees, p.paid)) == SumInt(SatsOf(payees[..k]))
    && p.below == SumInt(BelowMarks(SatsOf(payees[..k]), floor))
    && p.below + p.capped + |p.paid| == k
  }

  lemma PrefixSums(payees: seq<Payee>, floor: int, k: nat)
    requires k < |payees|
    ensures SumInt(SatsOf(payees[..k + 1])) == SumInt(SatsOf(payees[..k])) + payees[k].sats
    ensures SumInt(BelowMarks(SatsOf(payees[..k + 1]), floor))
         == SumInt(BelowMarks(SatsOf(payees[..k]), floor)) + if payees[k].sats < floor then 1 else 0
  {
    var s := SatsOf(payees[..k]);
    var m := BelowMarks(s, floor);
    assert SatsOf(payees[..k + 1]) == s + [payees[k].sats];
    SumIntAppend(s, payees[k].sats);
    assert BelowMarks(SatsOf(payees[..k + 1]), floor) == m + [if payees[k].sats < floor then 1 else 0];
    SumIntAppend(m, if payees[k].sats < floor then 1 else 0);
  }

  lemma FitsStep(payees: seq<Payee>, floor: int, cap: nat, budget: nat,
                 script: string -> Option<Script>, k: nat, p: Picked)
    requires k < |payees| && Fits(payees, floor, cap, budget, script, k, p)
    ensures var q := SelectOne(payees[k], floor, cap, budget, script, k, p);
      q.Some? ==> Fits(payees, floor, cap, budget, script, k + 1, q.value)
  {
    hide SumInt, SatsOf, BelowMarks, OwnOf, OutSize, Increasing, Indices;
    PrefixSums(payees, floor, k);
    IncreasingAppend(p.paid, k);
    var q := SelectOne(payees[k], floor, cap, budget, script, k, p);
    if q.Some? && |q.value.paid| > |p.paid| {
      OwnAppend(payees, p.paid, k);
      PaidClears(payees, floor, script, p.paid, k);
    }
    hide PaidClear;
  }

  lemma PaidClears(payees: seq<Payee>, floor: int, script: string -> Option<Script>, paid: seq<nat>, k: nat)
    requires k < |payees| && Indices(paid, k) && PaidClear(payees, floor, script, paid)
    requires payees[k].sats >= floor && script(payees[k].address).Some?
    ensures Indices(paid + [k], |payees|) && PaidClear(payees, floor, script, paid + [k])
  {
  }

  lemma IncreasingAppend(paid: seq<nat>, k: nat)
    requires Increasing(paid) && Indices(paid, k)
    ensures Increasing(paid + [k]) && Indices(paid, k + 1) && Indices(paid + [k], k + 1)
    ensures forall n :: n > k ==> Indices(paid, n) && Indices(paid + [k], n)
  {
  }

  lemma OwnAppend(payees: seq<Payee>, paid: seq<nat>, k: nat)
    requires Indices(paid, k) && k < |payees|
    ensures SumInt(OwnOf(payees, paid + [k])) == SumInt(OwnOf(payees, paid)) + payees[k].sats
  {
    var own := OwnOf(payees, paid);
    SumIntAppend(own, payees[k].sats);
    assert OwnOf(payees, paid + [k]) == own + [payees[k].sats];
  }

  lemma {:induction false} SelectFits(payees: seq<Payee>, floor: int, cap: nat, budget: nat,
                                      script: string -> Option<Script>, k: nat)
    requires k <= |payees|
    ensures var p := Select(payees, floor, cap, budget, script, k);
      p.Some? ==> Fits(payees, floor, cap, budget, script, k, p.value)
  {
    if k > 0 {
      SelectFits(payees, floor, cap, budget, script, k - 1);
      var p := Select(payees, floor, cap, budget, script, k - 1);
      if p.Some? { FitsStep(payees, floor, cap, budget, script, k - 1, p.value); }
    }
  }

  /** Above the floor, and its output alone fits the budget. */
  ghost predicate FitsAlone(pe: Payee, floor: int, budget: nat, script: string -> Option<Script>) {
    && pe.sats >= floor
    && script(pe.address).Some? && OutSize(|script(pe.address).value|) <= budget
  }

  /** Somebody is paid exactly when some payee above the floor fits the budget alone. */
  lemma {:induction false} SomebodyIsPaid(payees: seq<Payee>, floor: int, cap: nat, budget: nat,
                                          script: string -> Option<Script>, k: nat)
    requires k <= |payees| && cap >= 2
    requires forall i :: 0 <= i < k && payees[i].sats >= floor ==> script(payees[i].address).Some?
    ensures Select(payees, floor, cap, budget, script, k).Some?
    ensures var p := Select(payees, floor, cap, budget, script, k).value;
      && (p.paid == [] ==> p.bytes == 0)
      && (p.paid != [] <==> exists i :: 0 <= i < k && FitsAlone(payees[i], floor, budget, script))
  {
    if k > 0 {
      SomebodyIsPaid(payees, floor, cap, budget, script, k - 1);
      SelectFits(payees, floor, cap, budget, script, k - 1);
    }
  }

  /** Later payees never unseat an earlier one, so a first payee that fits is paid. */
  lemma {:induction false} FirstIsPaid(payees: seq<Payee>, floor: int, cap: nat, budget: nat,
                                       script: string -> Option<Script>, k: nat)
    requires 0 < k <= |payees| && cap >= 2 && FitsAlone(payees[0], floor, budget, script)
    ensures var p := Select(payees, floor, cap, budget, script, k);
      p.Some? ==> p.value.paid != [] && p.value.paid[0] == 0
  {
    if k > 1 {
      FirstIsPaid(payees, floor, cap, budget, script, k - 1);
    } else {
      assert Select(payees, floor, cap, budget, script, 0) == Some(Picked([], 0, 0, 0, 0));
    }
  }

  /** Nobody is dropped who could still have been paid: there is no room left for any of them. */
  lemma {:induction false} GreedyIsMaximal(payees: seq<Payee>, floor: int, cap: nat, budget: nat,
                                           script: string -> Option<Script>, k: nat, i: nat)
    requires i < k <= |payees| && payees[i].sats >= floor
    ensures var p := Select(payees, floor, cap, budget, script, k);
      p.Some? && i !in p.value.paid ==>
        || |p.value.paid| + 1 >= cap
        || (script(payees[i].address).Some? && p.value.bytes + OutSize(|script(payees[i].address).value|) > budget)
  {
    if i < k - 1 {
      GreedyIsMaximal(payees, floor, cap, budget, script, k - 1, i);
      hide OutSize;
    }
  }

  /** The first `c` of the paid payees are those before payee `i`. */
  ghost predicate PaidBefore(paid: seq<nat>, i: nat, c: nat) {
    && c <= |paid|
    && (forall x :: 0 <= x < c ==> paid[x] < i)
    && (forall x :: c <= x < |paid| ==> paid[x] >= i)
  }

  /** The size of the outputs of the payees at the given indices. */
  function PaidBytes(payees: seq<Payee>, paid: seq<nat>, script: string -> Option<Script>): nat
    requires Indices(paid, |payees|)
    requires forall i :: 0 <= i < |paid| ==> script(payees[paid[i]].address).Some?
  {
    if paid == [] then 0
    else
      var n := |paid| - 1;
      PaidBytes(payees, paid[..n], script) + OutSize(|script(payees[paid[n]].address).value|)
  }

  /** Clears the floor, and with those paid before it leaves a slot for the operator and stays in the budget. */
  ghost predicate HasRoom(payees: seq<Payee>, floor: int, cap: nat, budget: nat, script: string -> Option<Script>,
                          before: seq<nat>, i: nat)
    requires i < |payees| && Indices(before, |payees|)
    requires forall x :: 0 <= x < |before| ==> script(payees[before[x]].address).Some?
  {
    && payees[i].sats >= floor && |before| + 1 < cap
    && script(payees[i].address).Some?
    && PaidBytes(payees, before, script) + OutSize(|script(payees[i].address).value|) <= budget
  }

  /** Payee `i` is paid exactly when it has room after those paid before it. */
  ghost predicate PaidInTurn(payees: seq<Payee>, floor: int, cap: nat, budget: nat, script: string -> Option<Script>,
                             paid: seq<nat>, i: nat)
    requires i < |payees| && Indices(paid, |payees|)
    requires forall x :: 0 <= x < |paid| ==> script(payees[paid[x]].address).Some?
  {
    exists c: nat :: PaidBefore(paid, i, c)
      && (i in paid <==> HasRoom(payees, floor, cap, budget, script, paid[..c], i))
  }

  /** The greedy pass pays exactly the payees that have room when their turn comes. */
  lemma {:induction false} GreedyIff(payees: seq<Payee>, floor: int, cap: nat, budget: nat,
                                     script: string -> Option<Script>, k: nat, i: nat)
    requires i < k <= |payees| && Select(payees, floor, cap, budget, script, k).Some?
    ensures var paid := Select(payees, floor, cap, budget, script, k).value.paid;
      && Indices(paid, |payees|) && (forall x :: 0 <= x < |paid| ==> script(payees[paid[x]].address).Some?)
      && PaidInTurn(payees, floor, cap, budget, script, paid, i)
    decreases k
  {
    hide OutSize, PaidBytes, PaidInTurn, Select, SelectOne;
    var p := SelectLast(payees, floor, cap, budget, script, k);
    SelectBytes(payees, floor, cap, budget, script, k);
    SelectBytes(payees, floor, cap, budget, script, k - 1);
    var paid := Select(payees, floor, cap, budget, script, k).value.paid;
    if i < k - 1 {
      GreedyIff(payees, floor, cap, budget, script, k - 1, i);
      InTurnStays(payees, floor, cap, budget, script, p.paid, paid, k - 1, i);
    } else {
      InTurnNow(payees, floor, cap, budget, script, p, paid, i);
    }
  }

  lemma SelectLast(payees: seq<Payee>, floor: int, cap: nat, budget: nat, script: string -> Option<Script>, k: nat)
    returns (p: Picked)
    requires 0 < k <= |payees| && Select(payees, floor, cap, budget, script, k).Some?
    ensures Select(payees, floor, cap, budget, script, k - 1) == Some(p)
    ensures var q := Select(payees, floor, cap, budget, script, k).value;
      && SelectOne(payees[k - 1], floor, cap, budget, script, k - 1, p) == Some(q)
      && Indices(p.paid, k - 1) && (q.paid == p.paid || q.paid == p.paid + [k - 1])
  {
    hide OutSize;
    p := Select(payees, floor, cap, budget, script, k - 1).value;
    SelectFits(payees, floor, cap, budget, script, k - 1);
  }

  /** Later payees do not change what was decided. */
  lemma InTurnStays(payees: seq<Payee>, floor: int, cap: nat, budget: nat, script: string -> Option<Script>,
                    before: seq<nat>, paid: seq<nat>, k: nat, i: nat)
    requires i < k < |payees| && Indices(before, |payees|) && Indices(paid, |payees|)
    requires forall x :: 0 <= x < |before| ==> script(payees[before[x]].address).Some?
    requires forall x :: 0 <= x < |paid| ==> script(payees[paid[x]].address).Some?
    requires paid == before || paid == before + [k]
    requires PaidInTurn(payees, floor, cap, budget, script, before, i)
    ensures PaidInTurn(payees, floor, cap, budget, script, paid, i)
  {
    hide HasRoom;
    var c: nat :| PaidBefore(before, i, c)
      && (i in before <==> HasRoom(payees, floor, cap, budget, script, before[..c], i));
    assert paid[..c] == before[..c];
    assert PaidBefore(paid, i, c);
  }

  lemma InTurnNow(payees: seq<Payee>, floor: int, cap: nat, budget: nat, script: string -> Option<Script>,
                  p: Picked, paid: seq<nat>, i: nat)
    requires i < |payees| && Indices(p.paid, i) && Indices(p.paid, |payees|) && Indices(paid, |payees|)
    requires forall x :: 0 <= x < |p.paid| ==> script(payees[p.paid[x]].address).Some?
    requires forall x :: 0 <= x < |paid| ==> script(payees[paid[x]].address).Some?
    requires p.bytes == PaidBytes(payees, p.paid, script)
    requires var q := SelectOne(payees[i], floor, cap, budget, script, i, p); q.Some? && q.value.paid == paid
    ensures PaidInTurn(payees, floor, cap, budget, script, paid, i)
  {
    hide OutSize, PaidBytes;
    var c := |p.paid|;
    assert paid[..c] == p.paid;
    assert i !in p.paid;
    assert PaidBefore(paid, i, c);
  }

  /** Among 200 payees the slots never run out before the operator's. */
  lemma {:induction false} SlotsSuffice(paid: seq<nat>, i: nat)
    requires Increasing(paid) && Indices(paid, i) && i < 200
    ensures |paid| <= i && |paid| + 1 < REPL_CAP
    decreases |paid|
  {
    if paid != [] {
      var n := |paid| - 1;
      assert Indices(paid[..n], paid[n]);
      SlotsSuffice(paid[..n], paid[n]);
    }
  }

  // ---- redistribution -------------------------------------------------

  lemma ScaledUp(amount: int, x: real, w: real)
    requires 0.0 < w <= amount as real && x >= 0.0
    ensures Quota(amount, x, w) >= x
  {
    var f := x / w;
    assert f >= 0.0 && w * f == x;
    assert amount as real * f >= w * f;
  }

  /** Truncated shares, with the remainder on the first of the largest. */
  ghost predicate ToppedUp(out: seq<int>, shares: seq<int>, payable: int, big: nat) {
    && big < |shares|
    && (forall i :: 0 <= i < |shares| ==> shares[i] <= shares[big])
    && (forall i :: 0 <= i < big ==> shares[i] < shares[big])
    && out == shares[big := shares[big] + (payable - SumInt(shares))]
  }

  ghost predicate SpendsAll(out: seq<int>, shares: seq<int>, payable: int) {
    exists big: nat :: ToppedUp(out, shares, payable, big)
  }

  /** Survivors scaled up in proportion to their claims. */
  ghost predicate IsScaled(out: seq<int>, own: seq<int>, payable: int)
    requires SumInt(own) > 0
  {
    SpendsAll(out, Shares(payable, Reals(own), SumInt(own) as real), payable)
  }

  method LargestIndex(s: seq<int>) returns (big: nat)
    requires s != []
    ensures big < |s|
    ensures forall i :: 0 <= i < |s| ==> s[i] <= s[big]
    ensures forall i :: 0 <= i < big ==> s[i] < s[big]
  {
    big := 0;
    for i := 1 to |s|
      invariant big < i
      invariant forall k :: 0 <= k < i ==> s[k] <= s[big]
      invariant forall k :: 0 <= k < big ==> s[k] < s[big]
    {
      if s[i] > s[big] { big := i; }
    }
  }

  /** Scaling never takes from a survivor, and never spends more than is payable. */
  lemma ScalingIsSafe(own: seq<int>, payable: int)
    requires 0 < SumInt(own) <= payable
    requires forall i :: 0 <= i < |own| ==> own[i] >= 0
    ensures var shares := Shares(payable, Reals(own), SumInt(own) as real);
      SumInt(shares) <= payable && forall i :: 0 <= i < |own| ==> shares[i] >= own[i]
  {
    var w := SumInt(own) as real;
    RealsSum(own);
    SharesOfWhole(payable, Reals(own), w);
    hide SumInt, SumReal;
    forall i | 0 <= i < |own| ensures Shares(payable, Reals(own), w)[i] >= own[i] {
      ScaledUp(payable, own[i] as real, w);
      hide Quota;
    }
  }

  /** The scaling loop. */
  method ScaleAll(own: seq<int>, whole: real, payable: int) returns (out: seq<int>, given: int)
    requires whole > 0.0
    ensures out == Shares(payable, Reals(own), whole) && given == SumInt(out)
  {
    hide Share;
    out, given := [], 0;
    for i := 0 to |own|
      invariant |out| == i && given == SumInt(out)
      invariant forall k :: 0 <= k < i ==> out[k] == Share(payable, own[k] as real, whole)
    {
      var sats := Share(payable, own[i] as real, whole);
      SumIntAppend(out, sats);
      out, given := out + [sats], given + sats;
    }
  }

  /** The scaled amounts spend `payable` exactly, so the overshoot refusal is unreachable. */
  method Redistribute(own: seq<int>, paidSats: int, payable: int) returns (out: seq<int>)
    requires 0 < paidSats == SumInt(own) <= payable
    requires forall i :: 0 <= i < |own| ==> own[i] >= 0
    ensures |out| == |own| && SumInt(out) == payable && IsScaled(out, own, payable)
    ensures forall i :: 0 <= i < |own| ==> out[i] >= own[i]
  {
    assert own != [];
    ghost var whole := paidSats as real;
    hide SumInt, Share, Reals;
    var shares, given := ScaleAll(own, paidSats as real, payable);
    assert SumInt(shares) <= payable && forall i :: 0 <= i < |own| ==> shares[i] >= own[i] by {
      ScalingIsSafe(own, payable);
    }
    assert |shares| == |own|;
    hide Shares;
    var big := LargestIndex(shares);
    SumIntBump(shares, big, payable - given);
    out := shares[big := shares[big] + (payable - given)];
    assert ToppedUp(out, shares, payable, big);
  }

  // ---- the resolver ---------------------------------------------------

  ghost predicate ResolveAccepts(value: int, payees: seq<Payee>, operator: string, feeBps: int, budget: nat,
                                 floor: int, cap: nat, script: string -> Option<Script>)
  {
    var fee := FeeOf(value, feeBps, operator != "");
    var p := Select(payees, floor, cap, budget, script, |payees|);
    && payees != [] && cap >= 2 && value > 0
    && (fee > 0 ==> script(operator).Some?)
    && (forall i :: 0 <= i < |payees| ==> payees[i].address != "" && payees[i].sats >= 0)
    && SumInt(SatsOf(payees)) == value - fee
    && p.Some? && p.value.paid != []
  }

  /** On readable claims that add up, the resolver refuses exactly when nobody fits. */
  lemma ResolverPaysIff(value: int, payees: seq<Payee>, operator: string, feeBps: int, budget: nat,
                        floor: int, cap: nat, script: string -> Option<Script>)
    requires payees != [] && cap >= 2 && value > 0
    requires FeeOf(value, feeBps, operator != "") > 0 ==> script(operator).Some?
    requires forall i :: 0 <= i < |payees| ==>
      payees[i].address != "" && script(payees[i].address).Some? && payees[i].sats >= 0
    requires SumInt(SatsOf(payees)) == value - FeeOf(value, feeBps, operator != "")
    ensures ResolveAccepts(value, payees, operator, feeBps, budget, floor, cap, script)
      <==> exists i :: 0 <= i < |payees| && FitsAlone(payees[i], floor, budget, script)
  {
    hide SumInt, FeeOf, Select, FitsAlone;
    SomebodyIsPaid(payees, floor, cap, budget, script, |payees|);
  }

  /** Output `j` pays the payee at index `paid[j]` at least its own claim. */
  ghost predicate PaysMiners(outs: seq<ReplOut>, payees: seq<Payee>, paid: seq<nat>, script: string -> Option<Script>)
    requires Indices(paid, |payees|)
  {
    && |outs| == |paid|
    && forall j :: 0 <= j < |paid| ==>
         && script(payees[paid[j]].address) == Some(outs[j].spk)
         && outs[j].sats >= payees[paid[j]].sats
  }

  function OutSats(outs: seq<ReplOut>): (r: seq<int>)
    ensures |r| == |outs|
    ensures forall i :: 0 <= i < |r| ==> r[i] == outs[i].sats
  {
    seq(|outs|, i requires 0 <= i < |outs| => outs[i].sats)
  }

  /**
   What a resolved window guarantees: the outputs are the paid miners', then the
   operator's fee if it has one, and together they spend the reward exactly.
   */
  ghost predicate IsPayout(r: WindowResult, value: int, payees: seq<Payee>, operator: string, feeBps: int,
                           budget: nat, floor: int, cap: nat, script: string -> Option<Script>)
  {
    var fee := FeeOf(value, feeBps, operator != "");
    var p := Select(payees, floor, cap, budget, script, |payees|);
    && p.Some? && p.value.paid != [] && r.paidCount == |p.value.paid| <= |r.outs|
    && MinersPaid(payees, value - fee, floor, budget, script, p.value, r.outs[..r.paidCount], r.paidPayee)
    && SumInt(OutSats(r.outs)) == value && r.paidSats == value - fee && r.fee == fee
    && (fee == 0 ==> |r.outs| == r.paidCount)
    && (fee > 0 ==>
          && script(operator).Some?
          && |r.outs| == r.paidCount + 1 && r.outs[r.paidCount] == ReplOut(script(operator).value, fee))
    && r.redistributed == p.value.dropped && r.droppedBelow == p.value.below && r.droppedCapped == p.value.capped
  }

  lemma BytesOfAppend(outs: seq<ReplOut>, o: ReplOut)
    ensures BytesOf(outs + [o]) == BytesOf(outs) + OutSize(|o.spk|)
  {
    assert (outs + [o])[..|outs|] == outs;
  }

  lemma {:induction false} SelectFails(payees: seq<Payee>, floor: int, cap: nat, budget: nat,
                                       script: string -> Option<Script>, k: nat, n: nat)
    requires k <= n <= |payees| && Select(payees, floor, cap, budget, script, k).None?
    ensures Select(payees, floor, cap, budget, script, n).None?
  {
    if k < n { SelectFails(payees, floor, cap, budget, script, k, n - 1); }
  }

  /** The outputs of the payees picked so far, each at its own claim. */
  ghost predicate OwnOutputs(outs: seq<ReplOut>, payees: seq<Payee>, p: Picked, script: string -> Option<Script>) {
    && Indices(p.paid, |payees|) && PaysMiners(outs, payees, p.paid, script)
    && OutSats(outs) == OwnOf(payees, p.paid) && BytesOf(outs) == p.bytes
  }

  lemma OwnOutputsStep(outs: seq<ReplOut>, payees: seq<Payee>, floor: int, cap: nat, budget: nat,
                       script: string -> Option<Script>, k: nat, p: Picked, q: Picked)
    requires k < |payees| && OwnOutputs(outs, payees, p, script)
    requires SelectOne(payees[k], floor, cap, budget, script, k, p) == Some(q)
    ensures q.paid == p.paid || q.paid == p.paid + [k]
    ensures q.paid == p.paid ==> OwnOutputs(outs, payees, q, script)
    ensures q.paid != p.paid ==>
      && script(payees[k].address).Some?
      && OwnOutputs(outs + [ReplOut(script(payees[k].address).value, payees[k].sats)], payees, q, script)
  {
    hide BytesOf, OutSize, PaysMiners, OutSats, OwnOf, Indices;
    if q.paid != p.paid {
      var o := ReplOut(script(payees[k].address).value, payees[k].sats);
      BytesOfAppend(outs, o);
      PaysAppend(outs, payees, p.paid, script, k);
    }
  }

  lemma PaysAppend(outs: seq<ReplOut>, payees: seq<Payee>, paid: seq<nat>, script: string -> Option<Script>, k: nat)
    requires k < |payees| && Indices(paid, |payees|) && script(payees[k].address).Some?
    requires PaysMiners(outs, payees, paid, script) && OutSats(outs) == OwnOf(payees, paid)
    ensures var o := ReplOut(script(payees[k].address).value, payees[k].sats);
      && Indices(paid + [k], |payees|)
      && PaysMiners(outs + [o], payees, paid + [k], script)
      && OutSats(outs + [o]) == OwnOf(payees, paid + [k])
  {
    var o := ReplOut(script(payees[k].address).value, payees[k].sats);
    assert OutSats(outs + [o]) == OutSats(outs) + [o.sats];
    assert OwnOf(payees, paid + [k]) == OwnOf(payees, paid) + [o.sats];
  }

  /** `marks` is the indicator of the paid indices, as far as it is reported. */
  ghost predicate Marks(marks: seq<bool>, paid: seq<nat>, k: nat) {
    |marks| == k && forall i: nat :: i < k ==> (marks[i] <==> i in paid && i < MAX_PAYOUT_OUTPUTS)
  }

  lemma MarksStep(marks: seq<bool>, paid: seq<nat>, k: nat)
    requires Marks(marks, paid, k) && Indices(paid, k)
    ensures Marks(marks + [false], paid, k + 1)
    ensures Marks(marks + [k < MAX_PAYOUT_OUTPUTS], paid + [k], k + 1)
  {
    assert k !in paid;
  }

  lemma SelectStep(payees: seq<Payee>, floor: int, cap: nat, budget: nat,
                   script: string -> Option<Script>, k: nat, p: Picked)
    requires k < |payees| && Select(payees, floor, cap, budget, script, k) == Some(p)
    ensures Select(payees, floor, cap, budget, script, k + 1) == SelectOne(payees[k], floor, cap, budget, script, k, p)
  {
    hide SelectOne;
  }

  /** The greedy pass: the outputs of the payees it selects, each at its own claim. */
  method GreedyPay(payees: seq<Payee>, floor: int, cap: nat, budget: nat, script: string -> Option<Script>)
    returns (sel: Option<Picked>, outs: seq<ReplOut>, marks: seq<bool>)
    ensures sel == Select(payees, floor, cap, budget, script, |payees|)
    ensures sel.Some? ==> OwnOutputs(outs, payees, sel.value, script) && Marks(marks, sel.value.paid, |payees|)
  {
    var p := Picked([], 0, 0, 0, 0);
    outs, marks := [], [];
    assert OwnOutputs(outs, payees, p, script) && Marks(marks, p.paid, 0);
    assert Select(payees, floor, cap, budget, script, 0) == Some(p);
    hide OwnOutputs, Marks, SelectOne, Select;
    for k := 0 to |payees|
      invariant Some(p) == Select(payees, floor, cap, budget, script, k)
      invariant OwnOutputs(outs, payees, p, script)
      invariant Indices(p.paid, k) && Marks(marks, p.paid, k)
    {
      var pe := payees[k];
      var q := SelectOne(pe, floor, cap, budget, script, k, p);
      SelectStep(payees, floor, cap, budget, script, k, p);
      if q.None? {
        SelectFails(payees, floor, cap, budget, script, k + 1, |payees|);
        return None, outs, marks;
      }
      OwnOutputsStep(outs, payees, floor, cap, budget, script, k, p, q.value);
      MarksStep(marks, p.paid, k);
      if |q.value.paid| > |p.paid| {
        outs := outs + [ReplOut(script(pe.address).value, pe.sats)];
        marks := marks + [k < MAX_PAYOUT_OUTPUTS];
      } else {
        marks := marks + [false];
      }
      p := q.value;
    }
    sel := Some(p);
  }

  /** The payees' total, or the reason one of them cannot be read. */
  method CheckClaims(payees: seq<Payee>) returns (r: Outcome<int>)
    ensures r.Done? <==> forall i :: 0 <= i < |payees| ==> payees[i].address != "" && payees[i].sats >= 0
    ensures r.Done? ==> r.value == SumInt(SatsOf(payees))
    ensures r.Refused? ==> r.why == NoAddress || r.why == NegativeAmount
  {
    var claimed := 0;
    for i := 0 to |payees|
      invariant claimed == SumInt(SatsOf(payees)[..i])
      invariant forall k :: 0 <= k < i ==> payees[k].address != "" && payees[k].sats >= 0
    {
      if payees[i].address == "" { return Refused(NoAddress); }
      if payees[i].sats < 0 { return Refused(NegativeAmount); }
      assert SatsOf(payees)[..i + 1] == SatsOf(payees)[..i] + [payees[i].sats];
      SumIntAppend(SatsOf(payees)[..i], payees[i].sats);
      claimed := claimed + payees[i].sats;
    }
    assert SatsOf(payees)[..|payees|] == SatsOf(payees);
    r := Done(claimed);
  }

  lemma {:induction false} PositiveSum(s: seq<int>)
    requires forall i :: 0 <= i < |s| ==> s[i] > 0
    ensures s != [] ==> SumInt(s) > 0
  {
    if |s| > 1 { PositiveSum(s[..|s| - 1]); }
    else if |s| == 1 { assert s[..0] == []; }
  }

  function WithSats(outs: seq<ReplOut>, sats: seq<int>): (r: seq<ReplOut>)
    requires |sats| == |outs|
    ensures |r| == |outs| && OutSats(r) == sats
    ensures forall i :: 0 <= i < |r| ==> r[i] == ReplOut(outs[i].spk, sats[i])
  {
    seq(|outs|, i requires 0 <= i < |outs| => ReplOut(outs[i].spk, sats[i]))
  }

  /** Amounts do not affect an output's size. */
  lemma {:induction false} WithSatsBytes(outs: seq<ReplOut>, sats: seq<int>)
    requires |sats| == |outs|
    ensures BytesOf(WithSats(outs, sats)) == BytesOf(outs)
  {
    if outs != [] {
      var n := |outs| - 1;
      WithSatsBytes(outs[..n], sats[..n]);
      assert WithSats(outs, sats)[..n] == WithSats(outs[..n], sats[..n]);
    }
  }

  /** What could not be paid is spread over the payees that were. */
  method SpendExactly(outs: seq<ReplOut>, paidSats: int, dropped: int, payable: int) returns (r: seq<ReplOut>)
    requires outs != [] && paidSats == SumInt(OutSats(outs)) && paidSats + dropped == payable && dropped >= 0
    requires forall i :: 0 <= i < |outs| ==> outs[i].sats > 0
    ensures |r| == |outs| && SumInt(OutSats(r)) == payable && BytesOf(r) == BytesOf(outs) && PaysMore(r, outs)
    ensures if dropped == 0 then r == outs else paidSats > 0 && IsScaled(OutSats(r), OutSats(outs), payable)
  {
    PositiveSum(OutSats(outs));
    if dropped == 0 { return outs; }
    hide SumInt, IsScaled, BytesOf;
    var sats := Redistribute(OutSats(outs), paidSats, payable);
    WithSatsBytes(outs, sats);
    r := WithSats(outs, sats);
  }

  /** The same scripts, none paid less. */
  ghost predicate PaysMore(r: seq<ReplOut>, outs: seq<ReplOut>) {
    |r| == |outs| && forall i :: 0 <= i < |outs| ==> r[i].spk == outs[i].spk && r[i].sats >= outs[i].sats
  }

  /** Raising amounts keeps every miner paid at least its claim. */
  lemma PaysMoreMiners(r: seq<ReplOut>, outs: seq<ReplOut>, payees: seq<Payee>, p: Picked,
                       script: string -> Option<Script>)
    requires OwnOutputs(outs, payees, p, script) && PaysMore(r, outs)
    ensures PaysMiners(r, payees, p.paid, script)
  {
  }

  /** Every paid amount clears the floor, so it is positive. */
  lemma OwnIsPositive(outs: seq<ReplOut>, payees: seq<Payee>, floor: int, cap: nat, budget: nat, p: Picked,
                      script: string -> Option<Script>)
    requires OwnOutputs(outs, payees, p, script) && floor > 0
    requires Fits(payees, floor, cap, budget, script, |payees|, p)
    ensures forall i :: 0 <= i < |outs| ==> outs[i].sats > 0
  {
    assert forall i :: 0 <= i < |outs| ==> OutSats(outs)[i] == outs[i].sats;
  }

  /** The operator's output, when it has a fee, comes last. */
  lemma WithFee(miners: seq<ReplOut>, spk: Script, fee: int)
    ensures var all := miners + [ReplOut(spk, fee)];
      all[..|miners|] == miners && SumInt(OutSats(all)) == SumInt(OutSats(miners)) + fee
  {
    var all := miners + [ReplOut(spk, fee)];
    assert OutSats(all) == OutSats(miners) + [fee];
    SumIntAppend(OutSats(miners), fee);
  }

  /** The greedy pass and the redistribution, on claims that add up. */
  method PayMiners(payees: seq<Payee>, payable: int, floor: int, cap: nat, budget: nat,
                   script: string -> Option<Script>)
    returns (sel: Option<Picked>, miners: seq<ReplOut>, marks: seq<bool>)
    requires floor > 0 && SumInt(SatsOf(payees)) == payable
    requires forall i :: 0 <= i < |payees| ==> payees[i].sats >= 0
    ensures sel == Select(payees, floor, cap, budget, script, |payees|)
    ensures sel.Some? && sel.value.paid != [] ==>
      MinersPaid(payees, payable, floor, budget, script, sel.value, miners, marks)
  {
    sel, miners, marks := GreedyPay(payees, floor, cap, budget, script);
    if sel.None? || sel.value.paid == [] { return; }
    SelectFits(payees, floor, cap, budget, script, |payees|);
    DroppedIsNonNegative(payees, floor, cap, budget, script, |payees|);
    OwnIsPositive(miners, payees, floor, cap, budget, sel.value, script);
    assert payees[..|payees|] == payees;
    hide Select, SumInt, BelowMarks, OutSize, BytesOf, Marks, PaysMore, PaysMiners, IsScaled;
    ghost var own := miners;
    assert own != [] by { assert |OwnOf(payees, sel.value.paid)| == |own|; }
    miners := SpendExactly(miners, payable - sel.value.dropped, sel.value.dropped, payable);
    PaysMoreMiners(miners, own, payees, sel.value, script);
  }

  ghost predicate MinersPaid(payees: seq<Payee>, payable: int, floor: int, budget: nat,
                             script: string -> Option<Script>, p: Picked, miners: seq<ReplOut>, marks: seq<bool>)
  {
    && Indices(p.paid, |payees|)
    && |miners| == |p.paid| && PaysMiners(miners, payees, p.paid, script)
    && SumInt(OutSats(miners)) == payable && BytesOf(miners) <= budget
    && p.dropped == payable - SumInt(OwnOf(payees, p.paid))
    && (p.dropped == 0 ==> OutSats(miners) == OwnOf(payees, p.paid))
    && (p.dropped != 0 ==>
          SumInt(OwnOf(payees, p.paid)) > 0 && IsScaled(OutSats(miners), OwnOf(payees, p.paid), payable))
    && p.below == SumInt(BelowMarks(SatsOf(payees), floor))
    && p.below + p.capped + |p.paid| == |payees|
    && Marks(marks, p.paid, |payees|)
  }

  /** Paid miners, with the operator's output after them when it has a fee, are a payout. */
  lemma Assembled(value: int, payees: seq<Payee>, operator: string, feeBps: int, budget: nat, floor: int, cap: nat,
                  script: string -> Option<Script>, p: Picked, miners: seq<ReplOut>, marks: seq<bool>)
    requires var fee := FeeOf(value, feeBps, operator != "");
      && Select(payees, floor, cap, budget, script, |payees|) == Some(p) && p.paid != []
      && MinersPaid(payees, value - fee, floor, budget, script, p, miners, marks)
      && (fee > 0 ==> script(operator).Some?)
    ensures var fee := FeeOf(value, feeBps, operator != "");
      var all := if fee > 0 then miners + [ReplOut(script(operator).value, fee)] else miners;
      IsPayout(WindowResult(all, marks, |p.paid|, value - fee, p.below, p.capped, p.dropped, fee),
               value, payees, operator, feeBps, budget, floor, cap, script)
  {
    hide FeeOf, SumInt, Select, MinersPaid, OutSats;
    var fee := FeeOf(value, feeBps, operator != "");
    FeeIsNonNegative(value, feeBps, operator != "");
    MinersPaidIs(payees, value - fee, floor, budget, script, p, miners, marks);
    if fee > 0 {
      WithFee(miners, script(operator).value, fee);
    } else {
      assert miners[..|miners|] == miners;
    }
  }

  lemma MinersPaidIs(payees: seq<Payee>, payable: int, floor: int, budget: nat, script: string -> Option<Script>,
                     p: Picked, miners: seq<ReplOut>, marks: seq<bool>)
    requires MinersPaid(payees, payable, floor, budget, script, p, miners, marks)
    ensures |miners| == |p.paid| && SumInt(OutSats(miners)) == payable
  {
  }

  lemma FeeIsNonNegative(value: int, feeBps: int, haveOperator: bool)
    ensures FeeOf(value, feeBps, haveOperator) >= 0
  {
  }

  method ResolveWindow(value: int, payees: seq<Payee>, operator: string, feeBps: int, maxBytes: nat,
                       fixedBytes: nat, floorSats: int, cap: nat, script: string -> Option<Script>)
    returns (r: Outcome<WindowResult>)
    ensures r.Done? <==> ResolveAccepts(value, payees, operator, feeBps, BudgetOf(maxBytes, fixedBytes),
                                        FloorOf(floorSats), cap, script)
    ensures r.Done? ==> IsPayout(r.value, value, payees, operator, feeBps, BudgetOf(maxBytes, fixedBytes),
                                 FloorOf(floorSats), cap, script)
    ensures r.Refused? && r.why == SumMismatch ==>
      SumInt(SatsOf(payees)) != value - FeeOf(value, feeBps, operator != "")
  {
    hide FeeOf, FloorOf, BudgetOf, SumInt, BelowMarks, Select, MinersPaid, IsPayout;
    if cap < 2 || payees == [] { return Refused(NobodyToPay); }
    if value <= 0 { return Refused(NoReward); }
    var budget, floor := BudgetOf(maxBytes, fixedBytes), FloorOf(floorSats);
    var fee := FeeOf(value, feeBps, operator != "");
    if fee > 0 && script(operator).None? { return Refused(BadOperator); }
    var payable := value - fee;
    var claimed := CheckClaims(payees);
    if claimed.Refused? { return Refused(claimed.why); }
    if claimed.value != payable { return Refused(SumMismatch); }
    var sel, miners, marks := PayMiners(payees, payable, floor, cap, budget, script);
    if sel.None? { return Refused(BadAddress); }
    var p := sel.value;
    if p.paid == [] { return Refused(NobodyFits); }
    Assembled(value, payees, operator, feeBps, budget, floor, cap, script, p, miners, marks);
    var all := miners;
    if fee > 0 { all := miners + [ReplOut(script(operator).value, fee)]; }
    r := Done(WindowResult(all, marks, |p.paid|, payable, p.below, p.capped, p.dropped, fee));
  }

  lemma {:induction false} DroppedIsNonNegative(payees: seq<Payee>, floor: int, cap: nat, budget: nat,
                                                script: string -> Option<Script>, k: nat)
    requires k <= |payees| && forall i :: 0 <= i < |payees| ==> payees[i].sats >= 0
    ensures var p := Select(payees, floor, cap, budget, script, k); p.Some? ==> p.value.dropped >= 0
  {
    if k > 0 { DroppedIsNonNegative(payees, floor, cap, budget, script, k - 1); }
  }

  // ---- what the outputs cost -------------------------------------------

  lemma {:induction false} SelectBytes(payees: seq<Payee>, floor: int, cap: nat, budget: nat,
                                       script: string -> Option<Script>, k: nat)
    requires k <= |payees|
    ensures var p := Select(payees, floor, cap, budget, script, k);
      p.Some? ==>
        && Indices(p.value.paid, |payees|)
        && (forall i :: 0 <= i < |p.value.paid| ==> script(payees[p.value.paid[i]].address).Some?)
        && p.value.bytes == PaidBytes(payees, p.value.paid, script)
  {
    hide OutSize;
    if k > 0 {
      SelectBytes(payees, floor, cap, budget, script, k - 1);
      var before := Select(payees, floor, cap, budget, script, k - 1);
      if before.Some? { assert (before.value.paid + [k - 1])[..|before.value.paid|] == before.value.paid; }
    }
  }

  lemma {:induction false} MinersBytes(outs: seq<ReplOut>, payees: seq<Payee>, paid: seq<nat>,
                                       script: string -> Option<Script>)
    requires Indices(paid, |payees|) && PaysMiners(outs, payees, paid, script)
    ensures BytesOf(outs) == PaidBytes(payees, paid, script)
  {
    hide OutSize;
    if outs != [] { MinersBytes(outs[..|outs| - 1], payees, paid[..|paid| - 1], script); }
  }

  /** The operator's output, outside the greedy pass's budget. */
  function OperatorBytes(value: int, operator: string, feeBps: int, script: string -> Option<Script>): nat {
    if FeeOf(value, feeBps, operator != "") > 0 && script(operator).Some? then OutSize(|script(operator).value|) else 0
  }

  /** A payout costs what the greedy pass spent, and the operator's output on top. */
  lemma PayoutCosts(r: WindowResult, value: int, payees: seq<Payee>, operator: string, feeBps: int,
                    budget: nat, floor: int, cap: nat, script: string -> Option<Script>)
    requires IsPayout(r, value, payees, operator, feeBps, budget, floor, cap, script)
    ensures var p := Select(payees, floor, cap, budget, script, |payees|);
      && p.Some? && |r.outs| == |p.value.paid| + (if FeeOf(value, feeBps, operator != "") > 0 then 1 else 0)
      && BytesOf(r.outs) == p.value.bytes + OperatorBytes(value, operator, feeBps, script)
  {
    hide SumInt, FeeOf, Select, IsScaled, BelowMarks, Marks, OutSize, OwnOf, OutSats;
    SelectBytes(payees, floor, cap, budget, script, |payees|);
    var p := Select(payees, floor, cap, budget, script, |payees|).value;
    var miners := r.outs[..r.paidCount];
    MinersBytes(miners, payees, p.paid, script);
    hide BytesOf, PaysMiners, PaidBytes;
    if FeeOf(value, feeBps, operator != "") > 0 {
      assert r.outs == miners + [r.outs[r.paidCount]];
      BytesOfAppend(miners, r.outs[r.paidCount]);
    } else {
      assert r.outs == miners;
    }
  }
}
