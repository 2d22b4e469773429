/**
 The window-to-payees split and the payment order (src/pplns.c), with doubles
 as exact reals and satoshis as unbounded integers.
 */
module Pplns {
  import opened Sums

  const DUST_SATS: int := 546

  datatype Refusal =
    | NoClaims | NoDifficulty | NoReward | NothingAfterFee | BadClaim | ClaimsExceedTotal
    | NobodyToPay | BadOperator | NoAddress | NegativeAmount | SumMismatch | BadAddress | NobodyFits

  datatype Outcome<+T> = Done(value: T) | Refused(why: Refusal)

  datatype Claim = Claim(address: string, difficulty: real, workerId: int, owed: real)

  datatype Payee = Payee(address: string, sats: int)

  datatype Split = Split(payees: seq<Payee>, fee: int, payable: int, belowFloor: int)

  /** The operator fee every builder takes: dropped when the output would be dust. */
  function FeeOf(reward: int, feeBps: int, haveOperator: bool): (fee: int)
    ensures reward >= 0 ==> 0 <= fee
    ensures fee == 0 || fee >= DUST_SATS
  {
    if haveOperator && feeBps > 0 then
      var f := (reward * feeBps) / 10000;
      if f >= DUST_SATS then f else 0
    else 0
  }

  /** The fee is the rate in whole basis points, rounded down; nothing below 546 sats or without an operator. */
  lemma FeeIs(reward: int, feeBps: int, haveOperator: bool, fee: int)
    requires 10000 * fee <= reward * feeBps < 10000 * (fee + 1)
    ensures FeeOf(reward, feeBps, haveOperator) == if haveOperator && feeBps > 0 && fee >= 546 then fee else 0
  {
    assert (reward * feeBps) / 10000 == fee;
  }

  /** The payout floor: never below the relay dust limit. */
  function FloorOf(floorSats: int): (f: int)
    ensures f >= 546 && f >= floorSats && (f == 546 || f == floorSats)
  {
    if floorSats < DUST_SATS then DUST_SATS else floorSats
  }

  function SatsOf(payees: seq<Payee>): (r: seq<int>)
    ensures |r| == |payees|
    ensures forall i :: 0 <= i < |r| ==> r[i] == payees[i].sats
  {
    seq(|payees|, i requires 0 <= i < |payees| => payees[i].sats)
  }

  function DiffsOf(claims: seq<Claim>): (r: seq<real>)
    ensures |r| == |claims|
    ensures forall i :: 0 <= i < |r| ==> r[i] == claims[i].difficulty
  {
    seq(|claims|, i requires 0 <= i < |claims| => claims[i].difficulty)
  }

  /** 1 for every amount below the floor. */
  function BelowMarks(sats: seq<int>, floor: int): (r: seq<int>)
    ensures |r| == |sats|
    ensures forall i :: 0 <= i < |r| ==> r[i] == if sats[i] < floor then 1 else 0
  {
    seq(|sats|, i requires 0 <= i < |sats| => if sats[i] < floor then 1 else 0)
  }

  // ---- the split ------------------------------------------------------

  ghost predicate SplitAccepts(reward: int, feeBps: int, haveOperator: bool, claims: seq<Claim>, cap: nat,
                               total: real) {
    var payable := reward - FeeOf(reward, feeBps, haveOperator);
    && 0 < |claims| <= cap && total > 0.0 && reward > 0 && payable > 0
    && (forall i :: 0 <= i < |claims| ==> claims[i].difficulty >= 0.0)
    && SumInt(Shares(payable, DiffsOf(claims), total)) <= payable
  }

  /** Every claim's truncated share. */
  function SharePayees(payable: int, claims: seq<Claim>, total: real): (r: seq<Payee>)
    requires total > 0.0
    ensures |r| == |claims|
    ensures SatsOf(r) == Shares(payable, DiffsOf(claims), total)
    ensures forall i :: 0 <= i < |r| ==>
      r[i] == Payee(claims[i].address, Share(payable, claims[i].difficulty, total))
  {
    seq(|claims|, i requires 0 <= i < |claims| =>
      Payee(claims[i].address, Share(payable, claims[i].difficulty, total)))
  }

  /** The truncation remainder goes to the first claim. */
  function TopUp(payees: seq<Payee>, extra: int): (r: seq<Payee>)
    requires payees != []
    ensures |r| == |payees|
    ensures forall i :: 1 <= i < |r| ==> r[i] == payees[i]
    ensures r[0] == Payee(payees[0].address, payees[0].sats + extra)
    ensures SumInt(SatsOf(r)) == SumInt(SatsOf(payees)) + extra
  {
    var r := payees[0 := payees[0].(sats := payees[0].sats + extra)];
    assert SatsOf(r) == SatsOf(payees)[0 := SatsOf(payees)[0] + extra];
    SumIntBump(SatsOf(payees), 0, extra);
    r
  }

  function SplitPayees(payable: int, claims: seq<Claim>, total: real): (r: seq<Payee>)
    requires total > 0.0 && claims != []
    ensures |r| == |claims|
  {
    var shares := SharePayees(payable, claims, total);
    TopUp(shares, payable - SumInt(SatsOf(shares)))
  }

  /** The payees sum to the payable amount exactly, in proportion to difficulty, nobody negative. */
  lemma SplitIsExact(reward: int, feeBps: int, haveOperator: bool, claims: seq<Claim>, cap: nat, total: real)
    requires SplitAccepts(reward, feeBps, haveOperator, claims, cap, total)
    ensures var payable := reward - FeeOf(reward, feeBps, haveOperator);
      var payees := SplitPayees(payable, claims, total);
      && |payees| == |claims| && SumInt(SatsOf(payees)) == payable
      && (forall i :: 0 <= i < |claims| ==> payees[i].address == claims[i].address && payees[i].sats >= 0)
      && (forall i :: 1 <= i < |claims| ==> payees[i].sats == Share(payable, claims[i].difficulty, total))
      && payees[0].sats >= Share(payable, claims[0].difficulty, total)
  {
    hide SumInt, FeeOf, Share;
    var payable := reward - FeeOf(reward, feeBps, haveOperator);
    var shares := SharePayees(payable, claims, total);
    forall i | 0 <= i < |claims| ensures shares[i].sats >= 0 {
      ShareIsNonNegative(payable, claims[i].difficulty, total);
    }
  }

  /** The dividing loop: every claim's truncated share, and their sum. */
  method DivideReward(payable: int, claims: seq<Claim>, total: real) returns (ok: bool, out: seq<Payee>, given: int)
    requires payable > 0 && total > 0.0
    ensures ok <==> forall i :: 0 <= i < |claims| ==> claims[i].difficulty >= 0.0
    ensures ok ==> out == SharePayees(payable, claims, total) && given == SumInt(SatsOf(out))
  {
    hide Share;
    out, given := [], 0;
    for i := 0 to |claims|
      invariant |out| == i && given == SumInt(SatsOf(out))
      invariant forall k :: 0 <= k < i ==>
        && claims[k].difficulty >= 0.0
        && out[k] == Payee(claims[k].address, Share(payable, claims[k].difficulty, total))
    {
      if !(claims[i].difficulty >= 0.0) { return false, out, given; }
      var sats := Share(payable, claims[i].difficulty, total);
      assert sats >= 0 by { ShareIsNonNegative(payable, claims[i].difficulty, total); }
      SumIntAppend(SatsOf(out), sats);
      var pe := Payee(claims[i].address, sats);
      assert SatsOf(out + [pe]) == SatsOf(out) + [sats];
      out, given := out + [pe], given + sats;
    }
    ok := true;
  }

  method CountBelow(payees: seq<Payee>, floor: int) returns (below: int)
    ensures below == SumInt(BelowMarks(SatsOf(payees), floor))
  {
    ghost var marks := BelowMarks(SatsOf(payees), floor);
    below := 0;
    for i := 0 to |payees|
      invariant below == SumInt(marks[..i])
    {
      if payees[i].sats < floor { below := below + 1; }
      assert marks[..i + 1] == marks[..i] + [marks[i]];
      SumIntAppend(marks[..i], marks[i]);
    }
    assert marks[..|payees|] == marks;
  }

  method SplitWindow(reward: int, feeBps: int, haveOperator: bool, claims: seq<Claim>, total: real,
                     floorSats: int, cap: nat) returns (r: Outcome<Split>)
    ensures r.Done? <==> SplitAccepts(reward, feeBps, haveOperator, claims, cap, total)
    ensures r.Done? ==>
      && r.value.fee == FeeOf(reward, feeBps, haveOperator)
      && r.value.fee + r.value.payable == reward
      && r.value.payees == SplitPayees(r.value.payable, claims, total)
      && r.value.belowFloor == SumInt(BelowMarks(SatsOf(r.value.payees), FloorOf(floorSats)))
  {
    hide SumInt, FeeOf, FloorOf, Share, Shares;
    if |claims| == 0 || |claims| > cap { return Refused(NoClaims); }
    if !(total > 0.0) { return Refused(NoDifficulty); }
    if reward <= 0 { return Refused(NoReward); }
    var fee := FeeOf(reward, feeBps, haveOperator);
    var payable := reward - fee;
    if payable <= 0 { return Refused(NothingAfterFee); }
    var ok, out, given := DivideReward(payable, claims, total);
    if !ok { return Refused(BadClaim); }
    if given > payable { return Refused(ClaimsExceedTotal); }
    if given < payable { out := TopUp(out, payable - given); }
    var below := CountBelow(out, FloorOf(floorSats));
    r := Done(Split(out, fee, payable, below));
  }

  /**
   When the total covers exactly the claims, the overshoot refusal never fires and
   the remainder on the first claim is below one satoshi per claim.
   */
  lemma SplitOfWholeWindow(reward: int, feeBps: int, haveOperator: bool, claims: seq<Claim>, cap: nat, total: real)
    requires total == SumReal(DiffsOf(claims))
    ensures SplitAccepts(reward, feeBps, haveOperator, claims, cap, total) <==>
      && 0 < |claims| <= cap && total > 0.0 && reward > FeeOf(reward, feeBps, haveOperator) && reward > 0
      && forall i :: 0 <= i < |claims| ==> claims[i].difficulty >= 0.0
    ensures SplitAccepts(reward, feeBps, haveOperator, claims, cap, total) ==>
      var payable := reward - FeeOf(reward, feeBps, haveOperator);
      payable - SumInt(Shares(payable, DiffsOf(claims), total)) < |claims|
  {
    if total > 0.0 {
      SharesOfWhole(reward - FeeOf(reward, feeBps, haveOperator), DiffsOf(claims), total);
    }
  }

  // ---- the payment order ----------------------------------------------

  /** Descending key, ties by original position. */
  predicate Before(keys: seq<real>, a: nat, b: nat)
    requires a < |keys| && b < |keys|
  {
    keys[a] > keys[b] || (keys[a] == keys[b] && a < b)
  }

  predicate Indices(s: seq<nat>, n: nat) {
    forall i :: 0 <= i < |s| ==> s[i] < n
  }

  ghost predicate SortedBefore(keys: seq<real>, s: seq<nat>)
    requires Indices(s, |keys|)
  {
    forall i, j :: 0 <= i < j < |s| ==> Before(keys, s[i], s[j])
  }

  function InsertRank(keys: seq<real>, s: seq<nat>, x: nat): (r: seq<nat>)
    requires Indices(s, |keys|) && x < |keys|
    ensures |r| == |s| + 1 && Indices(r, |keys|)
  {
    if s == [] then [x]
    else if Before(keys, x, s[0]) then [x] + s
    else [s[0]] + InsertRank(keys, s[1..], x)
  }

  lemma {:induction false} InsertRankIn(keys: seq<real>, s: seq<nat>, x: nat)
    requires Indices(s, |keys|) && x < |keys|
    ensures forall i: nat :: i in InsertRank(keys, s, x) <==> i in s || i == x
  {
    if s != [] && !Before(keys, x, s[0]) {
      InsertRankIn(keys, s[1..], x);
      assert s == [s[0]] + s[1..];
    }
  }

  lemma {:induction false} InsertRankSorted(keys: seq<real>, s: seq<nat>, x: nat)
    requires Indices(s, |keys|) && x < |keys| && x !in s && SortedBefore(keys, s)
    ensures SortedBefore(keys, InsertRank(keys, s, x))
  {
    if s != [] && !Before(keys, x, s[0]) {
      InsertRankSorted(keys, s[1..], x);
      InsertRankIn(keys, s[1..], x);
      var t := InsertRank(keys, s[1..], x);
      forall j | 0 <= j < |t| ensures Before(keys, s[0], t[j]) {
        assert t[j] in t;
        assert t[j] in s[1..] || t[j] == x;
      }
    }
  }

  /** The indices below `n`, ranked: what sorting the rank array yields. */
  function Ranks(keys: seq<real>, n: nat): (r: seq<nat>)
    requires n <= |keys|
    ensures |r| == n && Indices(r, |keys|)
  {
    if n == 0 then [] else InsertRank(keys, Ranks(keys, n - 1), n - 1)
  }

  lemma {:induction false} RanksSorted(keys: seq<real>, n: nat)
    requires n <= |keys|
    ensures SortedBefore(keys, Ranks(keys, n))
    ensures forall i: nat :: i in Ranks(keys, n) <==> i < n
  {
    if n > 0 {
      RanksSorted(keys, n - 1);
      InsertRankIn(keys, Ranks(keys, n - 1), n - 1);
      InsertRankSorted(keys, Ranks(keys, n - 1), n - 1);
    }
  }

  function OwedOf(claims: seq<Claim>): (r: seq<real>)
    ensures |r| == |claims|
    ensures forall i :: 0 <= i < |r| ==> r[i] == claims[i].owed
  {
    seq(|claims|, i requires 0 <= i < |claims| => claims[i].owed)
  }

  /** Slots held back for the longest-waiting claims: a quarter, never all of them. */
  function ReservedSlots(expected: nat, n: nat): (r: nat)
    ensures n > 0 && expected > 0 ==> r < expected && r < n
    ensures r <= expected / 4
    ensures 4 * r <= expected && 4 * r <= n && (expected < 4 * r + 4 || n < 4 * r + 4)
  {
    (if expected > n then n else expected) / 4
  }

  /** Owed something, and worth an output this block can carry. */
  predicate Eligible(claims: seq<Claim>, amounts: seq<int>, floor: int, i: nat)
    requires |amounts| == |claims|
  {
    i < |claims| && claims[i].owed > 0.0 && amounts[i] >= floor
  }

  function IsEligible(claims: seq<Claim>, amounts: seq<int>, floor: int): nat -> bool
    requires |amounts| == |claims|
  {
    (i: nat) => Eligible(claims, amounts, floor, i)
  }

  function NotIn(s: seq<nat>): nat -> bool {
    (i: nat) => i !in s
  }

  function Filter(s: seq<nat>, p: nat -> bool): (r: seq<nat>)
    ensures |r| <= |s|
  {
    if s == [] then []
    else
      var n := |s| - 1;
      Filter(s[..n], p) + if p(s[n]) then [s[n]] else []
  }

  lemma {:induction false} FilterIn(s: seq<nat>, p: nat -> bool)
    ensures forall i: nat :: i in Filter(s, p) <==> i in s && p(i)
  {
    if s != [] {
      var n := |s| - 1;
      FilterIn(s[..n], p);
      assert s == s[..n] + [s[n]];
    }
  }

  lemma {:induction false} FilterSorted(keys: seq<real>, s: seq<nat>, p: nat -> bool)
    requires Indices(s, |keys|) && SortedBefore(keys, s)
    ensures Indices(Filter(s, p), |keys|) && SortedBefore(keys, Filter(s, p))
  {
    if s != [] {
      var n := |s| - 1;
      var t, x := Filter(s[..n], p), s[n];
      assert Filter(s, p) == t + if p(x) then [x] else [];
      FilterSorted(keys, s[..n], p);
      FilterIn(s[..n], p);
      forall i | 0 <= i < |t| ensures Before(keys, t[i], x) {
        assert t[i] in t;
        var j :| 0 <= j < n && s[j] == t[i];
      }
      hide Filter;
      assert Indices(t + [x], |keys|);
      forall i, j | 0 <= i < j < |t + [x]| ensures Before(keys, (t + [x])[i], (t + [x])[j]) {
        if j < |t| { assert Before(keys, t[i], t[j]); }
      }
    }
  }

  lemma FilterNothing(p: nat -> bool)
    ensures Filter([], p) == []
  {
  }

  lemma FilterStep(s: seq<nat>, p: nat -> bool, k: nat)
    requires k < |s|
    ensures Filter(s[..k + 1], p) == Filter(s[..k], p) + if p(s[k]) then [s[k]] else []
  {
    assert s[..k + 1][..k] == s[..k];
  }

  lemma {:induction false} FilterTail(s: seq<nat>, p: nat -> bool, k: nat)
    requires k <= |s| && forall i :: k <= i < |s| ==> !p(s[i])
    ensures Filter(s, p) == Filter(s[..k], p)
  {
    if k < |s| {
      var n := |s| - 1;
      FilterTail(s[..n], p, k);
      assert s[..n][..k] == s[..k];
    } else {
      assert s[..k] == s;
    }
  }

  function Prefix(s: seq<nat>, n: nat): seq<nat> {
    if |s| <= n then s else s[..n]
  }

  function Waiting(claims: seq<Claim>, amounts: seq<int>, floor: int): seq<nat>
    requires |amounts| == |claims|
  {
    Filter(Ranks(OwedOf(claims), |claims|), IsEligible(claims, amounts, floor))
  }

  /** The claims given a reserved slot, longest-waiting first. */
  function Promoted(claims: seq<Claim>, expected: nat, amounts: seq<int>, floor: int): seq<nat>
    requires |amounts| == |claims|
  {
    Prefix(Waiting(claims, amounts, floor), ReservedSlots(expected, |claims|))
  }

  /** The payment order: the promoted claims, then everyone else, largest first. */
  function PaymentOrder(claims: seq<Claim>, expected: nat, amounts: seq<int>, floor: int): seq<nat>
    requires |amounts| == |claims|
  {
    var first := Promoted(claims, expected, amounts, floor);
    first + Filter(Ranks(DiffsOf(claims), |claims|), NotIn(first))
  }

  /** The reserved slots, so that they survive the byte budget's cut from the end. */
  method PlaceWaiting(claims: seq<Claim>, reserved: nat, amounts: seq<int>, floor: int) returns (order: seq<nat>)
    requires |amounts| == |claims|
    ensures order == Prefix(Waiting(claims, amounts, floor), reserved)
  {
    hide Ranks, Filter;
    var byOwed := Ranks(OwedOf(claims), |claims|);
    ghost var eligible := IsEligible(claims, amounts, floor);
    order := [];
    FilterNothing(eligible);
    assert byOwed[..0] == [];
    var k := 0;
    while k < |claims| && |order| < reserved
      invariant 0 <= k <= |claims| && |order| <= reserved
      invariant order == Filter(byOwed[..k], eligible)
    {
      var i := byOwed[k];
      if claims[i].owed <= 0.0 {
        OwedOut(claims, amounts, floor, k);
        FilterTail(byOwed, eligible, k);
        return;
      }
      FilterStep(byOwed, eligible, k);
      if !(amounts[i] < floor) { order := order + [i]; }
      k := k + 1;
    }
    FilterPrefix(byOwed, eligible, k);
    if k == |claims| { assert byOwed[..k] == byOwed; }
  }

  /** Then everyone not yet placed, largest claim first. */
  method PlaceRest(bySize: seq<nat>, first: seq<nat>, n: nat) returns (order: seq<nat>)
    requires Indices(bySize, n) && Distinct(bySize)
    ensures order == first + Filter(bySize, NotIn(first))
  {
    order := first;
    var placed := new bool[n](i requires 0 <= i => i in first);
    for k := 0 to |bySize|
      invariant order == first + Filter(bySize[..k], NotIn(first))
      invariant forall i: nat :: i < n ==> (placed[i] <==> i in first || i in bySize[..k])
    {
      var i := bySize[k];
      FilterStep(bySize, NotIn(first), k);
      if !placed[i] {
        order := order + [i];
        placed[i] := true;
      }
      assert bySize[..k + 1] == bySize[..k] + [i];
    }
    assert bySize[..|bySize|] == bySize;
  }

  method OrderClaims(claims: seq<Claim>, expected: nat, amounts: seq<int>, floorSats: int)
    returns (r: Outcome<seq<nat>>)
    requires |amounts| == |claims|
    ensures r.Refused? <==> claims == []
    ensures r.Done? ==> r.value == PaymentOrder(claims, expected, amounts, FloorOf(floorSats))
    ensures r.Done? ==> IsFairOrder(claims, expected, amounts, FloorOf(floorSats), r.value)
  {
    hide IsFairOrder;
    OrderIsPromised(claims, expected, amounts, FloorOf(floorSats));
    if claims == [] { return Refused(NoClaims); }
    var first := PlaceWaiting(claims, ReservedSlots(expected, |claims|), amounts, FloorOf(floorSats));
    RanksDistinct(DiffsOf(claims));
    hide Distinct, Indices, Filter, Ranks, Waiting, NotIn, Prefix, FloorOf;
    var order := PlaceRest(Ranks(DiffsOf(claims), |claims|), first, |claims|);
    r := Done(order);
  }

  /** Past the first claim owed nothing, nobody is owed anything. */
  lemma OwedOut(claims: seq<Claim>, amounts: seq<int>, floor: int, k: nat)
    requires |amounts| == |claims| && k < |claims|
    requires claims[Ranks(OwedOf(claims), |claims|)[k]].owed <= 0.0
    ensures var s := Ranks(OwedOf(claims), |claims|);
      forall i :: k <= i < |s| ==> !Eligible(claims, amounts, floor, s[i])
  {
    RanksSorted(OwedOf(claims), |claims|);
    var s := Ranks(OwedOf(claims), |claims|);
    forall i | k <= i < |s| ensures claims[s[i]].owed <= 0.0 {
      if i > k { assert Before(OwedOf(claims), s[k], s[i]); }
    }
  }

  lemma {:induction false} FilterPrefix(s: seq<nat>, p: nat -> bool, k: nat)
    requires k <= |s|
    ensures Filter(s[..k], p) <= Filter(s, p)
  {
    if k < |s| {
      FilterPrefix(s[..|s| - 1], p, k);
      assert s[..|s| - 1][..k] == s[..k];
    } else {
      assert s[..k] == s;
    }
  }

  lemma RanksDistinct(keys: seq<real>)
    ensures Distinct(Ranks(keys, |keys|))
  {
    RanksSorted(keys, |keys|);
    var s := Ranks(keys, |keys|);
    forall i, j | 0 <= i < j < |s| ensures s[i] != s[j] {
      assert Before(keys, s[i], s[j]);
    }
  }

  /** The order is a permutation of the claims. */
  lemma OrderIsPermutation(claims: seq<Claim>, expected: nat, amounts: seq<int>, floor: int)
    requires |amounts| == |claims|
    ensures IsPerm(PaymentOrder(claims, expected, amounts, floor), |claims|)
  {
    var first := Promoted(claims, expected, amounts, floor);
    var others := NotIn(first);
    var rest := Filter(Ranks(DiffsOf(claims), |claims|), others);
    OrderIsFair(claims, expected, amounts, floor);
    RanksSorted(OwedOf(claims), |claims|);
    RanksSorted(DiffsOf(claims), |claims|);
    FilterIn(Ranks(OwedOf(claims), |claims|), IsEligible(claims, amounts, floor));
    FilterIn(Ranks(DiffsOf(claims), |claims|), others);
    var order := PaymentOrder(claims, expected, amounts, floor);
    assert order == first + rest;
    forall i: nat ensures i in order <==> i < |claims| {
      if i in first { assert i in Waiting(claims, amounts, floor); }
    }
    forall i, j | 0 <= i < j < |order| ensures order[i] != order[j] {
      if j < |first| {
        assert Before(OwedOf(claims), first[i], first[j]);
      } else if i >= |first| {
        assert Before(DiffsOf(claims), rest[i - |first|], rest[j - |first|]);
      } else {
        assert first[i] in first && rest[j - |first|] in rest;
      }
    }
    CoverIsPerm(order, |claims|);
  }

  /**
   Reserved slots go to eligible claims in descending owed fraction, and to nobody
   owed less than a claim passed over; everyone else follows by descending difficulty.
   */
  lemma OrderIsFair(claims: seq<Claim>, expected: nat, amounts: seq<int>, floor: int)
    requires |amounts| == |claims|
    ensures var first := Promoted(claims, expected, amounts, floor);
      var rest := PaymentOrder(claims, expected, amounts, floor)[|first|..];
      && |first| <= ReservedSlots(expected, |claims|)
      && Indices(first, |claims|) && Indices(rest, |claims|)
      && (forall i :: 0 <= i < |first| ==> Eligible(claims, amounts, floor, first[i]))
      && SortedBefore(OwedOf(claims), first)
      && SortedBefore(DiffsOf(claims), rest)
      && (forall x: nat :: Eligible(claims, amounts, floor, x) && x !in first ==>
            |first| == ReservedSlots(expected, |claims|)
            && forall i :: 0 <= i < |first| ==> Before(OwedOf(claims), first[i], x))
  {
    hide Ranks, Filter, Before, Eligible, ReservedSlots;
    var first := Promoted(claims, expected, amounts, floor);
    var rest := PaymentOrder(claims, expected, amounts, floor)[|first|..];
    WaitingIs(claims, amounts, floor);
    RanksSorted(DiffsOf(claims), |claims|);
    FilterSorted(DiffsOf(claims), Ranks(DiffsOf(claims), |claims|), NotIn(first));
    assert rest == Filter(Ranks(DiffsOf(claims), |claims|), NotIn(first));
    PrefixIsFair(OwedOf(claims), Waiting(claims, amounts, floor), ReservedSlots(expected, |claims|));
  }

  /** Owed something, and worth an output. */
  predicate Waits(c: Claim, amount: int, floor: int) {
    c.owed > 0.0 && amount >= floor
  }

  /** By the larger key, and the earlier claim of equal ones. */
  predicate Precedes(a: real, i: nat, b: real, j: nat) {
    a > b || (a == b && i < j)
  }

  /**
   `k` slots are promoted: at most a quarter of those expected and of the claims. They hold
   waiting claims, most owed first, and nobody waiting is left out while a slot is free or
   ahead of one in a slot; everyone else follows, most difficulty first.
   */
  ghost predicate IsPromoted(claims: seq<Claim>, expected: nat, amounts: seq<int>, floor: int, order: seq<nat>, k: nat)
    requires IsPerm(order, |claims|) && |amounts| == |claims|
  {
    && k <= |order| && 4 * k <= expected && 4 * k <= |claims|
    && (forall i :: 0 <= i < k ==> Waits(claims[order[i]], amounts[order[i]], floor))
    && (forall i, j :: 0 <= i < j < k ==>
          Precedes(claims[order[i]].owed, order[i], claims[order[j]].owed, order[j]))
    && (forall i, j :: k <= i < j < |order| ==>
          Precedes(claims[order[i]].difficulty, order[i], claims[order[j]].difficulty, order[j]))
    && (forall j :: k <= j < |order| && Waits(claims[order[j]], amounts[order[j]], floor) ==>
          && (expected < 4 * k + 4 || |claims| < 4 * k + 4)
          && forall i :: 0 <= i < k ==> Precedes(claims[order[i]].owed, order[i], claims[order[j]].owed, order[j]))
  }

  ghost predicate IsFairOrder(claims: seq<Claim>, expected: nat, amounts: seq<int>, floor: int, order: seq<nat>)
    requires |amounts| == |claims|
  {
    IsPerm(order, |claims|) && exists k: nat :: IsPromoted(claims, expected, amounts, floor, order, k)
  }

  /** The payment order is the one the pool promises, claim by claim. */
  lemma OrderIsPromised(claims: seq<Claim>, expected: nat, amounts: seq<int>, floor: int)
    requires |amounts| == |claims|
    ensures IsFairOrder(claims, expected, amounts, floor, PaymentOrder(claims, expected, amounts, floor))
  {
    hide Promoted, PaymentOrder, ReservedSlots, IsPerm;
    OrderIsPermutation(claims, expected, amounts, floor);
    OrderIsFair(claims, expected, amounts, floor);
    var order, first := PaymentOrder(claims, expected, amounts, floor), Promoted(claims, expected, amounts, floor);
    var k := |first|;
    PromotedIsPrefix(claims, expected, amounts, floor);
    PermIndices(order, |claims|);
    var rest := order[k..];
    forall i, j | k <= i < j < |order|
      ensures Precedes(claims[order[i]].difficulty, order[i], claims[order[j]].difficulty, order[j])
    {
      assert Before(DiffsOf(claims), rest[i - k], rest[j - k]);
    }
    forall j | k <= j < |order| && Waits(claims[order[j]], amounts[order[j]], floor)
      ensures (expected < 4 * k + 4 || |claims| < 4 * k + 4)
        && forall i :: 0 <= i < k ==> Precedes(claims[order[i]].owed, order[i], claims[order[j]].owed, order[j])
    {
      assert Eligible(claims, amounts, floor, order[j]);
      assert order[j] !in first by { NotAgain(order, first, |claims|, j); }
      assert forall i :: 0 <= i < k ==> Before(OwedOf(claims), first[i], order[j]);
    }
    assert forall i, j :: 0 <= i < j < k ==> Before(OwedOf(claims), first[i], first[j]);
    assert IsPromoted(claims, expected, amounts, floor, order, k);
  }

  lemma PromotedIsPrefix(claims: seq<Claim>, expected: nat, amounts: seq<int>, floor: int)
    requires |amounts| == |claims|
    ensures Promoted(claims, expected, amounts, floor) <= PaymentOrder(claims, expected, amounts, floor)
  {
    hide Promoted, Filter, Ranks;
  }

  lemma PermIndices(order: seq<nat>, n: nat)
    requires IsPerm(order, n)
    ensures |order| == n && forall i :: 0 <= i < |order| ==> order[i] < n
  {
  }

  lemma NotAgain(order: seq<nat>, first: seq<nat>, n: nat, j: nat)
    requires IsPerm(order, n) && first <= order && |first| <= j < |order|
    ensures order[j] !in first
  {
    assert forall i :: 0 <= i < |first| ==> first[i] == order[i] && order[i] != order[j];
  }

  /** Everyone eligible, in descending owed fraction. */
  lemma WaitingIs(claims: seq<Claim>, amounts: seq<int>, floor: int)
    requires |amounts| == |claims|
    ensures var all := Waiting(claims, amounts, floor);
      && Indices(all, |claims|) && SortedBefore(OwedOf(claims), all)
      && (forall x: nat :: x in all <==> Eligible(claims, amounts, floor, x))
  {
    hide Ranks, Filter, Before;
    var ranks := Ranks(OwedOf(claims), |claims|);
    RanksSorted(OwedOf(claims), |claims|);
    FilterSorted(OwedOf(claims), ranks, IsEligible(claims, amounts, floor));
    FilterIn(ranks, IsEligible(claims, amounts, floor));
  }

  /** A prefix of a ranking is ranked, and everyone left out ranks behind everyone in it. */
  lemma PrefixIsFair(keys: seq<real>, all: seq<nat>, n: nat)
    requires Indices(all, |keys|) && SortedBefore(keys, all)
    ensures var first := Prefix(all, n);
      && |first| <= n && Indices(first, |keys|) && SortedBefore(keys, first)
      && (forall i :: 0 <= i < |first| ==> first[i] in all)
      && (forall x: nat :: x in all && x !in first ==>
            |first| == n && forall i :: 0 <= i < |first| ==> Before(keys, first[i], x))
  {
    hide Before;
    var first := Prefix(all, n);
    forall x: nat | x in all && x !in first
      ensures |first| == n && forall i :: 0 <= i < |first| ==> Before(keys, first[i], x)
    {
      var j :| 0 <= j < |all| && all[j] == x;
      assert j >= |first|;
    }
  }

  /** What ranks before everybody else comes first. */
  lemma FirstRank(keys: seq<real>, all: seq<nat>, x: nat)
    requires Indices(all, |keys|) && SortedBefore(keys, all) && x in all
    requires forall y: nat :: y in all && y != x ==> Before(keys, x, y)
    ensures all[0] == x
  {
    var j :| 0 <= j < |all| && all[j] == x;
    assert all[0] in all;
    hide Before;
    BeforeIsStrict(keys, all[0], all[j]);
  }

  lemma BeforeIsStrict(keys: seq<real>, a: nat, b: nat)
    requires a < |keys| && b < |keys|
    ensures !(Before(keys, a, b) && Before(keys, b, a))
  {
  }

  /** With a slot reserved, the first payee is the longest-waiting claim the floor lets through. */
  lemma LongestWaitingIsFirst(claims: seq<Claim>, expected: nat, amounts: seq<int>, floor: int, x: nat)
    requires |amounts| == |claims| && ReservedSlots(expected, |claims|) > 0
    requires Eligible(claims, amounts, floor, x)
    requires forall y: nat :: Eligible(claims, amounts, floor, y) && y != x ==> Before(OwedOf(claims), x, y)
    ensures PaymentOrder(claims, expected, amounts, floor)[..1] == [x]
  {
    hide Filter, Ranks, Before, Eligible, ReservedSlots;
    var all := Waiting(claims, amounts, floor);
    WaitingIs(claims, amounts, floor);
    hide IsEligible, NotIn;
    FirstRank(OwedOf(claims), all, x);
    assert Promoted(claims, expected, amounts, floor)[0] == x;
  }
}
