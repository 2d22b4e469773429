/**
 From a window of work to the bytes a miner hashes: the split, the order, the resolver
 and the builders composed, and what the finished coinbase pays when it is parsed.
 */
module JobCoinbase {
  import opened Options
  import opened Bytes
  import opened Sums
  import opened CoinbaseTx
  import opened Pplns
  import opened WindowPayout
  import opened PayoutPipeline
  import opened CoinbaseBuilder
  import opened CoinbaseWindows

  function ValuesOf(outs: seq<TxOut>): (r: seq<int>)
    ensures |r| == |outs|
    ensures forall i :: 0 <= i < |r| ==> r[i] == outs[i].value
  {
    seq(|outs|, i requires 0 <= i < |outs| => outs[i].value)
  }

  /** What a transaction pays out in all. */
  function PaidOut(outs: seq<TxOut>): int {
    SumInt(ValuesOf(outs))
  }

  lemma PaidOutConcat(a: seq<TxOut>, b: seq<TxOut>)
    ensures PaidOut(a + b) == PaidOut(a) + PaidOut(b)
  {
    assert ValuesOf(a + b) == ValuesOf(a) + ValuesOf(b);
    SumIntConcat(ValuesOf(a), ValuesOf(b));
  }

  ghost predicate NonNegative(repl: seq<ReplOut>) {
    forall i :: 0 <= i < |repl| ==> repl[i].sats >= 0
  }

  /** Non-negative amounts are printed as themselves. */
  lemma PaidOutRepl(repl: seq<ReplOut>)
    requires AllFitI64(repl) && NonNegative(repl)
    ensures PaidOut(AsOuts(repl)) == ReplTotal(repl)
  {
    assert ValuesOf(AsOuts(repl)) == OutSats(repl);
  }

  /** Splicing a payout into a template leaves the total the template paid unchanged. */
  lemma SpliceConserves(outs: seq<TxOut>, idx: nat, repl: seq<ReplOut>)
    requires idx < |outs| && WellFormedOut(outs[idx]) && AllFitI64(repl) && NonNegative(repl)
    requires ReplTotal(repl) == AsI64(outs[idx].value) && ReplTotal(repl) >= 0
    ensures PaidOut(SplicedOuts(outs, idx, repl)) == PaidOut(outs)
  {
    PaidOutRepl(repl);
    hide SumInt, AsOuts;
    var one := [outs[idx]];
    PaidOutConcat(outs[..idx], AsOuts(repl) + outs[idx + 1..]);
    PaidOutConcat(AsOuts(repl), outs[idx + 1..]);
    PaidOutConcat(outs[..idx], one + outs[idx + 1..]);
    PaidOutConcat(one, outs[idx + 1..]);
    assert outs == outs[..idx] + (one + outs[idx + 1..]);
    assert PaidOut(one) == outs[idx].value by {
      assert ValuesOf(one) == [outs[idx].value];
      SumIntShort(outs[idx].value);
    }
  }

  /** The bytes parse, within the ceiling, to a transaction that pays exactly this much. */
  ghost predicate Pays(cb: seq<Byte>, total: int, limit: nat) {
    && |cb| <= limit
    && ParseTx(cb).Got? && PaidOut(ParseTx(cb).val.tx.outs) == total
  }

  /** A resolved payout, printed from scratch, pays the reward whatever the extranonce. */
  lemma WindowPays(height: nat, tag: seq<Byte>, salt: nat, en: seq<Byte>, wc: Option<seq<Byte>>, repl: seq<ReplOut>,
                   limit: nat)
    requires height < 0x1_0000_0000 && AllFitI64(repl) && NonNegative(repl) && 0 < |repl| < 0xffff_ffff
    requires |en| <= 100 && (wc.Some? ==> |wc.value| <= 256)
    requires var p := WindowParts(WINDOW_VERSION, height, tag, salt, |en|, wc, repl); |p.cb1| + |en| + |p.cb2| <= limit
    ensures var p := WindowParts(WINDOW_VERSION, height, tag, salt, |en|, wc, repl);
      Pays(p.cb1 + en + p.cb2, ReplTotal(repl), limit)
  {
    WindowRoundTrip(WINDOW_VERSION, height, tag, salt, en, wc, repl);
    PaidOutRepl(repl);
    PaidOutConcat(AsOuts(repl), CommitmentOuts(wc));
    hide ParseTx, WindowParts, SumInt;
    assert PaidOut(CommitmentOuts(wc)) == 0 by {
      assert ValuesOf(CommitmentOuts(wc)) == if wc.Some? then [0] else [];
      SumIntShort(0);
    }
  }

  /**
   A payout spliced into a server's coinbase: whatever the extranonce, the bytes the
   miner hashes and the bytes the block carries both pay out exactly what the server's
   own coinbase paid.
   */
  lemma TemplatePays(t: Template, push: seq<Byte>, en: seq<Byte>, repl: seq<ReplOut>)
    requires t.Valid() && AllFitI64(repl) && NonNegative(repl) && SpliceAccepts(t, push, |en|, repl)
    requires |t.Outs()| + |repl| < U64_END && ReplTotal(repl) >= 0
    ensures var p := SplicedParts(t, push, |en|, repl);
      var cb := p.cb1 + en + p.cb2;
      && Pays(cb, PaidOut(t.Outs()), |cb|)
      && |cb| >= 8 && Pays(WithWitness(cb), PaidOut(t.Outs()), |cb| + 36)
  {
    hide ParseTx, SplicedParts, Serialize, SumInt, IsOpReturn;
    SpliceRoundTrip(t, push, en, repl);
    SpliceConserves(t.Outs(), t.idx, repl);
  }

  /** The job's window has payees, and the resolver pays them within the budget. */
  ghost predicate Payable(w: Window, budget: nat, script: string -> Option<Script>) {
    && w.Accepted() && w.PredictedBelow() < |w.claims|
    && ResolveAccepts(w.reward, w.Payees(), w.operator, w.feeBps, budget, w.Floor(), REPL_CAP, script)
  }

  /** With readable addresses that is: accepted, and some claim above the floor fits the budget alone. */
  lemma PayableIff(w: Window, budget: nat, script: string -> Option<Script>)
    requires w.Accepted() && Addressed(w, script)
    ensures Payable(w, budget, script)
      <==> exists i :: 0 <= i < |w.claims| && FitsAlone(w.ByClaim()[i], w.Floor(), budget, script)
  {
    hide SplitPayees, PaymentOrder, FeeOf, FloorOf, ResolveAccepts, SplitAccepts, SumInt;
    WindowIsPaidIff(w, budget, script);
    if i :| 0 <= i < |w.claims| && FitsAlone(w.ByClaim()[i], w.Floor(), budget, script) {
      SomebodyClears(SatsOf(w.ByClaim()), w.Floor(), i);
    }
  }

  /** With one amount at or above the floor, not all of them are below it. */
  lemma {:induction false} SomebodyClears(sats: seq<int>, floor: int, i: nat)
    requires i < |sats| && sats[i] >= floor
    ensures SumInt(BelowMarks(sats, floor)) < |sats|
  {
    var n := |sats| - 1;
    assert BelowMarks(sats, floor)[..n] == BelowMarks(sats[..n], floor);
    if i < n { SomebodyClears(sats[..n], floor, i); } else { MarksAreFew(sats[..n], floor); }
  }

  lemma {:induction false} MarksAreFew(sats: seq<int>, floor: int)
    ensures SumInt(BelowMarks(sats, floor)) <= |sats|
  {
    if sats != [] {
      var n := |sats| - 1;
      assert BelowMarks(sats, floor)[..n] == BelowMarks(sats[..n], floor);
      MarksAreFew(sats[..n], floor);
    }
  }

  /**
   One job, end to end: a coinbase is built exactly when the window is payable, the
   commitment fits and the scriptSig is in range; and then every extranonce the miner
   may splice in gives bytes that parse to a transaction within the ceiling paying
   exactly the block's reward.
   */
  method BuildJobCoinbase(w: Window, height: nat, wc: Option<seq<Byte>>, tag: seq<Byte>, salt: nat, enLen: nat,
                          maxBytes: nat, script: string -> Option<Script>)
    returns (r: Option<(Parts, WindowResult)>)
    requires StandardScripts(script) && height < 0x1_0000_0000 && w.reward < I64_END
    ensures r.Some? <==>
      && Payable(w, BudgetOf(maxBytes, WindowFixed(height, tag, salt, enLen, wc, w.operator)), script)
      && (wc.Some? ==> |wc.value| <= 256)
      && 2 <= |HeightPush(height)| + |TagPush(tag, salt)| + enLen <= 100
    ensures r.Some? ==>
      && w.Accepted()
      && IsPayout(r.value.1, w.reward, w.Payees(), w.operator, w.feeBps,
                  BudgetOf(maxBytes, WindowFixed(height, tag, salt, enLen, wc, w.operator)), w.Floor(),
                  REPL_CAP, script)
      && r.value.1.droppedBelow == w.PredictedBelow()
      && FreshParts(r.value.0, enLen, 2, height, tag, salt, r.value.1.outs, wc)
      && forall en: seq<Byte> :: |en| == enLen ==>
           Pays(r.value.0.cb1 + en + r.value.0.cb2, w.reward, CeilingOf(maxBytes))
  {
    hide FeeOf, FloorOf, BudgetOf, SumInt, BelowMarks, SplitPayees, PaymentOrder;
    hide IsPayout, ResolveAccepts, SplitAccepts;
    hide Pays, WindowParts, AllFitI64, TagPush, HeightPush, WindowFixed, FreshParts;
    var a := AttachWindow(w);
    if a.Refused? { return None; }
    ghost var budget := BudgetOf(maxBytes, WindowFixed(height, tag, salt, enLen, wc, w.operator));
    r := BuildWindow(height, w.reward, a.value.0, w.operator, w.feeBps, wc, tag, salt, enLen, maxBytes, w.floorSats,
                     script);
    if r.None? { return None; }
    BlockIsConserved(w, budget, script, r.value.1);
    PayoutUsable(r.value.1, w.reward, a.value.0, w.operator, w.feeBps, budget, FloorOf(w.floorSats), script);
    forall en: seq<Byte> | |en| == enLen
      ensures Pays(r.value.0.cb1 + en + r.value.0.cb2, w.reward, CeilingOf(maxBytes))
    {
      WindowPays(height, tag, salt, en, wc, r.value.1.outs, CeilingOf(maxBytes));
    }
  }

  // ---- a job on a server's own coinbase ---------------------------------

  /** The window with the reward the server's coinbase actually pays. */
  ghost function OnTemplate(w: Window, buf: seq<Byte>): Window
    requires HasOneReward(buf)
  {
    w.(reward := TemplateOf(buf).Reward())
  }

  ghost function BudgetOn(buf: seq<Byte>, tag: seq<Byte>, salt: nat, enLen: nat, maxBytes: nat): nat
    requires HasOneReward(buf)
  {
    TemplateBudget(TemplateOf(buf), TagPush(tag, salt), enLen, maxBytes)
  }

  /** Hashed and in the block, the bytes pay what the server's coinbase paid. */
  ghost predicate PaysAsTemplate(p: Parts, en: seq<Byte>, t: Template) {
    var cb := p.cb1 + en + p.cb2;
    && Pays(cb, PaidOut(t.Outs()), |cb|)
    && |cb| >= 8 && Pays(WithWitness(cb), PaidOut(t.Outs()), |cb| + 36)
  }

  /**
   The same on a coinbase the server provides. The split is of what that transaction
   pays, not of what the template announces; a coinbase is built exactly when it has one
   spendable output, the window over that reward is payable and the scriptSig is in
   range; and then every extranonce gives bytes paying exactly what the server's paid.
   */
  method BuildJobOnTemplate(w: Window, buf: seq<Byte>, tag: seq<Byte>, salt: nat, enLen: nat, maxBytes: nat,
                            script: string -> Option<Script>)
    returns (r: Option<(Parts, WindowResult)>)
    requires StandardScripts(script) && |buf| <= 0xffff_ffff
    ensures r.Some? <==>
      && HasOneReward(buf)
      && Payable(OnTemplate(w, buf), BudgetOn(buf, tag, salt, enLen, maxBytes), script)
      && ScriptSigFits(TemplateOf(buf).parsed.tx, TagPush(tag, salt), enLen)
    ensures r.Some? ==>
      && HasOneReward(buf)
      && var v := OnTemplate(w, buf);
         && v.Accepted() && r.value.1.droppedBelow == v.PredictedBelow()
         && IsPayout(r.value.1, v.reward, v.Payees(), v.operator, v.feeBps, BudgetOn(buf, tag, salt, enLen, maxBytes),
                     v.Floor(), REPL_CAP, script)
         && ExtendParts(r.value.0, enLen, ParseTx(buf).val.tx, TemplateOf(buf).idx, tag, salt, r.value.1.outs)
         && forall en: seq<Byte> :: |en| == enLen ==> PaysAsTemplate(r.value.0, en, TemplateOf(buf))
  {
    hide FeeOf, FloorOf, BudgetOf, SumInt, BelowMarks, SplitPayees, PaymentOrder;
    hide IsPayout, ResolveAccepts, SplitAccepts;
    hide PaysAsTemplate, ExtendParts, SplicedParts, AllFitI64, TagPush, ParseTx, IsOpReturn, TemplateBudget;
    var t := ReadTemplate(buf);
    if t.None? { return None; }
    TemplateIsUnique(buf, t.value);
    var v := w.(reward := t.value.Reward());
    var a := AttachWindow(v);
    if a.Refused? { return None; }
    ghost var budget := BudgetOn(buf, tag, salt, enLen, maxBytes);
    r := BuildWindowFromTemplate(buf, a.value.0, v.operator, v.feeBps, tag, salt, enLen, maxBytes, v.floorSats, script);
    if r.None? { return None; }
    BlockIsConserved(v, budget, script, r.value.1);
    PayoutUsable(r.value.1, v.reward, a.value.0, v.operator, v.feeBps, budget, FloorOf(v.floorSats), script);
    forall en: seq<Byte> | |en| == enLen ensures PaysAsTemplate(r.value.0, en, t.value) {
      PaysOnTemplate(buf, t.value, TagPush(tag, salt), en, r.value.1.outs);
    }
  }

  lemma PaysOnTemplate(buf: seq<Byte>, t: Template, push: seq<Byte>, en: seq<Byte>, repl: seq<ReplOut>)
    requires t.Valid() && ParseTx(buf).Got? && t.parsed == ParseTx(buf).val && |buf| <= 0xffff_ffff
    requires AllFitI64(repl) && SpliceAccepts(t, push, |en|, repl) && |repl| <= REPL_CAP
    requires forall i :: 0 <= i < |repl| ==> repl[i].sats >= 0
    ensures PaysAsTemplate(SplicedParts(t, push, |en|, repl), en, t)
  {
    hide ParseTx, SumInt, IsOpReturn, WellFormed, SplicedParts, Pays;
    ParsedOutsAreFew(buf);
    SumIntBounds(OutSats(repl), 0);
    TemplatePays(t, push, en, repl);
  }
}
