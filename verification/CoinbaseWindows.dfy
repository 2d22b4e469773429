/** The public builders of src/coinbase.c: one miner, or a whole PPLNS window, under a byte ceiling. */
module CoinbaseWindows {
  import opened Options
  import opened Bytes
  import opened Sums
  import opened CoinbaseTx
  import opened Pplns
  import opened WindowPayout
  import opened CoinbaseBuilder
  import opened CoinbaseWire

  function CeilingOf(maxBytes: nat): nat {
    if maxBytes == 0 then DEFAULT_MAX_BYTES else maxBytes
  }

  /** The template a buffer parses to, when it has one spendable output. */
  ghost function TemplateOf(buf: seq<Byte>): (t: Template)
    requires HasOneReward(buf)
    ensures t.Valid() && t.parsed == ParseTx(buf).val
  {
    ParsedIsWellFormed(buf);
    var i: nat :| OnlySpendable(ParseTx(buf).val.tx.outs, i);
    Template(ParseTx(buf).val, i)
  }

  lemma TemplateIsUnique(buf: seq<Byte>, t: Template)
    requires HasOneReward(buf) && t.Valid() && t.parsed == ParseTx(buf).val
    ensures t == TemplateOf(buf)
  {
    hide ParseTx, WellFormed, IsOpReturn;
  }

  /** Every output takes bytes of its own, so there are no more of them than bytes. */
  lemma {:induction false} OutsAreFew(buf: seq<Byte>, off: nat, n: nat)
    ensures var r := RdOuts(buf, off, n); r.Got? ==> r.off >= off + n
  {
    hide RdVarint, RdLE;
    if n > 0 { OutsAreFew(buf, off, n - 1); }
  }

  lemma ParsedOutsAreFew(buf: seq<Byte>)
    requires ParseTx(buf).Got?
    ensures |ParseTx(buf).val.tx.outs| <= |buf|
  {
    var o2 := RdInput(buf, if IsSegwit(buf, 4) then 6 else 4).off;
    var n := RdVarint(buf, o2);
    OutsAreFew(buf, n.off, n.val);
    hide RdInput, RdOuts, RdWitness, RdLE, RdVarint, IsSegwit;
  }

  /** Whatever the extranonce, the halves extend the server's coinbase. */
  ghost predicate ExtendParts(p: Parts, enLen: nat, of: Tx, idx: nat, tag: seq<Byte>, salt: nat, repl: seq<ReplOut>) {
    forall en: seq<Byte> :: |en| == enLen ==> IsExtendedCoinbase(p.cb1 + en + p.cb2, of, idx, tag, salt, en, repl)
  }

  lemma SplicedPartsExtend(buf: seq<Byte>, t: Template, tag: seq<Byte>, salt: nat, enLen: nat, repl: seq<ReplOut>)
    requires t.Valid() && ParseTx(buf).Got? && t.parsed == ParseTx(buf).val && |buf| <= 0xffff_ffff
    requires AllFitI64(repl) && SpliceAccepts(t, TagPush(tag, salt), enLen, repl) && |repl| <= 0xffff_ffff
    ensures ExtendParts(SplicedParts(t, TagPush(tag, salt), enLen, repl), enLen, t.parsed.tx, t.idx, tag, salt, repl)
  {
    hide ParseTx, SplicedParts, TagPush, IsExtendedCoinbase, IsOpReturn, SpliceAccepts, AllFitI64, WellFormed;
    ParsedOutsAreFew(buf);
    forall en: seq<Byte> | |en| == enLen
      ensures var p := SplicedParts(t, TagPush(tag, salt), enLen, repl);
        IsExtendedCoinbase(p.cb1 + en + p.cb2, t.parsed.tx, t.idx, tag, salt, en, repl)
    {
      SplicedExtends(t, tag, salt, en, repl);
    }
  }

  // ---- one miner ------------------------------------------------------

  /** One miner and an optional operator fee. */
  function SingleOutputs(reward: int, miner: string, operator: string, feeBps: int,
                         script: string -> Option<Script>): (r: Option<seq<ReplOut>>)
  {
    var fee := if reward > 0 then FeeOf(reward, feeBps, operator != "") else 0;
    if fee > 0 && script(operator).None? then None
    else if script(miner).None? then None
    else
      Some([ReplOut(script(miner).value, reward - fee)]
           + if fee > 0 then [ReplOut(script(operator).value, fee)] else [])
  }

  /** A single payout always spends the reward exactly, so the splice's total check never fires. */
  lemma SingleSpendsAll(reward: int, miner: string, operator: string, feeBps: int, script: string -> Option<Script>)
    ensures var r := SingleOutputs(reward, miner, operator, feeBps, script);
      r.Some? ==> r.value != [] && ReplTotal(r.value) == reward
  {
    var r := SingleOutputs(reward, miner, operator, feeBps, script);
    if r.Some? {
      var m := r.value[0].sats;
      SumIntShort(m);
      if |r.value| == 2 {
        assert OutSats(r.value) == [m] + [r.value[1].sats];
        SumIntAppend([m], r.value[1].sats);
      } else {
        assert OutSats(r.value) == [m];
      }
    }
  }

  method BuildFromTemplate(buf: seq<Byte>, miner: string, operator: string, feeBps: int, tag: seq<Byte>, salt: nat,
                           enLen: nat, script: string -> Option<Script>) returns (r: Option<Parts>)
    requires StandardScripts(script) && 0 <= feeBps <= 10000
    ensures r.Some? <==>
      && HasOneReward(buf)
      && SingleOutputs(TemplateOf(buf).Reward(), miner, operator, feeBps, script).Some?
      && ScriptSigFits(TemplateOf(buf).parsed.tx, TagPush(tag, salt), enLen)
    ensures r.Some? ==>
      && HasOneReward(buf)
      && var t := TemplateOf(buf);
         var repl := SingleOutputs(t.Reward(), miner, operator, feeBps, script);
         && repl.Some? && AllFitI64(repl.value) && ReplTotal(repl.value) == t.Reward()
         && SpliceAccepts(t, TagPush(tag, salt), enLen, repl.value)
         && r.value == SplicedParts(t, TagPush(tag, salt), enLen, repl.value)
         && (|buf| <= 0xffff_ffff ==> ExtendParts(r.value, enLen, t.parsed.tx, t.idx, tag, salt, repl.value))
  {
    hide SumInt, TagPush, ParseTx, IsOpReturn, SplicedParts, ExtendParts;
    var t := ReadTemplate(buf);
    if t.None? { return None; }
    TemplateIsUnique(buf, t.value);
    var reward := t.value.Reward();
    var repl := SingleOutputs(reward, miner, operator, feeBps, script);
    if repl.None? { return None; }
    SingleSpendsAll(reward, miner, operator, feeBps, script);
    SingleFits(reward, miner, operator, feeBps, script);
    r := Splice(t.value, TagPush(tag, salt), enLen, repl.value);
    if r.Some? && |buf| <= 0xffff_ffff { SplicedPartsExtend(buf, t.value, tag, salt, enLen, repl.value); }
  }

  lemma SingleFits(reward: int, miner: string, operator: string, feeBps: int, script: string -> Option<Script>)
    requires StandardScripts(script) && -I64_END <= reward < I64_END && 0 <= feeBps <= 10000
    ensures var r := SingleOutputs(reward, miner, operator, feeBps, script); r.Some? ==> AllFitI64(r.value)
  {
    FeeWithinReward(reward, feeBps, operator != "");
    hide FeeOf;
  }

  lemma FeeWithinReward(reward: int, feeBps: int, haveOperator: bool)
    requires 0 <= feeBps <= 10000
    ensures reward > 0 ==> 0 <= FeeOf(reward, feeBps, haveOperator) <= reward
  {
    if reward > 0 {
      assert reward * feeBps <= reward * 10000;
    }
  }

  lemma FeeNeedsOperator(value: int, feeBps: int, operator: string)
    ensures FeeOf(value, feeBps, operator != "") > 0 ==> operator != ""
  {
  }

  /** The extended scriptSig stays within consensus bounds. */
  predicate ScriptSigFits(tx: Tx, push: seq<Byte>, enLen: nat) {
    2 <= |tx.scriptSig| + |push| + enLen <= 100
  }

  // ---- a window, spliced into a template -------------------------------

  /** The operator's output is not reserved on this path, so it may exceed the ceiling by that much. */
  function TemplateSlack(fee: int, count: nat): nat {
    (if fee > 0 then OutSize(34) else 0) + VarintSize(count)
  }

  /** What the payouts may cost once everything else in the coinbase is paid for. */
  function TemplateBudget(t: Template, push: seq<Byte>, enLen: nat, maxBytes: nat): nat
    requires t.idx < |t.Outs()|
  {
    BudgetOf(maxBytes, Envelope(|t.parsed.tx.scriptSig| + |push| + enLen) + OutsSize(Others(t.Outs(), t.idx)))
  }

  method BuildWindowFromTemplate(buf: seq<Byte>, payees: seq<Payee>, operator: string, feeBps: int,
                                 tag: seq<Byte>, salt: nat, enLen: nat, maxBytes: nat, floorSats: int,
                                 script: string -> Option<Script>)
    returns (r: Option<(Parts, WindowResult)>)
    requires StandardScripts(script) && |buf| <= 0xffff_ffff
    ensures r.Some? <==>
      && HasOneReward(buf)
      && ResolveAccepts(TemplateOf(buf).Reward(), payees, operator, feeBps,
                        TemplateBudget(TemplateOf(buf), TagPush(tag, salt), enLen, maxBytes), FloorOf(floorSats),
                        REPL_CAP, script)
      && ScriptSigFits(TemplateOf(buf).parsed.tx, TagPush(tag, salt), enLen)
    ensures r.Some? ==>
      && HasOneReward(buf)
      && var t := TemplateOf(buf);
         var push := TagPush(tag, salt);
         && IsPayout(r.value.1, t.Reward(), payees, operator, feeBps, TemplateBudget(t, push, enLen, maxBytes),
                     FloorOf(floorSats), REPL_CAP, script)
         && AllFitI64(r.value.1.outs) && SpliceAccepts(t, push, enLen, r.value.1.outs)
         && r.value.0 == SplicedParts(t, push, enLen, r.value.1.outs)
         && |r.value.0.cb1| + enLen + |r.value.0.cb2| + 3
            <= CeilingOf(maxBytes) + TemplateSlack(r.value.1.fee, |t.Outs()| - 1 + |r.value.1.outs|)
         && ExtendParts(r.value.0, enLen, t.parsed.tx, t.idx, tag, salt, r.value.1.outs)
  {
    hide SumInt, TagPush, ParseTx, IsOpReturn, SplicedParts, IsPayout, OutsSize, Envelope, FloorOf, ResolveAccepts;
    hide ExtendParts;
    var t := ReadTemplate(buf);
    if t.None? { return None; }
    TemplateIsUnique(buf, t.value);
    var push := TagPush(tag, salt);
    var fixedBytes := FixedBytes(t.value, |push| + enLen);
    var reward := t.value.Reward();
    var w := ResolveWindow(reward, payees, operator, feeBps, maxBytes, fixedBytes, floorSats, REPL_CAP, script);
    if w.Refused? { return None; }
    ghost var budget := BudgetOf(maxBytes, fixedBytes);
    PayoutUsable(w.value, reward, payees, operator, feeBps, budget, FloorOf(floorSats), script);
    var parts := Splice(t.value, push, enLen, w.value.outs);
    if parts.None? { return None; }
    TemplateCeiling(buf, t.value, push, enLen, maxBytes, w.value);
    SplicedPartsExtend(buf, t.value, tag, salt, enLen, w.value.outs);
    r := Some((parts.value, w.value));
  }

  lemma PayoutUsable(r: WindowResult, value: int, payees: seq<Payee>, operator: string, feeBps: int,
                     budget: nat, floor: int, script: string -> Option<Script>)
    requires StandardScripts(script) && value < I64_END && floor > 0
    requires ResolveAccepts(value, payees, operator, feeBps, budget, floor, REPL_CAP, script)
    requires IsPayout(r, value, payees, operator, feeBps, budget, floor, REPL_CAP, script)
    ensures AllFitI64(r.outs) && r.outs != [] && ReplTotal(r.outs) == value
    ensures forall i :: 0 <= i < |r.outs| ==> |r.outs[i].spk| <= 34 && r.outs[i].sats >= 0
    ensures r.fee == FeeOf(value, feeBps, operator != "") && budget > 0
    ensures BytesOf(r.outs) <= budget + if r.fee > 0 then OutSize(34) else 0
    ensures 0 < |r.outs| <= REPL_CAP
  {
    PayoutFits(r, value, payees, operator, feeBps, budget, floor, REPL_CAP, script);
    PayoutBytes(r, value, payees, operator, feeBps, budget, floor, REPL_CAP, script);
    SomeBudget(r, value, payees, operator, feeBps, budget, floor, script);
    hide SumInt, FeeOf, Select, MinersPaid;
  }

  /** An output costs at least nine bytes, so nobody is paid out of an empty budget. */
  lemma SomeBudget(r: WindowResult, value: int, payees: seq<Payee>, operator: string, feeBps: int,
                   budget: nat, floor: int, script: string -> Option<Script>)
    requires IsPayout(r, value, payees, operator, feeBps, budget, floor, REPL_CAP, script)
    ensures budget > 0
  {
    hide SumInt, FeeOf, Select, IsScaled, PaysMiners, Marks, BelowMarks, OutSize;
    var miners := r.outs[..r.paidCount];
    assert miners != [];
    assert BytesOf(miners) >= OutSize(|miners[|miners| - 1].spk|);
  }

  /** The bytes of a spliced coinbase, extranonces included, to the byte. */
  lemma TemplateSize(buf: seq<Byte>, t: Template, push: seq<Byte>, enLen: nat, repl: seq<ReplOut>)
    requires t.Valid() && ParseTx(buf).Got? && t.parsed == ParseTx(buf).val && |buf| <= 0xffff_ffff
    requires AllFitI64(repl) && SpliceAccepts(t, push, enLen, repl)
    ensures var p := SplicedParts(t, push, enLen, repl);
      |p.cb1| + enLen + |p.cb2| + 3
        == Envelope(|t.parsed.tx.scriptSig| + |push| + enLen) + OutsSize(Others(t.Outs(), t.idx))
           + VarintSize(|t.Outs()| - 1 + |repl|) + BytesOf(repl)
  {
    hide SumInt, Envelope, OutsSize, BytesOf, OutSize, SerOuts, IsOpReturn, ParseTx;
    var tx := t.parsed.tx;
    ParsedScriptsAreShort(buf);
    SplicedSize(t.Outs(), t.idx, repl);
    var outs := SplicedOuts(t.Outs(), t.idx, repl);
    HalvesSize(tx.version, tx.prevout, tx.scriptSig + push, enLen, tx.sequence, |outs|, SerOuts(outs), tx.locktime);
    hide Cb1, Cb2;
  }

  lemma TemplateCeiling(buf: seq<Byte>, t: Template, push: seq<Byte>, enLen: nat, maxBytes: nat, r: WindowResult)
    requires t.Valid() && ParseTx(buf).Got? && t.parsed == ParseTx(buf).val && |buf| <= 0xffff_ffff
    requires AllFitI64(r.outs) && SpliceAccepts(t, push, enLen, r.outs)
    requires var budget := TemplateBudget(t, push, enLen, maxBytes);
      budget > 0 && BytesOf(r.outs) <= budget + if r.fee > 0 then OutSize(34) else 0
    ensures var p := SplicedParts(t, push, enLen, r.outs);
      |p.cb1| + enLen + |p.cb2| + 3 <= CeilingOf(maxBytes) + TemplateSlack(r.fee, |t.Outs()| - 1 + |r.outs|)
  {
    TemplateSize(buf, t, push, enLen, r.outs);
    hide SplicedParts, Envelope, OutsSize, BytesOf, OutSize, VarintSize, IsOpReturn, ParseTx;
  }

  /** What a template's payout asks of the budget: the greedy pass, the operator's output and the output count. */
  function TemplateNeeds(t: Template, payees: seq<Payee>, operator: string, feeBps: int, budget: nat, floor: int,
                         script: string -> Option<Script>): nat
    requires t.idx < |t.Outs()| && t.Outs()[t.idx].value < U64_END
    requires Select(payees, floor, REPL_CAP, budget, script, |payees|).Some?
  {
    var p := Select(payees, floor, REPL_CAP, budget, script, |payees|).value;
    var fee := FeeOf(t.Reward(), feeBps, operator != "");
    p.bytes + OperatorBytes(t.Reward(), operator, feeBps, script)
      + VarintSize(|t.Outs()| - 1 + |p.paid| + if fee > 0 then 1 else 0)
  }

  /**
   A window spliced into a template stays within the byte ceiling exactly when what the
   greedy pass spent, the operator's output and the output count fit the budget and
   the three bytes set aside for the count.
   */
  lemma TemplateFitsIff(buf: seq<Byte>, t: Template, payees: seq<Payee>, operator: string, feeBps: int,
                        push: seq<Byte>, enLen: nat, maxBytes: nat, floor: int, script: string -> Option<Script>,
                        r: WindowResult)
    requires t.Valid() && ParseTx(buf).Got? && t.parsed == ParseTx(buf).val && |buf| <= 0xffff_ffff
    requires AllFitI64(r.outs) && SpliceAccepts(t, push, enLen, r.outs)
    requires IsPayout(r, t.Reward(), payees, operator, feeBps, TemplateBudget(t, push, enLen, maxBytes), floor,
                      REPL_CAP, script)
    ensures var p := SplicedParts(t, push, enLen, r.outs);
      var budget := TemplateBudget(t, push, enLen, maxBytes);
      && Select(payees, floor, REPL_CAP, budget, script, |payees|).Some?
      && var needs := TemplateNeeds(t, payees, operator, feeBps, budget, floor, script);
         |p.cb1| + enLen + |p.cb2| <= CeilingOf(maxBytes) <==> needs <= budget + 3
  {
    hide SplicedParts, Envelope, OutsSize, OutSize, VarintSize, IsOpReturn, ParseTx;
    hide Select, IsPayout, FeeOf, OperatorBytes, SumInt;
    var budget := TemplateBudget(t, push, enLen, maxBytes);
    TemplateSize(buf, t, push, enLen, r.outs);
    PayoutCosts(r, t.Reward(), payees, operator, feeBps, budget, floor, REPL_CAP, script);
    SomeBudget(r, t.Reward(), payees, operator, feeBps, budget, floor, script);
    hide BytesOf, SpliceAccepts;
  }

  /** Without a fee, and with an output count of at most three bytes, the ceiling holds. */
  lemma TemplateFitsWithoutFee(t: Template, payees: seq<Payee>, operator: string, feeBps: int, budget: nat, floor: int,
                               script: string -> Option<Script>)
    requires t.idx < |t.Outs()| && t.Outs()[t.idx].value < U64_END
    requires Select(payees, floor, REPL_CAP, budget, script, |payees|).Some?
    requires FeeOf(t.Reward(), feeBps, operator != "") == 0
    requires |t.Outs()| - 1 + |Select(payees, floor, REPL_CAP, budget, script, |payees|).value.paid| <= 0xffff
    ensures TemplateNeeds(t, payees, operator, feeBps, budget, floor, script) <= budget + 3
  {
    hide FeeOf, OutSize, SumInt, BelowMarks, Select;
    SelectFits(payees, floor, REPL_CAP, budget, script, |payees|);
  }

  /** A ceiling that leaves room for one 34-byte script besides the template's own bytes. */
  ghost function OneOutputCeiling(t: Template, push: seq<Byte>, enLen: nat): nat
    requires t.idx < |t.Outs()|
  {
    Envelope(|t.parsed.tx.scriptSig| + |push| + enLen) + OutsSize(Others(t.Outs(), t.idx)) + OutSize(34)
  }

  /**
   The ceiling does fail: any template, one miner whose output fills the budget, and an
   operator with a fee give a coinbase that is built and is over it.
   */
  lemma FeeGoesOverCeiling(tx: Tx, idx: nat, miner: string, operator: string, feeBps: int, push: seq<Byte>, enLen: nat,
                           floor: int, script: string -> Option<Script>, r: WindowResult)
    requires WellFormed(tx) && OnlySpendable(tx.outs, idx) && |Serialize(tx)| <= 0xffff_ffff
    requires var t := Template(Parsed(tx, NoWitness), idx);
      var fee := FeeOf(t.Reward(), feeBps, operator != "");
      && t.Reward() > 0 && fee > 0 && t.Reward() - fee >= floor && t.Reward() - fee >= 0
      && miner != "" && script(miner).Some? && |script(miner).value| == 34 && script(operator).Some?
      && StandardScripts(script) && floor > 0 && ScriptSigFits(tx, push, enLen)
    ensures var t := Template(Parsed(tx, NoWitness), idx);
      var payees := [Payee(miner, t.Reward() - FeeOf(t.Reward(), feeBps, operator != ""))];
      var maxBytes := OneOutputCeiling(t, push, enLen);
      var budget := TemplateBudget(t, push, enLen, maxBytes);
      && HasOneReward(Serialize(tx)) && TemplateOf(Serialize(tx)) == t
      && ResolveAccepts(t.Reward(), payees, operator, feeBps, budget, floor, REPL_CAP, script)
      && (IsPayout(r, t.Reward(), payees, operator, feeBps, budget, floor, REPL_CAP, script) ==>
            && AllFitI64(r.outs) && SpliceAccepts(t, push, enLen, r.outs)
            && var p := SplicedParts(t, push, enLen, r.outs);
               |p.cb1| + enLen + |p.cb2| > CeilingOf(maxBytes))
  {
    hide ParseTx, Serialize, FeeOf, Envelope, OutsSize, IsOpReturn, ResolveAccepts, IsPayout, SplicedParts, WellFormed;
    var t := Template(Parsed(tx, NoWitness), idx);
    var buf := Serialize(tx);
    ParseOfSerialize(tx);
    assert OnlySpendable(ParseTx(buf).val.tx.outs, idx);
    TemplateIsUnique(buf, t);
    var fee := FeeOf(t.Reward(), feeBps, operator != "");
    var pe := Payee(miner, t.Reward() - fee);
    var maxBytes := OneOutputCeiling(t, push, enLen);
    var budget := TemplateBudget(t, push, enLen, maxBytes);
    assert budget == OutSize(34);
    OnePayee(pe, t.Reward(), operator, feeBps, budget, floor, script);
    if IsPayout(r, t.Reward(), [pe], operator, feeBps, budget, floor, REPL_CAP, script) {
      PayoutUsable(r, t.Reward(), [pe], operator, feeBps, budget, floor, script);
      TemplateFitsIff(buf, t, [pe], operator, feeBps, push, enLen, maxBytes, floor, script, r);
    }
  }

  /** A single claim that fills the budget is selected, and then there is no room for the operator. */
  lemma OnePayee(pe: Payee, value: int, operator: string, feeBps: int, budget: nat, floor: int,
                 script: string -> Option<Script>)
    requires value > 0 && FeeOf(value, feeBps, operator != "") > 0
    requires pe.sats == value - FeeOf(value, feeBps, operator != "")
    requires pe.sats >= floor && pe.sats >= 0 && pe.address != "" && script(operator).Some?
    requires script(pe.address).Some? && OutSize(|script(pe.address).value|) == budget
    ensures ResolveAccepts(value, [pe], operator, feeBps, budget, floor, REPL_CAP, script)
    ensures Select([pe], floor, REPL_CAP, budget, script, 1) == Some(Picked([0], budget, 0, 0, 0))
    ensures OperatorBytes(value, operator, feeBps, script) >= 9
  {
    hide FeeOf;
    assert SatsOf([pe]) == [pe.sats];
    SumIntShort(pe.sats);
    assert Select([pe], floor, REPL_CAP, budget, script, 0) == Some(Picked([], 0, 0, 0, 0));
    assert [] + [0] == [0];
    var none := Picked([], 0, 0, 0, 0);
    assert SelectOne(pe, floor, REPL_CAP, budget, script, 0, none) == Some(Picked([0], budget, 0, 0, 0));
  }

  /** A script inside a buffer is no longer than the buffer. */
  lemma ParsedScriptsAreShort(buf: seq<Byte>)
    requires ParseTx(buf).Got?
    ensures forall i :: 0 <= i < |ParseTx(buf).val.tx.outs| ==> |ParseTx(buf).val.tx.outs[i].spk| <= |buf|
  {
    var o1 := if IsSegwit(buf, 4) then 6 else 4;
    var o2 := RdInput(buf, o1).off;
    var n := RdVarint(buf, o2);
    OutScriptsAreShort(buf, n.off, n.val);
    hide RdInput, RdOuts, RdWitness, RdLE, RdVarint, IsSegwit;
  }

  lemma {:induction false} OutScriptsAreShort(buf: seq<Byte>, off: nat, n: nat)
    ensures var r := RdOuts(buf, off, n); r.Got? ==> forall i :: 0 <= i < n ==> |r.val[i].spk| <= |buf|
  {
    hide RdLE, RdVarint;
    if n > 0 { OutScriptsAreShort(buf, off, n - 1); }
  }

  // ---- a window, from scratch ------------------------------------------

  /** The transaction versions of the two from-scratch builders. */
  const WINDOW_VERSION: nat := 2
  const SPLIT_VERSION: nat := 1

  /** The null previous output of a coinbase. */
  const NULL_PREVOUT: seq<Byte> := ZERO_32 + [0xff, 0xff, 0xff, 0xff]

  /** The witness commitment output, if there is one. */
  function CommitmentOuts(wc: Option<seq<Byte>>): seq<TxOut> {
    if wc.Some? then [TxOut(0, wc.value)] else []
  }

  function WindowFixed(height: nat, tag: seq<Byte>, salt: nat, enLen: nat, wc: Option<seq<Byte>>, operator: string): nat
    requires height < 0x1_0000_0000
  {
    Envelope(|HeightPush(height)| + TagPushLen(tag, salt) + enLen)
    + (if wc.Some? then OutSize(|wc.value|) else 0)
    + (if operator != "" then OutSize(34) else 0)
  }

  /** The transaction a from-scratch window coinbase stands for. */
  ghost function WindowTx(version: nat, height: nat, tag: seq<Byte>, salt: nat, en: seq<Byte>, wc: Option<seq<Byte>>,
                          repl: seq<ReplOut>): Tx
    requires height < 0x1_0000_0000 && AllFitI64(repl)
  {
    Tx(version, NULL_PREVOUT, HeightPush(height) + TagPush(tag, salt) + en, 0xffff_ffff,
       AsOuts(repl) + CommitmentOuts(wc), 0)
  }

  method PrintWindowOuts(repl: seq<ReplOut>, wc: Option<seq<Byte>>) returns (ob: seq<Byte>, count: nat)
    requires AllFitI64(repl)
    ensures ob == SerOuts(AsOuts(repl) + CommitmentOuts(wc)) && count == |AsOuts(repl) + CommitmentOuts(wc)|
  {
    hide SerOut, SerOuts, AllFitI64;
    NoOuts();
    ob := PrintRepl([], repl);
    count := |repl|;
    if wc.Some? {
      SerOutsAppend(AsOuts(repl), TxOut(0, wc.value));
      ob := ob + SerOut(TxOut(0, wc.value));
      count := count + 1;
    } else {
      assert AsOuts(repl) + CommitmentOuts(wc) == AsOuts(repl);
    }
  }

  /** The halves of a from-scratch window coinbase. */
  ghost function WindowParts(version: nat, height: nat, tag: seq<Byte>, salt: nat, enLen: nat, wc: Option<seq<Byte>>,
                             repl: seq<ReplOut>): Parts
    requires height < 0x1_0000_0000 && AllFitI64(repl)
  {
    var head := HeightPush(height) + TagPush(tag, salt);
    var outs := AsOuts(repl) + CommitmentOuts(wc);
    Parts(Cb1(version, NULL_PREVOUT, |head| + enLen, head), Cb2(0xffff_ffff, |outs|, SerOuts(outs), 0))
  }

  method BuildWindow(height: nat, value: int, payees: seq<Payee>, operator: string, feeBps: int,
                     wc: Option<seq<Byte>>, tag: seq<Byte>, salt: nat, enLen: nat, maxBytes: nat,
                     floorSats: int, script: string -> Option<Script>)
    returns (r: Option<(Parts, WindowResult)>)
    requires StandardScripts(script) && height < 0x1_0000_0000 && value < I64_END
    ensures r.Some? <==>
      && ResolveAccepts(value, payees, operator, feeBps,
                        BudgetOf(maxBytes, WindowFixed(height, tag, salt, enLen, wc, operator)), FloorOf(floorSats),
                        REPL_CAP, script)
      && (wc.Some? ==> |wc.value| <= 256)
      && 2 <= |HeightPush(height)| + |TagPush(tag, salt)| + enLen <= 100
    ensures r.Some? ==>
      var budget := BudgetOf(maxBytes, WindowFixed(height, tag, salt, enLen, wc, operator));
      && IsPayout(r.value.1, value, payees, operator, feeBps, budget, FloorOf(floorSats), REPL_CAP, script)
      && AllFitI64(r.value.1.outs)
      && r.value.0 == WindowParts(WINDOW_VERSION, height, tag, salt, enLen, wc, r.value.1.outs)
      && |r.value.0.cb1| + enLen + |r.value.0.cb2| <= CeilingOf(maxBytes)
      && FreshParts(r.value.0, enLen, 2, height, tag, salt, r.value.1.outs, wc)
  {
    hide FreshParts;
    hide SumInt, TagPush, TagPushLen, HeightPush, IsPayout, FloorOf, ResolveAccepts;
    hide FeeOf, SerOuts, LE, Varint, Cb1, Cb2;
    hide WindowFixed, AllFitI64, BytesOf, AsOuts;
    var fixedBytes := WindowFixed(height, tag, salt, enLen, wc, operator);
    var w := ResolveWindow(value, payees, operator, feeBps, maxBytes, fixedBytes, floorSats, REPL_CAP, script);
    if w.Refused? { return None; }
    FeeNeedsOperator(value, feeBps, operator);
    PayoutUsable(w.value, value, payees, operator, feeBps, BudgetOf(maxBytes, fixedBytes), FloorOf(floorSats), script);
    if wc.Some? && |wc.value| > 256 { return None; }
    var ob, count := PrintWindowOuts(w.value.outs, wc);
    var emitted := SumRepl(w.value.outs);
    assert emitted == value;
    var head := HeightPush(height) + TagPush(tag, salt);
    if |head| + enLen < 2 || |head| + enLen > 100 { return None; }
    var parts := Parts(Cb1(WINDOW_VERSION, NULL_PREVOUT, |head| + enLen, head), Cb2(0xffff_ffff, count, ob, 0));
    WindowCeiling(height, tag, salt, enLen, wc, operator, maxBytes, w.value);
    WindowPartsAreFresh(WINDOW_VERSION, height, tag, salt, enLen, wc, w.value.outs);
    r := Some((parts, w.value));
  }

  /** Extranonces included, a from-scratch coinbase never exceeds its byte ceiling. */
  lemma WindowCeiling(height: nat, tag: seq<Byte>, salt: nat, enLen: nat, wc: Option<seq<Byte>>, operator: string,
                      maxBytes: nat, r: WindowResult)
    requires height < 0x1_0000_0000 && AllFitI64(r.outs) && |r.outs| <= REPL_CAP && (wc.Some? ==> |wc.value| <= 256)
    requires |HeightPush(height)| + |TagPush(tag, salt)| + enLen <= 100
    requires r.fee > 0 ==> operator != ""
    requires var budget := BudgetOf(maxBytes, WindowFixed(height, tag, salt, enLen, wc, operator));
      budget > 0 && BytesOf(r.outs) <= budget + if r.fee > 0 then OutSize(34) else 0
    ensures var p := WindowParts(WINDOW_VERSION, height, tag, salt, enLen, wc, r.outs);
      |p.cb1| + enLen + |p.cb2| <= CeilingOf(maxBytes)
  {
    hide TagPush, TagPushLen, HeightPush, SerOuts, AllFitI64, BytesOf, AsOuts, OutSize, Envelope;
    var head := HeightPush(height) + TagPush(tag, salt);
    var outs := AsOuts(r.outs) + CommitmentOuts(wc);
    HalvesSize(WINDOW_VERSION, NULL_PREVOUT, head, enLen, 0xffff_ffff, |outs|, SerOuts(outs), 0);
    WindowOutsSize(r.outs, wc);
    hide Cb1, Cb2;
  }

  lemma WindowOutsSize(repl: seq<ReplOut>, wc: Option<seq<Byte>>)
    requires AllFitI64(repl) && (wc.Some? ==> |wc.value| <= 256)
    ensures |SerOuts(AsOuts(repl) + CommitmentOuts(wc))| == BytesOf(repl) + if wc.Some? then OutSize(|wc.value|) else 0
  {
    hide AsOuts, BytesOf;
    AsOutsSize(repl);
    if wc.Some? {
      SerOutsAppend(AsOuts(repl), TxOut(0, wc.value));
    } else {
      assert AsOuts(repl) + CommitmentOuts(wc) == AsOuts(repl);
    }
  }

  /** Whatever the extranonce, the from-scratch coinbase parses to the transaction it stands for. */
  lemma WindowRoundTrip(version: nat, height: nat, tag: seq<Byte>, salt: nat, en: seq<Byte>, wc: Option<seq<Byte>>,
                        repl: seq<ReplOut>)
    requires version < 0x1_0000_0000 && height < 0x1_0000_0000 && AllFitI64(repl) && 0 < |repl| < 0xffff_ffff
    requires |en| <= 100 && (wc.Some? ==> |wc.value| <= 256)
    ensures var p := WindowParts(version, height, tag, salt, |en|, wc, repl);
      var tx := WindowTx(version, height, tag, salt, en, wc, repl);
      && p.cb1 + en + p.cb2 == Serialize(tx)
      && ParseTx(p.cb1 + en + p.cb2) == Got(Parsed(tx, NoWitness), |p.cb1 + en + p.cb2|)
  {
    hide TagPush, HeightPush, ParseTx, Serialize, AsOut, Cb1, Cb2, SerOuts;
    var tx := WindowTx(version, height, tag, salt, en, wc, repl);
    HalvesSerialize(tx, HeightPush(height) + TagPush(tag, salt), en);
    ParseOfSerialize(tx);
  }

  /** Whatever the extranonce, the halves are a coinbase of their own with this payout. */
  ghost predicate FreshParts(p: Parts, enLen: nat, version: nat, height: nat, tag: seq<Byte>, salt: nat,
                             repl: seq<ReplOut>, wc: Option<seq<Byte>>)
  {
    forall en: seq<Byte> :: |en| == enLen ==>
      IsFreshCoinbase(p.cb1 + en + p.cb2, version, height, tag, salt, en, repl, wc)
  }

  lemma WindowIsFresh(version: nat, height: nat, tag: seq<Byte>, salt: nat, en: seq<Byte>, wc: Option<seq<Byte>>,
                      repl: seq<ReplOut>)
    requires version < 0x1_0000_0000 && height < 0x1_0000_0000 && AllFitI64(repl) && 0 < |repl| < 0xffff_ffff
    requires |en| <= 100 && (wc.Some? ==> |wc.value| <= 256)
    ensures var p := WindowParts(version, height, tag, salt, |en|, wc, repl);
      IsFreshCoinbase(p.cb1 + en + p.cb2, version, height, tag, salt, en, repl, wc)
  {
    hide ParseTx, WindowParts, Serialize, HeightPush, TagPush, AsOuts, AsOut, PaysOut, IsFreshScript, AllFitI64;
    WindowRoundTrip(version, height, tag, salt, en, wc, repl);
    FreshScriptIs(height, tag, salt, en);
    AsOutsPay(repl);
  }

  lemma WindowPartsAreFresh(version: nat, height: nat, tag: seq<Byte>, salt: nat, enLen: nat, wc: Option<seq<Byte>>,
                            repl: seq<ReplOut>)
    requires version < 0x1_0000_0000 && height < 0x1_0000_0000 && AllFitI64(repl) && 0 < |repl| < 0xffff_ffff
    requires enLen <= 100 && (wc.Some? ==> |wc.value| <= 256)
    ensures var p := WindowParts(version, height, tag, salt, enLen, wc, repl);
      FreshParts(p, enLen, version, height, tag, salt, repl, wc)
  {
    hide WindowParts, IsFreshCoinbase, AllFitI64;
    forall en: seq<Byte> | |en| == enLen
      ensures var p := WindowParts(version, height, tag, salt, enLen, wc, repl);
        IsFreshCoinbase(p.cb1 + en + p.cb2, version, height, tag, salt, en, repl, wc)
    {
      WindowIsFresh(version, height, tag, salt, en, wc, repl);
    }
  }

  // ---- one payee, from scratch -----------------------------------------

  /** One payee and an optional operator fee, printed from scratch. */
  method BuildSplit(height: nat, value: int, payee: string, operator: string, feeBps: int, wc: Option<seq<Byte>>,
                    tag: seq<Byte>, salt: nat, enLen: nat, script: string -> Option<Script>)
    returns (r: Option<Parts>)
    requires StandardScripts(script) && height < 0x1_0000_0000
    requires -I64_END <= value < I64_END && 0 <= feeBps <= 10000
    ensures r.Some? <==>
      && SingleOutputs(value, payee, operator, feeBps, script).Some?
      && (wc.Some? ==> |wc.value| <= 256)
      && 2 <= |HeightPush(height)| + |TagPush(tag, salt)| + enLen <= 100
    ensures r.Some? ==>
      var repl := SingleOutputs(value, payee, operator, feeBps, script);
      && repl.Some? && AllFitI64(repl.value)
      && r.value == WindowParts(SPLIT_VERSION, height, tag, salt, enLen, wc, repl.value)
      && FreshParts(r.value, enLen, 1, height, tag, salt, repl.value, wc)
  {
    hide FreshParts;
    hide TagPush, HeightPush, SerOuts, LE, Varint, Cb1, Cb2, AllFitI64, AsOuts, FeeOf;
    var repl := SingleOutputs(value, payee, operator, feeBps, script);
    if repl.None? { return None; }
    SingleFits(value, payee, operator, feeBps, script);
    if wc.Some? && |wc.value| > 256 { return None; }
    var head := HeightPush(height) + TagPush(tag, salt);
    if |head| + enLen < 2 || |head| + enLen > 100 { return None; }
    var ob, count := PrintWindowOuts(repl.value, wc);
    WindowPartsAreFresh(SPLIT_VERSION, height, tag, salt, enLen, wc, repl.value);
    r := Some(Parts(Cb1(SPLIT_VERSION, NULL_PREVOUT, |head| + enLen, head), Cb2(0xffff_ffff, count, ob, 0)));
  }
}
