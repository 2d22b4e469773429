/**
 Building the two coinbase halves around the extranonce: from a server-provided
 transaction (BIP 22 "coinbasetxn"), replacing its one spendable output, or from
 scratch paying a PPLNS window (src/coinbase.c).
 */
module CoinbaseBuilder {
  import opened Options
  import opened Bytes
  import opened Sums
  import opened CoinbaseTx
  import opened Pplns
  import opened WindowPayout

  /** The halves a miner splices its extranonce between. */
  datatype Parts = Parts(cb1: seq<Byte>, cb2: seq<Byte>)

  const I64_END: int := 0x8000_0000_0000_0000

  // ---- scriptSig pieces -----------------------------------------------

  /** The operator's tag as one push of at most 75 bytes, then the job salt as another. */
  function TagPush(tag: seq<Byte>, salt: nat): (s: seq<Byte>)
    ensures |s| == TagPushLen(tag, salt)
  {
    (if tag == [] then [] else
       var n := if |tag| > 75 then 75 else |tag|;
       [n] + tag[..n])
    + (if salt == 0 then [] else [4] + LE(salt, 4))
  }

  function TagPushLen(tag: seq<Byte>, salt: nat): (n: nat)
    ensures n <= 81
  {
    (if tag == [] then 0 else (if |tag| > 75 then 75 else |tag|) + 1) + (if salt == 0 then 0 else 5)
  }

  /** Little-endian bytes without trailing zeros. */
  function MinLE(v: nat): (s: seq<Byte>)
    ensures v == 0 <==> s == []
    ensures s != [] ==> s[|s| - 1] != 0
    ensures FromLE(s) == v
  {
    if v == 0 then [] else
      var s := [v % 256] + MinLE(v / 256);
      assert s[1..] == MinLE(v / 256);
      s
  }

  lemma {:induction false} MinLEBound(v: nat, k: nat)
    requires v < Pow256(k)
    ensures |MinLE(v)| <= k
    decreases k
  {
    if v > 0 { MinLEBound(v / 256, k - 1); }
  }

  /** The BIP 34 height push: OP_0, OP_1..OP_16, or a length-prefixed script number. */
  function HeightPush(height: nat): (s: seq<Byte>)
    requires height < 0x1_0000_0000
    ensures 1 <= |s| <= 6
  {
    if height == 0 then [0]
    else if height <= 16 then [0x50 + height]
    else
      var m := MinLE(height);
      Pow256Values();
      MinLEBound(height, 4);
      var b := if m[|m| - 1] >= 0x80 then m + [0] else m;
      [|b|] + b
  }

  /** Every height above 16 is pushed as itself, with the sign bit clear, in as few bytes as that takes. */
  lemma HeightPushReads(height: nat)
    requires 16 < height < 0x1_0000_0000
    ensures var s := HeightPush(height);
      && s[0] == |s| - 1 && FromLE(s[1..]) == height && s[|s| - 1] < 0x80
      && (s[|s| - 1] == 0 ==> |s| >= 3 && s[|s| - 2] >= 0x80)
  {
    var m := MinLE(height);
    FromLEZero(m);
    assert HeightPush(height)[1..] == if m[|m| - 1] >= 0x80 then m + [0] else m;
  }

  lemma {:induction false} FromLEZero(s: seq<Byte>)
    ensures FromLE(s + [0]) == FromLE(s)
  {
    if s != [] {
      FromLEZero(s[1..]);
      assert (s + [0])[1..] == s[1..] + [0];
    } else {
      assert (s + [0])[1..] == [];
    }
  }

  // ---- the halves of a transaction ------------------------------------

  /** `head` is the part of the scriptSig before the extranonce. */
  function Cb1(version: nat, prevout: seq<Byte>, ssLen: nat, head: seq<Byte>): seq<Byte> {
    LE(version, 4) + (Varint(1) + (prevout + (Varint(ssLen) + head)))
  }

  function Cb2(sequence: nat, count: nat, outs: seq<Byte>, locktime: nat): seq<Byte> {
    LE(sequence, 4) + (Varint(count) + (outs + LE(locktime, 4)))
  }

  lemma Reassociate(a: seq<Byte>, b: seq<Byte>, c: seq<Byte>, d: seq<Byte>, h: seq<Byte>,
                    en: seq<Byte>, e: seq<Byte>, f: seq<Byte>, g: seq<Byte>, l: seq<Byte>)
    ensures (a + (b + (c + (d + h)))) + en + (e + (f + (g + l)))
         == a + ((b + (c + (d + ((h + en) + (e + (f + g)))))) + l)
  {
  }

  /** Splicing the extranonce between the halves serializes the transaction. */
  lemma HalvesSerialize(tx: Tx, head: seq<Byte>, en: seq<Byte>)
    requires tx.scriptSig == head + en
    ensures Cb1(tx.version, tx.prevout, |tx.scriptSig|, head) + en
          + Cb2(tx.sequence, |tx.outs|, SerOuts(tx.outs), tx.locktime) == Serialize(tx)
  {
    Reassociate(LE(tx.version, 4), Varint(1), tx.prevout, Varint(|tx.scriptSig|), head, en,
                LE(tx.sequence, 4), Varint(|tx.outs|), SerOuts(tx.outs), LE(tx.locktime, 4));
    hide LE, Varint, SerOuts;
  }

  // ---- outputs --------------------------------------------------------

  predicate FitsI64(o: ReplOut) {
    -I64_END <= o.sats < I64_END && |o.spk| <= 0xffff_ffff
  }

  ghost predicate AllFitI64(repl: seq<ReplOut>) {
    forall i :: 0 <= i < |repl| ==> FitsI64(repl[i])
  }

  function AsOut(o: ReplOut): (r: TxOut)
    requires FitsI64(o)
    ensures WellFormedOut(r)
  {
    TxOut(AsU64(o.sats), o.spk)
  }

  ghost function AsOuts(repl: seq<ReplOut>): (r: seq<TxOut>)
    requires AllFitI64(repl)
    ensures |r| == |repl|
    ensures forall i :: 0 <= i < |r| ==> r[i] == AsOut(repl[i])
  {
    seq(|repl|, i requires 0 <= i < |repl| => AsOut(repl[i]))
  }

  lemma NoOuts()
    ensures SerOuts([]) == []
  {
  }

  lemma SerOutsAppend(outs: seq<TxOut>, o: TxOut)
    ensures SerOuts(outs + [o]) == SerOuts(outs) + SerOut(o)
  {
    assert (outs + [o])[..|outs|] == outs;
  }

  lemma {:induction false} SerOutsConcat(a: seq<TxOut>, b: seq<TxOut>)
    ensures SerOuts(a + b) == SerOuts(a) + SerOuts(b)
  {
    hide SerOut;
    if b == [] {
      assert a + b == a;
    } else {
      var n := |b| - 1;
      SerOutsConcat(a, b[..n]);
      assert (a + b)[..|a + b| - 1] == a + b[..n];
    }
  }

  /** Printed outputs take the bytes the budget charged for them. */
  lemma {:induction false} AsOutsSize(repl: seq<ReplOut>)
    requires AllFitI64(repl)
    ensures |SerOuts(AsOuts(repl))| == BytesOf(repl)
  {
    if repl != [] {
      var n := |repl| - 1;
      AsOutsSize(repl[..n]);
      assert AsOuts(repl)[..n] == AsOuts(repl[..n]);
    }
  }

  /** Append the printed replacement outputs. */
  method PrintRepl(ob: seq<Byte>, repl: seq<ReplOut>) returns (r: seq<Byte>)
    requires AllFitI64(repl)
    ensures r == ob + SerOuts(AsOuts(repl))
  {
    hide SerOut, SerOuts, FitsI64, AsOut;
    NoOuts();
    r := ob;
    assert AsOuts(repl)[..0] == [];
    for k := 0 to |repl|
      invariant r == ob + SerOuts(AsOuts(repl)[..k])
    {
      var o := AsOut(repl[k]);
      assert AsOuts(repl)[..k + 1] == AsOuts(repl)[..k] + [o];
      SerOutsAppend(AsOuts(repl)[..k], o);
      r := r + SerOut(o);
    }
    assert AsOuts(repl)[..|repl|] == AsOuts(repl);
  }

  // ---- reading the template -------------------------------------------

  predicate IsOpReturn(o: TxOut) {
    |o.spk| >= 1 && o.spk[0] == 0x6a
  }

  /** Output `i` is the only spendable one. */
  ghost predicate OnlySpendable(outs: seq<TxOut>, i: nat) {
    && i < |outs| && !IsOpReturn(outs[i])
    && forall j :: 0 <= j < |outs| && j != i ==> IsOpReturn(outs[j])
  }

  /** How many outputs are spendable, and which was the last of them. */
  ghost predicate SpendableCount(outs: seq<TxOut>, n: nat, last: nat) {
    && (n == 0 <==> forall j :: 0 <= j < |outs| ==> IsOpReturn(outs[j]))
    && (n > 0 ==> last < |outs| && !IsOpReturn(outs[last]))
    && (n == 1 <==> OnlySpendable(outs, last))
    && (n > 1 ==> exists j :: 0 <= j < |outs| && j != last && !IsOpReturn(outs[j]))
  }

  lemma SpendableStep(outs: seq<TxOut>, n: nat, last: nat, o: TxOut)
    requires SpendableCount(outs, n, last)
    ensures if IsOpReturn(o) then SpendableCount(outs + [o], n, last)
      else SpendableCount(outs + [o], n + 1, |outs|)
  {
    var all := outs + [o];
    hide IsOpReturn;
    assert all[|outs|] == o && forall j :: 0 <= j < |outs| ==> all[j] == outs[j];
    if n > 1 {
      var j :| 0 <= j < |outs| && j != last && !IsOpReturn(outs[j]);
      assert !IsOpReturn(all[j]);
    }
    if n > 0 { assert !IsOpReturn(all[last]); }
  }

  lemma {:induction false} RdOutsFails(buf: seq<Byte>, off: nat, k: nat, n: nat)
    requires k <= n && RdOuts(buf, off, k).Short?
    ensures RdOuts(buf, off, n).Short?
  {
    if k < n { RdOutsFails(buf, off, k, n - 1); }
  }

  method ReadOuts(buf: seq<Byte>, off: nat, n: nat)
    returns (r: Read<seq<TxOut>>, spendable: nat, last: nat)
    ensures r == RdOuts(buf, off, n)
    ensures r.Got? ==> SpendableCount(r.val, spendable, last)
  {
    var outs: seq<TxOut>, o: nat := [], off;
    spendable, last := 0, 0;
    assert SpendableCount(outs, 0, 0);
    for k := 0 to n
      invariant RdOuts(buf, off, k) == Got(outs, o) && |outs| == k
      invariant SpendableCount(outs, spendable, last)
    {
      hide SpendableCount, RdOut, IsOpReturn;
      var one := RdOut(buf, o);
      if one.Short? {
        RdOutsFails(buf, off, k + 1, n);
        return Short, spendable, last;
      }
      SpendableStep(outs, spendable, last, one.val);
      if !IsOpReturn(one.val) { spendable, last := spendable + 1, k; }
      outs, o := outs + [one.val], one.off;
    }
    r := Got(outs, o);
  }

  /** A parsed template whose reward is the one spendable output. */
  datatype Template = Template(parsed: Parsed, idx: nat)
  {
    function Outs(): seq<TxOut> { parsed.tx.outs }

    ghost predicate Valid() {
      WellFormed(parsed.tx) && OnlySpendable(Outs(), idx)
    }

    function Reward(): int
      requires idx < |Outs()| && Outs()[idx].value < U64_END
    {
      AsI64(Outs()[idx].value)
    }
  }

  ghost predicate HasOneReward(buf: seq<Byte>) {
    ParseTx(buf).Got? && exists i: nat :: OnlySpendable(ParseTx(buf).val.tx.outs, i)
  }

  method ReadTemplate(buf: seq<Byte>) returns (t: Option<Template>)
    ensures t.Some? <==> HasOneReward(buf)
    ensures t.Some? ==> t.value.Valid() && t.value.parsed == ParseTx(buf).val
  {
    ParsedIsWellFormed(buf);
    hide RdLE, RdOuts, RdWitness, RdInput, IsSegwit, WellFormed, RdVarint, WellFormedOut;
    var version := RdLE(buf, 0, 4);
    if version.Short? { return None; }
    var segwit := IsSegwit(buf, 4);
    var input := RdInput(buf, if segwit then 6 else 4);
    if input.Short? { return None; }
    var vout := RdVarint(buf, input.off);
    if vout.Short? || vout.val == 0 { return None; }
    var outs, spendable, last := ReadOuts(buf, vout.off, vout.val);
    if outs.Short? { return None; }
    assert RdOutputs(buf, input.off) == outs;
    var wit := RdWitness(buf, outs.off, segwit);
    if wit.Short? { return None; }
    var locktime := RdLE(buf, wit.off, 4);
    if locktime.Short? || locktime.off != |buf| { return None; }
    var tx := Tx(version.val, input.val.0, input.val.1, input.val.2, outs.val, locktime.val);
    assert ParseTx(buf) == Got(Parsed(tx, wit.val), |buf|);
    if spendable != 1 {
      NotOneReward(outs.val, spendable, last);
      return None;
    }
    t := Some(Template(Parsed(tx, wit.val), last));
  }

  lemma NotOneReward(outs: seq<TxOut>, n: nat, last: nat)
    requires SpendableCount(outs, n, last) && n != 1
    ensures forall i: nat :: !OnlySpendable(outs, i)
  {
  }

  // ---- splicing -------------------------------------------------------

  /** The outputs with the reward replaced, everything else in place. */
  ghost function SplicedOuts(outs: seq<TxOut>, i: nat, repl: seq<ReplOut>): seq<TxOut>
    requires i < |outs| && AllFitI64(repl)
  {
    outs[..i] + (AsOuts(repl) + outs[i + 1..])
  }

  /** The transaction the halves stand for, with `en` in the extranonce slots. */
  ghost function SplicedTx(t: Template, push: seq<Byte>, en: seq<Byte>, repl: seq<ReplOut>): Tx
    requires t.idx < |t.Outs()| && AllFitI64(repl)
  {
    t.parsed.tx.(scriptSig := t.parsed.tx.scriptSig + push + en, outs := SplicedOuts(t.Outs(), t.idx, repl))
  }

  function ReplTotal(repl: seq<ReplOut>): int {
    SumInt(OutSats(repl))
  }

  ghost predicate SpliceAccepts(t: Template, push: seq<Byte>, enLen: nat, repl: seq<ReplOut>)
    requires t.Valid()
  {
    && repl != [] && ReplTotal(repl) == t.Reward()
    && 2 <= |t.parsed.tx.scriptSig| + |push| + enLen <= 100
  }

  method PrintOuts(outs: seq<TxOut>, idx: nat, repl: seq<ReplOut>) returns (ob: seq<Byte>)
    requires idx < |outs| && AllFitI64(repl)
    ensures ob == SerOuts(SplicedOuts(outs, idx, repl))
  {
    hide SerOut, SerOuts, AsOuts, AsOut;
    NoOuts();
    ob := [];
    ghost var done: seq<TxOut> := [];
    for i := 0 to |outs|
      invariant ob == SerOuts(done)
      invariant done == if i <= idx then outs[..i] else outs[..idx] + (AsOuts(repl) + outs[idx + 1..i])
    {
      if i == idx {
        SerOutsConcat(done, AsOuts(repl));
        ob := PrintRepl(ob, repl);
        done := done + AsOuts(repl);
      } else {
        SerOutsAppend(done, outs[i]);
        ob := ob + SerOut(outs[i]);
        done := done + [outs[i]];
      }
    }
    assert outs[idx + 1..|outs|] == outs[idx + 1..];
    assert done == SplicedOuts(outs, idx, repl);
  }

  method SumRepl(repl: seq<ReplOut>) returns (total: int)
    ensures total == ReplTotal(repl)
  {
    total := 0;
    for i := 0 to |repl|
      invariant total == SumInt(OutSats(repl)[..i])
    {
      assert OutSats(repl)[..i + 1] == OutSats(repl)[..i] + [repl[i].sats];
      SumIntAppend(OutSats(repl)[..i], repl[i].sats);
      total := total + repl[i].sats;
    }
    assert OutSats(repl)[..|repl|] == OutSats(repl);
  }

  /** The halves a splice prints. */
  ghost function SplicedParts(t: Template, push: seq<Byte>, enLen: nat, repl: seq<ReplOut>): Parts
    requires t.idx < |t.Outs()| && AllFitI64(repl)
  {
    var tx := t.parsed.tx;
    var outs := SplicedOuts(t.Outs(), t.idx, repl);
    Parts(Cb1(tx.version, tx.prevout, |tx.scriptSig| + |push| + enLen, tx.scriptSig + push),
          Cb2(tx.sequence, |outs|, SerOuts(outs), tx.locktime))
  }

  method Splice(t: Template, push: seq<Byte>, enLen: nat, repl: seq<ReplOut>) returns (r: Option<Parts>)
    requires t.Valid() && AllFitI64(repl)
    ensures r.Some? <==> SpliceAccepts(t, push, enLen, repl)
    ensures r.Some? ==> r.value == SplicedParts(t, push, enLen, repl)
  {
    hide SumInt, SerOuts, LE, Varint, AllFitI64, AsOuts;
    if repl == [] { return None; }
    var total := SumRepl(repl);
    if total != t.Reward() { return None; }
    var tx := t.parsed.tx;
    var newLen := |tx.scriptSig| + |push| + enLen;
    if newLen < 2 || newLen > 100 { return None; }
    var cb1 := Cb1(tx.version, tx.prevout, newLen, tx.scriptSig + push);
    var ob := PrintOuts(tx.outs, t.idx, repl);
    var cb2 := Cb2(tx.sequence, |tx.outs| - 1 + |repl|, ob, tx.locktime);
    r := Some(Parts(cb1, cb2));
  }

  /**
   The round trip: whatever the miner's extranonce, the spliced coinbase parses to
   the template's version, input, sequence, locktime and other outputs in order,
   with the scriptSig extended and the reward replaced by the resolver's list.
   */
  lemma SpliceRoundTrip(t: Template, push: seq<Byte>, en: seq<Byte>, repl: seq<ReplOut>)
    requires t.Valid() && AllFitI64(repl) && SpliceAccepts(t, push, |en|, repl)
    requires |t.Outs()| + |repl| < U64_END
    ensures var p := SplicedParts(t, push, |en|, repl);
      var cb := p.cb1 + en + p.cb2;
      var tx := SplicedTx(t, push, en, repl);
      && cb == Serialize(tx) && |cb| >= 8
      && ParseTx(cb) == Got(Parsed(tx, NoWitness), |cb|)
      && ParseTx(WithWitness(cb)).Got? && ParseTx(WithWitness(cb)).val == Parsed(tx, Stack([ZERO_32]))
  {
    hide SerOuts, LE, Varint, ParseTx, Serialize, WithWitness, SumInt, IsOpReturn, AsOut;
    var tx := SplicedTx(t, push, en, repl);
    assert WellFormed(tx) by { SplicedIsWellFormed(t, push, en, repl); }
    HalvesSerialize(tx, t.parsed.tx.scriptSig + push, en);
    ParseOfSerialize(tx);
    SerializedSize(tx);
    BlockCoinbaseParses(tx);
  }

  lemma SplicedIsWellFormed(t: Template, push: seq<Byte>, en: seq<Byte>, repl: seq<ReplOut>)
    requires t.Valid() && AllFitI64(repl) && SpliceAccepts(t, push, |en|, repl)
    requires |t.Outs()| + |repl| < U64_END
    ensures WellFormed(SplicedTx(t, push, en, repl))
  {
    hide SumInt, IsOpReturn, AsOut, WellFormedOut, FitsI64;
    var outs, r := SplicedOuts(t.Outs(), t.idx, repl), AsOuts(repl);
    forall i | 0 <= i < |outs| ensures WellFormedOut(outs[i]) {
      if i < t.idx {
        assert outs[i] == t.Outs()[i];
      } else if i < t.idx + |r| {
        assert outs[i] == r[i - t.idx] == AsOut(repl[i - t.idx]);
      } else {
        assert outs[i] == t.Outs()[i - |r| + 1];
      }
    }
  }

  lemma SerializedSize(tx: Tx)
    ensures |Serialize(tx)| == 8 + |SerBody(tx)|
  {
    hide SerBody, LE;
  }

  // ---- byte budget ----------------------------------------------------

  function OutsSize(outs: seq<TxOut>): nat {
    if outs == [] then 0 else OutsSize(outs[..|outs| - 1]) + OutSize(|outs[|outs| - 1].spk|)
  }

  lemma NoOutsSize()
    ensures OutsSize([]) == 0
  {
  }

  lemma OutsSizeAppend(outs: seq<TxOut>, o: TxOut)
    ensures OutsSize(outs + [o]) == OutsSize(outs) + OutSize(|o.spk|)
  {
    assert (outs + [o])[..|outs|] == outs;
  }

  lemma {:induction false} OutsSizeIsExact(outs: seq<TxOut>)
    requires forall i :: 0 <= i < |outs| ==> |outs[i].spk| <= 0xffff_ffff
    ensures |SerOuts(outs)| == OutsSize(outs)
  {
    if outs != [] { OutsSizeIsExact(outs[..|outs| - 1]); }
  }

  /** The transaction envelope around a scriptSig of `n` bytes, its output count taken as 3 bytes. */
  function Envelope(n: nat): nat {
    4 + 1 + 36 + (if n < 253 then 1 else 3) + n + 4 + 3 + 4
  }

  /** Everything but the reward output. */
  function Others(outs: seq<TxOut>, idx: nat): seq<TxOut>
    requires idx < |outs|
  {
    outs[..idx] + outs[idx + 1..]
  }

  method FixedBytes(t: Template, extra: nat) returns (fixedBytes: nat)
    requires t.idx < |t.Outs()|
    ensures fixedBytes == Envelope(|t.parsed.tx.scriptSig| + extra) + OutsSize(Others(t.Outs(), t.idx))
  {
    NoOutsSize();
    hide OutSize, OutsSize, Envelope;
    fixedBytes := Envelope(|t.parsed.tx.scriptSig| + extra);
    var outs := t.Outs();
    ghost var done: seq<TxOut> := [];
    for i := 0 to |outs|
      invariant fixedBytes == Envelope(|t.parsed.tx.scriptSig| + extra) + OutsSize(done)
      invariant done == if i <= t.idx then outs[..i] else outs[..t.idx] + outs[t.idx + 1..i]
    {
      if i != t.idx {
        OutsSizeAppend(done, outs[i]);
        fixedBytes := fixedBytes + OutSize(|outs[i].spk|);
        done := done + [outs[i]];
        if i < t.idx {
          assert outs[..i + 1] == outs[..i] + [outs[i]];
        } else {
          assert outs[t.idx + 1..i + 1] == outs[t.idx + 1..i] + [outs[i]];
        }
      }
    }
    assert outs[t.idx + 1..|outs|] == outs[t.idx + 1..];
  }

  lemma HalvesSize(version: nat, prevout: seq<Byte>, head: seq<Byte>, enLen: nat,
                   sequence: nat, count: nat, outs: seq<Byte>, locktime: nat)
    requires |prevout| == 36 && |head| + enLen <= 100
    ensures |Cb1(version, prevout, |head| + enLen, head)| + enLen + |Cb2(sequence, count, outs, locktime)| + 3
         == Envelope(|head| + enLen) + VarintSize(count) + |outs|
  {
    hide LE, Varint;
  }

  lemma SplicedSize(outs: seq<TxOut>, idx: nat, repl: seq<ReplOut>)
    requires idx < |outs| && AllFitI64(repl)
    requires forall i :: 0 <= i < |outs| ==> |outs[i].spk| <= 0xffff_ffff
    ensures |SerOuts(SplicedOuts(outs, idx, repl))| == OutsSize(Others(outs, idx)) + BytesOf(repl)
  {
    hide SerOuts, OutsSize, BytesOf, FitsI64, AsOuts;
    SerOutsConcat(outs[..idx], AsOuts(repl) + outs[idx + 1..]);
    SerOutsConcat(AsOuts(repl), outs[idx + 1..]);
    SerOutsConcat(outs[..idx], outs[idx + 1..]);
    AsOutsSize(repl);
    OutsSizeIsExact(Others(outs, idx));
  }

  /** A script is at most a pay-to-taproot or pay-to-witness-script-hash one: 34 bytes. */
  ghost predicate StandardScripts(script: string -> Option<Script>) {
    forall a :: script(a).Some? ==> |script(a).value| <= 34
  }

  /** The amounts of a payout are 64-bit, and its scripts standard. */
  lemma PayoutFits(r: WindowResult, value: int, payees: seq<Payee>, operator: string, feeBps: int,
                   budget: nat, floor: int, cap: nat, script: string -> Option<Script>)
    requires IsPayout(r, value, payees, operator, feeBps, budget, floor, cap, script)
    requires StandardScripts(script) && 0 < value < I64_END && floor > 0
    requires forall i :: 0 <= i < |payees| ==> payees[i].sats >= 0
    ensures AllFitI64(r.outs) && forall i :: 0 <= i < |r.outs| ==> |r.outs[i].spk| <= 34 && r.outs[i].sats >= 0
  {
    hide SumInt, FeeOf, Select, IsScaled, BytesOf, BelowMarks, Marks;
    forall i | 0 <= i < |r.outs| ensures |r.outs[i].spk| <= 34 && r.outs[i].sats >= 0 {
      if i < r.paidCount { assert r.outs[i] == r.outs[..r.paidCount][i]; }
    }
    forall i | 0 <= i < |r.outs| ensures FitsI64(r.outs[i]) {
      SumIntBounds(OutSats(r.outs), i);
    }
  }

  lemma PayoutBytes(r: WindowResult, value: int, payees: seq<Payee>, operator: string, feeBps: int,
                    budget: nat, floor: int, cap: nat, script: string -> Option<Script>)
    requires IsPayout(r, value, payees, operator, feeBps, budget, floor, cap, script)
    requires StandardScripts(script)
    ensures BytesOf(r.outs) <= budget + if FeeOf(value, feeBps, operator != "") > 0 then OutSize(34) else 0
    ensures |r.outs| <= cap
  {
    hide SumInt, FeeOf, IsScaled, BelowMarks, Marks, PaysMiners, OwnOf, OutSats;
    SelectFits(payees, floor, cap, budget, script, |payees|);
    hide Select;
    var miners := r.outs[..r.paidCount];
    if FeeOf(value, feeBps, operator != "") > 0 {
      assert r.outs == miners + [r.outs[r.paidCount]];
      BytesOfAppend(miners, r.outs[r.paidCount]);
    } else {
      assert r.outs == miners;
    }
    hide BytesOf;
  }
}
