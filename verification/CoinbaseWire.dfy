/**
 The bytes themselves: integers, outputs and coinbases as Bitcoin's serialization (and
 BIP 34 and BIP 144) lay them out, stated on the finished bytes and on what they parse to,
 with no reference to the functions that print them (src/coinbase.c, src/stratum.c).
 */
module CoinbaseWire {
  import opened Options
  import opened Bytes
  import opened CoinbaseTx
  import opened WindowPayout
  import opened CoinbaseBuilder

  // ---- integers ----------------------------------------------------------

  /** Four bytes, least significant first. */
  function Word(a: int, b: int, c: int, d: int): int {
    a + 0x100 * b + 0x1_0000 * c + 0x100_0000 * d
  }

  /** Byte `i` of a little-endian integer counts 256 to the `i`. */
  lemma FourBytes(n: nat)
    ensures var s := LE(n, 4); |s| == 4 && n % 0x1_0000_0000 == Word(s[0], s[1], s[2], s[3])
  {
    var a, b, c := n / 256, n / 256 / 256, n / 256 / 256 / 256;
    assert LE(c, 1) == [c % 256] + LE(c / 256, 0);
    assert LE(b, 2) == [b % 256] + LE(c, 1);
    assert LE(a, 3) == [a % 256] + LE(b, 2);
    assert LE(n, 4) == [n % 256, a % 256, b % 256, c % 256];
    hide LE;
    Digits(n, a, b, c, c / 256, n % 256, a % 256, b % 256, c % 256);
    Remainder(n, c / 256, Word(n % 256, a % 256, b % 256, c % 256));
  }

  lemma Digits(n: int, p: int, q: int, r: int, top: int, a: int, b: int, c: int, d: int)
    requires n == 256 * p + a && p == 256 * q + b && q == 256 * r + c && r == 256 * top + d
    requires 0 <= a < 256 && 0 <= b < 256 && 0 <= c < 256 && 0 <= d < 256
    ensures n == 0x1_0000_0000 * top + Word(a, b, c, d) && 0 <= Word(a, b, c, d) < 0x1_0000_0000
  {
  }

  lemma Remainder(n: nat, q: nat, r: nat)
    requires n == 0x1_0000_0000 * q + r && r < 0x1_0000_0000
    ensures n % 0x1_0000_0000 == r
  {
  }

  lemma FourRead(s: seq<Byte>)
    requires |s| == 4
    ensures FromLE(s) == Word(s[0], s[1], s[2], s[3])
  {
    var c3, c2, c1 := FromLE(s[3..]), FromLE(s[2..]), FromLE(s[1..]);
    var none := s[3..][1..];
    assert none == [] && FromLE(none) == 0;
    assert c3 == s[3] + 256 * FromLE(none);
    assert c2 == s[2] + 256 * c3 by { assert s[2..][1..] == s[3..]; }
    assert c1 == s[1] + 256 * c2 by { assert s[1..][1..] == s[2..]; }
    assert FromLE(s) == s[0] + 256 * c1;
    hide FromLE;
    Nested(s[0], s[1], s[2], s[3], 0, c1, c2, c3);
  }

  lemma EightBytes(n: nat)
    requires n < U64_END
    ensures var s := LE(n, 8);
      |s| == 8 && n == Word(s[0], s[1], s[2], s[3])
        + 0x1_0000_0000 * Word(s[4], s[5], s[6], s[7])
  {
    EightRead(LE(n, 8));
    Pow256Values();
    FromLEOfLE(n, 8);
  }

  lemma EightRead(s: seq<Byte>)
    requires |s| == 8
    ensures FromLE(s) == Word(s[0], s[1], s[2], s[3])
      + 0x1_0000_0000 * Word(s[4], s[5], s[6], s[7])
  {
    var high := FromLE(s[4..]);
    var c3, c2, c1 := FromLE(s[3..]), FromLE(s[2..]), FromLE(s[1..]);
    assert c3 == s[3] + 256 * high by { assert s[3..][1..] == s[4..]; }
    assert c2 == s[2] + 256 * c3 by { assert s[2..][1..] == s[3..]; }
    assert c1 == s[1] + 256 * c2 by { assert s[1..][1..] == s[2..]; }
    assert FromLE(s) == s[0] + 256 * c1;
    FourRead(s[4..]);
    hide FromLE;
    Nested(s[0], s[1], s[2], s[3], high, c1, c2, c3);
  }

  lemma Nested(a: int, b: int, c: int, d: int, high: int, c1: int, c2: int, c3: int)
    requires c3 == d + 256 * high && c2 == c + 256 * c3 && c1 == b + 256 * c2
    ensures a + 256 * c1 == Word(a, b, c, d) + 0x1_0000_0000 * high
  {
  }

  /** A length is one byte below 0xfd, else a marker byte and two, four or eight bytes. */
  lemma VarintBytes(n: nat)
    requires n < 0x1_0000_0000
    ensures var s := Varint(n);
      if n < 0xfd then s == [n]
      else if n < 0x1_0000 then |s| == 3 && s[0] == 0xfd && n == Word(s[1], s[2], 0, 0)
      else |s| == 5 && s[0] == 0xfe && n == Word(s[1], s[2], s[3], s[4])
  {
    if 0xfd <= n < 0x1_0000 {
      TwoBytes(n);
    } else if 0x1_0000 <= n {
      FourBytes(n);
    }
  }

  lemma TwoBytes(n: nat)
    requires n < 0x1_0000
    ensures LE(n, 2) == [n % 256, n / 256]
  {
    assert LE(n / 256, 1) == [n / 256 % 256] + LE(n / 256 / 256, 0);
  }

  // ---- the scriptSig -------------------------------------------------------

  /** OP_0, OP_1 to OP_16, or a length and that many bytes, little-endian, minimal, sign bit clear. */
  ghost predicate PushesHeight(s: seq<Byte>, height: nat) {
    if height == 0 then s == [0x00]
    else if height <= 16 then s == [0x50 + height]
    else
      && |s| >= 2 && s[0] == |s| - 1 && FromLE(s[1..]) == height && s[|s| - 1] < 0x80
      && (s[|s| - 1] == 0 ==> |s| >= 3 && s[|s| - 2] >= 0x80)
  }

  /** A length and the first 75 bytes of the tag; nothing without a tag. */
  ghost predicate PushesTag(s: seq<Byte>, tag: seq<Byte>) {
    if tag == [] then s == []
    else
      && |s| >= 2 && s[0] == |s| - 1 && s[1..] <= tag
      && |s| - 1 == if |tag| > 75 then 75 else |tag|
  }

  /** Four bytes, little-endian; nothing for a salt of zero. */
  ghost predicate PushesSalt(s: seq<Byte>, salt: nat) {
    if salt == 0 then s == []
    else |s| == 5 && s[0] == 4 && salt % 0x1_0000_0000 == Word(s[1], s[2], s[3], s[4])
  }

  ghost predicate IsTagPush(s: seq<Byte>, tag: seq<Byte>, salt: nat) {
    exists k: nat :: k <= |s| && PushesTag(s[..k], tag) && PushesSalt(s[k..], salt)
  }

  lemma TagPushIs(tag: seq<Byte>, salt: nat)
    ensures IsTagPush(TagPush(tag, salt), tag, salt)
  {
    var n := if |tag| > 75 then 75 else |tag|;
    var first := if tag == [] then [] else [n] + tag[..n];
    var second := if salt == 0 then [] else [4] + LE(salt, 4);
    SaltPushIs(salt);
    hide LE, Word, PushesSalt;
    var s := TagPush(tag, salt);
    assert s == first + second;
    assert s[..|first|] == first && s[|first|..] == second;
    assert PushesTag(first, tag);
  }

  lemma SaltPushIs(salt: nat)
    ensures PushesSalt(if salt == 0 then [] else [4] + LE(salt, 4), salt)
  {
    FourBytes(salt);
    hide LE, Word;
  }

  lemma HeightPushIs(height: nat)
    requires height < 0x1_0000_0000
    ensures PushesHeight(HeightPush(height), height)
  {
    if height > 16 { HeightPushReads(height); }
  }

  // ---- reading --------------------------------------------------------------

  /** Where a legacy transaction with one input and a short scriptSig keeps its fields. */
  lemma FieldsAt(buf: seq<Byte>)
    requires ParseTx(buf).Got? && |buf| > 42 && buf[4] == 1 && buf[41] < 0xfd
    ensures var tx, n := ParseTx(buf).val.tx, buf[41] as int;
      && 46 + n + 4 <= |buf| && ParseTx(buf).val.wit == NoWitness
      && tx.version == Word(buf[0], buf[1], buf[2], buf[3])
      && tx.prevout == buf[5..41] && tx.scriptSig == buf[42..42 + n]
      && tx.sequence == Word(buf[42 + n], buf[43 + n], buf[44 + n], buf[45 + n])
      && tx.locktime == Word(buf[|buf| - 4], buf[|buf| - 3], buf[|buf| - 2], buf[|buf| - 1])
  {
    hide RdOutputs, Word, FromLE;
    var n := buf[41] as int;
    assert RdVarint(buf, 4) == Got(1, 5) && RdVarint(buf, 41) == Got(n, 42);
    assert RdInput(buf, 4) == Got((buf[5..41], buf[42..42 + n], FromLE(buf[42 + n..46 + n])), 46 + n);
    FourRead(buf[0..4]);
    FourRead(buf[42 + n..46 + n]);
    FourRead(buf[|buf| - 4..|buf|]);
  }

  /** An output is eight bytes of value, the length of its script, and the script. */
  lemma OutputAt(buf: seq<Byte>, off: nat)
    requires off + 9 <= |buf| && buf[off + 8] < 0xfd
    ensures var r, n := RdOut(buf, off), buf[off + 8] as int;
      && (r.Got? <==> off + 9 + n <= |buf|)
      && (r.Got? ==>
            && r.off == off + 9 + n && r.val.spk == buf[off + 9..off + 9 + n]
            && r.val.value == Word(buf[off], buf[off + 1], buf[off + 2], buf[off + 3])
                 + 0x1_0000_0000 * Word(buf[off + 4], buf[off + 5], buf[off + 6], buf[off + 7]))
  {
    hide Word, FromLE;
    EightRead(buf[off..off + 8]);
    assert RdVarint(buf, off + 8) == Got(buf[off + 8] as int, off + 9);
  }

  /** The block's form: marker and flag after the version, one item of 32 zero bytes before the locktime. */
  lemma WitnessBytes(cb: seq<Byte>)
    requires |cb| >= 8
    ensures var w := WithWitness(cb);
      && |w| == |cb| + 36 && w[..4] == cb[..4] && w[4] == 0x00 && w[5] == 0x01
      && w[6..|w| - 38] == cb[4..|cb| - 4] && w[|w| - 38] == 1 && w[|w| - 37] == 32
      && (forall i :: |w| - 36 <= i < |w| - 4 ==> w[i] == 0) && w[|w| - 4..] == cb[|cb| - 4..]
  {
  }

  // ---- coinbases --------------------------------------------------------------

  /** No previous output: a zero hash and the index 0xffffffff. */
  ghost predicate IsNull(prevout: seq<Byte>) {
    && |prevout| == 36 && (forall i :: 0 <= i < 32 ==> prevout[i] == 0)
    && forall i :: 32 <= i < 36 ==> prevout[i] == 0xff
  }

  /** Height, tag and salt, then the extranonce. */
  ghost predicate IsFreshScript(s: seq<Byte>, height: nat, tag: seq<Byte>, salt: nat, en: seq<Byte>) {
    exists j: nat, k: nat :: j <= k && k + |en| == |s|
      && PushesHeight(s[..j], height) && IsTagPush(s[j..k], tag, salt) && s[k..] == en
  }

  /** The output pays this amount to this script. */
  predicate PaysOut(o: TxOut, r: ReplOut) {
    o.spk == r.spk && (r.sats >= 0 ==> o.value == r.sats)
  }

  /** The payouts in order, then the witness commitment if there is one. */
  ghost predicate PaysList(outs: seq<TxOut>, repl: seq<ReplOut>, wc: Option<seq<Byte>>) {
    && |outs| == |repl| + (if wc.Some? then 1 else 0)
    && (forall i :: 0 <= i < |repl| ==> PaysOut(outs[i], repl[i]))
    && (wc.Some? ==> outs[|repl|].value == 0 && outs[|repl|].spk == wc.value)
  }

  /** The bytes are a coinbase of their own, with this payout. */
  ghost predicate IsFreshCoinbase(cb: seq<Byte>, version: nat, height: nat, tag: seq<Byte>, salt: nat, en: seq<Byte>,
                                  repl: seq<ReplOut>, wc: Option<seq<Byte>>)
  {
    && ParseTx(cb).Got? && ParseTx(cb).val.wit == NoWitness
    && var tx := ParseTx(cb).val.tx;
       && tx.version == version && IsNull(tx.prevout) && tx.sequence == 0xffff_ffff && tx.locktime == 0
       && IsFreshScript(tx.scriptSig, height, tag, salt, en) && PaysList(tx.outs, repl, wc)
  }

  /** The outputs around the replaced one are the server's, in place. */
  ghost predicate KeepsOthers(outs: seq<TxOut>, of: seq<TxOut>, idx: nat, repl: seq<ReplOut>) {
    && idx < |of| && |outs| == |of| - 1 + |repl|
    && (forall i :: 0 <= i < idx ==> outs[i] == of[i])
    && (forall i :: 0 <= i < |repl| ==> PaysOut(outs[idx + i], repl[i]))
    && (forall i :: idx < i < |of| ==> outs[i - 1 + |repl|] == of[i])
  }

  /** The transaction is the server's, with the scriptSig extended and one output replaced. */
  ghost predicate ExtendsTx(tx: Tx, of: Tx, idx: nat, tag: seq<Byte>, salt: nat, en: seq<Byte>, repl: seq<ReplOut>) {
    && tx.version == of.version && tx.prevout == of.prevout && tx.sequence == of.sequence && tx.locktime == of.locktime
    && of.scriptSig <= tx.scriptSig && |of.scriptSig| + |en| <= |tx.scriptSig|
    && IsTagPush(tx.scriptSig[|of.scriptSig|..|tx.scriptSig| - |en|], tag, salt)
    && tx.scriptSig[|tx.scriptSig| - |en|..] == en
    && KeepsOthers(tx.outs, of.outs, idx, repl)
  }

  /** Hashed without a witness, in the block with one zero item, the bytes extend the server's coinbase. */
  ghost predicate IsExtendedCoinbase(cb: seq<Byte>, of: Tx, idx: nat, tag: seq<Byte>, salt: nat, en: seq<Byte>,
                                     repl: seq<ReplOut>)
  {
    && ParseTx(cb).Got? && ParseTx(cb).val.wit == NoWitness
    && ExtendsTx(ParseTx(cb).val.tx, of, idx, tag, salt, en, repl)
    && |cb| >= 8 && ParseTx(WithWitness(cb)).Got? && ParseTx(WithWitness(cb)).val.tx == ParseTx(cb).val.tx
    && ParseTx(WithWitness(cb)).val.wit.Stack? && |ParseTx(WithWitness(cb)).val.wit.items| == 1
  }

  lemma FreshScriptIs(height: nat, tag: seq<Byte>, salt: nat, en: seq<Byte>)
    requires height < 0x1_0000_0000
    ensures IsFreshScript(HeightPush(height) + TagPush(tag, salt) + en, height, tag, salt, en)
  {
    TagPushIs(tag, salt);
    HeightPushIs(height);
    var a, b := HeightPush(height), TagPush(tag, salt);
    hide TagPush, HeightPush, PushesHeight, IsTagPush;
    var s := a + b + en;
    assert s[..|a|] == a && s[|a|..|a| + |b|] == b && s[|a| + |b|..] == en;
  }

  lemma AsOutsPay(repl: seq<ReplOut>)
    requires AllFitI64(repl)
    ensures forall i :: 0 <= i < |repl| ==> PaysOut(AsOuts(repl)[i], repl[i])
  {
  }

  /** A spliced coinbase extends the server's. */
  lemma SplicedExtends(t: Template, tag: seq<Byte>, salt: nat, en: seq<Byte>, repl: seq<ReplOut>)
    requires t.Valid() && AllFitI64(repl) && SpliceAccepts(t, TagPush(tag, salt), |en|, repl)
    requires |t.Outs()| + |repl| < U64_END
    ensures var p := SplicedParts(t, TagPush(tag, salt), |en|, repl);
      IsExtendedCoinbase(p.cb1 + en + p.cb2, t.parsed.tx, t.idx, tag, salt, en, repl)
  {
    hide ParseTx, SplicedParts, Serialize, WithWitness, IsTagPush, TagPush, AsOuts, AsOut, IsOpReturn, WellFormed;
    hide SpliceAccepts;
    SpliceRoundTrip(t, TagPush(tag, salt), en, repl);
    TagPushIs(tag, salt);
    AsOutsPay(repl);
    var push, of, tx := TagPush(tag, salt), t.parsed.tx, SplicedTx(t, TagPush(tag, salt), en, repl);
    assert tx.scriptSig[|of.scriptSig|..|tx.scriptSig| - |en|] == push;
    assert tx.scriptSig[|tx.scriptSig| - |en|..] == en;
    KeptAround(t.Outs(), t.idx, repl);
  }

  lemma KeptAround(outs: seq<TxOut>, idx: nat, repl: seq<ReplOut>)
    requires idx < |outs| && AllFitI64(repl)
    ensures KeepsOthers(SplicedOuts(outs, idx, repl), outs, idx, repl)
  {
    AsOutsPay(repl);
    hide PaysOut, AsOuts, AllFitI64;
    var r, mid := SplicedOuts(outs, idx, repl), AsOuts(repl);
    forall i | 0 <= i < idx ensures r[i] == outs[i] {
    }
    forall i | 0 <= i < |repl| ensures PaysOut(r[idx + i], repl[i]) {
      assert r[idx + i] == mid[i];
    }
    forall i | idx < i < |outs| ensures r[i - 1 + |repl|] == outs[i] {
      assert r[i - 1 + |repl|] == outs[idx + 1..][i - idx - 1];
    }
  }
}
