/**
 A one-input coinbase transaction, its parser and its two serializations: the
 legacy form that is hashed, and the segwit form of BIP 144 that goes into a block.
 */
module CoinbaseTx {
  import opened Bytes

  datatype TxOut = TxOut(value: nat, spk: seq<Byte>)

  datatype Tx = Tx(version: nat, prevout: seq<Byte>, scriptSig: seq<Byte>, sequence: nat,
                   outs: seq<TxOut>, locktime: nat)

  datatype Witness = NoWitness | Stack(items: seq<seq<Byte>>)

  datatype Parsed = Parsed(tx: Tx, wit: Witness)

  predicate WellFormedOut(o: TxOut) {
    o.value < U64_END && |o.spk| < U64_END
  }

  predicate WellFormed(tx: Tx) {
    && tx.version < 0x1_0000_0000 && |tx.prevout| == 36 && |tx.scriptSig| < U64_END
    && tx.sequence < 0x1_0000_0000 && 0 < |tx.outs| < U64_END && tx.locktime < 0x1_0000_0000
    && forall i :: 0 <= i < |tx.outs| ==> WellFormedOut(tx.outs[i])
  }

  // ---- printing -------------------------------------------------------

  function SerOut(o: TxOut): (s: seq<Byte>)
    ensures |s| == 8 + VarintSize(|o.spk|) + |o.spk|
  {
    LE(o.value, 8) + Varint(|o.spk|) + o.spk
  }

  function SerOuts(outs: seq<TxOut>): seq<Byte> {
    if outs == [] then [] else SerOuts(outs[..|outs| - 1]) + SerOut(outs[|outs| - 1])
  }

  /** Everything between the version and the locktime. */
  function SerBody(tx: Tx): seq<Byte> {
    Varint(1) + (tx.prevout + (Varint(|tx.scriptSig|) + (tx.scriptSig +
      (LE(tx.sequence, 4) + (Varint(|tx.outs|) + SerOuts(tx.outs))))))
  }

  function Serialize(tx: Tx): seq<Byte> {
    LE(tx.version, 4) + (SerBody(tx) + LE(tx.locktime, 4))
  }

  function SerItems(items: seq<seq<Byte>>): seq<Byte> {
    if items == [] then []
    else var n := |items| - 1; SerItems(items[..n]) + (Varint(|items[n]|) + items[n])
  }

  function SerializeSegwit(tx: Tx, items: seq<seq<Byte>>): seq<Byte> {
    LE(tx.version, 4) + ([0, 1] + (SerBody(tx) + ((Varint(|items|) + SerItems(items)) + LE(tx.locktime, 4))))
  }

  // ---- parsing --------------------------------------------------------

  function RdOut(buf: seq<Byte>, off: nat): (r: Read<TxOut>)
    ensures r.Got? ==> off <= r.off <= |buf|
  {
    var (value, o1) :- RdLE(buf, off, 8);
    var (n, o2) :- RdVarint(buf, o1);
    var (spk, o3) :- RdBytes(buf, o2, n);
    Got(TxOut(value, spk), o3)
  }

  function RdOuts(buf: seq<Byte>, off: nat, n: nat): (r: Read<seq<TxOut>>)
    ensures r.Got? ==> |r.val| == n && off <= r.off && (off <= |buf| ==> r.off <= |buf|)
  {
    if n == 0 then Got([], off)
    else
      var (outs, o1) :- RdOuts(buf, off, n - 1);
      var (o, o2) :- RdOut(buf, o1);
      Got(outs + [o], o2)
  }

  function RdItem(buf: seq<Byte>, off: nat): (r: Read<seq<Byte>>)
    ensures r.Got? ==> off <= r.off <= |buf|
  {
    var (n, o1) :- RdVarint(buf, off);
    RdBytes(buf, o1, n)
  }

  function RdItems(buf: seq<Byte>, off: nat, n: nat): (r: Read<seq<seq<Byte>>>)
    ensures r.Got? ==> |r.val| == n && off <= r.off && (off <= |buf| ==> r.off <= |buf|)
  {
    if n == 0 then Got([], off)
    else
      var (items, o1) :- RdItems(buf, off, n - 1);
      var (item, o2) :- RdItem(buf, o1);
      Got(items + [item], o2)
  }

  /** The single input: previous output, signature script and sequence. */
  function RdInput(buf: seq<Byte>, off: nat): (r: Read<(seq<Byte>, seq<Byte>, nat)>)
    ensures r.Got? ==> off <= r.off <= |buf|
  {
    var (vin, o1) :- RdVarint(buf, off);
    if vin != 1 then Short
    else
      var (prevout, o2) :- RdBytes(buf, o1, 36);
      var (n, o3) :- RdVarint(buf, o2);
      var (ss, o4) :- RdBytes(buf, o3, n);
      var (sequence, o5) :- RdLE(buf, o4, 4);
      Got((prevout, ss, sequence), o5)
  }

  function RdOutputs(buf: seq<Byte>, off: nat): (r: Read<seq<TxOut>>)
    ensures r.Got? ==> off <= r.off <= |buf|
  {
    var (vout, o1) :- RdVarint(buf, off);
    if vout == 0 then Short else RdOuts(buf, o1, vout)
  }

  /** The witness of the single input, in the segwit form only. */
  function RdWitness(buf: seq<Byte>, off: nat, segwit: bool): (r: Read<Witness>)
    ensures r.Got? ==> off <= r.off
  {
    if !segwit then Got(NoWitness, off)
    else
      var (n, o1) :- RdVarint(buf, off);
      var (items, o2) :- RdItems(buf, o1, n);
      Got(Stack(items), o2)
  }

  predicate IsSegwit(buf: seq<Byte>, off: nat) {
    off + 2 <= |buf| && buf[off] == 0x00 && buf[off + 1] != 0x00
  }

  function ParseTx(buf: seq<Byte>): Read<Parsed> {
    var (version, o1) :- RdLE(buf, 0, 4);
    var segwit := IsSegwit(buf, o1);
    var (input, o2) :- RdInput(buf, if segwit then o1 + 2 else o1);
    var (outs, o3) :- RdOutputs(buf, o2);
    var (wit, o4) :- RdWitness(buf, o3, segwit);
    var (locktime, o5) :- RdLE(buf, o4, 4);
    if o5 != |buf| then Short
    else Got(Parsed(Tx(version, input.0, input.1, input.2, outs, locktime), wit), o5)
  }

  // ---- round trips ----------------------------------------------------

  lemma RdOutAt(buf: seq<Byte>, off: nat, o: TxOut)
    requires WellFormedOut(o) && At(buf, off, SerOut(o))
    ensures RdOut(buf, off) == Got(o, off + |SerOut(o)|)
  {
    Pow256Values();
    hide LE, FromLE, Pow256, Varint, VarintSize, At, RdLE, RdVarint, RdBytes;
    AtSplit(buf, off, LE(o.value, 8) + Varint(|o.spk|), o.spk);
    AtSplit(buf, off, LE(o.value, 8), Varint(|o.spk|));
    RdLEAt(buf, off, o.value, 8);
    RdVarintAt(buf, off + 8, |o.spk|);
    RdBytesAt(buf, off + 8 + VarintSize(|o.spk|), o.spk);
  }

  lemma {:induction false} RdOutsAt(buf: seq<Byte>, off: nat, outs: seq<TxOut>)
    requires forall i :: 0 <= i < |outs| ==> WellFormedOut(outs[i])
    requires At(buf, off, SerOuts(outs))
    ensures RdOuts(buf, off, |outs|) == Got(outs, off + |SerOuts(outs)|)
  {
    hide At, SerOut, RdOut, WellFormedOut;
    if outs != [] {
      var n := |outs| - 1;
      AtSplit(buf, off, SerOuts(outs[..n]), SerOut(outs[n]));
      RdOutsAt(buf, off, outs[..n]);
      RdOutAt(buf, off + |SerOuts(outs[..n])|, outs[n]);
      assert outs == outs[..n] + [outs[n]];
    }
  }

  lemma RdItemAt(buf: seq<Byte>, off: nat, item: seq<Byte>)
    requires |item| < U64_END && At(buf, off, Varint(|item|) + item)
    ensures RdItem(buf, off) == Got(item, off + |Varint(|item|) + item|)
  {
    hide LE, FromLE, Varint, VarintSize, At, RdLE, RdVarint, RdBytes;
    AtSplit(buf, off, Varint(|item|), item);
    RdVarintAt(buf, off, |item|);
    RdBytesAt(buf, off + |Varint(|item|)|, item);
  }

  lemma {:induction false} RdItemsAt(buf: seq<Byte>, off: nat, items: seq<seq<Byte>>)
    requires forall i :: 0 <= i < |items| ==> |items[i]| < U64_END
    requires At(buf, off, SerItems(items))
    ensures RdItems(buf, off, |items|) == Got(items, off + |SerItems(items)|)
  {
    hide At, RdItem, Varint, VarintSize;
    if items != [] {
      var n := |items| - 1;
      AtSplit(buf, off, SerItems(items[..n]), Varint(|items[n]|) + items[n]);
      RdItemsAt(buf, off, items[..n]);
      RdItemAt(buf, off + |SerItems(items[..n])|, items[n]);
      assert items == items[..n] + [items[n]];
    }
  }

  /** The body parses wherever it stands, in either serialization. */
  lemma RdBodyAt(buf: seq<Byte>, off: nat, tx: Tx)
    requires WellFormed(tx) && At(buf, off, SerBody(tx))
    ensures RdInput(buf, off).Got? && RdInput(buf, off).val == (tx.prevout, tx.scriptSig, tx.sequence)
    ensures RdOutputs(buf, RdInput(buf, off).off) == Got(tx.outs, off + |SerBody(tx)|)
  {
    Pow256Values();
    hide LE, FromLE, Pow256, Varint, VarintSize, At, RdLE, RdVarint, RdBytes;
    hide SerOuts, RdOuts;
    var outs := Varint(|tx.outs|) + SerOuts(tx.outs);
    var seqn := LE(tx.sequence, 4) + outs;
    var ss := tx.scriptSig + seqn;
    var sslen := Varint(|tx.scriptSig|) + ss;
    var prev := tx.prevout + sslen;
    var o := off;
    AtSplit(buf, o, Varint(1), prev);
    RdVarintAt(buf, o, 1);
    o := o + VarintSize(1);
    AtSplit(buf, o, tx.prevout, sslen);
    RdBytesAt(buf, o, tx.prevout);
    o := o + 36;
    AtSplit(buf, o, Varint(|tx.scriptSig|), ss);
    RdVarintAt(buf, o, |tx.scriptSig|);
    o := o + VarintSize(|tx.scriptSig|);
    AtSplit(buf, o, tx.scriptSig, seqn);
    RdBytesAt(buf, o, tx.scriptSig);
    o := o + |tx.scriptSig|;
    AtSplit(buf, o, LE(tx.sequence, 4), outs);
    RdLEAt(buf, o, tx.sequence, 4);
    o := o + 4;
    AtSplit(buf, o, Varint(|tx.outs|), SerOuts(tx.outs));
    RdVarintAt(buf, o, |tx.outs|);
    RdOutsAt(buf, o + VarintSize(|tx.outs|), tx.outs);
  }

  /** One input, so the byte after the version is 1 and never the segwit marker. */
  lemma LegacyMarker(tx: Tx)
    ensures !IsSegwit(Serialize(tx), 4)
  {
    var version, rest := LE(tx.version, 4), SerBody(tx) + LE(tx.locktime, 4);
    assert Varint(1) == [1];
    assert SerBody(tx)[0] == 1;
    hide LE, SerBody;
    assert (version + rest)[4] == rest[0];
  }

  lemma SegwitMarker(version: seq<Byte>, rest: seq<Byte>)
    requires |version| == 4
    ensures IsSegwit(version + ([0, 1] + rest), 4)
  {
    var s := version + ([0, 1] + rest);
    assert s[4] == ([0, 1] + rest)[0] && s[5] == ([0, 1] + rest)[1];
  }

  /** Parsing the legacy serialization gives the transaction back. */
  lemma ParseOfSerialize(tx: Tx)
    requires WellFormed(tx)
    ensures ParseTx(Serialize(tx)) == Got(Parsed(tx, NoWitness), |Serialize(tx)|)
  {
    Pow256Values();
    var buf := Serialize(tx);
    LegacyMarker(tx);
    hide LE, FromLE, Pow256, Varint, VarintSize, At, RdLE, RdVarint, RdBytes;
    hide SerBody, RdInput, RdOutputs, IsSegwit;
    AtWhole(buf);
    AtSplit(buf, 0, LE(tx.version, 4), SerBody(tx) + LE(tx.locktime, 4));
    AtSplit(buf, 4, SerBody(tx), LE(tx.locktime, 4));
    RdLEAt(buf, 0, tx.version, 4);
    RdBodyAt(buf, 4, tx);
    RdLEAt(buf, 4 + |SerBody(tx)|, tx.locktime, 4);
  }

  /** Parsing the segwit serialization gives the same transaction and its witness. */
  lemma ParseOfSegwit(tx: Tx, items: seq<seq<Byte>>)
    requires WellFormed(tx) && |items| < U64_END
    requires forall i :: 0 <= i < |items| ==> |items[i]| < U64_END
    ensures ParseTx(SerializeSegwit(tx, items)) == Got(Parsed(tx, Stack(items)), |SerializeSegwit(tx, items)|)
  {
    Pow256Values();
    hide LE, FromLE, Pow256, Varint, VarintSize, At, RdLE, RdVarint, RdBytes;
    hide SerBody, SerItems, RdItems, RdInput, RdOutputs, IsSegwit;
    var buf := SerializeSegwit(tx, items);
    var version, body, lock := LE(tx.version, 4), SerBody(tx), LE(tx.locktime, 4);
    var count, stack := Varint(|items|), SerItems(items);
    SegwitMarker(version, body + ((count + stack) + lock));
    SegwitParts(version, body, count, stack, lock);
    var o := 6 + |body|;
    RdLEAt(buf, 0, tx.version, 4);
    RdBodyAt(buf, 6, tx);
    RdVarintAt(buf, o, |items|);
    RdItemsAt(buf, o + |count|, items);
    assert RdWitness(buf, o, true) == Got(Stack(items), o + |count| + |stack|);
    RdLEAt(buf, o + |count| + |stack|, tx.locktime, 4);
  }

  ghost predicate AtSegwitParts(buf: seq<Byte>, version: seq<Byte>, body: seq<Byte>, count: seq<Byte>,
                                stack: seq<Byte>, lock: seq<Byte>)
  {
    var o := 6 + |body| + |count|;
    && |version| == 4
    && At(buf, 0, version) && At(buf, 6, body) && At(buf, 6 + |body|, count) && At(buf, o, stack)
    && At(buf, o + |stack|, lock) && |buf| == o + |stack| + |lock|
  }

  lemma SegwitParts(version: seq<Byte>, body: seq<Byte>, count: seq<Byte>, stack: seq<Byte>, lock: seq<Byte>)
    requires |version| == 4
    ensures AtSegwitParts(version + ([0, 1] + (body + ((count + stack) + lock))), version, body, count, stack, lock)
  {
    var buf := version + ([0, 1] + (body + ((count + stack) + lock)));
    var o := 6 + |body|;
    AtWhole(buf);
    hide At;
    AtSplit(buf, 0, version, [0, 1] + (body + ((count + stack) + lock)));
    AtSplit(buf, 4, [0, 1], body + ((count + stack) + lock));
    AtSplit(buf, 6, body, (count + stack) + lock);
    AtSplit(buf, o, count + stack, lock);
    AtSplit(buf, o, count, stack);
  }

  lemma {:induction false} RdOutsWellFormed(buf: seq<Byte>, off: nat, n: nat)
    ensures var r := RdOuts(buf, off, n); r.Got? ==> forall i :: 0 <= i < n ==> WellFormedOut(r.val[i])
  {
    if n > 0 {
      RdOutsWellFormed(buf, off, n - 1);
      var r := RdOuts(buf, off, n - 1);
      if r.Got? {
        Pow256Values();
        RdLEBound(buf, r.off, 8);
        RdVarintBound(buf, r.off + 8);
      }
    }
  }

  lemma OutputsAreWellFormed(buf: seq<Byte>, off: nat)
    ensures var r := RdOutputs(buf, off); r.Got? ==>
      0 < |r.val| < U64_END && forall i :: 0 <= i < |r.val| ==> WellFormedOut(r.val[i])
  {
    RdVarintBound(buf, off);
    var r := RdVarint(buf, off);
    if r.Got? { RdOutsWellFormed(buf, r.off, r.val); }
    hide RdVarint, RdOuts, WellFormedOut;
  }

  /** Whatever parses is well formed, so it can be printed and parsed again. */
  lemma ParsedIsWellFormed(buf: seq<Byte>)
    ensures ParseTx(buf).Got? ==> WellFormed(ParseTx(buf).val.tx)
  {
    if ParseTx(buf).Got? {
      Pow256Values();
      var segwit := IsSegwit(buf, 4);
      var o1 := if segwit then 6 else 4;
      var o2 := RdInput(buf, o1).off;
      var o3 := RdOutputs(buf, o2).off;
      RdLEBound(buf, 0, 4);
      RdLEBound(buf, RdWitness(buf, o3, segwit).off, 4);
      hide RdLE, RdInput, RdOutputs, RdWitness, IsSegwit, WellFormedOut, Pow256;
      InputIsWellFormed(buf, o1);
      OutputsAreWellFormed(buf, o2);
    }
  }

  lemma InputIsWellFormed(buf: seq<Byte>, off: nat)
    ensures var r := RdInput(buf, off); r.Got? ==>
      |r.val.0| == 36 && |r.val.1| < U64_END && r.val.2 < 0x1_0000_0000
  {
    if RdInput(buf, off).Got? {
      Pow256Values();
      var o1 := RdVarint(buf, off).off;
      RdVarintBound(buf, o1 + 36);
      var r := RdVarint(buf, o1 + 36);
      RdLEBound(buf, r.off + r.val, 4);
    }
  }

  // ---- the block's coinbase -------------------------------------------

  const ZERO_32: seq<Byte> := [0, 0, 0, 0, 0, 0, 0, 0, 0, 0, 0, 0, 0, 0, 0, 0,
                               0, 0, 0, 0, 0, 0, 0, 0, 0, 0, 0, 0, 0, 0, 0, 0]

  /** Marker and flag after the version, one zero reserved value before the locktime. */
  function WithWitness(cb: seq<Byte>): seq<Byte>
    requires |cb| >= 8
  {
    cb[..4] + ([0, 1] + (cb[4..|cb| - 4] + (([1, 32] + ZERO_32) + cb[|cb| - 4..])))
  }

  lemma OneZeroItem()
    ensures Varint(1) + SerItems([ZERO_32]) == [1, 32] + ZERO_32
  {
    assert [ZERO_32][..0] == [];
    assert SerItems([ZERO_32]) == SerItems([]) + (Varint(32) + ZERO_32);
  }

  lemma Slices(a: seq<Byte>, b: seq<Byte>, c: seq<Byte>)
    ensures var s := a + (b + c);
      s[..|a|] == a && s[|a|..|s| - |c|] == b && s[|s| - |c|..] == c
  {
  }

  /** Re-attaching the witness to a legacy coinbase yields its segwit serialization. */
  lemma WithWitnessIsSegwit(tx: Tx)
    requires WellFormed(tx)
    ensures WithWitness(Serialize(tx)) == SerializeSegwit(tx, [ZERO_32])
  {
    OneZeroItem();
    Slices(LE(tx.version, 4), SerBody(tx), LE(tx.locktime, 4));
    hide LE, SerBody, SerItems, Varint;
  }

  /** The block's coinbase parses to the hashed transaction plus one 32-byte zero item. */
  lemma BlockCoinbaseParses(tx: Tx)
    requires WellFormed(tx)
    ensures ParseTx(WithWitness(Serialize(tx))).Got?
    ensures ParseTx(WithWitness(Serialize(tx))).val == Parsed(tx, Stack([ZERO_32]))
  {
    WithWitnessIsSegwit(tx);
    ParseOfSegwit(tx, [ZERO_32]);
  }
}
