/**
 Solvency of the credit rail: what a block's coinbase paid the pool wallet against what
 its distribution credits. The row is filed from the value the template announced
 (src/stratum.c); the wallet is paid from what the coinbase spends, which on a
 server-provided coinbase is its one spendable output (src/coinbase.c).
 */
module WalletFunding {
  import opened Options
  import opened Sums
  import opened Bytes
  import opened Pplns
  import opened WindowPayout
  import opened CoinbaseTx
  import opened CoinbaseBuilder
  import opened CoinbaseWindows
  import JobCoinbase
  import D = Distribution
  import S = Settlement
  import B = BlockStatus
  import WindowWalk

  /** How a block's coinbase was built: the value announced, and the reward it spends. From scratch they are one. */
  datatype Coinbase = Coinbase(announced: int, reward: int, builtBps: int, pool: string, operator: string)

  /** The operator's fee in a coinbase paying one payee. */
  function FeeIn(c: Coinbase): int {
    if c.reward > 0 then FeeOf(c.reward, c.builtBps, c.operator != "") else 0
  }

  /** What the pool wallet gets. */
  function Wallet(c: Coinbase): int {
    c.reward - FeeIn(c)
  }

  ghost predicate Rates(c: Coinbase, feeBps: int) {
    0 <= c.builtBps <= 10000 && 0 <= feeBps <= 10000
  }

  // ---- the wallet's output, in the bytes -------------------------------

  lemma WalletIsFirstOutput(c: Coinbase, script: string -> Option<Script>)
    requires SingleOutputs(c.reward, c.pool, c.operator, c.builtBps, script).Some?
    ensures script(c.pool).Some?
    ensures SingleOutputs(c.reward, c.pool, c.operator, c.builtBps, script).value[0]
      == ReplOut(script(c.pool).value, Wallet(c))
  {
    hide FeeOf;
  }

  /** The operator's fee is the only other output, and goes to the operator's own script. */
  lemma OperatorIsSecondOutput(c: Coinbase, script: string -> Option<Script>)
    requires SingleOutputs(c.reward, c.pool, c.operator, c.builtBps, script).Some?
    ensures var outs := SingleOutputs(c.reward, c.pool, c.operator, c.builtBps, script).value;
      if FeeIn(c) > 0
      then |outs| == 2 && script(c.operator).Some? && outs[1] == ReplOut(script(c.operator).value, FeeIn(c))
      else |outs| == 1
  {
    hide FeeOf;
  }

  lemma WalletIsNonNegative(c: Coinbase)
    requires c.reward >= 0 && 0 <= c.builtBps <= 10000
    ensures 0 <= Wallet(c) <= c.reward
  {
    FeeWithinReward(c.reward, c.builtBps, c.operator != "");
    hide FeeOf;
  }

  /** The wallet's output among a transaction's. */
  ghost predicate PaysWallet(cb: seq<Byte>, i: nat, c: Coinbase, script: string -> Option<Script>)
    requires script(c.pool).Some?
  {
    && ParseTx(cb).Got? && i < |ParseTx(cb).val.tx.outs|
    && var o := ParseTx(cb).val.tx.outs[i];
       o.value == Wallet(c) && o.spk == script(c.pool).value
  }

  /** From scratch, whatever the extranonce, the first output pays the wallet. */
  lemma SplitPaysWallet(c: Coinbase, height: nat, wc: Option<seq<Byte>>, tag: seq<Byte>, salt: nat, en: seq<Byte>,
                        script: string -> Option<Script>)
    requires StandardScripts(script) && height < 0x1_0000_0000 && |en| <= 100 && (wc.Some? ==> |wc.value| <= 256)
    requires 0 <= c.reward < I64_END && 0 <= c.builtBps <= 10000
    requires SingleOutputs(c.reward, c.pool, c.operator, c.builtBps, script).Some?
    ensures script(c.pool).Some?
    ensures var repl := SingleOutputs(c.reward, c.pool, c.operator, c.builtBps, script).value;
      && AllFitI64(repl)
      && var p := WindowParts(SPLIT_VERSION, height, tag, salt, |en|, wc, repl);
         PaysWallet(p.cb1 + en + p.cb2, 0, c, script)
  {
    hide ParseTx, WindowParts, FeeOf, HeightPush, TagPush;
    WalletIsFirstOutput(c, script);
    WalletIsNonNegative(c);
    SingleFits(c.reward, c.pool, c.operator, c.builtBps, script);
    var repl := SingleOutputs(c.reward, c.pool, c.operator, c.builtBps, script).value;
    WindowRoundTrip(SPLIT_VERSION, height, tag, salt, en, wc, repl);
    var tx := WindowTx(SPLIT_VERSION, height, tag, salt, en, wc, repl);
    assert tx.outs[0] == AsOuts(repl)[0];
  }

  /** On a server's coinbase the output that replaces the reward does. */
  lemma TemplatePaysWallet(c: Coinbase, t: Template, push: seq<Byte>, en: seq<Byte>, script: string -> Option<Script>)
    requires StandardScripts(script) && t.Valid() && t.Reward() == c.reward >= 0 && 0 <= c.builtBps <= 10000
    requires |t.Outs()| + 2 < U64_END && ScriptSigFits(t.parsed.tx, push, |en|)
    requires SingleOutputs(c.reward, c.pool, c.operator, c.builtBps, script).Some?
    ensures script(c.pool).Some?
    ensures var repl := SingleOutputs(c.reward, c.pool, c.operator, c.builtBps, script).value;
      && AllFitI64(repl)
      && var p := SplicedParts(t, push, |en|, repl);
         PaysWallet(p.cb1 + en + p.cb2, t.idx, c, script)
  {
    hide ParseTx, SplicedParts, FeeOf, Serialize, WithWitness, SumInt, IsOpReturn;
    WalletIsFirstOutput(c, script);
    WalletIsNonNegative(c);
    SingleFits(c.reward, c.pool, c.operator, c.builtBps, script);
    SingleSpendsAll(c.reward, c.pool, c.operator, c.builtBps, script);
    var repl := SingleOutputs(c.reward, c.pool, c.operator, c.builtBps, script).value;
    SpliceRoundTrip(t, push, en, repl);
    var outs := SplicedTx(t, push, en, repl).outs;
    assert outs[t.idx] == AsOuts(repl)[0];
  }

  // ---- when what is payable is funded ----------------------------------

  /** Everything a distribution may credit is in the wallet. */
  predicate Funded(c: Coinbase, feeBps: int) {
    D.PayableOf(c.announced, feeBps) <= Wallet(c)
  }

  /**
   A block is funded exactly when the announced value exceeds the reward by no more than
   the fee taken at distribution exceeds the fee in the coinbase.
   */
  lemma FundedIff(c: Coinbase, feeBps: int)
    ensures Funded(c, feeBps) <==> c.announced - c.reward <= D.CutOf(c.announced, feeBps) - FeeIn(c)
  {
    hide D.PayableOf, FeeOf;
  }

  /** The fee on a value at a rate, before the dust rule. */
  function RawFee(value: int, bps: int): int {
    (value * bps) / 10000
  }

  lemma RawFeeIsNonNegative(value: int, bps: int)
    requires value >= 0 && bps >= 0
    ensures RawFee(value, bps) >= 0
  {
    assert value * bps >= 0;
  }

  lemma FeesAre(c: Coinbase, feeBps: int)
    requires c.announced > 0 && c.reward > 0 && Rates(c, feeBps)
    ensures var raw := RawFee(c.announced, feeBps); D.CutOf(c.announced, feeBps) == if raw >= DUST_SATS then raw else 0
    ensures var raw := RawFee(c.reward, c.builtBps);
      FeeIn(c) == if c.operator != "" && raw >= DUST_SATS then raw else 0
  {
  }

  /**
   When the coinbase spends what was announced, as it does from scratch: exactly when it
   took no fee, or today's fee on the same value is no smaller.
   */
  lemma FundedOnSameValueIff(c: Coinbase, feeBps: int)
    requires c.announced == c.reward > 0 && Rates(c, feeBps)
    ensures Funded(c, feeBps) <==> FeeIn(c) == 0 || RawFee(c.reward, c.builtBps) <= RawFee(c.reward, feeBps)
  {
    hide RawFee;
    FeesAre(c, feeBps);
    FundedIff(c, feeBps);
    assert RawFee(c.reward, feeBps) >= 0 by { RawFeeIsNonNegative(c.reward, feeBps); }
  }

  /** On a value of 10000 sats or more the smaller fee is the lower rate. */
  lemma LowerRateIsSmallerFee(value: int, builtBps: int, feeBps: int)
    requires value >= 10000 && 0 <= builtBps && 0 <= feeBps
    ensures RawFee(value, builtBps) <= RawFee(value, feeBps) <==> builtBps <= feeBps
  {
    if feeBps < builtBps {
      FeesDiffer(value, feeBps, builtBps);
    } else if builtBps < feeBps {
      FeesDiffer(value, builtBps, feeBps);
    }
  }

  lemma FeesDiffer(value: int, low: int, high: int)
    requires value >= 10000 && 0 <= low < high
    ensures RawFee(value, low) < RawFee(value, high)
  {
    var a, b, d := value * low, value * high, high - low - 1;
    assert value * d >= 0;
    assert b == a + value + value * d;
    WholeStep(a, b);
  }

  lemma WholeStep(a: int, b: int)
    requires b >= a + 10000
    ensures a / 10000 < b / 10000
  {
  }

  /** How much the fee can grow with the value: by the rate, rounded up or down. */
  lemma FeeGrowth(value: int, more: int, bps: int)
    requires value >= 0 && more >= 0 && 0 <= bps <= 10000
    ensures 0 <= RawFee(value + more, bps) - RawFee(value, bps) <= more
    ensures more * (10000 - bps) >= 10000 ==> RawFee(value + more, bps) - RawFee(value, bps) < more
  {
    var a, b, m := value * bps, (value + more) * bps, more * bps;
    assert b == a + m;
    assert 0 <= m <= more * 10000;
    assert more * (10000 - bps) == more * 10000 - m;
    DivideSum(a, m, more);
  }

  lemma DivideSum(a: int, m: int, more: int)
    requires 0 <= m <= more * 10000
    ensures 0 <= (a + m) / 10000 - a / 10000 <= more
    ensures more * 10000 - m >= 10000 ==> (a + m) / 10000 - a / 10000 < more
  {
  }

  /**
   At an unchanged rate it is enough that no more was announced than the coinbase spends,
   unless the announced value's fee is dust while the coinbase's is not.
   */
  lemma FundedAtSameRate(c: Coinbase, feeBps: int)
    requires 0 < c.announced <= c.reward && Rates(c, feeBps) && c.builtBps == feeBps
    requires FeeIn(c) == 0 || RawFee(c.announced, feeBps) >= DUST_SATS
    ensures Funded(c, feeBps)
  {
    hide RawFee;
    FeesAre(c, feeBps);
    FundedIff(c, feeBps);
    FeeGrowth(c.announced, c.reward - c.announced, feeBps);
    RawFeeIsNonNegative(c.announced, feeBps);
  }

  // ---- a server's coinbase with valued commitments ----------------------

  /** A server announces the sum of its coinbase's outputs; the pool spends the one that is spendable. */
  ghost predicate Announces(c: Coinbase, t: Template)
    requires t.Valid()
  {
    c.announced == JobCoinbase.PaidOut(t.Outs()) && c.reward == t.Reward()
  }

  /** What the outputs the pool leaves in place pay. */
  function Burned(t: Template): int
    requires t.idx < |t.Outs()|
  {
    JobCoinbase.PaidOut(Others(t.Outs(), t.idx))
  }

  lemma AnnouncedIsRewardAndBurned(c: Coinbase, t: Template)
    requires t.Valid() && Announces(c, t) && c.reward >= 0
    ensures c.announced == c.reward + Burned(t)
  {
    hide SumInt;
    var outs, i := t.Outs(), t.idx;
    var one := [outs[i]];
    JobCoinbase.PaidOutConcat(outs[..i], one + outs[i + 1..]);
    JobCoinbase.PaidOutConcat(one, outs[i + 1..]);
    JobCoinbase.PaidOutConcat(outs[..i], outs[i + 1..]);
    assert outs == outs[..i] + (one + outs[i + 1..]);
    assert JobCoinbase.PaidOut(one) == outs[i].value by {
      assert JobCoinbase.ValuesOf(one) == [outs[i].value];
      SumIntShort(outs[i].value);
    }
  }

  /** On a server's coinbase: funded exactly when its valued commitments cost no more than the fees differ by. */
  lemma TemplateFundedIff(c: Coinbase, t: Template, feeBps: int)
    requires t.Valid() && Announces(c, t) && c.reward >= 0
    ensures Funded(c, feeBps) <==> Burned(t) <= D.CutOf(c.announced, feeBps) - FeeIn(c)
  {
    hide D.CutOf, FeeIn, Funded, Burned;
    AnnouncedIsRewardAndBurned(c, t);
    FundedIff(c, feeBps);
  }

  /** At an unchanged rate, commitments worth a sat or more net of the fee leave the block unfunded. */
  lemma ValuedCommitmentIsUnfunded(c: Coinbase, t: Template, feeBps: int)
    requires t.Valid() && Announces(c, t) && c.reward > 0 && Rates(c, feeBps) && c.builtBps == feeBps
    requires c.operator != "" && Burned(t) >= 0 && Burned(t) * (10000 - feeBps) >= 10000
    requires RawFee(c.reward, feeBps) >= DUST_SATS || RawFee(c.announced, feeBps) < DUST_SATS
    ensures !Funded(c, feeBps)
  {
    hide RawFee, Burned;
    AnnouncedIsRewardAndBurned(c, t);
    FeesAre(c, feeBps);
    TemplateFundedIff(c, t, feeBps);
    FeeGrowth(c.reward, Burned(t), feeBps);
    assert Burned(t) > 0;
  }

  // ---- in credits ------------------------------------------------------

  /** A window of one worker's share: it is credited everything. */
  lemma OneWorkerTakesAll(payable: int, row: WindowWalk.ShareRow, window: real)
    requires payable > 0 && row.difficulty > 0.0 && window > 0.0
    ensures D.BlockCredits(payable, [row], window) == [D.Credit(row.workerId, payable)]
  {
    var rows := [row];
    assert WindowWalk.Running(rows, 1) == 0.0;
    assert D.GroupFrom(rows, window, 1) == [] && D.WindowTotal(rows, window, 1) == 0.0;
    var w := D.Work(row.workerId, row.difficulty);
    assert D.GroupFrom(rows, window, 0) == [w] && D.WindowTotal(rows, window, 0) == row.difficulty;
    WholeShare(payable, row.difficulty);
    assert [w][..0] == [];
    assert D.CreditsOf(payable, [], row.difficulty) == [];
    assert D.CreditsOf(payable, [w], row.difficulty) == [] + [D.Credit(row.workerId, payable)];
  }

  lemma WholeShare(payable: int, d: real)
    requires d > 0.0
    ensures Share(payable, d, d) == payable
  {
    UnitFactor(payable as real, d);
  }

  /** The row the pool files for a found block. */
  function FiledRow(c: Coinbase, hash: string, height: int, window: real): B.Block {
    var fee := FeeOf(c.announced, c.builtBps, c.operator != "");
    B.Block(hash, height, B.Confirmed, D.MATURITY, c.announced - fee, fee, window, false)
  }

  /** One mature block, found by the one share in its window. */
  function OneBlock(c: Coinbase, hash: string, height: int): S.Store {
    S.Store([FiledRow(c, hash, height, 1.0)], [], [WindowWalk.ShareRow(1, 7, 1.0)], map[hash := 1], [])
  }

  /** The condition is exact in credits too: where it fails, a due block credits more than the wallet got. */
  lemma UnfundedBlockOvercredits(c: Coinbase, feeBps: int, hash: string, height: int)
    requires D.PayableOf(c.announced, feeBps) > 0 && !Funded(c, feeBps)
    ensures var s := OneBlock(c, hash, height);
      && S.ValidStore(s) && S.Due(s.blocks[0])
      && SumInt(D.SatsOf(S.CreditsFor(s, 0, feeBps))) > Wallet(c)
  {
    hide FeeOf, D.PayableOf;
    var s := OneBlock(c, hash, height);
    var payable := D.PayableOf(c.announced, feeBps);
    assert s.shares[..0] == [];
    assert S.AnchoredRows(s, hash) == s.shares;
    OneWorkerTakesAll(payable, s.shares[0], 1.0);
    assert s.shares == [s.shares[0]];
    assert D.SatsOf(S.CreditsFor(s, 0, feeBps)) == [payable];
    SumIntShort(payable);
  }

  /** A fee lowered from 100 to 50 basis points between finding a block and distributing it. */
  lemma LoweredFeeOverpays(pool: string, operator: string, hash: string)
    requires operator != ""
    ensures var c := Coinbase(5_000_000_000, 5_000_000_000, 100, pool, operator);
      SumInt(D.SatsOf(S.CreditsFor(OneBlock(c, hash, 1), 0, 50))) > Wallet(c)
  {
    UnfundedBlockOvercredits(Coinbase(5_000_000_000, 5_000_000_000, 100, pool, operator), 50, hash, 1);
    hide S.CreditsFor;
  }

  /** A server's coinbase of 49 coins to spend and one coin in an OP_RETURN. */
  function ValuedTemplate(prevout: seq<Byte>): Template {
    var outs := [TxOut(4_900_000_000, [0x51])] + [TxOut(100_000_000, [0x6a])];
    Template(Parsed(Tx(2, prevout, [3, 1, 2, 3], 0xffff_ffff, outs, 0), NoWitness), 0)
  }

  /** Announced as 50 coins, with the fee never changed, its distribution credits more than the wallet got. */
  lemma ValuedCommitmentOverpays(prevout: seq<Byte>, pool: string, operator: string, hash: string)
    requires |prevout| == 36 && operator != ""
    ensures var t, c := ValuedTemplate(prevout), Coinbase(5_000_000_000, 4_900_000_000, 100, pool, operator);
      && t.Valid() && Announces(c, t)
      && SumInt(D.SatsOf(S.CreditsFor(OneBlock(c, hash, 1), 0, 100))) > Wallet(c)
  {
    var t, c := ValuedTemplate(prevout), Coinbase(5_000_000_000, 4_900_000_000, 100, pool, operator);
    assert t.Outs() == [t.Outs()[0]] + [t.Outs()[1]];
    assert JobCoinbase.ValuesOf(t.Outs()) == [4_900_000_000] + [100_000_000];
    SumIntShort(4_900_000_000);
    SumIntAppend([4_900_000_000], 100_000_000);
    UnfundedBlockOvercredits(c, 100, hash, 1);
    hide S.CreditsFor;
  }

  // ---- every payment of every run --------------------------------------

  /** The row was filed for this coinbase. */
  predicate FiledFor(row: B.Block, c: Coinbase) {
    D.GrossOf(row) == c.announced && c.reward >= 0 && 0 <= c.builtBps <= 10000
  }

  lemma FiledRowIsFiledFor(c: Coinbase, hash: string, height: int, window: real)
    requires c.reward >= 0 && 0 <= c.builtBps <= 10000
    ensures FiledFor(FiledRow(c, hash, height, window), c)
  {
  }

  /** A funded block's credits never exceed the output its coinbase paid the pool wallet. */
  lemma PaymentIsFunded(p: S.Payment, c: Coinbase, script: string -> Option<Script>)
    requires S.SoundPayment(p) && FiledFor(p.row, c) && Funded(c, p.feeBps)
    requires SingleOutputs(c.reward, c.pool, c.operator, c.builtBps, script).Some?
    ensures p.total <= SingleOutputs(c.reward, c.pool, c.operator, c.builtBps, script).value[0].sats
  {
    WalletIsFirstOutput(c, script);
    WalletIsNonNegative(c);
    hide D.PayableOf, FeeOf, SingleOutputs, Wallet, D.GroupFrom, D.WindowTotal;
  }

  /** The coinbases the payments of a run came from, each funded. */
  ghost predicate AllFunded(ps: seq<S.Payment>, cs: seq<Coinbase>) {
    && |cs| == |ps|
    && forall i :: 0 <= i < |ps| ==> FiledFor(ps[i].row, cs[i]) && Funded(cs[i], ps[i].feeBps)
  }

  function Wallets(cs: seq<Coinbase>): (r: seq<int>)
    ensures |r| == |cs|
    ensures forall i :: 0 <= i < |r| ==> r[i] == Wallet(cs[i])
  {
    seq(|cs|, i requires 0 <= i < |cs| => Wallet(cs[i]))
  }

  lemma {:induction false} SumIsMonotone(a: seq<int>, b: seq<int>)
    requires |a| == |b| && forall i :: 0 <= i < |a| ==> a[i] <= b[i]
    ensures SumInt(a) <= SumInt(b)
  {
    if a != [] { SumIsMonotone(a[..|a| - 1], b[..|b| - 1]); }
  }

  /** In every reachable state everything ever credited is covered by what those coinbases paid the wallet. */
  lemma CreditsAreCovered(ws: seq<S.World>, steps: seq<S.Step>, n: nat, cs: seq<Coinbase>)
    requires S.IsRun(ws, steps) && n < |ws| && AllFunded(ws[n].payments, cs)
    ensures S.Accrued(ws[n].store.credits) <= SumInt(Wallets(cs))
  {
    S.RunIsSound(ws, steps, n);
    hide SumInt, S.L.Inv, S.IsRun, FeeOf, D.PayableOf, Wallet;
    var ps := ws[n].payments;
    forall i | 0 <= i < |ps| ensures ps[i].total <= Wallet(cs[i]) {
      WalletIsNonNegative(cs[i]);
    }
    SumIsMonotone(S.TotalsOf(ps), Wallets(cs));
  }
}
