/**
 The payout queue of coinbase-direct PPLNS: what a block's skipped miners are owed
 (src/stratum.c), staged against the block and settled when it stands or falls
 (src/store.c). Doubles are exact reals.
 */
module FractionLedger {
  import opened Sums

  const FILTER: real := 0.000000000001
  const TOLERANCE: real := 0.000000001
  const MAX_PAYEES: nat := 200
  const SETTLE_LIMIT: nat := 64

  // ---- what one block moves -------------------------------------------

  /** Payee `i`'s entitlement out of one block, minus what the coinbase paid it. */
  function DeltaOf(sats: seq<int>, paid: seq<bool>, total: int, own: int, i: nat): real
    requires i < |sats| == |paid| && total > 0 && own > 0
  {
    Quota(1, sats[i] as real, total as real) - if paid[i] then Quota(1, sats[i] as real, own as real) else 0.0
  }

  /** The claims of the paid payees, 0 for the others. */
  function OwnOf(sats: seq<int>, paid: seq<bool>): (r: seq<int>)
    requires |sats| == |paid|
    ensures |r| == |sats|
    ensures forall i :: 0 <= i < |r| ==> r[i] == if paid[i] then sats[i] else 0
  {
    seq(|sats|, i requires 0 <= i < |sats| => if paid[i] then sats[i] else 0)
  }

  function Deltas(sats: seq<int>, paid: seq<bool>): (r: seq<real>)
    requires |sats| == |paid| && SumInt(sats) > 0 && SumInt(OwnOf(sats, paid)) > 0
    ensures |r| == |sats|
  {
    var total, own := SumInt(sats), SumInt(OwnOf(sats, paid));
    seq(|sats|, i requires 0 <= i < |sats| => DeltaOf(sats, paid, total, own, i))
  }

  lemma {:induction false} SumDifference(a: seq<real>, b: seq<real>, d: seq<real>)
    requires |a| == |b| == |d| && forall i :: 0 <= i < |d| ==> d[i] == a[i] - b[i]
    ensures SumReal(d) == SumReal(a) - SumReal(b)
  {
    if d != [] { SumDifference(a[..|a| - 1], b[..|b| - 1], d[..|d| - 1]); }
  }

  lemma QuotasOfWhole(sats: seq<int>)
    requires SumInt(sats) > 0
    ensures SumReal(Quotas(1, Reals(sats), SumInt(sats) as real)) == 1.0
  {
    RealsSum(sats);
    QuotaSum(1, Reals(sats), SumInt(sats) as real);
    UnitFactor(1.0, SumInt(sats) as real);
  }

  /** Redistribution moves value between miners and never in or out: the deltas cancel. */
  lemma DeltasCancel(sats: seq<int>, paid: seq<bool>)
    requires |sats| == |paid| && SumInt(sats) > 0 && SumInt(OwnOf(sats, paid)) > 0
    ensures SumReal(Deltas(sats, paid)) == 0.0
  {
    var total, own := SumInt(sats), SumInt(OwnOf(sats, paid));
    var a, b := Quotas(1, Reals(sats), total as real), Quotas(1, Reals(OwnOf(sats, paid)), own as real);
    QuotasOfWhole(sats);
    QuotasOfWhole(OwnOf(sats, paid));
    ZeroPart(1.0, own as real);
    assert Quota(1, 0.0, own as real) == 0.0;
    hide Quota, SumInt, SumReal;
    SumDifference(a, b, Deltas(sats, paid));
  }

  datatype Delta = Delta(workerId: int, delta: real)

  predicate Significant(d: real) {
    d > FILTER || d < -FILTER
  }

  /** The deltas worth recording, with the worker each belongs to. */
  function Kept(ids: seq<int>, deltas: seq<real>): (r: seq<Delta>)
    requires |ids| == |deltas|
    ensures |r| <= |ids|
  {
    if deltas == [] then []
    else
      var n := |deltas| - 1;
      Kept(ids[..n], deltas[..n]) + if Significant(deltas[n]) then [Delta(ids[n], deltas[n])] else []
  }

  function AmountsOf(ds: seq<Delta>): (r: seq<real>)
    ensures |r| == |ds|
    ensures forall i :: 0 <= i < |r| ==> r[i] == ds[i].delta
  {
    seq(|ds|, i requires 0 <= i < |ds| => ds[i].delta)
  }

  lemma AmountsAppend(ds: seq<Delta>, d: Delta)
    ensures SumReal(AmountsOf(ds + [d])) == SumReal(AmountsOf(ds)) + d.delta
  {
    assert AmountsOf(ds + [d]) == AmountsOf(ds) + [d.delta];
    SumRealAppend(AmountsOf(ds), d.delta);
  }

  /** How far filtering `n` deltas can move a balance. */
  function Drift(n: nat): real {
    n as real * FILTER
  }

  /** Each filtered delta takes at most the threshold out of the balance. */
  lemma {:induction false} FilterDrift(ids: seq<int>, deltas: seq<real>)
    requires |ids| == |deltas|
    ensures -Drift(|deltas|) <= SumReal(deltas) - SumReal(AmountsOf(Kept(ids, deltas))) <= Drift(|deltas|)
  {
    if deltas == [] {
      assert AmountsOf(Kept(ids, deltas)) == [];
    } else {
      var n := |deltas| - 1;
      FilterDrift(ids[..n], deltas[..n]);
      var before := Kept(ids[..n], deltas[..n]);
      AmountsAppend(before, Delta(ids[n], deltas[n]));
      assert Drift(n + 1) == Drift(n) + FILTER by { assert (n + 1) as real == n as real + 1.0; }
      assert Kept(ids, deltas) == if Significant(deltas[n]) then before + [Delta(ids[n], deltas[n])] else before;
      hide Drift, Kept;
    }
  }

  /** With every worker known, the filtered deltas of a block always pass the staging check. */
  lemma FilteredSetBalances(sats: seq<int>, paid: seq<bool>, ids: seq<int>)
    requires |sats| == |paid| == |ids| <= MAX_PAYEES
    requires SumInt(sats) > 0 && SumInt(OwnOf(sats, paid)) > 0
    requires forall i :: 0 <= i < |ids| ==> ids[i] > 0
    ensures StageAccepts(Kept(ids, Deltas(sats, paid)))
  {
    var ds := Kept(ids, Deltas(sats, paid));
    DeltasCancel(sats, paid);
    FilterDrift(ids, Deltas(sats, paid));
    assert Drift(|sats|) <= TOLERANCE by { assert |sats| as real <= 200.0; }
    KeptIds(ids, Deltas(sats, paid));
    AllWritable(ds);
    hide SumReal, SumInt, Drift, Kept, Deltas;
  }

  lemma {:induction false} KeptIds(ids: seq<int>, deltas: seq<real>)
    requires |ids| == |deltas|
    ensures forall i :: 0 <= i < |Kept(ids, deltas)| ==> Kept(ids, deltas)[i].workerId in ids
    ensures (forall i, j :: 0 <= i < j < |ids| ==> ids[i] != ids[j]) ==> DistinctWorkers(Kept(ids, deltas))
  {
    if deltas != [] {
      var n := |deltas| - 1;
      KeptIds(ids[..n], deltas[..n]);
    }
  }

  /** What the window's claims are worth, and those of the payees that were paid. */
  method WindowTotals(sats: seq<int>, paid: seq<bool>) returns (total: int, own: int)
    requires |sats| == |paid|
    ensures total == SumInt(sats) && own == SumInt(OwnOf(sats, paid))
  {
    total, own := 0, 0;
    ghost var kept := OwnOf(sats, paid);
    for i := 0 to |sats|
      invariant total == SumInt(sats[..i]) && own == SumInt(kept[..i])
    {
      assert sats[..i + 1] == sats[..i] + [sats[i]];
      SumIntAppend(sats[..i], sats[i]);
      assert kept[..i + 1] == kept[..i] + [kept[i]];
      SumIntAppend(kept[..i], kept[i]);
      total := total + sats[i];
      if paid[i] { own := own + sats[i]; }
    }
    assert sats[..|sats|] == sats && kept[..|sats|] == kept;
  }

  /** The deltas a found block hands to the store. */
  method WindowFractions(sats: seq<int>, paid: seq<bool>, ids: seq<int>) returns (d: seq<Delta>)
    requires |sats| == |paid| == |ids| <= MAX_PAYEES
    ensures if SumInt(sats) > 0 && SumInt(OwnOf(sats, paid)) > 0 then d == Kept(ids, Deltas(sats, paid)) else d == []
  {
    hide SumInt, DeltaOf, Significant;
    d := [];
    var total, own := WindowTotals(sats, paid);
    if !(total > 0 && own > 0) { return; }
    ghost var all := Deltas(sats, paid);
    for i := 0 to |sats|
      invariant |d| <= i && d == Kept(ids[..i], all[..i])
    {
      assert ids[..i + 1][..i] == ids[..i] && all[..i + 1][..i] == all[..i];
      var delta := DeltaOf(sats, paid, total, own, i);
      if Significant(delta) { d := d + [Delta(ids[i], delta)]; }
    }
    assert ids[..|sats|] == ids && all[..|sats|] == all;
  }

  // ---- the tables -----------------------------------------------------

  datatype Row = Row(workerId: int, owed: real)

  datatype PendingRow = PendingRow(hash: string, workerId: int, delta: real)

  datatype Tables = Tables(pending: seq<PendingRow>, ledger: seq<Row>)

  function OwedOf(rows: seq<Row>): (r: seq<real>)
    ensures |r| == |rows|
    ensures forall i :: 0 <= i < |r| ==> r[i] == rows[i].owed
  {
    seq(|rows|, i requires 0 <= i < |rows| => rows[i].owed)
  }

  function Balance(rows: seq<Row>): real {
    SumReal(OwedOf(rows))
  }

  ghost predicate OneRowEach(rows: seq<Row>) {
    forall i, j :: 0 <= i < j < |rows| ==> rows[i].workerId != rows[j].workerId
  }

  /** INSERT .. ON CONFLICT(worker_id) DO UPDATE SET owed = owed + excluded.owed. */
  function Upsert(rows: seq<Row>, workerId: int, d: real): (r: seq<Row>)
    ensures forall i :: 0 <= i < |r| ==> r[i].workerId == workerId || (exists j :: 0 <= j < |rows| && r[i] == rows[j])
    ensures OneRowEach(rows) ==> OneRowEach(r)
  {
    if rows == [] then [Row(workerId, d)]
    else if rows[0].workerId == workerId then [Row(workerId, rows[0].owed + d)] + rows[1..]
    else [rows[0]] + Upsert(rows[1..], workerId, d)
  }

  lemma BalanceCons(row: Row, rows: seq<Row>)
    ensures Balance([row] + rows) == row.owed + Balance(rows)
  {
    assert OwedOf([row] + rows) == [row.owed] + OwedOf(rows);
    SumRealCons(row.owed, OwedOf(rows));
  }

  lemma EmptyBalance()
    ensures Balance([]) == 0.0
  {
    assert OwedOf([]) == [];
  }

  /** An upsert moves the ledger's balance by exactly the delta. */
  lemma {:induction false} UpsertBalance(rows: seq<Row>, workerId: int, d: real)
    ensures Balance(Upsert(rows, workerId, d)) == Balance(rows) + d
  {
    EmptyBalance();
    hide Balance;
    if rows == [] {
      BalanceCons(Row(workerId, d), []);
      assert [Row(workerId, d)] + [] == [Row(workerId, d)];
    } else {
      assert rows == [rows[0]] + rows[1..];
      BalanceCons(rows[0], rows[1..]);
      if rows[0].workerId == workerId {
        BalanceCons(Row(workerId, rows[0].owed + d), rows[1..]);
      } else {
        UpsertBalance(rows[1..], workerId, d);
        BalanceCons(rows[0], Upsert(rows[1..], workerId, d));
      }
    }
  }

  // ---- staging --------------------------------------------------------

  ghost predicate DistinctWorkers(ds: seq<Delta>) {
    forall i, j :: 0 <= i < j < |ds| ==> ds[i].workerId != ds[j].workerId
  }

  /** The deltas that name a worker. */
  function Writable(ds: seq<Delta>): (r: seq<Delta>)
    ensures |r| <= |ds|
  {
    if ds == [] then []
    else
      var n := |ds| - 1;
      Writable(ds[..n]) + if ds[n].workerId > 0 then [ds[n]] else []
  }

  lemma {:induction false} AllWritable(ds: seq<Delta>)
    requires forall i :: 0 <= i < |ds| ==> ds[i].workerId > 0
    ensures Writable(ds) == ds
  {
    if ds != [] {
      AllWritable(ds[..|ds| - 1]);
      assert ds == ds[..|ds| - 1] + [ds[|ds| - 1]];
    }
  }

  lemma {:induction false} WritableIn(ds: seq<Delta>)
    ensures forall i :: 0 <= i < |Writable(ds)| ==> Writable(ds)[i] in ds && Writable(ds)[i].workerId > 0
    ensures DistinctWorkers(ds) ==> DistinctWorkers(Writable(ds))
  {
    if ds != [] {
      var n := |ds| - 1;
      WritableIn(ds[..n]);
      if DistinctWorkers(ds) {
        forall i | 0 <= i < |Writable(ds[..n])| ensures Writable(ds[..n])[i].workerId != ds[n].workerId {
          var j :| 0 <= j < n && ds[j] == Writable(ds[..n])[i];
        }
      }
    }
  }

  predicate Balanced(x: real) {
    -TOLERANCE <= x <= TOLERANCE
  }

  /** Checked over the rows that will be written, not over everything passed in. */
  predicate StageAccepts(ds: seq<Delta>) {
    Balanced(SumReal(AmountsOf(Writable(ds))))
  }

  /** Refused beyond a billionth either way, and not at it. */
  lemma StageAcceptsIff(ds: seq<Delta>)
    ensures StageAccepts(ds) <==>
      var sum := SumReal(AmountsOf(Writable(ds))); -0.000000001 <= sum && sum <= 0.000000001
  {
    hide SumReal;
  }

  /** INSERT .. ON CONFLICT(block_hash, worker_id) DO UPDATE SET delta = excluded.delta. */
  function StageRow(pending: seq<PendingRow>, row: PendingRow): seq<PendingRow> {
    if pending == [] then [row]
    else if pending[0].hash == row.hash && pending[0].workerId == row.workerId then [row] + pending[1..]
    else [pending[0]] + StageRow(pending[1..], row)
  }

  lemma {:induction false} StageRowAppends(pending: seq<PendingRow>, row: PendingRow)
    requires forall i :: 0 <= i < |pending| ==> pending[i].hash != row.hash || pending[i].workerId != row.workerId
    ensures StageRow(pending, row) == pending + [row]
  {
    if pending != [] { StageRowAppends(pending[1..], row); }
  }

  function RowsFor(hash: string, ds: seq<Delta>): (r: seq<PendingRow>)
    ensures |r| == |ds|
    ensures forall i :: 0 <= i < |r| ==> r[i] == PendingRow(hash, ds[i].workerId, ds[i].delta)
  {
    seq(|ds|, i requires 0 <= i < |ds| => PendingRow(hash, ds[i].workerId, ds[i].delta))
  }

  function StageAll(pending: seq<PendingRow>, hash: string, ds: seq<Delta>): seq<PendingRow> {
    if ds == [] then pending
    else
      var n := |ds| - 1;
      var before := StageAll(pending, hash, ds[..n]);
      if ds[n].workerId <= 0 then before else StageRow(before, PendingRow(hash, ds[n].workerId, ds[n].delta))
  }

  lemma WritableNew(ds: seq<Delta>, n: nat)
    requires DistinctWorkers(ds) && n < |ds|
    ensures var w := Writable(ds[..n]); forall i :: 0 <= i < |w| ==> w[i].workerId != ds[n].workerId
  {
    hide Writable;
    WritableIn(ds[..n]);
    var w := Writable(ds[..n]);
    forall i | 0 <= i < |w| ensures w[i].workerId != ds[n].workerId {
      var j :| 0 <= j < n && ds[j] == w[i];
    }
  }

  /** One more row of a fresh block goes to the end. */
  lemma StageOneFresh(pending: seq<PendingRow>, hash: string, w: seq<Delta>, d: Delta)
    requires forall i :: 0 <= i < |pending| ==> pending[i].hash != hash
    requires forall i :: 0 <= i < |w| ==> w[i].workerId != d.workerId
    ensures StageRow(pending + RowsFor(hash, w), PendingRow(hash, d.workerId, d.delta))
         == pending + RowsFor(hash, w + [d])
  {
    hide StageRow;
    var row := PendingRow(hash, d.workerId, d.delta);
    StageRowAppends(pending + RowsFor(hash, w), row);
    assert RowsFor(hash, w + [d]) == RowsFor(hash, w) + [row];
  }

  /** A block staged for the first time adds exactly its writable rows. */
  lemma {:induction false} StageAllFresh(pending: seq<PendingRow>, hash: string, ds: seq<Delta>)
    requires DistinctWorkers(ds) && forall i :: 0 <= i < |pending| ==> pending[i].hash != hash
    ensures StageAll(pending, hash, ds) == pending + RowsFor(hash, Writable(ds))
  {
    hide StageRow, RowsFor;
    if ds == [] {
      assert pending + RowsFor(hash, Writable(ds)) == pending;
    } else {
      var n := |ds| - 1;
      StageAllFresh(pending, hash, ds[..n]);
      WritableNew(ds, n);
      StageOneFresh(pending, hash, Writable(ds[..n]), ds[n]);
    }
  }

  /** Stage a block's deltas: one transaction, refused unless the written rows cancel. */
  method Stage(t: Tables, hash: string, ds: seq<Delta>, commits: bool) returns (t': Tables, staged: bool)
    ensures staged <==> commits && Writable(ds) != [] && StageAccepts(ds)
    ensures t' == if staged then t.(pending := StageAll(t.pending, hash, ds)) else t
  {
    var sum, writable := 0.0, 0;
    assert Writable(ds[..0]) == [] && AmountsOf([]) == [];
    for i := 0 to |ds|
      invariant sum == SumReal(AmountsOf(Writable(ds[..i]))) && writable == |Writable(ds[..i])|
    {
      hide SumReal;
      assert ds[..i + 1][..i] == ds[..i];
      assert Writable(ds[..i + 1]) == if ds[i].workerId > 0 then Writable(ds[..i]) + [ds[i]] else Writable(ds[..i]);
      if ds[i].workerId > 0 {
        AmountsAppend(Writable(ds[..i]), ds[i]);
        sum, writable := sum + ds[i].delta, writable + 1;
      }
    }
    assert ds[..|ds|] == ds;
    if writable == 0 || !Balanced(sum) { return t, false; }
    var pending := t.pending;
    assert ds[..0] == [];
    for i := 0 to |ds|
      invariant pending == StageAll(t.pending, hash, ds[..i])
    {
      hide StageRow;
      assert ds[..i + 1][..i] == ds[..i];
      if ds[i].workerId > 0 {
        pending := StageRow(pending, PendingRow(hash, ds[i].workerId, ds[i].delta));
      }
    }
    if !commits { return t, false; }
    return t.(pending := pending), true;
  }

  // ---- settling -------------------------------------------------------

  function PendingSum(pending: seq<PendingRow>, hash: string): real {
    if pending == [] then 0.0
    else
      var n := |pending| - 1;
      PendingSum(pending[..n], hash) + if pending[n].hash == hash then pending[n].delta else 0.0
  }

  /** Apply the rows staged for `hash` to the ledger. */
  function ApplyHash(ledger: seq<Row>, pending: seq<PendingRow>, hash: string): (r: seq<Row>)
    ensures OneRowEach(ledger) ==> OneRowEach(r)
  {
    if pending == [] then ledger
    else
      var n := |pending| - 1;
      var before := ApplyHash(ledger, pending[..n], hash);
      if pending[n].hash == hash then Upsert(before, pending[n].workerId, pending[n].delta) else before
  }

  function DropHash(pending: seq<PendingRow>, hash: string): seq<PendingRow> {
    if pending == [] then []
    else
      var n := |pending| - 1;
      DropHash(pending[..n], hash) + if pending[n].hash == hash then [] else [pending[n]]
  }

  /** Dropping a block's rows keeps exactly the rows of the other blocks. */
  lemma {:induction false} DropIn(pending: seq<PendingRow>, hash: string)
    ensures forall row :: row in DropHash(pending, hash) <==> row in pending && row.hash != hash
  {
    if pending != [] {
      var n := |pending| - 1;
      DropIn(pending[..n], hash);
      assert pending == pending[..n] + [pending[n]];
    }
  }

  lemma {:induction false} ApplyBalance(ledger: seq<Row>, pending: seq<PendingRow>, hash: string)
    ensures Balance(ApplyHash(ledger, pending, hash)) == Balance(ledger) + PendingSum(pending, hash)
  {
    hide Balance;
    if pending != [] {
      var n := |pending| - 1;
      ApplyBalance(ledger, pending[..n], hash);
      UpsertBalance(ApplyHash(ledger, pending[..n], hash), pending[n].workerId, pending[n].delta);
    }
  }

  lemma PendingSumAppend(pending: seq<PendingRow>, row: PendingRow, hash: string)
    ensures PendingSum(pending + [row], hash) == PendingSum(pending, hash) + if row.hash == hash then row.delta else 0.0
  {
    assert (pending + [row])[..|pending|] == pending;
  }

  lemma {:induction false} DropKeepsOthers(pending: seq<PendingRow>, hash: string, other: string)
    requires other != hash
    ensures PendingSum(DropHash(pending, hash), other) == PendingSum(pending, other)
  {
    if pending != [] {
      var n := |pending| - 1;
      DropKeepsOthers(pending[..n], hash, other);
      var kept := DropHash(pending[..n], hash);
      PendingSumAppend(kept, pending[n], other);
      assert DropHash(pending, hash) == if pending[n].hash == hash then kept else kept + [pending[n]];
      hide DropHash;
    }
  }

  lemma {:induction false} AbsentSum(pending: seq<PendingRow>, hash: string)
    requires forall i :: 0 <= i < |pending| ==> pending[i].hash != hash
    ensures PendingSum(pending, hash) == 0.0
  {
    if pending != [] { AbsentSum(pending[..|pending| - 1], hash); }
  }

  lemma RowsForStep(hash: string, ds: seq<Delta>)
    requires ds != []
    ensures var n := |ds| - 1;
      && RowsFor(hash, ds) == RowsFor(hash, ds[..n]) + [PendingRow(hash, ds[n].workerId, ds[n].delta)]
      && SumReal(AmountsOf(ds)) == SumReal(AmountsOf(ds[..n])) + ds[n].delta
  {
    assert AmountsOf(ds)[..|ds| - 1] == AmountsOf(ds[..|ds| - 1]);
  }

  lemma {:induction false} RowsSum(pending: seq<PendingRow>, hash: string, ds: seq<Delta>, other: string)
    ensures PendingSum(pending + RowsFor(hash, ds), other)
         == PendingSum(pending, other) + if other == hash then SumReal(AmountsOf(ds)) else 0.0
  {
    if ds == [] {
      assert pending + RowsFor(hash, ds) == pending;
    } else {
      hide PendingSum, SumReal, RowsFor, AmountsOf;
      var n := |ds| - 1;
      var row := PendingRow(hash, ds[n].workerId, ds[n].delta);
      RowsForStep(hash, ds);
      RowsSum(pending, hash, ds[..n], other);
      PendingSumAppend(pending + RowsFor(hash, ds[..n]), row, other);
      assert pending + (RowsFor(hash, ds[..n]) + [row]) == pending + RowsFor(hash, ds[..n]) + [row];
    }
  }

  /** A staged block whose fate the confirmation pass has decided. */
  datatype Verdict = Verdict(hash: string, confirmed: bool)

  function SettleOne(t: Tables, v: Verdict): Tables {
    Tables(DropHash(t.pending, v.hash), if v.confirmed then ApplyHash(t.ledger, t.pending, v.hash) else t.ledger)
  }

  function SettleAll(t: Tables, vs: seq<Verdict>): Tables {
    if vs == [] then t else SettleOne(SettleAll(t, vs[..|vs| - 1]), vs[|vs| - 1])
  }

  /** One transaction for the whole settlement: every verdict lands or none does. */
  method Settle(t: Tables, vs: seq<Verdict>, commits: bool) returns (t': Tables, applied: nat, discarded: nat)
    requires |vs| <= SETTLE_LIMIT
    ensures t' == if commits then SettleAll(t, vs) else t
    ensures if commits then applied + discarded == |vs| else applied == discarded == 0
  {
    hide SettleOne;
    if t.pending == [] && vs == [] { return t, 0, 0; }
    t', applied, discarded := t, 0, 0;
    assert vs[..0] == [];
    for i := 0 to |vs|
      invariant t' == SettleAll(t, vs[..i]) && applied + discarded == i
    {
      assert vs[..i + 1][..i] == vs[..i];
      t' := SettleOne(t', vs[i]);
      if vs[i].confirmed { applied := applied + 1; } else { discarded := discarded + 1; }
    }
    assert vs[..|vs|] == vs;
    if !commits { return t, 0, 0; }
  }

  // ---- whole runs -----------------------------------------------------

  datatype Step =
    | StageStep(hash: string, ds: seq<Delta>, commits: bool)
    | SettleStep(vs: seq<Verdict>, commits: bool)

  /** The tables, and the blocks that went through them. */
  datatype Run = Run(t: Tables, staged: set<string>, applied: seq<string>, discarded: seq<string>)

  const START := Run(Tables([], []), {}, [], [])

  ghost predicate HasRows(t: Tables, hash: string) {
    exists row :: row in t.pending && row.hash == hash
  }

  /** A block is staged once, for distinct workers; only staged blocks are settled, each once per pass. */
  ghost predicate Allowed(r: Run, s: Step) {
    match s
    case StageStep(hash, ds, _) => hash !in r.staged && DistinctWorkers(ds)
    case SettleStep(vs, _) =>
      && |vs| <= SETTLE_LIMIT
      && (forall i :: 0 <= i < |vs| ==> HasRows(r.t, vs[i].hash))
      && (forall i, j :: 0 <= i < j < |vs| ==> vs[i].hash != vs[j].hash)
  }

  function SettledBy(r: Run, v: Verdict): Run {
    var t := SettleOne(r.t, v);
    if v.confirmed then r.(t := t, applied := r.applied + [v.hash])
    else r.(t := t, discarded := r.discarded + [v.hash])
  }

  function Settled(r: Run, vs: seq<Verdict>): Run {
    if vs == [] then r else SettledBy(Settled(r, vs[..|vs| - 1]), vs[|vs| - 1])
  }

  ghost function Next(r: Run, s: Step): Run {
    match s
    case StageStep(hash, ds, commits) =>
      if commits && Writable(ds) != [] && StageAccepts(ds) then
        r.(t := r.t.(pending := StageAll(r.t.pending, hash, ds)), staged := r.staged + {hash})
      else r
    case SettleStep(vs, commits) => if commits then Settled(r, vs) else r
  }

  ghost predicate NoRepeats(s: seq<string>) {
    forall i, j :: 0 <= i < j < |s| ==> s[i] != s[j]
  }

  function Slack(n: nat): real {
    n as real * 0.000000001
  }

  /** A block's rows wait, or were applied, or were discarded: one of the three, and once. */
  ghost predicate SettledOnce(r: Run) {
    && NoRepeats(r.applied) && NoRepeats(r.discarded)
    && (forall h :: h in r.applied ==> h !in r.discarded && h in r.staged && !HasRows(r.t, h))
    && (forall h :: h in r.discarded ==> h in r.staged && !HasRows(r.t, h))
    && (forall row :: row in r.t.pending ==> row.hash in r.staged)
  }

  /** What every step keeps: settled once, and a ledger within the tolerance per applied block. */
  ghost predicate Inv(r: Run) {
    && SettledOnce(r)
    && OneRowEach(r.t.ledger)
    && (forall hash :: Balanced(PendingSum(r.t.pending, hash)))
    && -Slack(|r.applied|) <= Balance(r.t.ledger) <= Slack(|r.applied|)
  }

  lemma StageKeepsInv(r: Run, hash: string, ds: seq<Delta>, commits: bool)
    requires Inv(r) && Allowed(r, StageStep(hash, ds, commits))
    ensures Inv(Next(r, StageStep(hash, ds, commits)))
  {
    var w := Writable(ds);
    if commits && w != [] && StageAccepts(ds) {
      hide Balance, Slack, OneRowEach, DistinctWorkers, Writable;
      var rows := RowsFor(hash, w);
      forall i | 0 <= i < |r.t.pending| ensures r.t.pending[i].hash != hash {
        assert r.t.pending[i] in r.t.pending;
      }
      StageAllFresh(r.t.pending, hash, ds);
      var pending := r.t.pending + rows;
      AbsentSum(r.t.pending, hash);
      forall other ensures Balanced(PendingSum(pending, other)) {
        RowsSum(r.t.pending, hash, w, other);
      }
      assert forall row :: row in pending ==> row in r.t.pending || row.hash == hash;
    }
  }

  lemma SettleOneRows(r: Run, v: Verdict)
    requires SettledOnce(r) && HasRows(r.t, v.hash)
    ensures SettledOnce(SettledBy(r, v))
    ensures forall h :: h != v.hash && HasRows(r.t, h) ==> HasRows(SettledBy(r, v).t, h)
  {
    DropIn(r.t.pending, v.hash);
    hide DropHash, ApplyHash;
  }

  lemma SettleOneBalances(r: Run, v: Verdict)
    requires Inv(r)
    ensures var r' := SettledBy(r, v);
      && OneRowEach(r'.t.ledger)
      && (forall h :: Balanced(PendingSum(r'.t.pending, h)))
      && -Slack(|r'.applied|) <= Balance(r'.t.ledger) <= Slack(|r'.applied|)
  {
    var pending := DropHash(r.t.pending, v.hash);
    DropIn(r.t.pending, v.hash);
    ApplyBalance(r.t.ledger, r.t.pending, v.hash);
    assert Slack(|r.applied| + 1) == Slack(|r.applied|) + TOLERANCE by {
      assert (|r.applied| + 1) as real == |r.applied| as real + 1.0;
    }
    hide SettledOnce, Slack, Balance, OneRowEach, ApplyHash, DropHash, PendingSum;
    forall h ensures Balanced(PendingSum(pending, h)) {
      if h != v.hash { DropKeepsOthers(r.t.pending, v.hash, h); } else { AbsentSum(pending, h); }
    }
  }

  lemma SettleOneKeeps(r: Run, v: Verdict)
    requires Inv(r) && HasRows(r.t, v.hash)
    ensures Inv(SettledBy(r, v))
    ensures forall h :: h != v.hash && HasRows(r.t, h) ==> HasRows(SettledBy(r, v).t, h)
  {
    SettleOneRows(r, v);
    SettleOneBalances(r, v);
    hide SettledOnce, HasRows, SettledBy, Slack, Balance, PendingSum, OneRowEach, Balanced;
  }

  lemma {:induction false} SettleKeepsInv(r: Run, vs: seq<Verdict>, n: nat)
    requires Inv(r) && Allowed(r, SettleStep(vs, true)) && n <= |vs|
    ensures Inv(Settled(r, vs[..n]))
    ensures forall i :: n <= i < |vs| ==> HasRows(Settled(r, vs[..n]).t, vs[i].hash)
    decreases n
  {
    if n == 0 {
      assert vs[..0] == [];
    } else {
      SettleKeepsInv(r, vs, n - 1);
      assert vs[..n][..n - 1] == vs[..n - 1];
      hide Inv, HasRows, SettledBy;
      SettleOneKeeps(Settled(r, vs[..n - 1]), vs[n - 1]);
    }
  }

  ghost function StagedHashes(t: Tables): (hs: set<string>)
    ensures forall h :: h in hs <==> HasRows(t, h)
  {
    set row | row in t.pending :: row.hash
  }

  function HashesOf(vs: seq<Verdict>): (hs: set<string>)
    ensures forall h :: h in hs <==> exists i :: 0 <= i < |vs| && vs[i].hash == h
  {
    set i | 0 <= i < |vs| :: vs[i].hash
  }

  lemma HashesSnoc(vs: seq<Verdict>, n: nat)
    requires |vs| == n + 1
    ensures HashesOf(vs) == HashesOf(vs[..n]) + {vs[n].hash}
  {
    forall h ensures h in HashesOf(vs) <==> h in HashesOf(vs[..n]) || h == vs[n].hash {
      if h in HashesOf(vs[..n]) {
        var i :| 0 <= i < n && vs[..n][i].hash == h;
        assert vs[i].hash == h;
      }
      if h in HashesOf(vs) && h != vs[n].hash {
        var i :| 0 <= i < |vs| && vs[i].hash == h;
        assert vs[..n][i].hash == h;
      }
    }
  }

  lemma SettledByHashes(r: Run, v: Verdict)
    ensures StagedHashes(SettledBy(r, v).t) == StagedHashes(r.t) - {v.hash}
  {
    hide DropHash, ApplyHash;
    DropIn(r.t.pending, v.hash);
  }

  /** A committed settlement clears the rows of exactly the blocks it lists. */
  lemma {:induction false} SettledHashes(r: Run, vs: seq<Verdict>)
    ensures StagedHashes(Settled(r, vs).t) == StagedHashes(r.t) - HashesOf(vs)
  {
    hide StagedHashes, HashesOf, SettledBy, HasRows;
    if vs == [] {
      assert HashesOf(vs) == {};
    } else {
      var n := |vs| - 1;
      SettledHashes(r, vs[..n]);
      SettledByHashes(Settled(r, vs[..n]), vs[n]);
      HashesSnoc(vs, n);
    }
  }

  lemma {:induction false} DistinctCount(vs: seq<Verdict>)
    requires forall i, j :: 0 <= i < j < |vs| ==> vs[i].hash != vs[j].hash
    ensures |HashesOf(vs)| == |vs|
  {
    if vs != [] {
      var n := |vs| - 1;
      DistinctCount(vs[..n]);
      HashesSnoc(vs, n);
    }
  }

  lemma StepKeepsInv(r: Run, s: Step)
    requires Inv(r) && Allowed(r, s)
    ensures Inv(Next(r, s))
  {
    match s {
      case StageStep(hash, ds, commits) => StageKeepsInv(r, hash, ds, commits);
      case SettleStep(vs, commits) =>
        if commits {
          SettleKeepsInv(r, vs, |vs|);
          assert vs[..|vs|] == vs;
        }
    }
  }

  /** The states a run of steps passes through. */
  ghost predicate IsRun(rs: seq<Run>, steps: seq<Step>) {
    && |rs| == |steps| + 1 && rs[0] == START
    && forall i :: 0 <= i < |steps| ==> Allowed(rs[i], steps[i]) && rs[i + 1] == Next(rs[i], steps[i])
  }

  /**
   Over every run of stagings and settlements, with transactions failing anywhere,
   no staged block is applied twice or both applied and discarded, and the ledger
   stays within 1e-9 per applied block of zero.
   */
  lemma {:induction false} LedgerIsSafe(rs: seq<Run>, steps: seq<Step>, n: nat)
    requires IsRun(rs, steps) && n < |rs|
    ensures Inv(rs[n])
    decreases n
  {
    if n == 0 {
      assert OwedOf([]) == [];
    } else {
      LedgerIsSafe(rs, steps, n - 1);
      StepKeepsInv(rs[n - 1], steps[n - 1]);
      hide Inv, Next, Allowed;
    }
  }
}
