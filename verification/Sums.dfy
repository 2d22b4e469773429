/** Sums over sequences, permutations of indices, and proportional shares. */
module Sums {

  function SumInt(s: seq<int>): int {
    if s == [] then 0 else SumInt(s[..|s| - 1]) + s[|s| - 1]
  }

  function SumReal(s: seq<real>): real {
    if s == [] then 0.0 else SumReal(s[..|s| - 1]) + s[|s| - 1]
  }

  lemma SumIntAppend(s: seq<int>, x: int)
    ensures SumInt(s + [x]) == SumInt(s) + x
  {
    assert (s + [x])[..|s|] == s;
  }

  lemma SumIntShort(x: int)
    ensures SumInt([]) == 0 && SumInt([x]) == x
  {
    assert [x][..0] == [];
  }

  lemma SumRealAppend(s: seq<real>, x: real)
    ensures SumReal(s + [x]) == SumReal(s) + x
  {
    assert (s + [x])[..|s|] == s;
  }

  lemma {:induction false} SumRealCons(x: real, s: seq<real>)
    ensures SumReal([x] + s) == x + SumReal(s)
  {
    if s == [] {
      assert [x] + s == [] + [x];
      SumRealAppend([], x);
    } else {
      SumRealCons(x, s[..|s| - 1]);
      assert ([x] + s)[..|s|] == [x] + s[..|s| - 1];
    }
  }

  function Reals(s: seq<int>): (r: seq<real>)
    ensures |r| == |s|
    ensures forall i :: 0 <= i < |r| ==> r[i] == s[i] as real
  {
    seq(|s|, i requires 0 <= i < |s| => s[i] as real)
  }

  lemma {:induction false} RealsSum(s: seq<int>)
    ensures SumReal(Reals(s)) == SumInt(s) as real
  {
    if s != [] {
      RealsSum(s[..|s| - 1]);
      assert Reals(s)[..|s| - 1] == Reals(s[..|s| - 1]);
    }
  }

  lemma {:induction false} SumIntConcat(s: seq<int>, t: seq<int>)
    ensures SumInt(s + t) == SumInt(s) + SumInt(t)
  {
    if t == [] {
      assert s + t == s;
    } else {
      var n := |t| - 1;
      SumIntConcat(s, t[..n]);
      assert (s + t)[..|s + t| - 1] == s + t[..n];
    }
  }

  lemma {:induction false} SumIntBump(s: seq<int>, i: nat, d: int)
    requires i < |s|
    ensures SumInt(s[i := s[i] + d]) == SumInt(s) + d
  {
    var n := |s| - 1;
    if i == n {
      assert s[i := s[i] + d][..n] == s[..n];
    } else {
      SumIntBump(s[..n], i, d);
      assert s[i := s[i] + d][..n] == s[..n][i := s[i] + d];
    }
  }

  lemma {:induction false} SumIntBounds(s: seq<int>, i: nat)
    requires forall j :: 0 <= j < |s| ==> s[j] >= 0
    ensures SumInt(s) >= 0
    ensures i < |s| ==> s[i] <= SumInt(s)
  {
    if s != [] {
      SumIntBounds(s[..|s| - 1], if i < |s| - 1 then i else 0);
    }
  }

  // ---- permutations ---------------------------------------------------

  predicate Distinct(s: seq<nat>) {
    forall i, j :: 0 <= i < j < |s| ==> s[i] != s[j]
  }

  /** `order` lists every index below `n` exactly once. */
  predicate IsPerm(order: seq<nat>, n: nat) {
    && |order| == n
    && Distinct(order)
    && (forall i :: 0 <= i < |order| ==> order[i] < n)
    && (forall i: nat :: i < n ==> i in order)
  }

  function Elems(s: seq<nat>): set<nat> {
    set k | k in s
  }

  lemma {:induction false} DistinctSize(s: seq<nat>)
    requires Distinct(s)
    ensures |Elems(s)| == |s|
  {
    if s != [] {
      var n := |s| - 1;
      DistinctSize(s[..n]);
      assert Elems(s) == Elems(s[..n]) + {s[n]};
    }
  }

  /** The indices below `n`. */
  function Below(n: nat): (r: set<nat>)
    ensures |r| == n
    ensures forall k: nat :: k in r <==> k < n
  {
    if n == 0 then {} else Below(n - 1) + {n - 1}
  }

  lemma CoverIsPerm(order: seq<nat>, n: nat)
    requires Distinct(order)
    requires forall i: nat :: i in order <==> i < n
    ensures IsPerm(order, n)
  {
    DistinctSize(order);
    assert Elems(order) == Below(n);
    assert forall i :: 0 <= i < |order| ==> order[i] in order;
  }

  function Permuted(s: seq<int>, order: seq<nat>): (r: seq<int>)
    requires forall i :: 0 <= i < |order| ==> order[i] < |s|
    ensures |r| == |order|
    ensures forall i :: 0 <= i < |order| ==> r[i] == s[order[i]]
  {
    seq(|order|, i requires 0 <= i < |order| => s[order[i]])
  }

  function Without<T>(s: seq<T>, p: nat): seq<T>
    requires p < |s|
  {
    s[..p] + s[p + 1..]
  }

  lemma {:induction false} SumWithout(s: seq<int>, p: nat)
    requires p < |s|
    ensures SumInt(s) == SumInt(Without(s, p)) + s[p]
  {
    var n := |s| - 1;
    if p == n {
      assert Without(s, p) == s[..n];
    } else {
      SumWithout(s[..n], p);
      assert Without(s, p)[..n - 1] == Without(s[..n], p);
    }
  }

  lemma PermWithout(order: seq<nat>, n: nat, p: nat)
    requires IsPerm(order, n + 1) && p < |order| && order[p] == n
    ensures IsPerm(Without(order, p), n)
  {
    var rest := Without(order, p);
    forall i: nat ensures i in rest <==> i < n {
      if i < n {
        assert i in order;
        var q: nat :| q < |order| && order[q] == i;
        assert rest[if q < p then q else q - 1] == i;
      }
    }
    CoverIsPerm(rest, n);
  }

  lemma PermutedWithout(s: seq<int>, order: seq<nat>, n: nat, p: nat)
    requires IsPerm(order, n + 1) && |s| == n + 1 && p < |order| && order[p] == n
    ensures IsPerm(Without(order, p), n)
    ensures Permuted(s[..n], Without(order, p)) == Without(Permuted(s, order), p)
  {
    PermWithout(order, n, p);
  }

  /** A permutation changes no total. */
  lemma {:induction false} SumPermuted(s: seq<int>, order: seq<nat>)
    requires IsPerm(order, |s|)
    ensures SumInt(Permuted(s, order)) == SumInt(s)
    decreases |s|
  {
    if s != [] {
      var n: nat := |s| - 1;
      assert n in order;
      var p: nat :| p < |order| && order[p] == n;
      PermutedWithout(s, order, n, p);
      assert SumInt(s) == SumInt(s[..n]) + s[n];
      hide SumInt, Distinct, Without;
      SumPermuted(s[..n], Without(order, p));
      SumWithout(Permuted(s, order), p);
    }
  }

  lemma MultisetWithout<T>(s: seq<T>, p: nat)
    requires p < |s|
    ensures multiset(s) == multiset(Without(s, p)) + multiset{s[p]}
  {
    assert s == s[..p] + [s[p]] + s[p + 1..];
  }

  /** A permutation neither adds, drops nor changes anything. */
  lemma {:induction false} PermutedMultiset<T>(s: seq<T>, t: seq<T>, order: seq<nat>)
    requires IsPerm(order, |s|) && |t| == |s| && forall i :: 0 <= i < |t| ==> t[i] == s[order[i]]
    ensures multiset(t) == multiset(s)
    decreases |s|
  {
    if s != [] {
      var n: nat := |s| - 1;
      assert n in order;
      var p: nat :| p < |order| && order[p] == n;
      PermWithout(order, n, p);
      RestIsPermuted(s, t, order, p);
      hide IsPerm, Without;
      PermutedMultiset(s[..n], Without(t, p), Without(order, p));
      MultisetWithout(t, p);
      assert s == s[..n] + [s[n]];
    }
  }

  lemma RestIsPermuted<T>(s: seq<T>, t: seq<T>, order: seq<nat>, p: nat)
    requires IsPerm(order, |s|) && |t| == |s| && forall i :: 0 <= i < |t| ==> t[i] == s[order[i]]
    requires p < |order| && order[p] == |s| - 1
    ensures var n, rest, left := |s| - 1, Without(order, p), Without(t, p);
      && |rest| == |left| == n
      && forall i :: 0 <= i < n ==> rest[i] < n && left[i] == s[..n][rest[i]]
  {
    var n, rest, left := |s| - 1, Without(order, p), Without(t, p);
    forall i | 0 <= i < n ensures rest[i] < n && left[i] == s[..n][rest[i]] {
      var j := if i < p then i else i + 1;
      assert rest[i] == order[j] && left[i] == t[j];
      assert order[j] != order[p];
    }
  }

  // ---- proportional shares --------------------------------------------

  /** What `part` of `whole` entitles to out of `amount`. */
  function Quota(amount: int, part: real, whole: real): real
    requires whole > 0.0
  {
    amount as real * (part / whole)
  }

  /** The whole satoshis of a quota, truncated. */
  function Share(amount: int, part: real, whole: real): int
    requires whole > 0.0
  {
    Quota(amount, part, whole).Floor
  }

  function Times(x: real, y: real): real {
    x * y
  }

  predicate InStep(low: real, x: real, step: real) {
    low <= x < low + step
  }

  /** The share without division: the amount in proportion, less than one whole short of it. */
  predicate IsShare(share: int, amount: int, part: real, whole: real) {
    InStep(Times(share as real, whole), Times(amount as real, part), whole)
  }

  /** A share is the amount in proportion, less than one whole short of it. */
  lemma ShareIs(amount: int, part: real, whole: real)
    requires whole > 0.0
    ensures IsShare(Share(amount, part, whole), amount, part, whole)
  {
    hide Quota, Times;
    QuotaIs(amount, part, whole);
    ScaleStep(Share(amount, part, whole) as real, Quota(amount, part, whole), whole);
  }

  lemma QuotaIs(amount: int, part: real, whole: real)
    requires whole > 0.0
    ensures Times(Quota(amount, part, whole), whole) == Times(amount as real, part)
  {
    var a, q := amount as real, part / whole;
    assert q * whole == part;
    assert a * q * whole == a * (q * whole);
  }

  lemma ScaleStep(r: real, q: real, w: real)
    requires r <= q < r + 1.0 && w > 0.0
    ensures InStep(Times(r, w), Times(q, w), w)
  {
    ScaleDown(r, q, w);
    assert r * w <= q * w;
  }

  lemma ScaleDown(r: real, q: real, w: real)
    requires q < r + 1.0 && w > 0.0
    ensures q * w < r * w + w
  {
    var next := r + 1.0;
    assert next * w == r * w + w;
    assert q * w < next * w;
  }

  function Shares(amount: int, parts: seq<real>, whole: real): (r: seq<int>)
    requires whole > 0.0
    ensures |r| == |parts|
    ensures forall i :: 0 <= i < |r| ==> r[i] == Share(amount, parts[i], whole)
  {
    seq(|parts|, i requires 0 <= i < |parts| => Share(amount, parts[i], whole))
  }

  lemma ShareIsMonotone(amount: int, x: real, y: real, whole: real)
    requires whole > 0.0 && amount >= 0 && x <= y
    ensures Share(amount, x, whole) <= Share(amount, y, whole)
  {
    assert x / whole <= y / whole;
    assert amount as real * (x / whole) <= amount as real * (y / whole);
  }

  lemma ShareIsNonNegative(amount: int, part: real, whole: real)
    requires whole > 0.0 && amount >= 0 && part >= 0.0
    ensures Share(amount, part, whole) >= 0
  {
    ShareIsMonotone(amount, 0.0, part, whole);
    assert amount as real * (0.0 / whole) == 0.0;
  }

  /** The shares before truncation. */
  function Quotas(amount: int, parts: seq<real>, whole: real): (r: seq<real>)
    requires whole > 0.0
    ensures |r| == |parts|
    ensures forall i :: 0 <= i < |r| ==> r[i] == Quota(amount, parts[i], whole)
  {
    seq(|parts|, i requires 0 <= i < |parts| => Quota(amount, parts[i], whole))
  }

  lemma Distribute(a: real, x: real, y: real, w: real)
    requires w > 0.0
    ensures a * ((x + y) / w) == a * (x / w) + a * (y / w)
  {
    assert (x + y) / w == x / w + y / w;
  }

  lemma ZeroPart(a: real, w: real)
    requires w > 0.0
    ensures a * (0.0 / w) == 0.0
  {
    assert 0.0 / w == 0.0;
  }

  lemma UnitFactor(a: real, w: real)
    requires w != 0.0
    ensures a * (w / w) == a
  {
    assert w / w == 1.0;
  }

  lemma {:induction false} QuotaSum(amount: int, parts: seq<real>, whole: real)
    requires whole > 0.0
    ensures SumReal(Quotas(amount, parts, whole)) == amount as real * (SumReal(parts) / whole)
  {
    if parts == [] {
      ZeroPart(amount as real, whole);
    } else {
      var n := |parts| - 1;
      QuotaSum(amount, parts[..n], whole);
      assert Quotas(amount, parts, whole)[..n] == Quotas(amount, parts[..n], whole) by { hide Quota; }
      Distribute(amount as real, SumReal(parts[..n]), parts[n], whole);
    }
  }

  function Floors(q: seq<real>): (r: seq<int>)
    ensures |r| == |q|
    ensures forall i :: 0 <= i < |r| ==> r[i] == q[i].Floor
  {
    seq(|q|, i requires 0 <= i < |q| => q[i].Floor)
  }

  /** Truncation loses less than one satoshi per share, and never adds one. */
  lemma {:induction false} FloorSum(q: seq<real>)
    ensures SumInt(Floors(q)) as real <= SumReal(q)
    ensures q != [] ==> SumInt(Floors(q)) as real > SumReal(q) - |q| as real
  {
    if q != [] {
      var n := |q| - 1;
      FloorSum(q[..n]);
      assert Floors(q)[..n] == Floors(q[..n]);
    }
  }

  /** Shares of the whole never exceed the amount; what truncation leaves is below one per share. */
  lemma SharesOfWhole(amount: int, parts: seq<real>, whole: real)
    requires whole == SumReal(parts) && whole > 0.0
    ensures SumInt(Shares(amount, parts, whole)) <= amount
    ensures amount - SumInt(Shares(amount, parts, whole)) < |parts|
  {
    var q := Quotas(amount, parts, whole);
    assert SumReal(q) == amount as real by {
      QuotaSum(amount, parts, whole);
      UnitFactor(amount as real, whole);
    }
    assert Floors(q) == Shares(amount, parts, whole);
    assert q != [];
    FloorSum(q);
  }
}
