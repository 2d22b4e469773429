/**
 Base58 decoding by multiply-and-carry over a fixed byte buffer (src/coinbase.c,
 src/thunder.c): what the bytes mean, that no two strings share them, and that the
 buffer of length * 733 / 1000 + 1 bytes is never too small.
 */
module Base58 {
  import opened Options

  type Digits = seq<nat>

  /** `n` consecutive characters. */
  function Stretch(first: char, n: nat): (s: string)
    requires first as int + n <= 128
    ensures |s| == n && forall i :: 0 <= i < n ==> s[i] as int == first as int + i
  {
    seq(n, i requires 0 <= i < n => (first as int + i) as char)
  }

  /** Digits and letters in order, without 0, I, O and l. */
  const ALPHABET: string :=
    Stretch('1', 9) + Stretch('A', 8) + Stretch('J', 5) + Stretch('P', 11) + Stretch('a', 11) + Stretch('m', 14)

  // ---- numerals --------------------------------------------------------

  ghost predicate Below(base: nat, s: Digits) {
    forall i :: 0 <= i < |s| ==> s[i] < base
  }

  /** The number a big-endian numeral stands for. */
  function Val(base: nat, s: Digits): nat {
    if s == [] then 0 else Val(base, s[..|s| - 1]) * base + s[|s| - 1]
  }

  function Pow(base: nat, n: nat): nat {
    if n == 0 then 1 else base * Pow(base, n - 1)
  }

  lemma {:induction false} PowPositive(base: nat, n: nat)
    requires base > 0
    ensures Pow(base, n) > 0
  {
    if n > 0 { PowPositive(base, n - 1); }
  }

  lemma {:induction false} ValBound(base: nat, s: Digits)
    requires base > 0 && Below(base, s)
    ensures Val(base, s) < Pow(base, |s|)
  {
    if s != [] {
      ValBound(base, s[..|s| - 1]);
      LessTimes(Val(base, s[..|s| - 1]), Pow(base, |s| - 1), base, s[|s| - 1]);
    }
  }

  lemma LessTimes(v: nat, p: nat, base: nat, d: nat)
    requires v < p && d < base
    ensures v * base + d < base * p
  {
    TimesGap(v, p, base);
    assert p * base == base * p;
  }

  lemma TimesMono(a: nat, b: nat, c: nat)
    requires a <= b
    ensures a * c <= b * c
  {
    assert b * c == a * c + (b - a) * c;
    assert (b - a) * c >= 0;
  }

  lemma TimesGap(a: nat, b: nat, c: nat)
    requires a < b
    ensures a * c + c <= b * c
  {
    TimesMono(a + 1, b, c);
    assert (a + 1) * c == a * c + c;
  }

  ghost predicate NoLeadingZero(s: Digits) {
    s == [] || s[0] != 0
  }

  /** A numeral without leading zeros is determined by its number. */
  lemma {:induction false} ValIsInjective(base: nat, s: Digits, t: Digits)
    requires base > 1 && Below(base, s) && Below(base, t)
    requires NoLeadingZero(s) && NoLeadingZero(t) && Val(base, s) == Val(base, t)
    ensures s == t
    decreases |s| + |t|
  {
    if s == [] && t != [] {
      ValPositive(base, t);
    } else if t == [] && s != [] {
      ValPositive(base, s);
    } else if s != [] {
      var a, b := s[..|s| - 1], t[..|t| - 1];
      LastDigit(base, Val(base, a), s[|s| - 1], Val(base, b), t[|t| - 1]);
      ValIsInjective(base, a, b);
      assert s == a + [s[|s| - 1]] && t == b + [t[|t| - 1]];
    }
  }

  lemma {:induction false} ValPositive(base: nat, s: Digits)
    requires base > 0 && s != [] && s[0] != 0
    ensures Val(base, s) > 0
  {
    if |s| > 1 {
      ValPositive(base, s[..|s| - 1]);
      TimesMono(1, Val(base, s[..|s| - 1]), base);
    }
  }

  lemma LastDigit(base: nat, a: nat, d: nat, b: nat, e: nat)
    requires d < base && e < base && a * base + d == b * base + e
    ensures a == b && d == e
  {
    if a < b { TimesGap(a, b, base); } else if b < a { TimesGap(b, a, base); }
  }

  /** Leading zeros do not change the number. */
  lemma {:induction false} ValOfZeros(base: nat, z: nat, s: Digits)
    ensures Val(base, Zeros(z) + s) == Val(base, s)
    decreases z + |s|
  {
    if s == [] {
      if z > 0 {
        ValOfZeros(base, z - 1, []);
        assert (Zeros(z) + [])[..z - 1] == Zeros(z - 1) + [];
      }
    } else {
      ValOfZeros(base, z, s[..|s| - 1]);
      assert (Zeros(z) + s)[..z + |s| - 1] == Zeros(z) + s[..|s| - 1];
    }
  }

  function Zeros(n: nat): (s: Digits)
    ensures |s| == n && forall i :: 0 <= i < n ==> s[i] == 0
  {
    seq(n, _ => 0)
  }

  /** How many zeros a numeral starts with. */
  function Leading(s: Digits): (n: nat)
    ensures n <= |s|
  {
    if s != [] && s[0] == 0 then 1 + Leading(s[1..]) else 0
  }

  lemma {:induction false} LeadingSplits(s: Digits)
    ensures s == Zeros(Leading(s)) + s[Leading(s)..]
    ensures NoLeadingZero(s[Leading(s)..])
  {
    if s != [] && s[0] == 0 {
      LeadingSplits(s[1..]);
      var n := Leading(s[1..]);
      assert s[1..][n..] == s[n + 1..];
      assert s == [0] + s[1..];
      assert Zeros(n + 1) == [0] + Zeros(n);
    }
  }

  /** The form without leading zeros. */
  function Minimal(s: Digits): Digits {
    s[Leading(s)..]
  }

  lemma MinimalIs(base: nat, s: Digits)
    ensures Val(base, Minimal(s)) == Val(base, s) && NoLeadingZero(Minimal(s))
    ensures Below(base, s) ==> Below(base, Minimal(s))
  {
    LeadingSplits(s);
    ValOfZeros(base, Leading(s), Minimal(s));
  }

  // ---- 58^n fits in n * 733 / 1000 + 1 bytes ----------------------------

  function Room(n: nat): nat {
    n * 733 / 1000 + 1
  }

  lemma {:induction false} PowAdd(base: nat, m: nat, n: nat)
    ensures Pow(base, m + n) == Pow(base, m) * Pow(base, n)
  {
    if m == 0 {
      assert Pow(base, 0) * Pow(base, n) == Pow(base, n);
    } else {
      PowAdd(base, m - 1, n);
      var p, q := Pow(base, m - 1), Pow(base, n);
      assert base * (p * q) == (base * p) * q;
    }
  }

  lemma {:induction false} PowPow(base: nat, m: nat, n: nat)
    ensures Pow(base, m * n) == Pow(Pow(base, m), n)
    decreases n
  {
    if n > 0 {
      PowPow(base, m, n - 1);
      assert m * n == m + m * (n - 1);
      PowAdd(base, m, m * (n - 1));
    } else {
      assert m * n == 0;
    }
  }

  lemma {:induction false} PowMono(a: nat, b: nat, n: nat)
    requires a <= b
    ensures Pow(a, n) <= Pow(b, n)
  {
    if n > 0 {
      PowMono(a, b, n - 1);
      TimesMono(a, b, Pow(a, n - 1));
      TimesMono(Pow(a, n - 1), Pow(b, n - 1), b);
    }
  }

  lemma TimesStrict(a: nat, b: nat, c: nat, d: nat)
    requires a < b && c < d
    ensures a * c < b * d
  {
    TimesMono(a, b, c);
    TimesMono(c + 1, d, b);
    assert (c + 1) * b == b * c + b;
  }

  lemma {:induction false} PowStrict(a: nat, b: nat, n: nat)
    requires a < b && n > 0
    ensures Pow(a, n) < Pow(b, n)
  {
    if n > 1 {
      PowStrict(a, b, n - 1);
      TimesStrict(a, b, Pow(a, n - 1), Pow(b, n - 1));
    }
  }

  lemma PowGrows(base: nat, m: nat, n: nat)
    requires base > 0 && m <= n
    ensures Pow(base, m) <= Pow(base, n)
  {
    hide Pow;
    PowAdd(base, n - m, m);
    PowPositive(base, n - m);
    TimesMono(1, Pow(base, n - m), Pow(base, m));
  }

  lemma SmallPowers()
    ensures Pow(58, 6) == 38068692544 && Pow(58, 7) == 2207984167552
    ensures Pow(58, 8) == 128063081718016
    ensures Pow(256, 4) == 4294967296 && Pow(256, 5) == 1099511627776
  {
  }

  /** 58 to the 71st is below 256 to the 52nd, by repeated squaring. */
  lemma SeventyOneIntoFiftyTwo()
    ensures Pow(58, 71) <= Pow(256, 52)
  {
    hide Pow;
    SmallPowers();
    PowAdd(58, 8, 8);
    PowAdd(58, 16, 16);
    PowAdd(58, 32, 32);
    PowAdd(58, 64, 7);
    PowAdd(256, 4, 4);
    PowAdd(256, 8, 8);
    PowAdd(256, 16, 16);
    PowAdd(256, 32, 16);
    PowAdd(256, 48, 4);
  }

  lemma ThousandIntoSevenThirtyThree()
    ensures Pow(58, 1000) <= Pow(256, 733)
  {
    hide Pow;
    SeventyOneIntoFiftyTwo();
    SmallPowers();
    PowPow(58, 71, 14);
    PowPow(256, 52, 14);
    PowMono(Pow(58, 71), Pow(256, 52), 14);
    PowAdd(58, 71 * 14, 6);
    PowAdd(256, 52 * 14, 5);
    var a, b, c, d := Pow(58, 994), Pow(256, 728), Pow(58, 6), Pow(256, 5);
    TimesMono(a, b, c);
    TimesMono(c, d, b);
  }

  /** The buffer holds the value of any n base-58 digits. */
  lemma RoomIsEnough(n: nat)
    ensures Pow(58, n) <= Pow(256, Room(n))
  {
    hide Pow;
    ThousandIntoSevenThirtyThree();
    var a, b := Pow(58, n), Pow(256, Room(n));
    if a > b {
      PowPow(58, 1000, n);
      PowPow(58, n, 1000);
      assert Pow(a, 1000) == Pow(Pow(58, 1000), n) by { assert n * 1000 == 1000 * n; }
      PowMono(Pow(58, 1000), Pow(256, 733), n);
      PowPow(256, 733, n);
      PowGrows(256, 733 * n, Room(n) * 1000);
      PowPow(256, Room(n), 1000);
      PowStrict(b, a, 1000);
      assert false;
    }
  }

  // ---- one digit in ----------------------------------------------------

  /** Multiply by 58 and add: the new bytes and what is carried out of the top. */
  datatype Carried = Carried(bytes: Digits, carry: nat)

  function MulAdd(b: Digits, d: nat): Carried {
    if b == [] then Carried([], d)
    else
      var x := d + 58 * b[|b| - 1];
      var rest := MulAdd(b[..|b| - 1], x / 256);
      Carried(rest.bytes + [x % 256], rest.carry)
  }

  lemma {:induction false} MulAddIs(b: Digits, d: nat)
    requires Below(256, b) && d < 58
    ensures var r := MulAdd(b, d);
      && |r.bytes| == |b| && Below(256, r.bytes) && r.carry < 58
      && r.carry * Pow(256, |b|) + Val(256, r.bytes) == 58 * Val(256, b) + d
  {
    if b != [] {
      var front, last := b[..|b| - 1], b[|b| - 1];
      var x := d + 58 * last;
      MulAddIs(front, x / 256);
      var rest := MulAdd(front, x / 256);
      var r := MulAdd(b, d);
      assert r.bytes[..|b| - 1] == rest.bytes;
      CarryStep(rest.carry, Pow(256, |b| - 1), Val(256, rest.bytes), Val(256, front), x, last, d);
    }
  }

  lemma CarryStep(c: nat, p: nat, low: nat, v: nat, x: nat, last: nat, d: nat)
    requires c * p + low == 58 * v + x / 256 && x == d + 58 * last
    ensures c * (256 * p) + (low * 256 + x % 256) == 58 * (v * 256 + last) + d
  {
    assert c * (256 * p) == 256 * (c * p);
  }

  /** Nothing is carried out when the result fits, and then the bytes are the result. */
  lemma NoCarryOut(b: Digits, d: nat)
    requires Below(256, b) && d < 58 && 58 * Val(256, b) + d < Pow(256, |b|)
    ensures MulAdd(b, d).carry == 0 && Val(256, MulAdd(b, d).bytes) == 58 * Val(256, b) + d
  {
    MulAddIs(b, d);
    var r := MulAdd(b, d);
    if r.carry > 0 { TimesMono(1, r.carry, Pow(256, |b|)); }
  }

  // ---- the decoder -----------------------------------------------------

  function DigitFrom(c: char, i: nat): Option<nat>
    requires i <= |ALPHABET|
    decreases |ALPHABET| - i
  {
    if i == |ALPHABET| then None else if ALPHABET[i] == c then Some(i) else DigitFrom(c, i + 1)
  }

  function Digit(c: char): Option<nat> {
    DigitFrom(c, 0)
  }

  lemma {:induction false} DigitFromIs(c: char, i: nat)
    requires i <= |ALPHABET|
    ensures DigitFrom(c, i).Some? ==> i <= DigitFrom(c, i).value < |ALPHABET| && ALPHABET[DigitFrom(c, i).value] == c
    ensures DigitFrom(c, i).None? <==> forall k :: i <= k < |ALPHABET| ==> ALPHABET[k] != c
    decreases |ALPHABET| - i
  {
    if i < |ALPHABET| && ALPHABET[i] != c { DigitFromIs(c, i + 1); }
  }

  lemma AlphabetSize()
    ensures |ALPHABET| == 58 && ALPHABET[0] == '1'
  {
  }

  /** The digit a character stands for: 1 to 9, then capitals, then small letters; 0, I, O and l stand for none. */
  function DigitOf(c: char): Option<nat> {
    if '1' <= c <= '9' then Some(c as int - '1' as int)
    else if 'A' <= c <= 'H' then Some(9 + (c as int - 'A' as int))
    else if 'J' <= c <= 'N' then Some(17 + (c as int - 'J' as int))
    else if 'P' <= c <= 'Z' then Some(22 + (c as int - 'P' as int))
    else if 'a' <= c <= 'k' then Some(33 + (c as int - 'a' as int))
    else if 'm' <= c <= 'z' then Some(44 + (c as int - 'm' as int))
    else None
  }

  lemma DigitIs(c: char)
    ensures Digit(c) == DigitOf(c)
  {
    AlphabetSize();
    DigitFromIs(c, 0);
    hide DigitFrom;
    if Digit(c).Some? { AlphabetAt(Digit(c).value); }
    if DigitOf(c).Some? { AlphabetHas(c); }
  }

  lemma AlphabetAt(v: nat)
    requires v < 58
    ensures |ALPHABET| == 58 && DigitOf(ALPHABET[v]) == Some(v)
  {
  }

  lemma AlphabetHas(c: char)
    requires DigitOf(c).Some?
    ensures DigitOf(c).value < 58 == |ALPHABET| && ALPHABET[DigitOf(c).value] == c
  {
    var v := DigitOf(c).value;
    AlphabetAt(v);
  }

  ghost predicate IsBase58(s: string) {
    forall i :: 0 <= i < |s| ==> Digit(s[i]).Some?
  }

  function DigitsOf(s: string): (ds: Digits)
    requires forall i :: 0 <= i < |s| ==> Digit(s[i]).Some?
    ensures |ds| == |s|
  {
    seq(|s|, i requires 0 <= i < |s| => Digit(s[i]).value)
  }

  lemma DigitsOfIs(s: string)
    requires IsBase58(s)
    ensures Below(58, DigitsOf(s))
    ensures forall i :: 0 <= i < |s| ==> (s[i] == '1' <==> DigitsOf(s)[i] == 0)
  {
    AlphabetSize();
    forall i | 0 <= i < |s|
      ensures DigitsOf(s)[i] < 58 && (s[i] == '1' <==> DigitsOf(s)[i] == 0)
    {
      DigitFromIs(s[i], 0);
    }
  }

  lemma DigitsAreInjective(s: string, t: string)
    requires IsBase58(s) && IsBase58(t) && DigitsOf(s) == DigitsOf(t)
    ensures s == t
  {
    forall i | 0 <= i < |s| ensures s[i] == t[i] {
      DigitFromIs(s[i], 0);
      DigitFromIs(t[i], 0);
      assert DigitsOf(s)[i] == DigitsOf(t)[i];
    }
  }

  /** What the bytes are: a zero byte per leading '1', then the number, minimal, in base 256. */
  ghost predicate Decodes(s: string, bytes: Digits)
    requires IsBase58(s)
  {
    exists z: nat, number: Digits ::
      && bytes == Zeros(z) + number
      && z == Leading(DigitsOf(s))
      && Below(256, number) && NoLeadingZero(number)
      && Val(256, number) == Val(58, DigitsOf(s))
  }

  /** No two strings decode to the same bytes. */
  lemma DecodingIsInjective(s: string, t: string, bytes: Digits)
    requires IsBase58(s) && IsBase58(t) && Decodes(s, bytes) && Decodes(t, bytes)
    ensures s == t
  {
    var z: nat, a: Digits :|
      && bytes == Zeros(z) + a && z == Leading(DigitsOf(s)) && Below(256, a) && NoLeadingZero(a)
      && Val(256, a) == Val(58, DigitsOf(s));
    var y: nat, b: Digits :|
      && bytes == Zeros(y) + b && y == Leading(DigitsOf(t)) && Below(256, b) && NoLeadingZero(b)
      && Val(256, b) == Val(58, DigitsOf(t));
    SplitIsUnique(z, a, y, b);
    var ds, es := DigitsOf(s), DigitsOf(t);
    DigitsOfIs(s);
    DigitsOfIs(t);
    MinimalIs(58, ds);
    MinimalIs(58, es);
    ValIsInjective(58, Minimal(ds), Minimal(es));
    LeadingSplits(ds);
    LeadingSplits(es);
    DigitsAreInjective(s, t);
  }

  lemma {:induction false} LeadingOf(z: nat, a: Digits)
    requires NoLeadingZero(a)
    ensures Leading(Zeros(z) + a) == z
  {
    if z == 0 {
      assert Zeros(0) + a == a;
    } else {
      LeadingOf(z - 1, a);
      assert (Zeros(z) + a)[1..] == Zeros(z - 1) + a;
    }
  }

  lemma SplitIsUnique(z: nat, a: Digits, y: nat, b: Digits)
    requires Zeros(z) + a == Zeros(y) + b && NoLeadingZero(a) && NoLeadingZero(b)
    ensures z == y && a == b
  {
    LeadingOf(z, a);
    LeadingOf(y, b);
    assert (Zeros(z) + a)[z..] == a && (Zeros(y) + b)[y..] == b;
  }

  /** The multiplication with the bytes from `j` on already written. */
  ghost function Midway(b: Digits, j: nat, carry: nat, written: Digits): Carried
    requires j <= |b|
  {
    var low := MulAdd(b[..j], carry);
    Carried(low.bytes + written, low.carry)
  }

  lemma MidwayEnds(b: Digits, d: nat, written: Digits)
    ensures Midway(b, |b|, d, []) == MulAdd(b, d)
    ensures Midway(b, 0, d, written) == Carried(written, d)
  {
    assert b[..|b|] == b && b[..0] == [];
    assert [] + written == written;
  }

  lemma MidwayStep(b: Digits, j: nat, carry: nat, written: Digits)
    requires 0 < j <= |b|
    ensures var x := carry + 58 * b[j - 1];
      Midway(b, j, carry, written) == Midway(b, j - 1, x / 256, [x % 256] + written)
  {
    assert b[..j][..j - 1] == b[..j - 1];
    var x := carry + 58 * b[j - 1];
    var low := MulAdd(b[..j - 1], x / 256);
    assert low.bytes + [x % 256] + written == low.bytes + ([x % 256] + written);
  }

  /** The digit goes into the buffer in place, last byte first; what is left over is the carry. */
  method MulAddInPlace(b: array<nat>, d: nat) returns (carry: nat)
    modifies b
    ensures MulAdd(old(b[..]), d) == Carried(b[..], carry)
  {
    hide MulAdd, Midway;
    ghost var was := b[..];
    carry := d;
    var j: nat := b.Length;
    assert b[j..] == [];
    MidwayEnds(was, d, []);
    while j > 0
      invariant j <= b.Length && b[..j] == was[..j]
      invariant MulAdd(was, d) == Midway(was, j, carry, b[j..])
    {
      assert was[j - 1] == was[..j][j - 1] == b[j - 1];
      MidwayStep(was, j, carry, b[j..]);
      ghost var written := b[j..];
      j := j - 1;
      carry := carry + 58 * b[j];
      b[j] := carry % 256;
      carry := carry / 256;
      assert b[j..] == [b[j]] + written;
      assert b[..j] == was[..j];
    }
    MidwayEnds(was, carry, b[0..]);
    assert b[0..] == b[..];
  }

  method CountLeading(b: array<nat>) returns (n: nat)
    ensures n == Leading(b[..])
  {
    n := 0;
    while n < b.Length && b[n] == 0
      invariant n <= b.Length && Leading(b[..]) == n + Leading(b[n..])
    {
      assert b[n..][1..] == b[n + 1..];
      n := n + 1;
    }
  }

  /** The buffer holds the value of the digits read so far. */
  ghost predicate Holds(b: Digits, s: string, i: nat)
    requires i <= |s|
  {
    |b| == Room(|s|) && Below(256, b) && IsBase58(s[..i]) && Val(256, b) == Val(58, DigitsOf(s[..i]))
  }

  lemma HoldsStart(b: Digits, s: string)
    requires |b| == Room(|s|) && forall k :: 0 <= k < |b| ==> b[k] == 0
    ensures Holds(b, s, 0)
  {
    ZeroBuffer(b);
    assert DigitsOf(s[..0]) == [];
  }

  /** One more digit leaves no carry. */
  lemma HoldsNext(b: Digits, s: string, i: nat)
    requires i < |s| && Holds(b, s, i) && Digit(s[i]).Some?
    ensures MulAdd(b, Digit(s[i]).value).carry == 0
    ensures Holds(MulAdd(b, Digit(s[i]).value).bytes, s, i + 1)
  {
    hide MulAdd, DigitFrom, Pow, Val;
    Appended(s, i);
    NextFits(s, i);
    NoCarryOut(b, Digit(s[i]).value);
    MulAddIs(b, Digit(s[i]).value);
  }

  lemma HoldsAll(b: Digits, s: string, zeros: nat)
    requires Holds(b, s, |s|) && zeros <= |s| && (zeros < |s| ==> s[zeros] != '1')
    requires forall k :: 0 <= k < zeros ==> s[k] == '1'
    ensures IsBase58(s) && Decodes(s, Zeros(zeros) + Minimal(b))
  {
    hide DigitFrom, Val, Leading;
    assert s[..|s|] == s;
    MinimalIs(256, b);
    CountsOnes(s, zeros);
  }

  lemma BadDigit(s: string, i: nat)
    requires i < |s| && Digit(s[i]).None?
    ensures !IsBase58(s)
  {
  }

  /**
   The decoder refuses a character outside the alphabet and a result longer than the
   caller's buffer, and nothing else: the carry-out refusal is never taken.
   */
  method Decode(s: string, cap: nat) returns (r: Option<Digits>)
    ensures r.Some? ==> IsBase58(s) && Decodes(s, r.value) && |r.value| <= cap
    ensures r.None? && IsBase58(s) ==> forall bytes :: Decodes(s, bytes) ==> |bytes| > cap
  {
    hide Holds, MulAdd, Digit, Decodes, IsBase58, Leading;
    var zeros: nat := 0;
    while zeros < |s| && s[zeros] == '1'
      invariant zeros <= |s| && forall k :: 0 <= k < zeros ==> s[k] == '1'
    {
      zeros := zeros + 1;
    }
    var size := |s| * 733 / 1000 + 1;
    var b := new nat[size](_ => 0);
    HoldsStart(b[..], s);
    var i: nat := 0;
    while i < |s|
      invariant i <= |s| && Holds(b[..], s, i)
    {
      var digit := Digit(s[i]);
      if digit.None? {
        BadDigit(s, i);
        return None;
      }
      HoldsNext(b[..], s, i);
      var carry := MulAddInPlace(b, digit.value);
      if carry != 0 {
        assert false;
      }
      i := i + 1;
    }
    HoldsAll(b[..], s, zeros);
    var skip := CountLeading(b);
    var bytes := seq(zeros, _ => 0) + b[skip..];
    assert bytes == Zeros(zeros) + Minimal(b[..]);
    if |bytes| > cap {
      forall other | Decodes(s, other) ensures |other| > cap {
        DecodesOnce(s, bytes, other);
      }
      return None;
    }
    return Some(bytes);
  }

  /**
   A Thunder address: bare base58 of exactly twenty bytes. It is accepted exactly when
   it has no underscore, 20 to 40 characters of the alphabet, and decodes to 20 bytes.
   */
  method ThunderAddress(addr: string) returns (r: Option<Digits>)
    ensures r.Some? <==> IsThunder(addr)
    ensures r.Some? ==> |r.value| == 20 && Decodes(addr, r.value)
  {
    hide Decodes, IsBase58;
    if addr == "" || '_' in addr { return None; }
    if |addr| < 20 || |addr| > 40 { return None; }
    var d := Decode(addr, 64);
    if d.None? || |d.value| != 20 {
      forall bytes | IsBase58(addr) && Decodes(addr, bytes) ensures |bytes| != 20 {
        if d.Some? { DecodesOnce(addr, bytes, d.value); }
      }
      return None;
    }
    return d;
  }

  ghost predicate IsThunder(addr: string) {
    && '_' !in addr && 20 <= |addr| <= 40
    && IsBase58(addr) && exists bytes :: Decodes(addr, bytes) && |bytes| == 20
  }

  lemma ZeroBuffer(b: Digits)
    requires forall i :: 0 <= i < |b| ==> b[i] == 0
    ensures Val(256, b) == 0
  {
    assert b == Zeros(|b|) + [];
    ValOfZeros(256, |b|, []);
  }

  /** The value of a prefix and one more digit. */
  lemma Appended(s: string, i: nat)
    requires i < |s| && IsBase58(s[..i]) && Digit(s[i]).Some?
    ensures IsBase58(s[..i + 1]) && Digit(s[i]).value < 58
    ensures Val(58, DigitsOf(s[..i + 1])) == Val(58, DigitsOf(s[..i])) * 58 + Digit(s[i]).value
  {
    AlphabetSize();
    DigitFromIs(s[i], 0);
    var ds := DigitsOf(s[..i + 1]);
    assert ds[..i] == DigitsOf(s[..i]) && ds[i] == Digit(s[i]).value;
  }

  lemma NextFits(s: string, i: nat)
    requires i < |s| && IsBase58(s[..i + 1])
    ensures Val(58, DigitsOf(s[..i + 1])) < Pow(256, Room(|s|))
  {
    DigitsOfIs(s[..i + 1]);
    ValBound(58, DigitsOf(s[..i + 1]));
    PowGrows(58, i + 1, |s|);
    RoomIsEnough(|s|);
  }

  lemma CountsOnes(s: string, zeros: nat)
    requires IsBase58(s) && zeros <= |s| && (zeros < |s| ==> s[zeros] != '1')
    requires forall k :: 0 <= k < zeros ==> s[k] == '1'
    ensures zeros == Leading(DigitsOf(s))
  {
    DigitsOfIs(s);
    var ds := DigitsOf(s);
    LeadingSplits(ds);
    assert ds == Zeros(zeros) + ds[zeros..];
    SplitIsUnique(zeros, ds[zeros..], Leading(ds), Minimal(ds));
  }

  /** A string stands for one byte string only. */
  lemma DecodesOnce(s: string, x: Digits, y: Digits)
    requires IsBase58(s) && Decodes(s, x) && Decodes(s, y)
    ensures x == y
  {
    var z: nat, a: Digits :|
      && x == Zeros(z) + a && z == Leading(DigitsOf(s)) && Below(256, a) && NoLeadingZero(a)
      && Val(256, a) == Val(58, DigitsOf(s));
    var w: nat, b: Digits :|
      && y == Zeros(w) + b && w == Leading(DigitsOf(s)) && Below(256, b) && NoLeadingZero(b)
      && Val(256, b) == Val(58, DigitsOf(s));
    ValIsInjective(256, a, b);
  }
}
