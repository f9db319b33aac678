/** The CRC register as the remainder of a polynomial division over the two-element field. */
module Gf2Division {
  import opened Crc32

  /** A polynomial with binary coefficients: the exponents that occur. */
  type Poly = set<nat>

  ghost function Add(p: Poly, q: Poly): Poly {
    (p - q) + (q - p)
  }

  /** Multiplication by x. */
  ghost function TimesX(p: Poly): Poly {
    set e | e in p :: e + 1
  }

  /** The generator of the 802.3 frame check sequence, x^10 included. */
  const GENERATOR: Poly := {32, 26, 23, 22, 16, 12, 11, 10, 8, 7, 5, 4, 2, 1, 0}

  /** Multiplication of the generator by a polynomial given by its coefficients, the leading one first. */
  ghost function Multiple(q: seq<bool>): Poly {
    if q == [] then {}
    else Add(TimesX(Multiple(q[..|q| - 1])), if q[|q| - 1] then GENERATOR else {})
  }

  /** What is divided: seed * x^n + message * x^32, for a message of n bits, the leading coefficient first. */
  ghost function Dividend(seed: Poly, bits: seq<bool>): Poly {
    if bits == [] then seed
    else Add(TimesX(Dividend(seed, bits[..|bits| - 1])), if bits[|bits| - 1] then {32} else {})
  }

  ghost predicate IsRemainder(r: Poly, p: Poly) {
    (forall e :: e in r ==> e < 32) && exists q :: Add(Multiple(q), r) == p
  }

  // ---------- the remainder is unique ----------

  lemma AddLaws(a: Poly, b: Poly, c: Poly)
    ensures Add(a, b) == Add(b, a)
    ensures Add(Add(a, b), c) == Add(a, Add(b, c))
    ensures Add(a, a) == {} && Add(a, {}) == a
  {
  }

  lemma AddFour(a: Poly, b: Poly, c: Poly, d: Poly)
    ensures Add(Add(a, b), Add(c, d)) == Add(Add(a, c), Add(b, d))
  {
  }

  lemma TimesXAdd(a: Poly, b: Poly)
    ensures TimesX(Add(a, b)) == Add(TimesX(a), TimesX(b))
  {
    forall e
      ensures e in TimesX(Add(a, b)) <==> e in Add(TimesX(a), TimesX(b))
    {
      assert e in TimesX(a) <==> e > 0 && e - 1 in a;
      assert e in TimesX(b) <==> e > 0 && e - 1 in b;
      assert e in TimesX(Add(a, b)) <==> e > 0 && e - 1 in Add(a, b);
    }
  }

  function Differ(q: seq<bool>, p: seq<bool>): (r: seq<bool>)
    requires |q| == |p|
    ensures |r| == |q|
  {
    seq(|q|, i requires 0 <= i < |q| => q[i] != p[i])
  }

  lemma {:induction false} MultipleAdd(q: seq<bool>, p: seq<bool>)
    requires |q| == |p|
    ensures Multiple(Differ(q, p)) == Add(Multiple(q), Multiple(p))
    decreases |q|
  {
    hide Add, TimesX;
    var n := |q|;
    AddLaws({}, {}, {});
    if n > 0 {
      MultipleAdd(q[..n - 1], p[..n - 1]);
      assert Differ(q, p)[..n - 1] == Differ(q[..n - 1], p[..n - 1]);
      var a, b := Multiple(q[..n - 1]), Multiple(p[..n - 1]);
      TimesXAdd(a, b);
      var g: Poly, h: Poly := if q[n - 1] then GENERATOR else {}, if p[n - 1] then GENERATOR else {};
      AddFour(TimesX(a), g, TimesX(b), h);
      AddLaws(g, h, {});
      AddLaws(GENERATOR, {}, {});
    }
  }

  /** A multiple of the generator by something other than zero has a term of degree 32 or more. */
  lemma {:induction false} HighTerm(q: seq<bool>) returns (e: nat)
    requires true in q
    ensures e >= 32 && e in Multiple(q)
    decreases |q|
  {
    var init, last := q[..|q| - 1], q[|q| - 1];
    if true in init {
      var d := HighTerm(init);
      e := d + 1;
      HighStays(Multiple(init), d, if last then GENERATOR else {});
    } else {
      assert last;
      NoTerm(init);
      e := 32;
    }
  }

  lemma HighStays(p: Poly, d: nat, g: Poly)
    requires d >= 32 && d in p && (g == {} || g == GENERATOR)
    ensures d + 1 in Add(TimesX(p), g)
  {
  }

  lemma {:induction false} NoTerm(q: seq<bool>)
    requires true !in q
    ensures Multiple(q) == {}
    decreases |q|
  {
    if q != [] {
      NoTerm(q[..|q| - 1]);
    }
  }

  lemma {:induction false} LeadingZero(q: seq<bool>)
    ensures Multiple([false] + q) == Multiple(q)
    decreases |q|
  {
    if q == [] {
      NoTerm([false]);
    } else {
      LeadingZero(q[..|q| - 1]);
      assert ([false] + q)[..|q|] == [false] + q[..|q| - 1];
    }
  }

  lemma {:induction false} SameRemainder(q: seq<bool>, p: seq<bool>, r: Poly, s: Poly)
    requires Add(Multiple(q), r) == Add(Multiple(p), s)
    requires (forall e :: e in r ==> e < 32) && (forall e :: e in s ==> e < 32)
    ensures r == s
    decreases if |q| < |p| then |p| - |q| else |q| - |p|
  {
    if |q| < |p| {
      LeadingZero(q);
      SameRemainder([false] + q, p, r, s);
    } else if |p| < |q| {
      LeadingZero(p);
      SameRemainder(q, [false] + p, r, s);
    } else {
      MultipleAdd(q, p);
      DifferenceLow(Multiple(q), Multiple(p), r, s);
      if true in Differ(q, p) {
        var e := HighTerm(Differ(q, p));
        assert false;
      } else {
        NoTerm(Differ(q, p));
      }
    }
  }

  lemma DifferenceLow(a: Poly, b: Poly, r: Poly, s: Poly)
    requires Add(a, r) == Add(b, s)
    ensures Add(a, b) == Add(r, s)
    ensures Add(a, b) == {} ==> r == s
  {
  }

  /** Division by the generator has one remainder. */
  lemma RemainderUnique(p: Poly, r: Poly, s: Poly)
    requires IsRemainder(r, p) && IsRemainder(s, p)
    ensures r == s
  {
    hide Add, Multiple;
    var q :| Add(Multiple(q), r) == p;
    var t :| Add(Multiple(t), s) == p;
    SameRemainder(q, t, r, s);
  }

  // ---------- registers as polynomials ----------

  /** The register holds the coefficient of x^e in bit 31 - e. */
  predicate Coefficient(c: bv32, e: nat) {
    e < 32 && Odd(Halves(c, 31 - e))
  }

  ghost function Register(c: bv32): Poly {
    set e: nat | e < 32 && Coefficient(c, e)
  }

  lemma {:induction false} PlusHalves(x: bv32, y: bv32, n: nat)
    ensures Halves(Plus(x, y), n) == Plus(Halves(x, n), Halves(y, n))
    decreases n
  {
    hide Plus, Half;
    if n > 0 {
      PlusHalf(x, y);
      PlusHalves(Half(x), Half(y), n - 1);
    }
  }

  lemma RegisterPlus(x: bv32, y: bv32)
    ensures Register(Plus(x, y)) == Add(Register(x), Register(y))
  {
    hide Plus, Halves, Odd;
    forall e: nat
      ensures Coefficient(Plus(x, y), e) <==> Coefficient(x, e) != Coefficient(y, e)
    {
      if e < 32 {
        PlusHalves(x, y, 31 - e);
        PlusOdd(Halves(x, 31 - e), Halves(y, 31 - e));
      }
    }
  }

  lemma {:induction false} HalvesAdd(c: bv32, m: nat, n: nat)
    ensures Halves(c, m + n) == Halves(Halves(c, m), n)
    decreases m
  {
    hide Half;
    if m > 0 {
      HalvesAdd(Half(c), m - 1, n);
    }
  }

  lemma HalvesEight(c: bv32)
    ensures Halves(c, 8) == Half(Half(Half(Half(Half(Half(Half(Half(c))))))))
  {
    hide Half;
  }

  lemma HalfEight(c: bv32)
    ensures Half(Half(Half(Half(Half(Half(Half(Half(c)))))))) == c >> 8
  {
  }

  lemma FourTimesEight(c: bv32)
    ensures (((c >> 8) >> 8) >> 8) >> 8 == 0
  {
  }

  lemma HalvesEnd(c: bv32)
    ensures Halves(c, 32) == 0
  {
    hide Half, Halves;
    HalvesAdd(c, 8, 24);
    HalvesAdd(c >> 8, 8, 16);
    HalvesAdd((c >> 8) >> 8, 8, 8);
    HalvesByte(c);
    HalvesByte(c >> 8);
    HalvesByte((c >> 8) >> 8);
    HalvesByte(((c >> 8) >> 8) >> 8);
    FourTimesEight(c);
  }

  lemma HalvesByte(c: bv32)
    ensures Halves(c, 8) == c >> 8
  {
    hide Half, Halves;
    HalvesEight(c);
    HalfEight(c);
  }

  /** Halving the register multiplies by x, and drops the term that leaves it. */
  lemma RegisterHalf(c: bv32)
    ensures TimesX(Register(c)) == Add(Register(Half(c)), if Odd(c) then {32} else {})
  {
    hide Halves, Odd, Half;
    forall e: nat
      ensures e in TimesX(Register(c)) <==> e in Add(Register(Half(c)), if Odd(c) then {32} else {})
    {
      assert e in TimesX(Register(c)) <==> e > 0 && e - 1 in Register(c);
      if e == 0 {
        HalvesFirst(c, 31);
        HalvesEnd(c);
        OddZero();
      } else if e < 32 {
        HalvesFirst(c, 31 - e);
      } else {
        HalvesNone(c);
      }
    }
  }

  lemma HalvesFirst(c: bv32, j: nat)
    ensures Halves(Half(c), j) == Halves(c, j + 1)
  {
  }

  lemma HalvesNone(c: bv32)
    ensures Halves(c, 0) == c
  {
  }

  lemma OddZero()
    ensures !Odd(0)
  {
  }

  lemma HalvesUpTo(c: bv32)
    ensures Halves(c, 0) == c && Halves(c, 1) == Half(c) && Halves(c, 2) == Half(Half(c))
    ensures Halves(c, 3) == Half(Half(Half(c)))
  {
    hide Half;
  }

  /** Four coefficients, read off one at a time. */
  lemma FourCoefficients(c: bv32, k: nat, v: bv32)
    requires k <= 28 && Halves(c, k) == v
    ensures Coefficient(c, 31 - k) == Odd(v) && Coefficient(c, 30 - k) == Odd(Half(v))
    ensures Coefficient(c, 29 - k) == Odd(Half(Half(v))) && Coefficient(c, 28 - k) == Odd(Half(Half(Half(v))))
    ensures Halves(c, k + 4) == Half(Half(Half(Half(v))))
  {
    hide Half, Odd, Halves;
    HalvesUpTo(v);
    HalvesAdd(c, k, 1);
    HalvesAdd(c, k, 2);
    HalvesAdd(c, k, 3);
    HalvesAdd(c, k, 4);
    HalvesAdd(v, 3, 1);
    HalvesOne(Halves(v, 3));
  }

  lemma PolyRegister()
    ensures Add(Register(POLY), {32}) == GENERATOR
  {
    hide Halves, Coefficient;
    HalvesNone(POLY);
    FourCoefficients(POLY, 0, 0xEDB88320);
    FourCoefficients(POLY, 4, 0x0EDB8832);
    FourCoefficients(POLY, 8, 0x00EDB883);
    FourCoefficients(POLY, 12, 0x000EDB88);
    FourCoefficients(POLY, 16, 0x0000EDB8);
    FourCoefficients(POLY, 20, 0x00000EDB);
    FourCoefficients(POLY, 24, 0x000000ED);
    FourCoefficients(POLY, 28, 0x0000000E);
    forall e: nat
      ensures e in Register(POLY) <==> e in GENERATOR && e != 32
    {
    }
  }

  // ---------- division, bit by bit ----------

  /** Bit-at-a-time division of a bit string. */
  function FeedAll(c: bv32, bits: seq<bool>): bv32
    decreases |bits|
  {
    if bits == [] then c else FeedBit(FeedAll(c, bits[..|bits| - 1]), bits[|bits| - 1])
  }

  /** One bit: the register times x, plus the message bit, less the generator where x^32 occurs. */
  lemma FeedBitDivides(c: bv32, bit: bool)
    ensures Add(TimesX(Register(c)), if bit then {32} else {})
         == Add(if Odd(c) != bit then GENERATOR else {}, Register(FeedBit(c, bit)))
  {
    hide Register, TimesX, Plus, Half, Odd;
    RegisterHalf(c);
    PolyRegister();
    RegisterPlus(Half(c), POLY);
  }

  /** Long division: dividend = quotient * generator + register, with the quotient written out as it goes. */
  lemma {:induction false} LongDivision(seed: bv32, bits: seq<bool>) returns (q: seq<bool>)
    ensures |q| == |bits| && Add(Multiple(q), Register(FeedAll(seed, bits))) == Dividend(Register(seed), bits)
    decreases |bits|
  {
    hide Add, TimesX, Register, FeedBit, Odd;
    if bits == [] {
      q := [];
      AddLaws(Register(seed), {}, {});
    } else {
      var init, bit := bits[..|bits| - 1], bits[|bits| - 1];
      var c := FeedAll(seed, init);
      var p := LongDivision(seed, init);
      q := p + [Odd(c) != bit];
      assert q[..|p|] == p;
      FeedBitDivides(c, bit);
      TimesXAdd(Multiple(p), Register(c));
      var m: Poly := if bit then {32} else {};
      var g: Poly := if Odd(c) != bit then GENERATOR else {};
      AddLaws(TimesX(Multiple(p)), TimesX(Register(c)), m);
      AddLaws(TimesX(Multiple(p)), g, Register(FeedBit(c, bit)));
    }
  }

  /** The bits of a byte and of a message, in the order they are sent: least significant first. */
  function BitsOf(b: bv32, n: nat): (r: seq<bool>)
    ensures |r| == n
    decreases n
  {
    if n == 0 then [] else [Odd(b)] + BitsOf(Half(b), n - 1)
  }

  function Bits(bytes: seq<bv8>): (r: seq<bool>)
    ensures |r| == 8 * |bytes|
  {
    if bytes == [] then [] else Bits(bytes[..|bytes| - 1]) + BitsOf(bytes[|bytes| - 1] as bv32, 8)
  }

  lemma {:induction false} FeedAllAppend(c: bv32, m: seq<bool>, n: seq<bool>)
    ensures FeedAll(c, m + n) == FeedAll(FeedAll(c, m), n)
    decreases |n|
  {
    hide FeedBit;
    if n == [] {
      assert m + n == m;
    } else {
      FeedAllAppend(c, m, n[..|n| - 1]);
      assert (m + n)[..|m + n| - 1] == m + n[..|n| - 1];
    }
  }

  lemma {:induction false} FeedBitsIsFeedAll(c: bv32, b: bv32, n: nat)
    ensures FeedBits(c, b, n) == FeedAll(c, BitsOf(b, n))
    decreases n
  {
    hide FeedBit, Odd, Half;
    if n > 0 {
      FeedBitsIsFeedAll(FeedBit(c, Odd(b)), Half(b), n - 1);
      FeedAllAppend(c, [Odd(b)], BitsOf(Half(b), n - 1));
      assert [Odd(b)][..0] == [];
    }
  }

  lemma {:induction false} FeedIsFeedAll(c: bv32, bytes: seq<bv8>)
    ensures Feed(c, bytes) == FeedAll(c, Bits(bytes))
    decreases |bytes|
  {
    hide FeedBits, FeedAll, BitsOf;
    if bytes == [] {
      FeedAllNone(c);
    } else {
      var init, b := bytes[..|bytes| - 1], bytes[|bytes| - 1] as bv32;
      FeedIsFeedAll(c, init);
      FeedBitsIsFeedAll(FeedAll(c, Bits(init)), b, 8);
      FeedAllAppend(c, Bits(init), BitsOf(b, 8));
    }
  }

  lemma FeedAllNone(c: bv32)
    ensures FeedAll(c, []) == c
  {
  }

  // ---------- a register is its polynomial ----------

  lemma SameEnds(c: bv32, d: bv32)
    requires Odd(c) == Odd(d) && Half(c) == Half(d)
    ensures c == d
  {
  }

  lemma {:induction false} SameBits(c: bv32, d: bv32, j: nat)
    requires j <= 32 && forall i: nat :: j <= i < 32 ==> Odd(Halves(c, i)) == Odd(Halves(d, i))
    ensures Halves(c, j) == Halves(d, j)
    decreases 32 - j
  {
    hide Half, Odd, Halves;
    if j == 32 {
      HalvesEnd(c);
      HalvesEnd(d);
    } else {
      SameBits(c, d, j + 1);
      HalvesAdd(c, j, 1);
      HalvesAdd(d, j, 1);
      HalvesOne(Halves(c, j));
      HalvesOne(Halves(d, j));
      SameEnds(Halves(c, j), Halves(d, j));
    }
  }

  lemma HalvesOne(c: bv32)
    ensures Halves(c, 1) == Half(c)
  {
  }

  lemma RegisterInjective(c: bv32, d: bv32)
    requires Register(c) == Register(d)
    ensures c == d
  {
    hide Halves, Odd;
    forall i: nat | 0 <= i < 32
      ensures Odd(Halves(c, i)) == Odd(Halves(d, i))
    {
      assert Coefficient(c, 31 - i) <==> 31 - i in Register(c);
      assert Coefficient(d, 31 - i) <==> 31 - i in Register(d);
    }
    SameBits(c, d, 0);
    HalvesNone(c);
    HalvesNone(d);
  }

  /**
   * What the table loop computes: the register after a message is the one remainder of
   * seed * x^n + message * x^32 by the generator, and no other register is.
   */
  lemma FeedIsTheRemainder(seed: bv32, bytes: seq<bv8>, c: bv32)
    ensures c == Feed(seed, bytes) <==> IsRemainder(Register(c), Dividend(Register(seed), Bits(bytes)))
  {
    hide Add, Multiple, Feed, FeedAll, Dividend, Bits, Coefficient;
    var r := Feed(seed, bytes);
    FeedIsFeedAll(seed, bytes);
    var q := LongDivision(seed, Bits(bytes));
    assert IsRemainder(Register(r), Dividend(Register(seed), Bits(bytes)));
    if IsRemainder(Register(c), Dividend(Register(seed), Bits(bytes))) {
      RemainderUnique(Dividend(Register(seed), Bits(bytes)), Register(r), Register(c));
      RegisterInjective(r, c);
    }
  }
}
