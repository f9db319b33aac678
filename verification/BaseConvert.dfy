/** The base converter of swarm.c: digit arrays with carry propagation. */
module BaseConvert {
  datatype Option<+T> = None | Some(value: T)

  function Pow(b: nat, n: nat): (p: nat)
    ensures b > 0 ==> p > 0
  {
    if n == 0 then 1 else b * Pow(b, n - 1)
  }

  /** The value of a digit list, least significant digit first. */
  function Value(d: seq<nat>, b: nat): nat {
    if d == [] then 0 else d[0] + b * Value(d[1..], b)
  }

  ghost predicate Below(d: seq<nat>, b: nat) {
    forall k :: 0 <= k < |d| ==> d[k] < b
  }

  // ---------- arithmetic ----------

  lemma Distribute(a: int, b: int, c: int)
    ensures a * (b + c) == a * b + a * c
  {
  }

  lemma Associate(a: int, b: int, c: int)
    ensures a * (b * c) == (a * b) * c
  {
  }

  lemma MulMonotone(a: nat, b: nat, c: nat)
    requires a <= b
    ensures c * a <= c * b && a * c <= b * c
  {
    assert c * (b - a) >= 0;
    Distribute(c, a, b - a);
  }

  lemma {:induction false} PowMonotone(b: nat, m: nat, n: nat)
    requires b > 0 && m <= n
    ensures Pow(b, m) <= Pow(b, n)
    decreases n
  {
    if m < n {
      PowMonotone(b, m, n - 1);
      MulMonotone(1, b, Pow(b, n - 1));
    }
  }

  lemma {:induction false} PowAdd(b: nat, m: nat, n: nat)
    ensures Pow(b, m + n) == Pow(b, m) * Pow(b, n)
    decreases m
  {
    if m > 0 {
      PowAdd(b, m - 1, n);
      Associate(b, Pow(b, m - 1), Pow(b, n));
    }
  }

  /** A digit counts with its place's power. */
  lemma {:induction false} ValueUpdate(d: seq<nat>, b: nat, k: nat, v: nat)
    requires k < |d|
    ensures Value(d[k := v], b) == Value(d, b) + (v - d[k]) * Pow(b, k)
    decreases k
  {
    if k == 0 {
      assert d[0 := v][1..] == d[1..];
    } else {
      assert d[k := v][1..] == d[1..][k - 1 := v];
      ValueUpdate(d[1..], b, k - 1, v);
      var delta := v - d[k];
      calc {
        b * (Value(d[1..], b) + delta * Pow(b, k - 1));
        { Distribute(b, Value(d[1..], b), delta * Pow(b, k - 1)); }
        b * Value(d[1..], b) + b * (delta * Pow(b, k - 1));
        { Associate(b, delta, Pow(b, k - 1)); Associate(delta, b, Pow(b, k - 1)); }
        b * Value(d[1..], b) + delta * Pow(b, k);
      }
    }
  }

  lemma {:induction false} ValueLow(d: seq<nat>, b: nat, k: nat)
    requires k < |d|
    ensures Value(d, b) >= d[k] * Pow(b, k)
    decreases k
  {
    if k > 0 {
      ValueLow(d[1..], b, k - 1);
      MulMonotone(d[k] * Pow(b, k - 1), Value(d[1..], b), b);
      Associate(b, d[k], Pow(b, k - 1));
      Associate(d[k], b, Pow(b, k - 1));
    }
  }

  lemma {:induction false} ValueSnoc(d: seq<nat>, b: nat, x: nat)
    ensures Value(d + [x], b) == Value(d, b) + x * Pow(b, |d|)
    decreases |d|
  {
    if d == [] {
      var one: seq<nat> := [x];
      assert d + one == one && one[1..] == [];
    } else {
      assert (d + [x])[1..] == d[1..] + [x];
      ValueSnoc(d[1..], b, x);
      Distribute(b, Value(d[1..], b), x * Pow(b, |d| - 1));
      Associate(b, x, Pow(b, |d| - 1));
      Associate(x, b, Pow(b, |d| - 1));
    }
  }

  lemma {:induction false} ValueBound(d: seq<nat>, b: nat)
    requires b > 0 && Below(d, b)
    ensures Value(d, b) < Pow(b, |d|)
  {
    if d != [] {
      ValueBound(d[1..], b);
      MulMonotone(Value(d[1..], b) + 1, Pow(b, |d| - 1), b);
      Distribute(b, Value(d[1..], b), 1);
    }
  }

  lemma {:induction false} ValueZeros(d: seq<nat>, b: nat, n: nat)
    requires n <= |d| && forall k :: n <= k < |d| ==> d[k] == 0
    ensures Value(d, b) == Value(d[..n], b)
    decreases |d| - n
  {
    if n < |d| {
      ValueZeros(d, b, n + 1);
      assert d[..n + 1] == d[..n] + [0];
      ValueSnoc(d[..n], b, 0);
    } else {
      assert d[..n] == d;
    }
  }

  lemma {:induction false} ValueScaled(d: seq<nat>, e: seq<nat>, b: nat, f: nat)
    requires |d| == |e| && forall k :: 0 <= k < |d| ==> e[k] == d[k] * f
    ensures Value(e, b) == Value(d, b) * f
  {
    if d != [] {
      ValueScaled(d[1..], e[1..], b, f);
      Associate(b, Value(d[1..], b), f);
      Distribute(f, d[0], b * Value(d[1..], b));
    }
  }

  /** q + 1 <= b^q for every base from two on. */
  lemma {:induction false} PowBig(b: nat, q: nat)
    requires b >= 2
    ensures q + 1 <= Pow(b, q)
  {
    if q > 0 {
      PowBig(b, q - 1);
      MulMonotone(2, b, Pow(b, q - 1));
    }
  }

  /** The digit count the converter reserves per input digit is enough. */
  lemma EnoughDigits(from: nat, to: nat)
    requires from >= 2 && to >= 2
    ensures from < Pow(to, from / to + 1)
  {
    var q := from / to;
    assert from < (q + 1) * to;
    PowBig(to, q);
    MulMonotone(q + 1, Pow(to, q), to);
  }

  lemma {:induction false} PowLess(from: nat, to: nat, m: nat, n: nat)
    requires from > 0 && to > 0 && from < Pow(to, m)
    ensures Pow(from, n) <= Pow(to, n * m) && (n > 0 ==> Pow(from, n) < Pow(to, n * m))
    decreases n
  {
    if n > 0 {
      PowLess(from, to, m, n - 1);
      assert n * m == m + (n - 1) * m;
      PowAdd(to, m, (n - 1) * m);
      MulMonotone(Pow(from, n - 1), Pow(to, (n - 1) * m), from);
      MulMonotone(from + 1, Pow(to, m), Pow(to, (n - 1) * m));
      Distribute(Pow(to, (n - 1) * m), from, 1);
    }
  }

  // ---------- carries ----------

  lemma CarryKeepsValue(d: seq<nat>, b: nat, k: nat, carry: nat, low: nat)
    requires k + 1 < |d| && d[k] == carry * b + low
    ensures Value(d[k := low][k + 1 := d[k + 1] + carry], b) == Value(d, b)
  {
    hide Value;
    var e := d[k := low];
    ValueUpdate(d, b, k, low);
    ValueUpdate(e, b, k + 1, d[k + 1] + carry);
    Associate(carry, b, Pow(b, k));
    assert (0 - carry * b) * Pow(b, k) == -((carry * b) * Pow(b, k));
  }

  /** A digit that still carries is not the last one a value below b^n can have. */
  lemma CarryInside(d: seq<nat>, b: nat, k: nat, n: nat)
    requires b > 0 && k < |d| && d[k] >= b && Value(d, b) < Pow(b, n)
    ensures k + 1 < n
  {
    ValueLow(d, b, k);
    MulMonotone(b, d[k], Pow(b, k));
    if n <= k + 1 {
      PowMonotone(b, n, k + 1);
    }
  }

  lemma HighZeros(d: seq<nat>, b: nat, n: nat)
    requires b > 0 && Value(d, b) < Pow(b, n)
    ensures forall k :: n <= k < |d| ==> d[k] == 0
  {
    forall k | n <= k < |d|
      ensures d[k] == 0
    {
      ValueLow(d, b, k);
      PowMonotone(b, n, k);
      if d[k] > 0 {
        MulMonotone(1, d[k], Pow(b, k));
      }
    }
  }

  /** rem = temp / to and temp - rem * to. */
  method DivideBy(temp: nat, to: nat) returns (rem: nat, low: nat)
    requires to > 0
    ensures temp == rem * to + low && low < to
  {
    rem := temp / to;
    low := temp - rem * to;
  }

  /** The do-while loop that carries from digit j on; ten spare digits are never needed, one is. */
  method FixUp(a: array<nat>, j: nat, to: nat, ol: nat)
    requires to >= 2 && j < ol && a.Length == ol + 10 && Value(a[..], to) < Pow(to, ol)
    modifies a
    ensures Value(a[..], to) == old(Value(a[..], to))
    ensures a[j] < to && forall k :: 0 <= k < a.Length && k != j && old(a[k]) < to ==> a[k] < to
  {
    hide Value, Pow;
    var temp, ip := a[j], j;
    while true
      invariant j <= ip < ol && temp == a[ip] && Value(a[..], to) == old(Value(a[..], to))
      invariant forall k :: 0 <= k < a.Length && k != ip && (k == j || old(a[k]) < to) ==> a[k] < to
      decreases ol - ip
    {
      ghost var d := a[..];
      var rem, low := DivideBy(temp, to);
      CarryKeepsValue(d, to, ip, rem, low);
      a[ip] := low;
      ip := ip + 1;
      a[ip] := a[ip] + rem;
      assert a[..] == d[ip - 1 := low][ip := d[ip] + rem];
      temp := a[ip];
      if temp < to {
        break;
      }
      CarryInside(a[..], to, ip, ol);
    }
  }

  /** One input digit: add digit * ts to cums. */
  method AddDigit(cums: array<nat>, ts: array<nat>, digit: nat, to: nat, ol: nat)
    requires to >= 2 && cums != ts && cums.Length == ts.Length == ol + 10
    requires Below(cums[..], to) && Value(ts[..], to) < Pow(to, ol)
    requires Value(cums[..], to) + Value(ts[..], to) * digit < Pow(to, ol)
    modifies cums
    ensures Value(cums[..], to) == old(Value(cums[..], to)) + Value(ts[..], to) * digit && Below(cums[..], to)
  {
    hide Value, Pow;
    var j := 0;
    ghost var t := ts[..];
    ValueNone(to);
    assert t[..0] == [];
    while j < ol
      invariant j <= ol && ts[..] == t && Below(cums[..], to)
      invariant Value(cums[..], to) == old(Value(cums[..], to)) + Value(t[..j], to) * digit
    {
      ghost var d := cums[..];
      PartialSum(t, to, j, digit);
      ValueUpdate(d, to, j, d[j] + ts[j] * digit);
      cums[j] := cums[j] + ts[j] * digit;
      assert cums[..] == d[j := d[j] + t[j] * digit];
      FixUp(cums, j, to, ol);
      j := j + 1;
    }
    HighZeros(t, to, ol);
    ValueZeros(t, to, ol);
  }

  lemma ValueNone(b: nat)
    ensures Value([], b) == 0
  {
  }

  lemma PartialSum(t: seq<nat>, b: nat, j: nat, digit: nat)
    requires j < |t|
    ensures Value(t[..j], b) * digit + (t[j] * digit) * Pow(b, j) == Value(t[..j + 1], b) * digit <= Value(t, b) * digit
  {
    hide Value, Pow;
    assert t[..j + 1] == t[..j] + [t[j]];
    ValueSnoc(t[..j], b, t[j]);
    Distribute(digit, Value(t[..j], b), t[j] * Pow(b, j));
    Associate(digit, t[j], Pow(b, j));
    ValueOfPrefix(t, b, j + 1);
    MulMonotone(Value(t[..j + 1], b), Value(t, b), digit);
  }

  lemma {:induction false} ValueOfPrefix(t: seq<nat>, b: nat, n: nat)
    requires n <= |t|
    ensures Value(t[..n], b) <= Value(t, b)
    decreases |t| - n
  {
    hide Value, Pow;
    if n < |t| {
      assert t[..n + 1] == t[..n] + [t[n]];
      ValueSnoc(t[..n], b, t[n]);
      MulMonotone(0, t[n], Pow(b, n));
      ValueOfPrefix(t, b, n + 1);
    } else {
      assert t[..n] == t;
    }
  }

  /** The next power of the input base, in digits of the output base. */
  method NextPower(ts: array<nat>, from: nat, to: nat, ol: nat)
    requires to >= 2 && ts.Length == ol + 10 && Value(ts[..], to) * from < Pow(to, ol)
    requires Value(ts[..], to) < Pow(to, ol)
    modifies ts
    ensures Value(ts[..], to) == old(Value(ts[..], to)) * from && Below(ts[..], to)
  {
    hide Value, Pow;
    ghost var t := ts[..];
    HighZeros(t, to, ol);
    var j := 0;
    while j < ol
      invariant j <= ol && forall k :: 0 <= k < ts.Length ==> ts[k] == if k < j then t[k] * from else t[k]
    {
      ts[j] := ts[j] * from;
      j := j + 1;
    }
    ValueScaled(t, ts[..], to, from);
    j := 0;
    while j < ol
      invariant j <= ol && Value(ts[..], to) == Value(t, to) * from
      invariant forall k :: 0 <= k < ts.Length && (k < j || ol <= k) ==> ts[k] < to
    {
      FixUp(ts, j, to, ol);
      j := j + 1;
    }
  }

  /** The evaluation loop: the digits fs in base from become digits in base to. */
  method Evaluate(fs: array<nat>, from: nat, to: nat) returns (cums: array<nat>, ol: nat)
    requires from >= 2 && to >= 2 && Below(fs[..], from)
    ensures ol == fs.Length * (from / to + 1) && fresh(cums) && cums.Length == ol + 10
    ensures Value(cums[..], to) == Value(fs[..], from) < Pow(to, ol) && Below(cums[..], to)
  {
    hide Value, Pow;
    var il := fs.Length;
    ol := il * (from / to + 1);
    EnoughDigits(from, to);
    PowLess(from, to, from / to + 1, il);
    cums := new nat[ol + 10](_ => 0);
    var ts := new nat[ol + 10](_ => 0);
    ts[0] := 1;
    ghost var f := fs[..];
    StartValues(cums[..], ts[..], f, from, to);
    var i := 0;
    while i < il
      invariant i <= il && fs[..] == f && Below(cums[..], to) && Below(ts[..], to)
      invariant Value(cums[..], to) == Value(f[..i], from) && Value(ts[..], to) == Pow(from, i)
    {
      DigitStep(f, from, i);
      PowMonotone(from, i + 1, il);
      PowMonotone(from, i, il);
      AddDigit(cums, ts, fs[i], to, ol);
      NextPower(ts, from, to, ol);
      i := i + 1;
    }
    assert f[..il] == f;
    ValueBound(f, from);
  }

  lemma StartValues(cums: seq<nat>, ts: seq<nat>, f: seq<nat>, from: nat, to: nat)
    requires to >= 2 && |ts| == |cums| >= 1 && ts[0] == 1 && forall k :: 0 <= k < |cums| ==>
               cums[k] == 0 && (k > 0 ==> ts[k] == 0)
    ensures Value(cums, to) == Value(f[..0], from) == 0 && Value(ts, to) == Pow(from, 0) && Below(cums, to)
    ensures Below(ts, to)
  {
    ValueZeros(cums, to, 0);
    ValueZeros(ts, to, 1);
    assert ts[..1] == [1];
  }

  lemma DigitStep(f: seq<nat>, from: nat, i: nat)
    requires from > 0 && i < |f| && Below(f, from)
    ensures Value(f[..i + 1], from) == Value(f[..i], from) + Pow(from, i) * f[i] < Pow(from, i + 1)
    ensures Pow(from, i) * from == Pow(from, i + 1)
  {
    assert f[..i + 1] == f[..i] + [f[i]];
    ValueSnoc(f[..i], from, f[i]);
    ValueBound(f[..i + 1], from);
  }

  // ---------- numerals ----------

  const ALPHABET: string := "0123456789ABCDEFGHIJKLMNOPQRSTUVWXYZ"

  /** The digit a character stands for: its place in the alphabet, if it has one. */
  function DigitOf(c: char): (d: Option<nat>)
    ensures d.Some? ==> d.value < |ALPHABET| == 36 && ALPHABET[d.value] == c
  {
    if '0' <= c <= '9' then Some((c - '0') as nat)
    else if 'A' <= c <= 'Z' then Some(10 + (c - 'A') as nat)
    else None
  }

  function CharOf(d: nat): (c: char)
    requires d < 36
    ensures c == ALPHABET[d] && DigitOf(c) == Some(d)
  {
    if d < 10 then '0' + d as char else 'A' + (d - 10) as char
  }

  /** The digits are the alphabet's places, and nothing else is a digit. */
  lemma DigitIff(c: char, d: nat)
    ensures |ALPHABET| == 36
    ensures DigitOf(c) == Some(d) <==> d < |ALPHABET| && ALPHABET[d] == c
  {
    if d < 36 {
      assert CharOf(d) == ALPHABET[d];
    }
  }

  ghost predicate Numeral(s: string, b: nat) {
    forall i :: 0 <= i < |s| ==> DigitOf(s[i]).Some? && DigitOf(s[i]).value < b
  }

  /** What a numeral means, most significant digit first. */
  ghost function Meaning(s: string, b: nat): nat {
    if s == [] then 0
    else Meaning(s[..|s| - 1], b) * b + if DigitOf(s[|s| - 1]).Some? then DigitOf(s[|s| - 1]).value else 0
  }

  /** No superfluous zero in front; zero itself is the empty numeral. */
  ghost predicate Canonical(s: string) {
    s != [] ==> DigitOf(s[0]) != Some(0)
  }

  /** The digits of a string, the last character's first. */
  ghost predicate Spells(fs: seq<nat>, s: string) {
    && |fs| == |s|
    && forall i :: 0 <= i < |fs| ==> DigitOf(s[|s| - 1 - i]) == Some(fs[i])
  }

  lemma {:induction false} SpelledValue(fs: seq<nat>, s: string, b: nat)
    requires Spells(fs, s)
    ensures Value(fs, b) == Meaning(s, b)
  {
    if s != [] {
      var t := s[..|s| - 1];
      assert forall i :: 0 <= i < |fs[1..]| ==> fs[1..][i] == fs[i + 1] && t[|t| - 1 - i] == s[|s| - 1 - (i + 1)];
      SpelledValue(fs[1..], t, b);
      assert DigitOf(s[|s| - 1]) == Some(fs[0]);
    }
  }

  /** The first two loops of convert: characters to digits, and the check against the base. */
  method ReadDigits(s: string, from: nat) returns (fs: Option<array<nat>>)
    ensures fs.Some? <==> Numeral(s, from)
    ensures fs.Some? ==> fresh(fs.value) && Below(fs.value[..], from) && Spells(fs.value[..], s)
  {
    var digits := new nat[|s|];
    var k, i := 0, |s| - 1;
    while i >= 0
      invariant k == |s| - 1 - i <= |s|
      invariant forall j :: 0 <= j < k ==> DigitOf(s[|s| - 1 - j]) == Some(digits[j])
      decreases i
    {
      var d := DigitOf(s[i]);
      if d.None? {
        return None;
      }
      digits[k] := d.value;
      k := k + 1;
      i := i - 1;
    }
    i := 0;
    while i < |s|
      invariant 0 <= i <= |s|
      invariant forall j :: 0 <= j < |s| ==> DigitOf(s[|s| - 1 - j]) == Some(digits[j])
      invariant forall j :: 0 <= j < i ==> digits[j] < from
    {
      if digits[i] >= from {
        assert !(DigitOf(s[|s| - 1 - i]).value < from);
        return None;
      }
      i := i + 1;
    }
    forall j | 0 <= j < |s|
      ensures DigitOf(s[j]).Some? && DigitOf(s[j]).value < from
    {
      assert DigitOf(s[|s| - 1 - (|s| - 1 - j)]) == Some(digits[|s| - 1 - j]);
    }
    return Some(digits);
  }

  /** The digits as characters, the last digit first. */
  function Chars(d: seq<nat>): (s: string)
    requires Below(d, 36)
    ensures |s| == |d| && forall i :: 0 <= i < |s| ==> s[i] == CharOf(d[|d| - 1 - i])
  {
    seq(|d|, i requires 0 <= i < |d| => CharOf(d[|d| - 1 - i]))
  }

  lemma CharsSpell(d: seq<nat>, b: nat)
    requires Below(d, 36) && Below(d, b)
    ensures Spells(d, Chars(d)) && Numeral(Chars(d), b)
  {
  }

  /** The output loop has written what lies above digit i; top is 0 as long as only zeros have been seen. */
  ghost predicate Writing(d: seq<nat>, i: int, top: nat, sout: string)
    requires Below(d, 36)
  {
    && -1 <= i < |d| && top <= |d|
    && (forall k :: (if top > 0 then top else i + 1) <= k < |d| ==> d[k] == 0)
    && if top > 0 then i < top && d[top - 1] != 0 && Below(d[i + 1..top], 36) && sout == Chars(d[i + 1..top])
    else sout == ""
  }

  lemma WriteStarts(d: seq<nat>, ol: nat)
    requires Below(d, 36) && ol < |d| && forall k :: ol < k < |d| ==> d[k] == 0
    ensures Writing(d, ol, 0, "")
  {
  }

  lemma WriteZero(d: seq<nat>, i: nat)
    requires Below(d, 36) && Writing(d, i, 0, "") && d[i] == 0
    ensures Writing(d, i - 1, 0, "")
  {
  }

  lemma WriteFirst(d: seq<nat>, i: nat)
    requires Below(d, 36) && Writing(d, i, 0, "") && d[i] != 0
    ensures Writing(d, i, i + 1, "")
  {
    assert d[i + 1..i + 1] == [];
  }

  lemma WriteNext(d: seq<nat>, i: nat, top: nat, sout: string)
    requires Below(d, 36) && Writing(d, i, top, sout) && top > 0
    ensures Writing(d, i - 1, top, sout + [CharOf(d[i])])
  {
    hide CharOf;
    assert d[i..top] == [d[i]] + d[i + 1..top];
  }

  lemma BelowMore(d: seq<nat>, b: nat)
    requires Below(d, b) && b <= 36
    ensures Below(d, 36)
  {
  }

  lemma WriteEnds(d: seq<nat>, b: nat, top: nat, s: string)
    requires b <= 36 && Below(d, b) && Below(d, 36) && Writing(d, -1, top, s)
    ensures Numeral(s, b) && Canonical(s) && Meaning(s, b) == Value(d, b)
  {
    hide Value, Meaning, CharOf, Numeral, Canonical;
    if top == 0 {
      assert d[..0] == [];
    } else {
      assert d[0..top] == d[..top];
    }
    CharsMean(d, b, top, s);
  }

  /**
   * The output loop, from the top digit down, leaving out leading zeros: `inside` tells whether the buffer had room for
   * all digits, and index is the number of characters written.
   */
  method WriteDigits(cums: array<nat>, ol: nat, to: nat, sout: array<char>) returns (inside: bool, index: nat)
    requires cums.Length > ol && 2 <= to <= 36 && Below(cums[..], to)
    requires forall k :: ol < k < cums.Length ==> cums[k] == 0
    modifies sout
    ensures inside <==> Value(cums[..], to) < Pow(to, sout.Length)
    ensures index <= sout.Length && sout[index..] == old(sout[index..])
    ensures inside ==>
              && Numeral(sout[..index], to) && Canonical(sout[..index])
              && Meaning(sout[..index], to) == Value(cums[..], to)
  {
    hide Value, Meaning, CharOf, Chars, Writing, Numeral, Canonical, Below, Pow;
    ghost var d := cums[..];
    BelowMore(d, to);
    index := 0;
    var first := false;
    var i := ol;
    ghost var top := 0;
    WriteStarts(d, ol);
    while i >= 0
      invariant -1 <= i <= ol && first == (top > 0) && (!first ==> index == 0)
      invariant index <= sout.Length && sout[index..] == old(sout[index..]) && Writing(d, i, top, sout[..index])
      decreases i
    {
      if cums[i] != 0 && !first {
        WriteFirst(d, i);
        first := true;
        top := i + 1;
      }
      if first {
        if index == sout.Length {
          WriteOver(d, to, i, top, sout[..index]);
          return false, index;
        }
        WriteNext(d, i, top, sout[..index]);
        ghost var before := sout[..index];
        sout[index] := CharOf(cums[i]);
        assert sout[..index + 1] == before + [CharOf(cums[i])];
        index := index + 1;
      } else {
        WriteZero(d, i);
      }
      i := i - 1;
    }
    WriteEnds(d, to, top, sout[..index]);
    CanonicalLength(sout[..index], to, sout.Length);
    inside := true;
  }

  /** A further digit behind a full buffer: the value does not fit. */
  lemma WriteOver(d: seq<nat>, b: nat, i: nat, top: nat, s: string)
    requires 2 <= b <= 36 && Below(d, b) && Below(d, 36) && Writing(d, i, top, s) && top > 0
    ensures Value(d, b) >= Pow(b, |s|)
  {
    hide Value, Meaning, CharOf, Pow;
    assert Below(d[..top], 36);
    CharsMean(d, b, top, Chars(d[..top]));
    CanonicalLength(Chars(d[..top]), b, |s|);
  }

  lemma CharsMean(d: seq<nat>, b: nat, top: nat, s: string)
    requires b <= 36 && Below(d, b) && top <= |d| && forall k :: top <= k < |d| ==> d[k] == 0
    requires top > 0 ==> d[top - 1] != 0
    requires Below(d[..top], 36) && s == Chars(d[..top])
    ensures Numeral(s, b) && Canonical(s) && Meaning(s, b) == Value(d, b)
  {
    hide Value, Meaning, CharOf;
    ValueZeros(d, b, top);
    CharsSpell(d[..top], b);
    SpelledValue(d[..top], s, b);
    if top > 0 {
      assert s[0] == CharOf(d[top - 1]);
    }
  }

  /** Division as C does it, towards zero. */
  function Quotient(a: int, b: int): int
    requires b != 0
  {
    if a >= 0 then a / b else -(-a / b)
  }

  /** Refused with a message, written past the end of the buffer, or that many characters written. */
  datatype Conversion = Refused | Overrun | Written(length: nat)

  const SOUT_SIZE: nat := 128

  /**
   * `convert`; sout is its output buffer with whatever it held before. The digit count ol is computed, and arrays of
   * ol + 10 entries are declared, before the bases are checked.
   */
  method Convert(from: int, to: int, s: string, sout: array<char>) returns (r: Conversion)
    requires to != 0 && |s| * (Quotient(from, to) + 1) + 10 > 0 && sout.Length == SOUT_SIZE
    modifies sout
    ensures r.Refused? <==> !(2 <= from <= 36 && 2 <= to <= 36 && Numeral(s, from))
    ensures r.Overrun? <==> !r.Refused? && Meaning(s, from) >= Pow(to, SOUT_SIZE)
    ensures r.Written? ==>
              && r.length <= SOUT_SIZE && Numeral(sout[..r.length], to) && Canonical(sout[..r.length])
              && Meaning(sout[..r.length], to) == Meaning(s, from) && r.length <= |s| * (from / to + 1)
              && sout[r.length..] == old(sout[r.length..])
  {
    hide Value, Pow, Meaning, Numeral, Canonical, Below, Spells;
    if from < 2 || from > 36 || to < 2 || to > 36 {
      return Refused;
    }
    var fs := ReadDigits(s, from);
    if fs.None? {
      return Refused;
    }
    var cums, ol := Evaluate(fs.value, from, to);
    HighZeros(cums[..], to, ol);
    SpelledValue(fs.value[..], s, from);
    var inside, index := WriteDigits(cums, ol, to, sout);
    if !inside {
      return Overrun;
    }
    CanonicalLength(sout[..index], to, ol);
    return Written(index);
  }

  /** What printing the buffer as a string shows: the characters up to the first NUL, or a read past its end. */
  function Printed(buffer: string): Option<string> {
    if buffer == [] then None
    else if buffer[0] == '\0' then Some("")
    else
      var rest := Printed(buffer[1..]);
      if rest.None? then None else Some([buffer[0]] + rest.value)
  }

  /**
   * convert prints the buffer without ending it: what is shown is the numeral exactly when the buffer happened to hold
   * a NUL right behind it, and never if the numeral fills the buffer.
   */
  lemma {:induction false} PrintedIff(buffer: string, n: nat, b: nat)
    requires n <= |buffer| && Numeral(buffer[..n], b)
    ensures Printed(buffer) == Some(buffer[..n]) <==> n < |buffer| && buffer[n] == '\0'
  {
    if n > 0 {
      assert DigitOf(buffer[..n][0]).Some?;
      assert buffer[1..][..n - 1] == buffer[..n][1..];
      PrintedIff(buffer[1..], n - 1, b);
      assert buffer[..n] == [buffer[0]] + buffer[1..][..n - 1];
    }
  }

  // ---------- what a conversion is worth ----------

  lemma {:induction false} MeaningLow(s: string, b: nat)
    requires b > 0 && Numeral(s, b) && Canonical(s) && s != []
    ensures Meaning(s, b) >= Pow(b, |s| - 1)
    decreases |s|
  {
    if |s| > 1 {
      MeaningLow(s[..|s| - 1], b);
      MulMonotone(Pow(b, |s| - 2), Meaning(s[..|s| - 1], b), b);
    }
  }

  lemma {:induction false} MeaningHigh(s: string, b: nat)
    requires b > 0 && Numeral(s, b)
    ensures Meaning(s, b) < Pow(b, |s|)
    decreases |s|
  {
    if s != [] {
      MeaningHigh(s[..|s| - 1], b);
      MulMonotone(Meaning(s[..|s| - 1], b) + 1, Pow(b, |s| - 1), b);
      Distribute(b, Meaning(s[..|s| - 1], b), 1);
    }
  }

  /**
   * A canonical numeral has at most n digits exactly when its value is below b^n; the output buffer has room for 128.
   */
  lemma CanonicalLength(s: string, b: nat, n: nat)
    requires b >= 2 && Numeral(s, b) && Canonical(s)
    ensures |s| <= n <==> Meaning(s, b) < Pow(b, n)
  {
    hide DigitOf;
    MeaningHigh(s, b);
    if |s| <= n {
      PowMonotone(b, |s|, n);
    } else {
      MeaningLow(s, b);
      PowMonotone(b, n, |s| - 1);
    }
  }

  /** Twelve, in two bases. */
  lemma Twelve()
    ensures Meaning("12", 10) == 12 && Meaning("1100", 2) == 12 && Meaning("C", 16) == 12
  {
    DigitIff('0', 0);
    DigitIff('1', 1);
    DigitIff('2', 2);
    DigitIff('C', 12);
    assert "12"[..1] == "1" && "1"[..0] == "" && "C"[..0] == "";
    assert "1100"[..3] == "110" && "110"[..2] == "11" && "11"[..1] == "1";
  }

  /**
   * Canonical numerals of the same value are the same: converting there and back again gives the input without leading
   * zeros.
   */
  lemma {:induction false} CanonicalUnique(s: string, t: string, b: nat)
    requires b >= 2 && Numeral(s, b) && Numeral(t, b) && Canonical(s) && Canonical(t)
    requires Meaning(s, b) == Meaning(t, b)
    ensures s == t
    decreases |s|
  {
    hide DigitOf, Pow;
    CanonicalLength(s, b, |t|);
    CanonicalLength(t, b, |s|);
    if s != [] {
      var u, v := s[..|s| - 1], t[..|t| - 1];
      LastDigit(Meaning(u, b), Meaning(v, b), DigitOf(s[|s| - 1]).value, DigitOf(t[|t| - 1]).value, b);
      CanonicalUnique(u, v, b);
      SameChar(s[|s| - 1], t[|t| - 1]);
      assert s == u + [s[|s| - 1]] && t == v + [t[|t| - 1]];
    }
  }

  lemma SameChar(c: char, d: char)
    requires DigitOf(c).Some? && DigitOf(c) == DigitOf(d)
    ensures c == d
  {
  }

  lemma LastDigit(x: nat, y: nat, c: nat, d: nat, b: nat)
    requires c < b && d < b && x * b + c == y * b + d
    ensures x == y && c == d
  {
    if x < y {
      MulMonotone(x + 1, y, b);
    } else if y < x {
      MulMonotone(y + 1, x, b);
    }
  }
}
