/**
  How the formatter turns a number into text: `Math.round`, `Number.prototype.toFixed`,
  the decimal rendering of an integer, and the `/\.?0+$/` clean-up applied to `toFixed(2)`.
  Numbers are exact reals; `ParseDecimal` reads a rendering back so that the renderings can
  be checked against the value they stand for.
 */
module Numerals {
  import opened Wrappers

  function Pow10(k: nat): (r: nat)
    ensures r >= 1
  {
    if k == 0 then 1 else 10 * Pow10(k - 1)
  }


  /**
    `Math.round(x)`, and the integer `toFixed` picks for `x * 10^f` when `x >= 0`:
    the integer nearest to `x`, the larger one on a tie.
   */
  function RoundHalfUp(x: real): (n: int)
    ensures x - 0.5 < n as real <= x + 0.5
  {
    (x + 0.5).Floor
  }

  predicate IsDigit(c: char) {
    '0' <= c <= '9'
  }

  predicate AllDigits(s: string) {
    forall i | 0 <= i < |s| :: IsDigit(s[i])
  }

  function DigitChar(d: nat): (c: char)
    requires d < 10
    ensures IsDigit(c)
  {
    ('0' as int + d) as char
  }

  /** The value of a digit character (0 for any other character). */
  function DigitOf(c: char): (d: nat)
    ensures d < 10
    ensures IsDigit(c) ==> DigitChar(d) == c
  {
    if IsDigit(c) then c as int - '0' as int else 0
  }

  /** The value of a string of decimal digits, most significant digit first. */
  function DigitsValue(s: string): nat
  {
    if s == [] then 0 else 10 * DigitsValue(s[..|s| - 1]) + DigitOf(s[|s| - 1])
  }

  /** The decimal digits of `n`, without leading zeros ("0" for zero). */
  function NatDigits(n: nat): (s: string)
    ensures |s| >= 1 && AllDigits(s)
    ensures s[0] == '0' ==> n == 0
  {
    if n < 10 then [DigitChar(n)] else NatDigits(n / 10) + [DigitChar(n % 10)]
  }

  lemma {:induction false} NatDigitsValue(n: nat)
    ensures DigitsValue(NatDigits(n)) == n
  {
    var s := NatDigits(n);
    if n < 10 {
      assert DigitOf(s[0]) == n;
    } else {
      NatDigitsValue(n / 10);
      assert s[..|s| - 1] == NatDigits(n / 10);
      assert DigitOf(s[|s| - 1]) == n % 10;
    }
  }

  lemma {:induction false} DigitsValueAppend(a: string, b: string)
    ensures DigitsValue(a + b) == DigitsValue(a) * Pow10(|b|) + DigitsValue(b)
  {
    if b == [] {
      assert a + b == a;
    } else {
      var b', c := b[..|b| - 1], b[|b| - 1];
      DigitsValueAppend(a, b');
      assert (a + b)[..|a + b| - 1] == a + b';
      assert (a + b)[|a + b| - 1] == c;
      var A, B, P := DigitsValue(a), DigitsValue(b'), Pow10(|b'|);
      assert DigitsValue(a + b) == 10 * (A * P + B) + DigitOf(c);
      assert DigitsValue(b) == 10 * B + DigitOf(c);
      assert Pow10(|b|) == 10 * P;
      Distribute(A, P, B, DigitOf(c));
    }
  }

  lemma {:induction false} Distribute(a: int, p: int, b: int, d: int)
    ensures 10 * (a * p + b) + d == a * (10 * p) + (10 * b + d)
  {
  }

  function Zeros(k: nat): (s: string)
    ensures |s| == k && AllDigits(s)
    ensures forall i | 0 <= i < k :: s[i] == '0'
  {
    if k == 0 then [] else Zeros(k - 1) + "0"
  }

  lemma {:induction false} ZerosValue(k: nat)
    ensures DigitsValue(Zeros(k)) == 0
  {
    if k > 0 {
      ZerosValue(k - 1);
      assert Zeros(k)[..k - 1] == Zeros(k - 1);
    }
  }

  /** The rendering `String(i)` of an integer: a minus sign, then its digits. */
  function IntToString(i: int): (s: string)
  {
    if i < 0 then "-" + NatDigits(-i) else NatDigits(i)
  }

  /** `x.toFixed(f)` for `0 <= x`: round `x * 10^f` to an integer, then place the point. */
  function FixedNonNegative(x: real, f: nat): (s: string)
    requires 0.0 <= x
  {
    var n := RoundHalfUp(Shift(x, f));
    var m := NatDigits(n);
    if f == 0 then m
    else
      var p := Padded(m, f + 1);
      p[..|p| - f] + "." + p[|p| - f..]
  }

  /** `m` with zeros put in front until it is at least `width` long. */
  function Padded(m: string, width: nat): (p: string)
  {
    if |m| < width then Zeros(width - |m|) + m else m
  }

  lemma {:induction false} PaddedValue(m: string, width: nat)
    requires AllDigits(m)
    ensures |Padded(m, width)| >= width && AllDigits(Padded(m, width))
    ensures DigitsValue(Padded(m, width)) == DigitsValue(m)
  {
    if |m| < width {
      var z := Zeros(width - |m|);
      DigitsValueAppend(z, m);
      ZerosValue(width - |m|);
      assert DigitsValue(z) * Pow10(|m|) == 0;
    }
  }

  /** `x.toFixed(f)`: a negative number is rendered as "-" and the rendering of its magnitude. */
  function ToFixed(x: real, f: nat): (s: string)
  {
    if x < 0.0 then "-" + FixedNonNegative(-x, f) else FixedNonNegative(x, f)
  }

  /** The value `toFixed` shows: `x` rounded to `f` places, ties away from zero. */
  function RoundedTo(x: real, f: nat): real
  {
    if x < 0.0 then -Unshift(RoundHalfUp(Shift(-x, f)) as real, f)
    else Unshift(RoundHalfUp(Shift(x, f)) as real, f)
  }

  /** `x * 10^f`. */
  function Shift(x: real, f: nat): (y: real)
    ensures 0.0 <= x ==> 0.0 <= y
  {
    if f == 0 then x else 10.0 * Shift(x, f - 1)
  }

  /** `y / 10^f`. */
  function Unshift(y: real, f: nat): real
  {
    if f == 0 then y else Unshift(y, f - 1) / 10.0
  }

  /** Shifting by the two precisions the formatter uses. */
  lemma {:induction false} ShiftByZeroOrTwo(x: real)
    ensures Shift(x, 0) == x && Unshift(x, 0) == x
    ensures Shift(x, 2) == 100.0 * x && Unshift(x, 2) == x / 100.0
  {
  }

  /** The number of '0' characters that end `s`. */
  function TrailingZeros(s: string): (k: nat)
    ensures k <= |s|
    ensures forall i | |s| - k <= i < |s| :: s[i] == '0'
    ensures k < |s| ==> s[|s| - 1 - k] != '0'
  {
    if s != [] && s[|s| - 1] == '0' then 1 + TrailingZeros(s[..|s| - 1]) else 0
  }

  /** `s.replace(/\.?0+$/, '')`: drop the final run of zeros, and the point just before it. */
  function StripZeros(s: string): (r: string)
  {
    var z := |s| - TrailingZeros(s);
    if z == |s| then s
    else if z > 0 && s[z - 1] == '.' then s[..z - 1]
    else s[..z]
  }

  /** `t` belongs to the language of the regular expression `\.?0+`. */
  ghost predicate DotZeros(t: string) {
    var start := if t != [] && t[0] == '.' then 1 else 0;
    start < |t| && forall i | start <= i < |t| :: t[i] == '0'
  }

  /** Without a match of `\.?0+$` anywhere, the replacement leaves `s` as it is. */
  lemma {:induction false} StripWithoutMatch(s: string)
    requires forall p | 0 <= p <= |s| :: !DotZeros(s[p..])
    ensures StripZeros(s) == s
  {
    var k := TrailingZeros(s);
    assert !DotZeros(s[|s| - k..]);
  }

  /** With a match, the replacement removes exactly the leftmost one, as `replace` does. */
  lemma {:induction false} StripRemovesLeftmostMatch(s: string, p: nat)
    requires p <= |s| && DotZeros(s[p..])
    requires forall q | 0 <= q < p :: !DotZeros(s[q..])
    ensures StripZeros(s) == s[..p]
  {
    var k := TrailingZeros(s);
    var z := |s| - k;
    var t := s[p..];
    var start := if t != [] && t[0] == '.' then 1 else 0;
    assert s[|s| - 1] == t[|t| - 1];
    assert k > 0;
    assert z <= p + start;
    if z > 0 && s[z - 1] == '.' {
      assert DotZeros(s[z - 1..]);
    } else {
      assert DotZeros(s[z..]);
    }
  }

  /** The index of the first '.' in `s`, or `|s|` when there is none. */
  function DotIndex(s: string): (k: nat)
    ensures k <= |s|
  {
    if s == [] || s[0] == '.' then 0 else 1 + DotIndex(s[1..])
  }

  /** Reads `digits` or `digits.digits` back as a number; anything else is `None`. */
  function ParseUnsigned(s: string): Option<real>
  {
    var p := DotIndex(s);
    if p == 0 || !AllDigits(s[..p]) then None
    else if p == |s| then Some(DigitsValue(s) as real)
    else if p + 1 == |s| || !AllDigits(s[p + 1..]) then None
    else Some(DigitsValue(s[..p]) as real + FractionValue(s[p + 1..]))
  }

  /** The value of the digits `f` written after a point: `0.f`. */
  function FractionValue(f: string): real
  {
    if f == [] then 0.0 else (DigitOf(f[0]) as real + FractionValue(f[1..])) / 10.0
  }

  /** Reads a decimal rendering, with an optional leading minus sign, back as a number. */
  function ParseDecimal(s: string): Option<real>
  {
    if s != [] && s[0] == '-' then
      match ParseUnsigned(s[1..])
      case Some(v) => Some(-v)
      case None => None
    else ParseUnsigned(s)
  }

  /** A rendering that is neither cut short nor padded: no final '.', no final '0' after a '.'. */
  predicate IsTidy(s: string) {
    s != [] && s[|s| - 1] != '.' && (DotIndex(s) < |s| ==> s[|s| - 1] != '0')
  }

  /** The number of digits after the point (0 without a point). */
  function Places(s: string): nat
  {
    if DotIndex(s) < |s| then |s| - DotIndex(s) - 1 else 0
  }

  lemma {:induction false} DotIndexSkipsDigits(w: string, rest: string)
    requires AllDigits(w)
    ensures DotIndex(w + rest) == |w| + DotIndex(rest)
  {
    if w == [] {
      assert w + rest == rest;
    } else {
      assert (w + rest)[0] == w[0];
      assert (w + rest)[1..] == w[1..] + rest;
      DotIndexSkipsDigits(w[1..], rest);
    }
  }

  lemma {:induction false} ParseDigits(s: string)
    requires |s| > 0 && AllDigits(s)
    ensures DotIndex(s) == |s|
    ensures ParseUnsigned(s) == Some(DigitsValue(s) as real)
  {
    DotIndexSkipsDigits(s, []);
    assert s + [] == s;
    assert s[..|s|] == s;
  }

  lemma {:induction false} ParsePointed(w: string, f: string)
    requires |w| > 0 && AllDigits(w) && |f| > 0 && AllDigits(f)
    ensures DotIndex(w + "." + f) == |w|
    ensures ParseUnsigned(w + "." + f)
         == Some(DigitsValue(w) as real + FractionValue(f))
  {
    var s := w + "." + f;
    DotIndexSkipsDigits(w, "." + f);
    assert s == w + ("." + f);
    assert s[..|w|] == w;
    assert s[|w| + 1..] == f;
    ParseAtPoint(s, w, f);
  }

  lemma {:induction false} ParseAtPoint(s: string, w: string, f: string)
    requires |w| > 0 && AllDigits(w) && |f| > 0 && AllDigits(f)
    requires |s| == |w| + 1 + |f| && DotIndex(s) == |w| && s[..|w|] == w && s[|w| + 1..] == f
    ensures ParseUnsigned(s) == Some(DigitsValue(w) as real + FractionValue(f))
  {
  }

  /** A minus sign in front changes the sign of the value and nothing else. */
  lemma {:induction false} Negated(u: string)
    requires u != [] && u[0] != '-'
    ensures ParseDecimal(u) == ParseUnsigned(u)
    ensures ParseDecimal("-" + u)
         == match ParseUnsigned(u) case Some(v) => Some(-v) case None => None
    ensures DotIndex("-" + u) == 1 + DotIndex(u)
    ensures Places("-" + u) == Places(u)
    ensures IsTidy(u) ==> IsTidy("-" + u)
  {
  }

  /** An integer's rendering has no point and reads back as that integer. */
  lemma {:induction false} IntToStringParses(i: int)
    ensures DotIndex(IntToString(i)) == |IntToString(i)|
    ensures ParseDecimal(IntToString(i)) == Some(i as real)
  {
    var n: nat := if i < 0 then -i else i;
    var d := NatDigits(n);
    NatDigitsValue(n);
    ParseDigits(d);
    if i < 0 {
      Negated(d);
    }
  }

  /** Rounding to two places moves a value by at most half a hundredth. */
  lemma {:induction false} RoundedToTwoClose(x: real)
    ensures x - 0.005 <= RoundedTo(x, 2) <= x + 0.005
  {
    RoundedToTwo(x);
  }

  /** Rounding to two places: the nearest hundredth, ties away from zero. */
  lemma {:induction false} RoundedToTwo(x: real)
    ensures 0.0 <= x ==> RoundedTo(x, 2) == RoundHalfUp(x * 100.0) as real / 100.0
    ensures x < 0.0 ==> RoundedTo(x, 2) == -(RoundHalfUp(-x * 100.0) as real / 100.0)
  {
    var a := if x < 0.0 then -x else x;
    ShiftByZeroOrTwo(a);
    ShiftByZeroOrTwo(RoundHalfUp(a * 100.0) as real);
  }

  /** A negative value rounds to the opposite of what its magnitude rounds to. */
  lemma {:induction false} RoundedToSymmetric(x: real, f: nat)
    ensures x < 0.0 ==> RoundedTo(x, f) == -RoundedTo(-x, f)
  {
  }

  /** Rounding to no places moves a value by at most one half. */
  lemma {:induction false} RoundedToZeroClose(x: real)
    ensures x - 0.5 <= RoundedTo(x, 0) <= x + 0.5
  {
  }

  /** `toFixed(0)`: the digits of `x` rounded to an integer, with no point. */
  lemma {:induction false} FixedZeroParses(x: real)
    ensures DotIndex(ToFixed(x, 0)) == |ToFixed(x, 0)|
    ensures ParseDecimal(ToFixed(x, 0)) == Some(RoundedTo(x, 0))
  {
    var a := if x < 0.0 then -x else x;
    ShiftByZeroOrTwo(a);
    var n := RoundHalfUp(a);
    ShiftByZeroOrTwo(n as real);
    var m := NatDigits(n);
    NatDigitsValue(n);
    ParseDigits(m);
    assert FixedNonNegative(a, 0) == m;
    Negated(m);
  }

  /** `toFixed(2)` of a non-negative `a`: whole digits, a point, two digits, worth `a` rounded. */
  lemma {:induction false} FixedTwoParts(a: real) returns (w: string, g: string)
    requires 0.0 <= a
    ensures FixedNonNegative(a, 2) == w + "." + g
    ensures |w| > 0 && AllDigits(w) && |g| == 2 && AllDigits(g)
    ensures 100 * DigitsValue(w) + 10 * DigitOf(g[0]) + DigitOf(g[1]) == RoundHalfUp(a * 100.0)
  {
    ShiftByZeroOrTwo(a);
    w, g := HundredthsDigits(RoundHalfUp(a * 100.0));
  }

  /** The digits of a count of hundredths, padded to three, split before the last two. */
  lemma {:induction false} HundredthsDigits(n: nat) returns (w: string, g: string)
    ensures Padded(NatDigits(n), 3) == w + g
    ensures Padded(NatDigits(n), 3)[..|Padded(NatDigits(n), 3)| - 2] == w
    ensures Padded(NatDigits(n), 3)[|Padded(NatDigits(n), 3)| - 2..] == g
    ensures |w| > 0 && AllDigits(w) && |g| == 2 && AllDigits(g)
    ensures 100 * DigitsValue(w) + 10 * DigitOf(g[0]) + DigitOf(g[1]) == n
  {
    var m := NatDigits(n);
    NatDigitsValue(n);
    var p := Padded(m, 3);
    PaddedValue(m, 3);
    w, g := p[..|p| - 2], p[|p| - 2..];
    assert p == w + g;
    DigitsValueAppend(w, g);
    assert Pow10(|g|) == 100;
    var g0 := g[..1];
    assert g[..|g| - 1] == g0 && g0[..0] == [] && g0[0] == g[0];
    assert DigitsValue(g0) == 10 * DigitsValue([]) + DigitOf(g[0]);
    assert DigitsValue(g) == 10 * DigitsValue(g0) + DigitOf(g[1]);
  }

  /**
    The clean-up on a rendering with two digits after the point: it drops a final zero digit,
    and the point too when both digits are zeros.
   */
  lemma {:induction false} StripTwoPlaces(a: string, g: string)
    requires |g| == 2 && AllDigits(g)
    ensures g[1] != '0' ==> StripZeros(a + "." + g) == a + "." + g
    ensures g[1] == '0' && g[0] != '0' ==> StripZeros(a + "." + g) == a + "." + g[..1]
    ensures g[1] == '0' && g[0] == '0' ==> StripZeros(a + "." + g) == a
  {
    var s := a + "." + g;
    var n := |s|;
    assert s[n - 1] == g[1] && s[n - 2] == g[0] && s[n - 3] == '.';
    var k := TrailingZeros(s);
    if g[1] != '0' {
      assert k == 0;
    } else if g[0] != '0' {
      assert k == 1;
      assert s[..n - 1] == a + "." + g[..1];
    } else {
      assert k == 2;
      assert s[..n - 3] == a;
    }
  }

  /** The tidy shapes of `w.g`, for two digits `g`, read back as the value of `w.g`. */
  lemma {:induction false} TidyUnsignedTwo(w: string, g: string)
    requires |w| > 0 && AllDigits(w) && |g| == 2 && AllDigits(g)
    ensures StripZeros(w + "." + g) in {w, w + "." + g[..1], w + "." + g}
    ensures StripZeros(w + "." + g) != [] && StripZeros(w + "." + g)[0] == w[0]
    ensures IsTidy(StripZeros(w + "." + g)) && Places(StripZeros(w + "." + g)) <= 2
    ensures ParseUnsigned(StripZeros(w + "." + g))
         == Some(DigitsValue(w) as real + DigitOf(g[0]) as real / 10.0 + DigitOf(g[1]) as real / 100.0)
  {
    StripTwoPlaces(w, g);
    FractionOfTwo(g);
    var t := StripZeros(w + "." + g);
    if g[1] != '0' {
      assert t == w + "." + g;
      TidyPointed(w, g);
    } else if g[0] != '0' {
      assert t == w + "." + g[..1];
      TidyPointed(w, g[..1]);
    } else {
      assert t == w;
      TidyWhole(w);
    }
  }

  /** Whole digits are tidy, have no places and read back as their value. */
  lemma {:induction false} TidyWhole(w: string)
    requires |w| > 0 && AllDigits(w)
    ensures IsTidy(w) && Places(w) == 0
    ensures ParseUnsigned(w) == Some(DigitsValue(w) as real)
  {
    ParseDigits(w);
  }

  lemma {:induction false} FractionOfTwo(g: string)
    requires |g| == 2
    ensures FractionValue(g) == DigitOf(g[0]) as real / 10.0 + DigitOf(g[1]) as real / 100.0
    ensures FractionValue(g[..1]) == DigitOf(g[0]) as real / 10.0
  {
    var g1, g0 := g[1..], g[..1];
    assert g1[0] == g[1] && g1[1..] == [] && g0[0] == g[0] && g0[1..] == [];
    assert FractionValue(g1) == DigitOf(g[1]) as real / 10.0;
  }

  /** `w.f` ending in a non-zero digit is tidy, with `|f|` places. */
  lemma {:induction false} TidyPointed(w: string, f: string)
    requires |w| > 0 && AllDigits(w) && |f| > 0 && AllDigits(f) && f[|f| - 1] != '0'
    ensures IsTidy(w + "." + f) && Places(w + "." + f) == |f| && (w + "." + f)[0] == w[0]
    ensures ParseUnsigned(w + "." + f) == Some(DigitsValue(w) as real + FractionValue(f))
  {
    ParsePointed(w, f);
    assert (w + "." + f)[|w + "." + f| - 1] == f[|f| - 1];
  }

  /**
    `x.toFixed(2).replace(/\.?0+$/, '')`: a tidy rendering with at most two places that reads
    back as `x` rounded to two places, so within half a hundredth of `x`.
   */
  lemma {:induction false} TidyFixedTwo(x: real)
    ensures IsTidy(StripZeros(ToFixed(x, 2))) && Places(StripZeros(ToFixed(x, 2))) <= 2
    ensures ParseDecimal(StripZeros(ToFixed(x, 2))) == Some(RoundedTo(x, 2))
    ensures x - 0.005 <= RoundedTo(x, 2) <= x + 0.005
  {
    RoundedToTwoClose(x);
    if x < 0.0 {
      TidyFixedTwoNegative(x);
    } else {
      var w, g := TidyMagnitudeTwo(x);
      assert ToFixed(x, 2) == w + "." + g;
    }
  }

  /** `TidyFixedTwo` for a negative value: the minus sign passes through the clean-up. */
  lemma {:induction false} TidyFixedTwoNegative(x: real)
    requires x < 0.0
    ensures IsTidy(StripZeros(ToFixed(x, 2))) && Places(StripZeros(ToFixed(x, 2))) <= 2
    ensures ParseDecimal(StripZeros(ToFixed(x, 2))) == Some(RoundedTo(x, 2))
  {
    RoundedToSymmetric(x, 2);
    var a := if x < 0.0 then -x else x;
    var w, g := TidyMagnitudeTwo(a);
    Negated(StripZeros(w + "." + g));
    assert ToFixed(x, 2) == "-" + (w + "." + g);
    StripNegated(w, g);
  }

  /** The clean-up of a negative rendering is the minus sign and the clean-up of the magnitude. */
  lemma {:induction false} StripNegated(w: string, g: string)
    requires |g| == 2 && AllDigits(g)
    ensures StripZeros("-" + (w + "." + g)) == "-" + StripZeros(w + "." + g)
  {
    var m := "-" + w;
    assert "-" + (w + "." + g) == m + "." + g;
    StripTwoPlaces(m, g);
    StripTwoPlaces(w, g);
    if g[1] != '0' {
      assert "-" + (w + "." + g) == m + "." + g;
    } else if g[0] != '0' {
      assert "-" + (w + "." + g[..1]) == m + "." + g[..1];
    } else {
      assert StripZeros(m + "." + g) == m;
    }
  }

  /** The cleaned-up `toFixed(2)` of a non-negative `a`, the digits it is made from, and its value. */
  lemma {:induction false} TidyMagnitudeTwo(a: real) returns (w: string, g: string)
    requires 0.0 <= a
    ensures FixedNonNegative(a, 2) == w + "." + g
    ensures |w| > 0 && AllDigits(w) && |g| == 2 && AllDigits(g)
    ensures StripZeros(w + "." + g) != [] && StripZeros(w + "." + g)[0] != '-'
    ensures IsTidy(StripZeros(w + "." + g)) && Places(StripZeros(w + "." + g)) <= 2
    ensures ParseUnsigned(StripZeros(w + "." + g)) == Some(RoundedTo(a, 2))
  {
    w, g := FixedTwoParts(a);
    TidyUnsignedTwo(w, g);
    RoundedToTwo(a);
  }
}
