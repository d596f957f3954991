/**
 The textual form of IIO channel values: an integer part and a fraction in millionths or
 billionths, printed and parsed as decimals. Integers are taken not to overflow.
 */
module Fixpoint {
  import opened Arith
  import opened Common

  // ----- decimal digits -----

  predicate IsDigit(c: char) { '0' <= c <= '9' }

  function DigitValue(c: char): (d: nat)
    requires IsDigit(c)
    ensures d < 10
  {
    (c - '0') as nat
  }

  function DigitChar(d: nat): (c: char)
    requires d < 10
    ensures IsDigit(c) && DigitValue(c) == d
  {
    '0' + d as char
  }

  predicate AllDigits(s: string) { forall i :: 0 <= i < |s| ==> IsDigit(s[i]) }

  function NatOf(s: string): nat
    requires AllDigits(s)
  {
    if s == [] then 0 else NatOf(s[..|s| - 1]) * 10 + DigitValue(s[|s| - 1])
  }

  function Pow10(n: nat): (p: nat)
    ensures p > 0
  {
    if n == 0 then 1 else 10 * Pow10(n - 1)
  }

  lemma {:induction false} NatOfBound(s: string)
    requires AllDigits(s)
    ensures NatOf(s) < Pow10(|s|)
  {
    if s != [] {
      NatOfBound(s[..|s| - 1]);
    }
  }

  lemma {:induction false} NatOfFirst(s: string)
    requires AllDigits(s) && s != []
    ensures NatOf(s) == DigitValue(s[0]) * Pow10(|s| - 1) + NatOf(s[1..])
  {
    if |s| == 1 {
      assert s[..0] == [] && s[1..] == [];
    } else {
      var front, rest := s[..|s| - 1], s[1..];
      assert front[1..] == rest[..|rest| - 1];
      NatOfFirst(front);
      MoveLast(NatOf(front), DigitValue(s[0]), Pow10(|s| - 2), NatOf(front[1..]), Pow10(|s| - 1));
    }
  }

  lemma MoveLast(all: nat, d: nat, p: nat, n: nat, q: nat)
    requires all == d * p + n && q == 10 * p
    ensures all * 10 == d * q + n * 10
  {
    assert d * q == 10 * (d * p);
  }

  // ----- the parser -----

  /** What the parser adds up: each digit with its multiplier, which shrinks to 0. */
  function Weighted(s: string, mult: nat): nat
    requires AllDigits(s)
  {
    if s == [] then 0 else mult * DigitValue(s[0]) + Weighted(s[1..], mult / 10)
  }

  function Shrunk(mult: nat, n: nat): nat {
    if n == 0 then mult else Shrunk(mult, n - 1) / 10
  }

  lemma {:induction false} ShrunkFirst(mult: nat, n: nat)
    ensures Shrunk(mult, n + 1) == Shrunk(mult / 10, n)
  {
    if n > 0 {
      ShrunkFirst(mult, n - 1);
    }
  }

  lemma {:induction false} WeightedSnoc(s: string, c: char, mult: nat)
    requires AllDigits(s) && IsDigit(c)
    ensures AllDigits(s + [c]) && Weighted(s + [c], mult) == Weighted(s, mult) + Shrunk(mult, |s|) * DigitValue(c)
  {
    var t := s + [c];
    assert forall i :: 0 <= i < |t| ==> IsDigit(t[i]);
    if s == [] {
      assert t[1..] == [];
    } else {
      assert t[1..] == s[1..] + [c];
      WeightedSnoc(s[1..], c, mult / 10);
      ShrunkFirst(mult, |s| - 1);
    }
  }

  /** After as many digits as the precision has, nothing counts any more. */
  lemma {:induction false} WeightedNothing(s: string)
    requires AllDigits(s)
    ensures Weighted(s, 0) == 0
  {
    if s != [] {
      WeightedNothing(s[1..]);
    }
  }

  /** The parser's sum is the fraction cut off at `p` digits. */
  lemma {:induction false} WeightedIsTruncation(s: string, p: nat)
    requires AllDigits(s) && p > 0
    ensures Weighted(s, Pow10(p - 1)) == (NatOf(s) * Pow10(p)) / Pow10(|s|)
  {
    if s != [] {
      var d, t, n := DigitValue(s[0]), s[1..], |s| - 1;
      var a, b, x := Pow10(n), Pow10(p - 1), NatOf(t);
      NatOfFirst(s);
      NatOfBound(t);
      if p == 1 {
        WeightedNothing(t);
        TruncateLast(d, x, a);
      } else {
        WeightedIsTruncation(t, p - 1);
        TruncateStep(d, x, a, b);
      }
    } else {
      DivModUnique(0, 1, 0, 0);
    }
  }

  lemma TruncateLast(d: nat, x: nat, a: nat)
    requires x < a
    ensures ((d * a + x) * 10) / (10 * a) == d
  {
    assert (d * a + x) * 10 == d * (10 * a) + 10 * x;
    DivModUnique((d * a + x) * 10, 10 * a, d, 10 * x);
  }

  lemma TruncateStep(d: nat, x: nat, a: nat, b: nat)
    requires a > 0
    ensures ((d * a + x) * (10 * b)) / (10 * a) == b * d + (x * b) / a
  {
    var q, r := (x * b) / a, (x * b) % a;
    assert x * b == q * a + r;
    var n := (d * a + x) * (10 * b);
    assert n == 10 * ((d * a) * b) + 10 * (x * b) by {
      assert (d * a + x) * b == (d * a) * b + x * b;
      assert n == 10 * ((d * a + x) * b);
    }
    assert (b * d + q) * (10 * a) == 10 * ((b * d) * a) + 10 * (q * a);
    assert (d * a) * b == (b * d) * a;
    DivModUnique(n, 10 * a, b * d + q, 10 * r);
  }

  /** The text without its sign. */
  function Unsigned(s: string): string {
    if s != [] && (s[0] == '-' || s[0] == '+') then s[1..] else s
  }

  predicate Negative(s: string) { s != [] && s[0] == '-' }

  function Trimmed(s: string): string {
    if s != [] && s[|s| - 1] == '\n' then s[..|s| - 1] else s
  }

  /** Position of the first point, or the length. */
  function Point(s: string): (p: nat)
    ensures p <= |s| && (p < |s| ==> s[p] == '.') && forall i :: 0 <= i < p ==> s[i] != '.'
  {
    if s == [] || s[0] == '.' then 0 else 1 + Point(s[1..])
  }

  function Whole(b: string): string { b[..Point(b)] }

  function Fraction(b: string): string { if Point(b) < |b| then b[Point(b) + 1..] else [] }

  /** Digits with at most one point among them. */
  predicate Decimal(b: string) { AllDigits(Whole(b)) && AllDigits(Fraction(b)) }

  /** What is accepted: a sign, a decimal and a final newline, each optional. */
  predicate Accepted(s: string) { Decimal(Trimmed(Unsigned(s))) }

  /** The pair for an accepted text; the sign goes to the integer part unless that is 0. */
  function Parsed(s: string, mult: nat): (int, int)
    requires Accepted(s)
  {
    var b := Trimmed(Unsigned(s));
    Signed(Negative(s), NatOf(Whole(b)), Weighted(Fraction(b), mult))
  }

  function Signed(negative: bool, i: nat, f: nat): (int, int) {
    if !negative then (i, f) else if i != 0 then (-(i as int), f) else (0, -(f as int))
  }

  /** The value of the pair in units of the precision is the decimal, truncated toward zero. */
  lemma ParsedIsTruncation(s: string, p: nat)
    requires Accepted(s) && p > 0
    ensures var b := Trimmed(Unsigned(s)); var digits := Whole(b) + Fraction(b);
            var (i, f) := Parsed(s, Pow10(p - 1));
            && AllDigits(digits)
            && Abs(f) < Pow10(p)
            && Abs(i) * Pow10(p) + Abs(f) == (NatOf(digits) * Pow10(p)) / Pow10(|Fraction(b)|)
            && (Negative(s) ==> i <= 0 && (i == 0 ==> f <= 0)) && (!Negative(s) ==> i >= 0 && f >= 0)
            && (i != 0 ==> f >= 0)
  {
    var b := Trimmed(Unsigned(s));
    var w, fr := Whole(b), Fraction(b);
    WeightedIsTruncation(fr, p);
    NatOfBound(fr);
    NatOfAppend(w, fr);
    var i, n, a, u := NatOf(w), NatOf(fr), Pow10(|fr|), Pow10(p);
    TruncateMixed(i, n, a, u);
  }

  lemma {:induction false} NatOfAppend(s: string, t: string)
    requires AllDigits(s) && AllDigits(t)
    ensures AllDigits(s + t) && NatOf(s + t) == NatOf(s) * Pow10(|t|) + NatOf(t)
  {
    if t == [] {
      assert s + t == s;
    } else {
      var front := t[..|t| - 1];
      NatOfAppend(s, front);
      assert (s + t)[..|s + t| - 1] == s + front;
      MoveLast(NatOf(s + front), NatOf(s), Pow10(|front|), NatOf(front), Pow10(|t|));
    }
  }

  lemma TruncateMixed(i: nat, n: nat, a: nat, u: nat)
    requires n < a
    ensures ((i * a + n) * u) / a == i * u + (n * u) / a && (u > 0 ==> (n * u) / a < u)
  {
    MixedQuotient(i * u, n * u, a);
    assert (i * a + n) * u == (i * u) * a + n * u;
    if u > 0 {
      TimesMonotone(n + 1, a, u);
      assert (n + 1) * u == n * u + u;
      QuotientBelow(n * u, a, u);
    }
  }

  lemma MixedQuotient(x: nat, y: nat, a: nat)
    requires a > 0
    ensures (x * a + y) / a == x + y / a
  {
    var q, r := y / a, y % a;
    assert y == q * a + r;
    assert (x + q) * a == x * a + q * a;
    DivModUnique(x * a + y, a, x + q, r);
  }

  // ----- the printer -----

  /** `%u` */
  function Dec(n: nat): (s: string)
    ensures s != [] && AllDigits(s)
  {
    if n < 10 then [DigitChar(n)] else Dec(n / 10) + [DigitChar(n % 10)]
  }

  /** `%d` */
  function DecInt(x: int): string {
    if x < 0 then "-" + Dec(Abs(x)) else Dec(x)
  }

  function Zeros(n: nat): (s: string)
    ensures |s| == n && forall i :: 0 <= i < n ==> s[i] == '0'
  {
    seq(n, _ => '0')
  }

  /** `%0wu` */
  function Pad(n: nat, w: nat): (s: string)
    ensures AllDigits(s)
  {
    var d := Dec(n);
    if |d| < w then Zeros(w - |d|) + d else d
  }

  /** `IIO_VAL_INT_PLUS_MICRO` has precision 6, `IIO_VAL_INT_PLUS_NANO` 9; decibels add a suffix. */
  function Format(val: int, val2: int, p: nat, db: bool): string {
    var suffix := if db then " dB" else "";
    if val2 < 0 then "-" + Dec(Abs(val)) + "." + Pad(Abs(val2), p) + suffix + "\n"
    else DecInt(val) + "." + Pad(val2, p) + suffix + "\n"
  }

  lemma {:induction false} DecValue(n: nat)
    ensures NatOf(Dec(n)) == n
    ensures n > 0 ==> Pow10(|Dec(n)| - 1) <= n
  {
    if n >= 10 {
      DecValue(n / 10);
      var s := Dec(n / 10) + [DigitChar(n % 10)];
      assert s[..|s| - 1] == Dec(n / 10);
    } else {
      assert Dec(n)[..0] == [];
    }
  }

  lemma {:induction false} PowMonotone(m: nat, n: nat)
    requires m <= n
    ensures Pow10(m) <= Pow10(n)
  {
    if m < n {
      PowMonotone(m, n - 1);
    }
  }

  lemma {:induction false} NatOfZeros(n: nat, s: string)
    requires AllDigits(s)
    ensures AllDigits(Zeros(n) + s) && NatOf(Zeros(n) + s) == NatOf(s)
  {
    if s == [] {
      if n > 0 {
        NatOfZeros(n - 1, s);
        assert (Zeros(n) + s)[..n - 1] == Zeros(n - 1) + s;
      }
    } else {
      var front := s[..|s| - 1];
      NatOfZeros(n, front);
      assert (Zeros(n) + s)[..n + |s| - 1] == Zeros(n) + front;
    }
  }

  lemma PadValue(n: nat, p: nat)
    requires p > 0
    ensures NatOf(Pad(n, p)) == n
    ensures n < Pow10(p) ==> |Pad(n, p)| == p
  {
    DecValue(n);
    var d := Dec(n);
    assert n == 0 ==> |d| == 1;
    hide Dec, NatOf, Pow10;
    if |d| < p {
      NatOfZeros(p - |d|, d);
    } else if |d| > p && n > 0 {
      PowMonotone(p, |d| - 1);
    }
  }

  /** Parsed with the matching precision, a printed fraction comes back exactly if it is one. */
  lemma PadParsed(n: nat, p: nat)
    requires p > 0
    ensures Weighted(Pad(n, p), Pow10(p - 1)) == n <==> n < Pow10(p)
  {
    var s := Pad(n, p);
    PadValue(n, p);
    WeightedIsTruncation(s, p);
    NatOfBound(s);
    TruncateMixed(0, n, Pow10(|s|), Pow10(p));
    if n < Pow10(p) {
      DivModUnique(n * Pow10(p), Pow10(p), n, 0);
    }
  }

  lemma {:induction false} PointAfterDigits(s: string, t: string)
    requires AllDigits(s)
    ensures Point(s + ['.'] + t) == |s|
  {
    var all := s + ['.'] + t;
    if s != [] {
      PointAfterDigits(s[1..], t);
      assert all[1..] == s[1..] + ['.'] + t;
      assert IsDigit(s[0]);
    }
  }

  // ----- the texts that are accepted -----

  /** `s` is a sign, digits, a point and more digits, and a newline, each of which may be missing. */
  predicate IsText(s: string, sign: string, w: string, point: bool, f: string, newline: bool) {
    && (sign == "" || sign == "-" || sign == "+") && AllDigits(w) && AllDigits(f) && (point || f == "")
    && s == sign + Body(w, point, f) + if newline then "\n" else ""
  }

  function Body(w: string, point: bool, f: string): string { if point then w + ['.'] + f else w }

  lemma SignTaken(sign: string, u: string)
    requires sign == "" || sign == "-" || sign == "+"
    requires u != "" ==> u[0] != '-' && u[0] != '+'
    ensures Unsigned(sign + u) == u && Negative(sign + u) == (sign == "-")
  {
    if sign == "" {
      assert sign + u == u;
    } else {
      assert (sign + u)[1..] == u;
    }
  }

  lemma PartsOf(w: string, point: bool, f: string)
    requires AllDigits(w) && (point || f == "")
    ensures Whole(Body(w, point, f)) == w && Fraction(Body(w, point, f)) == f
  {
    if point { PointAfterDigits(w, f); } else { NoPoint(w); }
    hide Point;
  }

  lemma BodyFirst(w: string, point: bool, f: string, newline: bool)
    requires AllDigits(w) && (point || f == "")
    ensures var u := Body(w, point, f) + if newline then "\n" else ""; u != "" ==> u[0] != '-' && u[0] != '+'
  {
    if w != "" { assert IsDigit(w[0]); }
  }

  /** What such a text is parsed to. */
  lemma TextParsed(s: string, sign: string, w: string, point: bool, f: string, newline: bool, mult: nat)
    requires IsText(s, sign, w, point, f, newline)
    ensures Accepted(s) && Parsed(s, mult) == Signed(sign == "-", NatOf(w), Weighted(f, mult))
  {
    hide NatOf, Weighted, Signed, Unsigned, Negative, Trimmed, Whole, Fraction, Body;
    var u := Body(w, point, f) + if newline then "\n" else "";
    assert s == sign + u;
    BodyFirst(w, point, f, newline);
    SignTaken(sign, u);
    BodyTrimmed(w, point, f, newline);
    PartsOf(w, point, f);
  }

  lemma SignSplit(s: string) returns (sign: string)
    ensures (sign == "" || sign == "-" || sign == "+") && s == sign + Unsigned(s)
  {
    sign := s[..|s| - |Unsigned(s)|];
  }

  lemma NewlineSplit(u: string) returns (newline: bool)
    ensures u == Trimmed(u) + if newline then "\n" else ""
  {
    newline := Trimmed(u) != u;
  }

  lemma PointSplit(b: string) returns (point: bool)
    ensures b == Body(Whole(b), point, Fraction(b)) && (point || Fraction(b) == "")
  {
    point := Point(b) < |b|;
  }

  /** No other texts are accepted. */
  lemma AcceptedExact(s: string)
    ensures Accepted(s) <==> exists sign, w, point, f, newline :: IsText(s, sign, w, point, f, newline)
  {
    hide Unsigned, Trimmed, Whole, Fraction, Body;
    if Accepted(s) {
      var b := Trimmed(Unsigned(s));
      var sign := SignSplit(s);
      var newline := NewlineSplit(Unsigned(s));
      var point := PointSplit(b);
      assert IsText(s, sign, Whole(b), point, Fraction(b), newline);
    }
    if sign, w, point, f, newline :| IsText(s, sign, w, point, f, newline) {
      hide IsText;
      TextParsed(s, sign, w, point, f, newline, 1);
    }
  }

  lemma BodyTrimmed(w: string, point: bool, f: string, newline: bool)
    requires AllDigits(w) && AllDigits(f) && (point || f == "")
    ensures Trimmed(Body(w, point, f) + if newline then "\n" else "") == Body(w, point, f)
  {
    var b := Body(w, point, f);
    if newline {
      assert (b + "\n")[..|b|] == b;
    } else {
      assert b + "" == b;
      assert b != "" ==> b[|b| - 1] != '\n' by {
        if f != "" { assert IsDigit(f[|f| - 1]); } else if w != "" { assert IsDigit(w[|w| - 1]); }
      }
    }
  }

  /** The pairs that print in the sign form the parser produces. */
  predicate Canonical(val: int, val2: int, p: nat) {
    Abs(val2) < Pow10(p) && (val2 >= 0 || val == 0)
  }

  /** Printing and parsing back returns the same pair, exactly for the canonical pairs. */
  lemma RoundTrip(val: int, val2: int, p: nat, newline: bool)
    requires p > 0
    ensures var text := Format(val, val2, p, false);
            var s := if newline then text else text[..|text| - 1];
            Accepted(s) && (Parsed(s, Pow10(p - 1)) == (val, val2) <==> Canonical(val, val2, p))
  {
    var text := Format(val, val2, p, false);
    var s := if newline then text else text[..|text| - 1];
    var negative := val < 0 || val2 < 0;
    var w, fr := Dec(Abs(val)), Pad(Abs(val2), p);
    FormatParts(val, val2, p, newline);
    hide Format, Dec, Pad, Accepted, Parsed, Weighted, Signed, Pow10;
    TextParsed(s, if negative then "-" else "", w, true, fr, newline, Pow10(p - 1));
    DecValue(Abs(val));
    PadParsed(Abs(val2), p);
    PadCutOff(Abs(val2), p);
    SignedBack(val, val2, Weighted(fr, Pow10(p - 1)), Pow10(p));
  }

  /** What a printed pair means to the parser: its parts, negative as a whole if either is. */
  lemma Printed(val: int, val2: int, p: nat)
    requires p > 0 && Abs(val2) < Pow10(p)
    ensures var s := Format(val, val2, p, false);
            && Accepted(s)
            && var (i, f) := Parsed(s, Pow10(p - 1));
            && Abs(i) == Abs(val) && Abs(f) == Abs(val2)
            && (i < 0 <==> val != 0 && (val < 0 || val2 < 0)) && (f < 0 <==> val == 0 && val2 < 0)
  {
    var w, fr := Dec(Abs(val)), Pad(Abs(val2), p);
    FormatParts(val, val2, p, true);
    hide Format, Dec, Pad, Accepted, Parsed, Weighted, Pow10;
    TextParsed(Format(val, val2, p, false), if val < 0 || val2 < 0 then "-" else "", w, true, fr, true, Pow10(p - 1));
    DecValue(Abs(val));
    PadParsed(Abs(val2), p);
  }

  /** A decibel value is the same text with the unit before the newline. */
  lemma DecibelText(val: int, val2: int, p: nat)
    ensures var plain := Format(val, val2, p, false);
            plain != "" && plain[|plain| - 1] == '\n' && Format(val, val2, p, true) == plain[..|plain| - 1] + " dB\n"
  {
    hide Dec, DecInt, Pad;
    var s := if val2 < 0 then "-" + Dec(Abs(val)) + "." + Pad(Abs(val2), p) else DecInt(val) + "." + Pad(val2, p);
    assert Format(val, val2, p, false) == s + "" + "\n" && Format(val, val2, p, true) == s + " dB" + "\n";
    UnitAdded(s);
  }

  lemma UnitAdded(s: string)
    ensures var plain := s + "" + "\n"; plain[..|plain| - 1] == s && s + " dB" + "\n" == s + " dB\n"
  {
  }

  lemma SignedBack(val: int, val2: int, f: nat, bound: nat)
    requires (f == Abs(val2) <==> Abs(val2) < bound) && f < bound
    ensures Signed(val < 0 || val2 < 0, Abs(val), f) == (val, val2)
            <==> Abs(val2) < bound && (val2 >= 0 || val == 0)
  {
  }

  lemma FormatParts(val: int, val2: int, p: nat, newline: bool)
    ensures var text := Format(val, val2, p, false);
            IsText(if newline then text else text[..|text| - 1], if val < 0 || val2 < 0 then "-" else "",
                   Dec(Abs(val)), true, Pad(Abs(val2), p), newline)
  {
    hide Dec, Pad;
  }

  lemma PadCutOff(n: nat, p: nat)
    requires p > 0
    ensures Weighted(Pad(n, p), Pow10(p - 1)) < Pow10(p)
  {
    var s := Pad(n, p);
    PadValue(n, p);
    WeightedIsTruncation(s, p);
    NatOfBound(s);
    TruncateMixed(0, n, Pow10(|s|), Pow10(p));
  }

  /** A printed decibel value is never accepted back. */
  lemma DecibelsRejected(val: int, val2: int, p: nat)
    ensures !Accepted(Format(val, val2, p, true))
  {
    var text := Format(val, val2, p, true);
    var u := Unsigned(text);
    assert text[|text| - 1] == '\n' && text[|text| - 2] == 'B';
    NotDecimal(u, |u| - 2);
  }

  /** The parser's variables after `k` characters, with the point at `p` if it has come. */
  predicate Scanned(u: string, k: nat, integerPart: bool, p: nat, i: int, f: int, mult: nat, fractMult: nat) {
    k <= |u| &&
    if integerPart then AllDigits(u[..k]) && i == NatOf(u[..k]) && f == 0 && mult == fractMult
    else
      && p < k && u[p] == '.' && AllDigits(u[..p]) && AllDigits(u[p + 1..k])
      && i == NatOf(u[..p]) && f == Weighted(u[p + 1..k], fractMult) && mult == Shrunk(fractMult, k - p - 1)
  }

  lemma ScanDigit(u: string, k: nat, integerPart: bool, p: nat, i: int, f: int, mult: nat, fractMult: nat)
    requires Scanned(u, k, integerPart, p, i, f, mult, fractMult) && k < |u| && IsDigit(u[k])
    ensures if integerPart then Scanned(u, k + 1, true, p, i * 10 + DigitValue(u[k]), f, mult, fractMult)
            else Scanned(u, k + 1, false, p, i, f + mult * DigitValue(u[k]), mult / 10, fractMult)
  {
    if integerPart {
      assert u[..k + 1] == u[..k] + [u[k]];
      assert u[..k + 1][..k] == u[..k];
    } else {
      assert u[p + 1..k + 1] == u[p + 1..k] + [u[k]];
      WeightedSnoc(u[p + 1..k], u[k], fractMult);
    }
  }

  lemma ScanPoint(u: string, k: nat, p: nat, i: int, f: int, mult: nat, fractMult: nat)
    requires Scanned(u, k, true, p, i, f, mult, fractMult) && k < |u| && u[k] == '.'
    ensures Scanned(u, k + 1, false, k, i, f, mult, fractMult)
  {
    assert u[k + 1..k + 1] == [];
  }

  /** When the text ends, or its final newline comes, what was scanned is the result. */
  lemma ScanEnds(s: string, k: nat, integerPart: bool, p: nat, i: int, f: int, mult: nat, fractMult: nat)
    requires Scanned(Unsigned(s), k, integerPart, p, i, f, mult, fractMult)
    requires k == |Unsigned(s)| || (k + 1 == |Unsigned(s)| && Unsigned(s)[k] == '\n')
    ensures i >= 0 && f >= 0 && Accepted(s) && Parsed(s, fractMult) == Signed(Negative(s), i, f)
  {
    hide Signed;
    BodyIs(Unsigned(s), k, if integerPart then k else p);
  }

  lemma ScanSecondPoint(s: string, k: nat, p: nat, i: int, f: int, mult: nat, fractMult: nat)
    requires Scanned(Unsigned(s), k, false, p, i, f, mult, fractMult) && k < |Unsigned(s)| && Unsigned(s)[k] == '.'
    ensures !Accepted(s)
  {
    TwoPoints(Unsigned(s), p, k);
  }

  // ----- the parser's code -----

  /** `iio_str_to_fixpoint`: one pass over the text, which ends at its terminator. */
  method StrToFixpoint(str: string, fractMult: nat) returns (ret: int, integer: int, fract: int)
    ensures ret == if Accepted(str) then 0 else -EINVAL
    ensures ret == 0 ==> (integer, fract) == Parsed(str, fractMult)
  {
    hide Unsigned, Negative, Accepted, Parsed, Scanned;
    var i: int, f: int, integerPart, negative := 0, 0, true, false;
    var mult: nat := fractMult;
    var s := 0;
    integer, fract := 0, 0;
    if str != [] && str[0] == '-' {
      negative := true;
      s := 1;
    } else if str != [] && str[0] == '+' {
      s := 1;
    }
    ghost var u := Unsigned(str);
    ghost var start: nat, p: nat := s, 0;
    UnsignedLength(str);
    ScanStarts(u, fractMult);
    while s < |str|
      invariant start <= s <= |str| && Scanned(u, s - start, integerPart, p, i, f, mult, fractMult)
    {
      ghost var k := s - start;
      var c := str[s];
      UnsignedAt(str, start, k);
      if '0' <= c <= '9' {
        ScanDigit(u, k, integerPart, p, i, f, mult, fractMult);
        if integerPart {
          i := i * 10 + DigitValue(c);
        } else {
          f := f + mult * DigitValue(c);
          mult := mult / 10;
        }
      } else if c == '\n' {
        if s + 1 == |str| {
          break;
        } else {
          NotAccepted(str, k);
          return -EINVAL, 0, 0;
        }
      } else if c == '.' && integerPart {
        ScanPoint(u, k, p, i, f, mult, fractMult);
        integerPart := false;
        p := k;
      } else {
        if c == '.' { ScanSecondPoint(str, k, p, i, f, mult, fractMult); } else { NotAccepted(str, k); }
        return -EINVAL, 0, 0;
      }
      s := s + 1;
    }
    ScanEnds(str, s - start, integerPart, p, i, f, mult, fractMult);
    if negative {
      if i != 0 { i := -i; } else { f := -f; }
    }
    return 0, i, f;
  }

  lemma UnsignedLength(str: string)
    ensures |Unsigned(str)| == |str| - if str != [] && (str[0] == '-' || str[0] == '+') then 1 else 0
    ensures Negative(str) == (str != [] && str[0] == '-')
  {
  }

  lemma UnsignedAt(str: string, start: nat, k: nat)
    requires start + |Unsigned(str)| == |str| && k < |Unsigned(str)|
    ensures Unsigned(str)[k] == str[start + k]
  {
  }

  lemma ScanStarts(u: string, fractMult: nat)
    ensures Scanned(u, 0, true, 0, 0, 0, fractMult, fractMult)
  {
  }

  /** A character that is neither digit, point nor final newline spoils the text. */
  lemma NotDecimal(u: string, k: nat)
    requires k < |u| && !IsDigit(u[k]) && u[k] != '.' && (u[k] == '\n' ==> k + 1 < |u|)
    ensures !Decimal(Trimmed(u))
  {
    var b := Trimmed(u);
    assert k < |b| && b[k] == u[k];
    if k < Point(b) {
      assert Whole(b)[k] == u[k];
    } else {
      assert Fraction(b)[k - (Point(b) + 1)] == u[k];
    }
  }

  lemma NotAccepted(s: string, k: nat)
    requires var u := Unsigned(s); k < |u| && !IsDigit(u[k]) && u[k] != '.' && (u[k] == '\n' ==> k + 1 < |u|)
    ensures !Accepted(s)
  {
    NotDecimal(Unsigned(s), k);
  }

  /** So does a second point. */
  lemma TwoPoints(u: string, p: nat, k: nat)
    requires p < k < |u| && u[p] == '.' && u[k] == '.'
    ensures !Decimal(Trimmed(u))
  {
    var b := Trimmed(u);
    assert b[p] == '.' && b[k] == '.';
    assert Fraction(b)[k - (Point(b) + 1)] == '.';
  }

  lemma TrimmedAt(u: string, n: nat, p: nat)
    requires p <= n <= |u| && AllDigits(u[..p])
    requires p < n ==> u[p] == '.' && AllDigits(u[p + 1..n])
    requires n == |u| || (n + 1 == |u| && u[n] == '\n')
    ensures Trimmed(u) == u[..n]
  {
    if n == |u| {
      assert u[..n] == u;
      if n > 0 {
        if p == n {
          assert u[n - 1] == u[..p][n - 1];
        } else if p < n - 1 {
          assert u[n - 1] == u[p + 1..n][n - 1 - (p + 1)];
        }
        assert u[n - 1] != '\n';
      }
    }
  }

  /** At the end of the loop the parts that were added up are the whole and the fraction. */
  lemma BodyIs(u: string, n: nat, p: nat)
    requires p <= n <= |u| && AllDigits(u[..p])
    requires p < n ==> u[p] == '.' && AllDigits(u[p + 1..n])
    requires n == |u| || (n + 1 == |u| && u[n] == '\n')
    ensures var b := Trimmed(u); Decimal(b) && Whole(b) == u[..p] && Fraction(b) == if p < n then u[p + 1..n] else []
  {
    var b := u[..n];
    TrimmedAt(u, n, p);
    if p < n {
      assert b == u[..p] + ['.'] + u[p + 1..n];
      PointAfterDigits(u[..p], u[p + 1..n]);
    } else {
      NoPoint(b);
    }
  }

  lemma {:induction false} NoPoint(s: string)
    requires AllDigits(s)
    ensures Point(s) == |s|
  {
    if s != [] {
      assert IsDigit(s[0]);
      NoPoint(s[1..]);
    }
  }
}
