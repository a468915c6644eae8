/** The JavaScript built-ins the application leans on, stated over mathematical
    integers: white space and `trim`, `parseInt`, integer `toString`, `ToInt32`
    (section 7.1.6 of the ECMAScript Language Specification), `Math.round` of a
    quotient and `Math.min`. A Dafny `char` stands for one UTF-16 code unit. */
module Js {

  datatype Option<+T> = None | Some(value: T)

  /** A JavaScript number as far as this model needs one: an integer or NaN. */
  datatype Num = NaN | Int(v: int)

  /** `a < b` on numbers: every comparison with NaN is false. */
  predicate Less(a: Num, b: Num) {
    a.Int? && b.Int? && a.v < b.v
  }

  /** `a >= b` on numbers: every comparison with NaN is false. */
  predicate AtLeast(a: Num, b: Num) {
    a.Int? && b.Int? && a.v >= b.v
  }

  /** `Math.min(a, b)`: NaN if either argument is NaN. */
  function Min(a: Num, b: Num): (r: Num)
    ensures r.NaN? <==> a.NaN? || b.NaN?
    ensures r.Int? ==> r.v <= a.v && r.v <= b.v && (r.v == a.v || r.v == b.v)
  {
    if a.NaN? || b.NaN? then NaN else if a.v <= b.v then a else b
  }

  /** The WhiteSpace and LineTerminator code points of sections 12.2 and 12.3 of
      the ECMAScript Language Specification: what `trim`, `\s` and `parseInt` skip. */
  predicate IsSpace(c: char) {
    c == '\t' || c == '\n' || c == '\U{B}' || c == '\U{C}' || c == '\r' || c == ' '
    || c == '\U{A0}' || c == '\U{1680}' || ('\U{2000}' <= c <= '\U{200A}')
    || c == '\U{2028}' || c == '\U{2029}' || c == '\U{202F}' || c == '\U{205F}'
    || c == '\U{3000}' || c == '\U{FEFF}'
  }

  /** `trimStart`: drops the leading white space, nothing else. */
  function TrimStart(s: string): (r: string)
    ensures |r| <= |s| && r == s[|s| - |r|..]
    ensures r == [] || !IsSpace(r[0])
  {
    if s != [] && IsSpace(s[0]) then TrimStart(s[1..]) else s
  }

  /** Everything `trimStart` drops is white space. */
  lemma {:induction false} TrimStartDropsSpace(s: string)
    ensures forall i :: 0 <= i < |s| - |TrimStart(s)| ==> IsSpace(s[i])
  {
    if s != [] && IsSpace(s[0]) {
      TrimStartDropsSpace(s[1..]);
      forall i | 0 <= i < |s| - |TrimStart(s)| ensures IsSpace(s[i]) {
        if i > 0 {
          assert s[i] == s[1..][i - 1];
        }
      }
    }
  }

  /** `trimEnd`: drops the trailing white space, nothing else. */
  function TrimEnd(s: string): (r: string)
    ensures |r| <= |s| && r == s[..|r|]
    ensures r == [] || !IsSpace(r[|r| - 1])
  {
    if s != [] && IsSpace(s[|s| - 1]) then TrimEnd(s[..|s| - 1]) else s
  }

  /** Everything `trimEnd` drops is white space. */
  lemma {:induction false} TrimEndDropsSpace(s: string)
    ensures forall i :: |TrimEnd(s)| <= i < |s| ==> IsSpace(s[i])
  {
    if s != [] && IsSpace(s[|s| - 1]) {
      TrimEndDropsSpace(s[..|s| - 1]);
      forall i | |TrimEnd(s)| <= i < |s| ensures IsSpace(s[i]) {
        if i < |s| - 1 {
          assert s[i] == s[..|s| - 1][i];
        }
      }
    }
  }

  /** `String.prototype.trim`: white space is dropped from either edge until
      neither edge is white space; a string without edge white space is its
      own trim. */
  function Trim(s: string): (r: string)
    ensures r == [] || (!IsSpace(r[0]) && !IsSpace(r[|r| - 1]))
    ensures (s == [] || (!IsSpace(s[0]) && !IsSpace(s[|s| - 1]))) ==> r == s
  {
    if s == [] then s
    else if IsSpace(s[0]) then Trim(s[1..])
    else if IsSpace(s[|s| - 1]) then Trim(s[..|s| - 1])
    else s
  }

  /** `trim` is `trimStart` followed by `trimEnd`. */
  lemma {:induction false} TrimIsBothTrims(s: string)
    ensures Trim(s) == TrimEnd(TrimStart(s))
  {
    if s != [] {
      if IsSpace(s[0]) {
        TrimIsBothTrims(s[1..]);
      } else if IsSpace(s[|s| - 1]) {
        var init := s[..|s| - 1];
        TrimIsBothTrims(init);
        assert init[0] == s[0];
        TrimOfClean(init);
        TrimOfClean(s);
      } else {
        TrimOfClean(s);
      }
    }
  }

  /** `trim` returns the slice of `s` that starts after its leading white
      space. */
  lemma TrimIsSlice(s: string)
    ensures var lead := |s| - |TrimStart(s)|;
      lead + |Trim(s)| <= |s| && Trim(s) == s[lead..lead + |Trim(s)|]
  {
    TrimIsBothTrims(s);
    BothTrimsSlice(s);
  }

  lemma BothTrimsSlice(s: string)
    ensures var lead := |s| - |TrimStart(s)|;
      lead + |TrimEnd(TrimStart(s))| <= |s| && TrimEnd(TrimStart(s)) == s[lead..lead + |TrimEnd(TrimStart(s))|]
  {
    var t := TrimStart(s);
    PrefixOfSuffix(s, |s| - |t|, t, TrimEnd(t));
  }

  /** A prefix of the suffix of `s` from `lead` is the slice of `s` from `lead`. */
  lemma PrefixOfSuffix(s: string, lead: nat, t: string, r: string)
    requires lead <= |s| && t == s[lead..] && |r| <= |t| && r == t[..|r|]
    ensures lead + |r| <= |s| && r == s[lead..lead + |r|]
  {
  }

  /** Everything `trim` removes is white space. */
  lemma TrimDropsOnlySpace(s: string)
    ensures var lead := |s| - |TrimStart(s)|;
      (forall i :: 0 <= i < lead ==> IsSpace(s[i]))
      && (forall i :: lead + |Trim(s)| <= i < |s| ==> IsSpace(s[i]))
  {
    TrimIsBothTrims(s);
    TrimStartDropsSpace(s);
    var t := TrimStart(s);
    TrimEndOfSuffix(s, t, |s| - |t|);
  }

  /** A string whose edges are not white space loses nothing to either trim. */
  lemma TrimOfClean(s: string)
    ensures (s == [] || !IsSpace(s[0])) ==> TrimStart(s) == s
    ensures (s == [] || !IsSpace(s[|s| - 1])) ==> TrimEnd(s) == s
  {
  }

  /** Trimming the end of the suffix `t` of `s` leaves a slice of `s`
      followed only by white space. */
  lemma TrimEndOfSuffix(s: string, t: string, lead: nat)
    requires lead <= |s| && t == s[lead..]
    ensures var r := TrimEnd(t);
      lead + |r| <= |s| && r == s[lead..lead + |r|]
      && forall i :: lead + |r| <= i < |s| ==> IsSpace(s[i])
  {
    var r := TrimEnd(t);
    assert r == t[..|r|];
    TrimEndDropsSpace(t);
    forall i | lead + |r| <= i < |s|
      ensures IsSpace(s[i])
    {
      assert s[i] == t[i - lead];
    }
  }

  /** A code unit that is a digit in `radix` (10 or 16). */
  predicate IsRadixDigit(c: char, radix: nat) {
    ('0' <= c <= '9' && (c as int) - ('0' as int) < radix)
    || (radix == 16 && ('a' <= c <= 'f' || 'A' <= c <= 'F'))
  }

  function DigitValue(c: char): (d: nat)
    requires '0' <= c <= '9' || 'a' <= c <= 'f' || 'A' <= c <= 'F'
    ensures d < 16
  {
    if '0' <= c <= '9' then (c as int) - ('0' as int)
    else if 'a' <= c <= 'f' then (c as int) - ('a' as int) + 10
    else (c as int) - ('A' as int) + 10
  }

  /** How many leading code units of `s` are radix digits. */
  function DigitPrefixLength(s: string, radix: nat): (n: nat)
    ensures n <= |s|
    ensures forall i :: 0 <= i < n ==> IsRadixDigit(s[i], radix)
    ensures n < |s| ==> !IsRadixDigit(s[n], radix)
  {
    if s == [] || !IsRadixDigit(s[0], radix) then 0
    else 1 + DigitPrefixLength(s[1..], radix)
  }

  /** The value of a string of radix digits, most significant first. */
  function DigitsValue(s: string, radix: nat): nat
    requires radix == 10 || radix == 16
    requires forall i :: 0 <= i < |s| ==> IsRadixDigit(s[i], radix)
  {
    if s == [] then 0
    else
      assert IsRadixDigit(s[|s| - 1], radix);
      DigitsValue(s[..|s| - 1], radix) * radix + DigitValue(s[|s| - 1])
  }

  /** `parseInt(s)` with no radix (section 19.2.5 of the ECMAScript Language
      Specification): skip leading white space, then read a signed number. */
  function ParseInt(s: string): Num
  {
    ParseSigned(TrimStart(s))
  }

  /** An optional sign, then the magnitude; NaN stays NaN. */
  function ParseSigned(t: string): Num
  {
    var neg := |t| > 0 && t[0] == '-';
    var u := if |t| > 0 && (t[0] == '-' || t[0] == '+') then t[1..] else t;
    match ParseMagnitude(u)
    case NaN => NaN
    case Int(m) => Int(if neg then -m else m)
  }

  /** An optional `0x`/`0X` prefix selecting radix 16, then the longest run of
      digits; no digits gives NaN. */
  function ParseMagnitude(u: string): (r: Num)
    ensures r.Int? ==> r.v >= 0
  {
    var hex := |u| >= 2 && u[0] == '0' && (u[1] == 'x' || u[1] == 'X');
    var radix := if hex then 16 else 10;
    var w := if hex then u[2..] else u;
    var n := DigitPrefixLength(w, radix);
    if n == 0 then NaN else Int(DigitsValue(w[..n], radix))
  }

  function DigitChar(d: nat): (c: char)
    requires d < 10
    ensures IsRadixDigit(c, 10) && DigitValue(c) == d
  {
    (('0' as int) + d) as char
  }

  /** The decimal digits of a natural number, without leading zeros. */
  function Digits(m: nat): string
  {
    if m < 10 then [DigitChar(m)] else Digits(m / 10) + [DigitChar(m % 10)]
  }

  /** `Number.prototype.toString()` on an integer: an optional minus sign and
      the decimal digits. */
  function DecimalString(n: int): string
  {
    if n < 0 then "-" + Digits(-n) else Digits(n)
  }

  lemma {:induction false} DigitsWellFormed(m: nat)
    ensures |Digits(m)| >= 1
    ensures forall i :: 0 <= i < |Digits(m)| ==> IsRadixDigit(Digits(m)[i], 10)
    ensures DigitsValue(Digits(m), 10) == m
    ensures Digits(m)[0] == '0' ==> m == 0
  {
    if m >= 10 {
      DigitsWellFormed(m / 10);
      var s := Digits(m / 10);
      var c := DigitChar(m % 10);
      assert Digits(m) == s + [c];
      assert (s + [c])[..|s + [c]| - 1] == s;
      assert Digits(m)[0] == s[0];
    }
  }

  /** A string made only of radix digits is its own digit prefix. */
  lemma {:induction false} DigitPrefixOfDigits(s: string, radix: nat)
    requires forall i :: 0 <= i < |s| ==> IsRadixDigit(s[i], radix)
    ensures DigitPrefixLength(s, radix) == |s|
  {
    if s != [] {
      DigitPrefixOfDigits(s[1..], radix);
    }
  }

  /** The magnitude of a run of decimal digits is their value. */
  lemma ParseMagnitudeOfDigits(d: string)
    requires |d| >= 1 && forall i :: 0 <= i < |d| ==> IsRadixDigit(d[i], 10)
    ensures ParseMagnitude(d) == Int(DigitsValue(d, 10))
  {
    assert |d| >= 2 ==> IsRadixDigit(d[1], 10);
    DigitPrefixOfDigits(d, 10);
    assert d[..|d|] == d;
  }

  /** `parseInt` reads back what integer `toString` writes. */
  lemma ParseIntOfDecimalString(n: int)
    ensures ParseInt(DecimalString(n)) == Int(n)
  {
    var m: nat := if n < 0 then -n else n;
    DigitsWellFormed(m);
    var d := Digits(m);
    ParseMagnitudeOfDigits(d);
    assert ParseMagnitude(d) == Int(m);
    ParseIntOfSigned(d, n < 0);
    assert DecimalString(n) == (if n < 0 then "-" else "") + d;
  }

  /** `parseInt` of an optional minus sign before a string of decimal digits
      is the signed magnitude. */
  lemma ParseIntOfSigned(d: string, neg: bool)
    requires |d| >= 1 && IsRadixDigit(d[0], 10) && ParseMagnitude(d).Int?
    ensures ParseInt((if neg then "-" else "") + d)
      == Int(if neg then -ParseMagnitude(d).v else ParseMagnitude(d).v)
  {
    var s := (if neg then "-" else "") + d;
    if neg {
      assert s[0] == '-';
    } else {
      assert s[0] == d[0];
    }
    SignedDigitsStartClean(s);
    ParseSignedOfDigits(d, neg);
  }

  /** A sign or a digit is not white space: `parseInt` skips nothing. */
  lemma SignedDigitsStartClean(s: string)
    requires |s| >= 1 && (s[0] == '-' || '0' <= s[0] <= '9')
    ensures TrimStart(s) == s
  {
    assert !IsSpace(s[0]);
    TrimOfClean(s);
  }

  /** The sign is read off and the magnitude follows. */
  lemma ParseSignedOfDigits(d: string, neg: bool)
    requires |d| >= 1 && IsRadixDigit(d[0], 10) && ParseMagnitude(d).Int?
    ensures ParseSigned((if neg then "-" else "") + d)
      == Int(if neg then -ParseMagnitude(d).v else ParseMagnitude(d).v)
  {
    var s := (if neg then "-" else "") + d;
    if neg {
      assert s[0] == '-' && s[1..] == d;
    } else {
      assert s == d;
      assert d[0] != '-' && d[0] != '+';
    }
  }

  /** `ToInt32` (section 7.1.6 of the ECMAScript Language Specification): the
      one value in [-2^31, 2^31) congruent to `x` modulo 2^32. */
  function ToInt32(x: int): (r: int)
    ensures -0x8000_0000 <= r < 0x8000_0000
    ensures (x - r) % 0x1_0000_0000 == 0
  {
    var m := x % 0x1_0000_0000;
    if m >= 0x8000_0000 then m - 0x1_0000_0000 else m
  }

  /** `ToInt32` sees only the residue modulo 2^32. */
  lemma ToInt32Congruent(x: int, y: int)
    requires (x - y) % 0x1_0000_0000 == 0
    ensures ToInt32(x) == ToInt32(y)
  {
    var k := (x - y) / 0x1_0000_0000;
    assert x == y + k * 0x1_0000_0000;
    ModShift(y, k);
  }

  lemma {:induction false} ModShift(y: int, k: int)
    ensures (y + k * 0x1_0000_0000) % 0x1_0000_0000 == y % 0x1_0000_0000
    decreases if k > 0 then k else -k
  {
    if k > 0 {
      ModShift(y, k - 1);
    } else if k < 0 {
      ModShift(y, k + 1);
    }
  }

  /** Multiplying by a positive number keeps order, both ways. */
  lemma MulMonotone(m: int, a: int, b: int)
    requires m > 0
    ensures m * a <= m * b <==> a <= b
    ensures m * a < m * b <==> a < b
  {
    assert m * b - m * a == m * (b - a);
  }

  /** `Math.round(n / d)` for a positive `d`: the nearest integer, halves
      rounded up. */
  function RoundQuotient(n: int, d: int): (r: int)
    requires d > 0
    ensures 2 * d * r <= 2 * n + d < 2 * d * r + 2 * d
  {
    (2 * n + d) / (2 * d)
  }

  /** Rounding a quotient keeps it within bounds on the exact quotient. */
  lemma RoundQuotientBetween(n: int, d: int, lo: int, hi: int)
    requires d > 0 && lo * d <= n <= hi * d
    ensures lo <= RoundQuotient(n, d) <= hi
  {
    var r := RoundQuotient(n, d);
    var m := 2 * d;
    assert m * r <= 2 * n + d < m * r + m;
    assert m * (hi + 1) == 2 * (hi * d) + m;
    assert m * lo == 2 * (lo * d);
    assert m * (r + 1) == m * r + m;
    MulMonotone(m, r, hi + 1);
    MulMonotone(m, lo, r + 1);
  }
}
