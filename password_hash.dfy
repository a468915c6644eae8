/** `simpleHash`, the password digest shared by registration and login: the
    polynomial string hash with multiplier 31, kept to a signed 32-bit integer
    after every code unit, written out in decimal. */
module PasswordHash {
  import opened Js

  const TwoTo32: int := 0x1_0000_0000

  /** `hash << 5` on a number: `ToInt32` of the left operand, shifted, and the
      result read back as a signed 32-bit integer. */
  function ShiftLeft5(h: int): (r: int)
    ensures -0x8000_0000 <= r < 0x8000_0000
    ensures (h * 32 - r) % TwoTo32 == 0
  {
    ToInt32(ToInt32(h) * 32)
  }

  /** One turn of the loop: `((hash << 5) - hash) + char`, then `hash & hash`,
      which is `ToInt32` of the sum. */
  function Step(h: int, c: char): (r: int)
    ensures -0x8000_0000 <= r < 0x8000_0000
  {
    ToInt32(ShiftLeft5(h) - h + (c as int))
  }

  /** The reference definition: the hash over the integers, with no wrap-around. */
  function PolyHash(s: string): int {
    if s == [] then 0 else 31 * PolyHash(s[..|s| - 1]) + (s[|s| - 1] as int)
  }

  /** The digest the source returns for `s`. */
  function Hash(s: string): string {
    DecimalString(ToInt32(PolyHash(s)))
  }

  lemma NegatedMultiple(a: int)
    requires a % TwoTo32 == 0
    ensures (-a) % TwoTo32 == 0
  {
    var k := a / TwoTo32;
    assert -a == 0 + (-k) * TwoTo32;
    ModShift(0, -k);
  }

  lemma ScaledMultiple(a: int, n: int)
    requires a % TwoTo32 == 0
    ensures (n * a) % TwoTo32 == 0
  {
    var k := a / TwoTo32;
    assert a == k * TwoTo32;
    assert n * a == 0 + (n * k) * TwoTo32;
    ModShift(0, n * k);
  }

  lemma SumOfMultiples(a: int, b: int)
    requires a % TwoTo32 == 0 && b % TwoTo32 == 0
    ensures (a + b) % TwoTo32 == 0
  {
    var k1 := a / TwoTo32;
    var k2 := b / TwoTo32;
    assert a == k1 * TwoTo32 && b == k2 * TwoTo32;
    assert a + b == 0 + (k1 + k2) * TwoTo32;
    ModShift(0, k1 + k2);
  }

  /** `hash << 5` wraps, but `ToInt32` of the step only sees the residue
      modulo 2^32, so the step agrees with `31 * h + c` taken on the
      unwrapped hash. */
  lemma {:induction false} StepIsPolynomial(h: int, p: int, c: char)
    requires h == ToInt32(p)
    ensures Step(h, c) == ToInt32(31 * p + (c as int))
  {
    var x := ShiftLeft5(h) - h + (c as int);
    var y := 31 * p + (c as int);
    var d1 := x - (31 * h + (c as int));
    var d2 := (31 * h + (c as int)) - y;
    assert d1 % TwoTo32 == 0 by {
      NegatedMultiple(h * 32 - ShiftLeft5(h));
      assert d1 == -(h * 32 - ShiftLeft5(h));
    }
    assert d2 % TwoTo32 == 0 by {
      ScaledMultiple(p - h, 31);
      NegatedMultiple(31 * (p - h));
      assert d2 == -(31 * (p - h));
    }
    SumOfMultiples(d1, d2);
    assert x - y == d1 + d2;
    ToInt32Congruent(x, y);
  }

  /** `simpleHash`: fold the code units through `Step`, from 0. */
  method SimpleHash(s: string) returns (digest: string)
    ensures digest == Hash(s)
  {
    var hash := 0;
    var i := 0;
    while i < |s|
      invariant 0 <= i <= |s|
      invariant hash == ToInt32(PolyHash(s[..i]))
    {
      assert s[..i + 1][..i] == s[..i];
      StepIsPolynomial(hash, PolyHash(s[..i]), s[i]);
      hash := Step(hash, s[i]);
      i := i + 1;
    }
    assert s[..i] == s;
    digest := DecimalString(hash);
  }

  /** The empty password hashes to "0". */
  lemma HashOfEmpty()
    ensures Hash("") == "0"
  {
    assert PolyHash("") == 0;
    assert ToInt32(0) == 0;
    assert Digits(0) == [DigitChar(0)];
  }

  /** Every digest reads back as an integer in [-2^31, 2^31). */
  lemma HashInRange(s: string)
    ensures ParseInt(Hash(s)).Int?
    ensures -0x8000_0000 <= ParseInt(Hash(s)).v < 0x8000_0000
  {
    ParseIntOfDecimalString(ToInt32(PolyHash(s)));
  }

  /** The digest of a longer string follows from the digest value of its
      prefix alone: the loop needs no more state than the 32-bit hash. */
  lemma HashExtends(s: string, c: char)
    ensures ToInt32(PolyHash(s + [c])) == Step(ToInt32(PolyHash(s)), c)
  {
    assert (s + [c])[..|s + [c]| - 1] == s;
    StepIsPolynomial(ToInt32(PolyHash(s)), PolyHash(s), c);
  }

  /** Two different passwords can share a digest: "Aa" and "BB" both hash to
      2112, so either one opens an account registered with the other. */
  lemma DistinctPasswordsCollide()
    ensures "Aa" != "BB" && Hash("Aa") == Hash("BB")
  {
    assert PolyHash("Aa") == 2112 by {
      assert "Aa"[..1] == "A";
      assert "A"[..0] == "";
    }
    assert PolyHash("BB") == 2112 by {
      assert "BB"[..1] == "B";
      assert "B"[..0] == "";
    }
  }
}
