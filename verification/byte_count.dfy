/** `byteCountSI` of main.go: the choice between the plain "%d B" text and a
    scaled value with an SI prefix, for any 64-bit count. The decimal
    rendering of the scaled value is floating-point formatting and is not
    modelled; the result records what would be printed. */
module ByteCount {

  const Unit: int := 1000

  /** The prefixes indexed by the exponent. */
  const Prefixes: string := "kMGTPE"

  type int64 = x: int | -0x8000_0000_0000_0000 <= x < 0x8000_0000_0000_0000

  /** `Plain(b)` prints "b B"; `Scaled(div, exp, prefix)` prints b / div with
      one decimal and "prefixB". */
  datatype Rendering = Plain(bytes: int) | Scaled(div: int, exp: nat, prefix: char)

  function Pow(base: nat, e: nat): nat {
    if e == 0 then 1 else base * Pow(base, e - 1)
  }

  /** `byteCountSI(b)`: below 1000 bytes the count is printed as is;
      otherwise the divisor is the largest power 1000^(exp + 1) not above
      `b`, and `exp` stays a valid index into "kMGTPE". */
  method ByteCountSI(b: int64) returns (r: Rendering)
    ensures r.Plain? <==> b < Unit
    ensures r.Plain? ==> r.bytes == b
    ensures r.Scaled? ==>
      && r.exp < |Prefixes|
      && r.div == Pow(Unit, r.exp + 1)
      && r.div <= b < r.div * Unit
      && r.prefix == Prefixes[r.exp]
  {
    if b < Unit {
      return Plain(b);
    }
    var div, exp := Unit, 0;
    var n := b / Unit;
    while n >= Unit
      invariant Scale(b, n, div, exp)
      decreases n
    {
      ScaleStep(b, n, div, exp);
      div, exp, n := div * Unit, exp + 1, n / Unit;
    }
    ScaleFinish(b, n, div, exp);
    return Scaled(div, exp, Prefixes[exp]);
  }

  /** The loop state of `byteCountSI`: `div` is 1000^(exp + 1) and `n` is
      the floor of b / div, at least 1. */
  predicate Scale(b: int, n: int, div: int, exp: nat) {
    && div == Pow(Unit, exp + 1)
    && 1 <= n && n * div <= b < (n + 1) * div
  }

  /** Once the quotient is below 1000, `div` is the largest power of 1000
      not above `b`, and a 64-bit `b` keeps `exp` within "kMGTPE". */
  lemma ScaleFinish(b: int64, n: int, div: int, exp: nat)
    requires Scale(b, n, div, exp) && n < Unit
    ensures exp < |Prefixes| && div <= b < div * Unit
  {
    MulLessEq(n + 1, Unit, div);
    MulLessEq(1, n, div);
    PowBound(exp + 1, b);
  }

  /** Dividing the quotient and multiplying the divisor by 1000 keeps the
      quotient the floor of b / div. */
  lemma ScaleStep(b: int, n: int, div: int, exp: nat)
    requires Scale(b, n, div, exp) && n >= Unit
    ensures Scale(b, n / Unit, div * Unit, exp + 1)
  {
    assert Pow(Unit, exp + 2) == Unit * div;
    var q, r := n / Unit, n % Unit;
    assert n == Unit * q + r && 0 <= r < Unit;
    MulDistributes(Unit * q, r, div);
    MulNonNegative(r, div);
    MulDistributes(n + 1, Unit - r - 1, div);
    MulNonNegative(Unit - r - 1, div);
    MulCommutes(q, div);
    MulCommutes(q + 1, div);
  }

  lemma MulDistributes(a: int, b: int, c: int)
    ensures (a + b) * c == a * c + b * c
  {
  }

  lemma MulLessEq(a: int, b: int, c: int)
    requires a <= b && c >= 0
    ensures a * c <= b * c
  {
    MulNonNegative(b - a, c);
    MulDistributes(a, b - a, c);
  }

  lemma MulNonNegative(a: int, b: int)
    requires a >= 0 && b >= 0
    ensures a * b >= 0
  {
  }

  lemma MulCommutes(a: int, b: int)
    ensures a * (b * Unit) == (Unit * a) * b
  {
  }

  /** A power of 1000 that fits below 2^63 has exponent at most 6. */
  lemma PowBound(e: nat, b: int64)
    requires Pow(Unit, e) <= b
    ensures e <= 6
  {
    if e > 6 {
      PowMonotone(7, e);
    }
  }

  lemma {:induction false} PowMonotone(a: nat, e: nat)
    requires a <= e
    ensures Pow(Unit, a) <= Pow(Unit, e)
    decreases e
  {
    if a < e {
      PowMonotone(a, e - 1);
    }
  }
}
