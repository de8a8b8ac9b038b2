/** Positional numerals, most significant digit first, in any base: the value a digit
    sequence writes, the canonical digits of a value, and how the two are inverse. The byte
    buffers, decimal strings and hex strings of the program are all read through this module. */
module Numbers {
  const TWO_32: nat := 0x1_0000_0000
  const TWO_64: nat := 0x1_0000_0000_0000_0000
  const TWO_256: nat := 0x1_0000_0000_0000_0000_0000_0000_0000_0000_0000_0000_0000_0000_0000_0000_0000_0000

  type byte = n: nat | n < 256
  type uint32 = n: nat | n < TWO_32
  type uint64 = n: nat | n < TWO_64

  lemma MulMonotone(a: nat, b: nat, c: nat)
    requires a <= b
    ensures a * c <= b * c
  {}

  lemma MulAssociates(a: nat, b: nat, c: nat)
    ensures a * (b * c) == (a * b) * c
  {}

  lemma DivShrinks(n: nat, base: nat)
    requires 2 <= base <= n
    ensures 0 < n / base < n
  {
    var q := n / base;
    assert n == q * base + n % base;
    if q > 0 {
      MulMonotone(2, base, q);
    }
  }

  lemma DivBelow(n: nat, base: nat, p: nat)
    requires base > 0 && n < base * p
    ensures n / base < p
  {
    var q := n / base;
    assert n == q * base + n % base;
    if p <= q {
      MulMonotone(p, q, base);
    }
  }

  lemma HornerBound(v: nat, last: nat, base: nat, p: nat)
    requires v < p && last < base
    ensures v * base + last < base * p
  {
    MulMonotone(v + 1, p, base);
  }

  lemma DivIdentity(n: nat, base: nat)
    requires base > 0
    ensures (n / base) * base + n % base == n
  {}

  function Pow(base: nat, e: nat): (p: nat)
    ensures base > 0 ==> p > 0
  {
    if e == 0 then 1 else base * Pow(base, e - 1)
  }

  ghost predicate InBase(d: seq<nat>, base: nat) {
    forall i :: 0 <= i < |d| ==> d[i] < base
  }

  /** The number the digits write: Horner's rule from the left. */
  function Value(d: seq<nat>, base: nat): nat {
    if d == [] then 0 else Value(d[..|d| - 1], base) * base + d[|d| - 1]
  }

  /** The canonical digits of n: no leading zero unless n is 0 itself. */
  function Digits(n: nat, base: nat): (d: seq<nat>)
    requires base >= 2
    ensures InBase(d, base) && |d| > 0
    ensures Canonical(d)
  {
    if n < base then [n]
    else
      DivShrinks(n, base);
      Digits(n / base, base) + [n % base]
  }

  ghost predicate Canonical(d: seq<nat>) {
    |d| == 1 || (|d| > 1 && d[0] != 0)
  }

  /** Digits without leading zeros; a lone 0 when nothing else is left. */
  function Strip(d: seq<nat>): seq<nat> {
    if d == [] then [0] else if |d| > 1 && d[0] == 0 then Strip(d[1..]) else d
  }

  /** The last width digits of n, padded with zeros on the left. */
  function Padded(n: nat, base: nat, width: nat): (d: seq<nat>)
    requires base >= 2
    ensures |d| == width && InBase(d, base)
    decreases width
  {
    if width == 0 then [] else Padded(n / base, base, width - 1) + [n % base]
  }

  lemma DivMod(q: nat, r: nat, base: nat)
    requires r < base
    ensures (q * base + r) / base == q && (q * base + r) % base == r
  {
    var n := q * base + r;
    DivBelow(n, base, q + 1);
    var k := n / base;
    assert n == k * base + n % base;
    if k < q {
      MulMonotone(k + 1, q, base);
    }
  }

  lemma {:induction false} ValueBound(d: seq<nat>, base: nat)
    requires InBase(d, base)
    ensures Value(d, base) < Pow(base, |d|)
  {
    if d != [] {
      var q := d[..|d| - 1];
      ValueBound(q, base);
      HornerBound(Value(q, base), d[|d| - 1], base, Pow(base, |q|));
    }
  }

  lemma ValueSnoc(d: seq<nat>, last: nat, base: nat)
    ensures Value(d + [last], base) == Value(d, base) * base + last
  {
    assert (d + [last])[..|d|] == d;
  }

  lemma {:induction false} ValueConcat(a: seq<nat>, b: seq<nat>, base: nat)
    ensures Value(a + b, base) == Value(a, base) * Pow(base, |b|) + Value(b, base)
  {
    if b == [] {
      assert a + b == a;
    } else {
      var q := b[..|b| - 1];
      assert (a + b)[..|a + b| - 1] == a + q;
      ValueConcat(a, q, base);
      HornerShift(Value(a, base), Pow(base, |q|), Value(q, base), base);
    }
  }

  lemma HornerShift(x: nat, p: nat, z: nat, base: nat)
    ensures (x * p + z) * base == x * (base * p) + z * base
  {
    MulAssociates(x, p, base);
  }

  lemma {:induction false} PowAdd(base: nat, a: nat, b: nat)
    ensures Pow(base, a + b) == Pow(base, a) * Pow(base, b)
  {
    if a > 0 {
      PowAdd(base, a - 1, b);
      MulAssociates(base, Pow(base, a - 1), Pow(base, b));
    }
  }

  lemma {:induction false} PowMul(base: nat, a: nat, b: nat)
    ensures Pow(Pow(base, a), b) == Pow(base, a * b)
  {
    if b > 0 {
      PowMul(base, a, b - 1);
      PowAdd(base, a, a * (b - 1));
      assert a + a * (b - 1) == a * b;
    }
  }

  /** Numerals of one length in one base are told apart by their value. */
  lemma {:induction false} ValueInjective(a: seq<nat>, b: seq<nat>, base: nat)
    requires |a| == |b| && InBase(a, base) && InBase(b, base)
    requires Value(a, base) == Value(b, base)
    ensures a == b
  {
    if a != [] {
      var p, q := a[..|a| - 1], b[..|b| - 1];
      DivMod(Value(p, base), a[|a| - 1], base);
      DivMod(Value(q, base), b[|b| - 1], base);
      ValueInjective(p, q, base);
      assert a == p + [a[|a| - 1]] && b == q + [b[|b| - 1]];
    }
  }

  lemma {:induction false} ValueOfDigits(n: nat, base: nat)
    requires base >= 2
    ensures Value(Digits(n, base), base) == n
  {
    if n < base {
      assert [n][..0] == [];
    } else {
      DivShrinks(n, base);
      ValueOfDigits(n / base, base);
      assert Digits(n, base)[..|Digits(n, base)| - 1] == Digits(n / base, base);
      DivIdentity(n, base);
    }
  }

  /** The value of the padded digits, one division down. */
  lemma PaddedSnoc(n: nat, base: nat, width: nat)
    requires base >= 2 && width > 0
    ensures Value(Padded(n, base, width), base) == Value(Padded(n / base, base, width - 1), base) * base + n % base
  {
    hide Value;
    ValueSnoc(Padded(n / base, base, width - 1), n % base, base);
  }

  lemma QuotientFits(n: nat, base: nat, width: nat)
    requires base >= 2 && width > 0 && n < Pow(base, width)
    ensures n / base < Pow(base, width - 1)
  {
    DivBelow(n, base, Pow(base, width - 1));
  }

  lemma {:induction false} ValueOfPadded(n: nat, base: nat, width: nat)
    requires base >= 2 && n < Pow(base, width)
    ensures Value(Padded(n, base, width), base) == n
    decreases width
  {
    if width > 0 {
      hide Padded, Value, Pow;
      QuotientFits(n, base, width);
      ValueOfPadded(n / base, base, width - 1);
      PaddedSnoc(n, base, width);
      DivIdentity(n, base);
    }
  }

  /** A canonical digit sequence is the canonical digits of its value. */
  lemma {:induction false} DigitsOfValue(d: seq<nat>, base: nat)
    requires base >= 2 && InBase(d, base) && Canonical(d)
    ensures Digits(Value(d, base), base) == d
  {
    var q := d[..|d| - 1];
    var last := d[|d| - 1];
    DivMod(Value(q, base), last, base);
    if |d| == 1 {
      assert d == [last];
    } else {
      DigitsOfValue(q, base);
      PositiveValue(q, base);
      MulMonotone(1, Value(q, base), base);
      assert d == q + [last];
    }
  }

  lemma {:induction false} PositiveValue(d: seq<nat>, base: nat)
    requires base > 0 && d != [] && d[0] > 0
    ensures Value(d, base) > 0
  {
    if |d| > 1 {
      PositiveValue(d[..|d| - 1], base);
      MulMonotone(1, Value(d[..|d| - 1], base), base);
    }
  }

  lemma {:induction false} ValueOfStrip(d: seq<nat>, base: nat)
    ensures Value(Strip(d), base) == Value(d, base)
    ensures InBase(d, base) && base > 0 ==> InBase(Strip(d), base)
    ensures Canonical(Strip(d))
  {
    if d == [] {
      assert [0][..0] == [];
    } else if |d| > 1 && d[0] == 0 {
      ValueOfStrip(d[1..], base);
      ValueConcat([0], d[1..], base);
      assert [0] + d[1..] == d;
      assert [0][..0] == [];
    }
  }

  /** Printing the value of a numeral gives the numeral back without its leading zeros. */
  lemma DigitsStrip(d: seq<nat>, base: nat)
    requires base >= 2 && InBase(d, base)
    ensures Digits(Value(d, base), base) == Strip(d)
  {
    ValueOfStrip(d, base);
    DigitsOfValue(Strip(d), base);
  }

  lemma {:induction false} DigitsLength(n: nat, base: nat, k: nat)
    requires base >= 2 && n < Pow(base, k) && k > 0
    ensures |Digits(n, base)| <= k
  {
    if n >= base {
      assert Pow(base, 0) == 1;
      DivShrinks(n, base);
      DivBelow(n, base, Pow(base, k - 1));
      DigitsLength(n / base, base, k - 1);
    }
  }

  lemma DigitsInjective(m: nat, n: nat, base: nat)
    requires base >= 2 && Digits(m, base) == Digits(n, base)
    ensures m == n
  {
    ValueOfDigits(m, base);
    ValueOfDigits(n, base);
  }

  /** The bounds the fixed widths of the program stand for. */
  lemma WidthBounds()
    ensures Pow(256, 8) == TWO_64 && Pow(16, 16) == TWO_64
    ensures Pow(256, 32) == TWO_256 && Pow(16, 64) == TWO_256
  {
    assert Pow(16, 2) == 256;
    PowMul(16, 2, 8);
    PowMul(16, 2, 32);
    assert Pow(256, 2) == 65536;
    PowAdd(256, 2, 2);
    PowAdd(256, 4, 4);
    PowAdd(256, 8, 8);
    PowAdd(256, 16, 16);
  }

  lemma TenTo78()
    ensures TWO_256 < Pow(10, 78)
  {
    assert Pow(10, 6) == 1_000_000 && Pow(10, 7) == 10_000_000;
    PowAdd(10, 6, 7);
    PowAdd(10, 13, 13);
    PowAdd(10, 26, 13);
    PowAdd(10, 39, 39);
  }
}
