/** Products of extended-precision floating-point numbers, computed from 32-bit halves. */
module ExtendedProduct {
  import opened Common

  const TWO31: nat := 0x8000_0000
  const TWO63: nat := 0x8000_0000_0000_0000

  type u64 = n: nat | n < 0x1_0000_0000_0000_0000

  /** A number f * 2^e. */
  datatype Fp = Fp(f: u64, e: int)

  /** 64-bit unsigned arithmetic. */
  function Wrap(n: nat): u64 {
    n % TWO64
  }

  lemma WrapSmall(n: nat)
    requires n < TWO64
    ensures Wrap(n) == n
  {
  }

  lemma MulGrows(a: nat, b: nat, c: nat)
    requires a <= b
    ensures a * c <= b * c
  {
  }

  lemma MulBound(a: nat, b: nat, m: nat)
    requires a < m && b < m
    ensures a * b <= (m - 1) * (m - 1)
  {
    var n: nat := m - 1;
    MulGrows(a, n, b);
    MulGrows(b, n, n);
    assert n * b == b * n;
  }

  lemma Expand(a: nat, b: nat, c: nat, d: nat)
    ensures (a * TWO32 + b) * (c * TWO32 + d) == a * c * TWO64 + (a * d + b * c) * TWO32 + b * d
  {
    calc {
      (a * TWO32 + b) * (c * TWO32 + d);
      (a * TWO32) * (c * TWO32) + (a * TWO32) * d + b * (c * TWO32) + b * d;
      { assert (a * TWO32) * (c * TWO32) == a * c * TWO64; }
      a * c * TWO64 + a * d * TWO32 + b * c * TWO32 + b * d;
    }
  }

  /** The quotient is pinned down by its remainder. */
  lemma QuotientIs(n: nat, q: nat, r: nat)
    requires n == q * TWO64 + r && r < TWO64
    ensures n / TWO64 == q
  {
  }

  /** The carries, once the partial products are just numbers. */
  lemma Regroup(xy: nat, ac: nat, ad: nat, bc: nat, bd: nat)
    requires xy == ac * TWO64 + (ad + bc) * TWO32 + bd
    ensures Combined(ac, ad, bc, bd) == (xy + TWO63) / TWO64
  {
    var mid := bd / TWO32 + ad % TWO32 + bc % TWO32 + TWO31;
    var q := ac + ad / TWO32 + bc / TWO32 + mid / TWO32;
    QuotientIs(xy + TWO63, q, mid % TWO32 * TWO32 + bd % TWO32);
  }

  /** What the four partial products come to if nothing wraps around. */
  function Combined(ac: nat, ad: nat, bc: nat, bd: nat): nat {
    var mid := bd / TWO32 + ad % TWO32 + bc % TWO32 + TWO31;
    ac + ad / TWO32 + bc / TWO32 + mid / TWO32
  }

  /** The same in 64-bit arithmetic. */
  function Combine(ac: nat, ad: nat, bc: nat, bd: nat): u64 {
    var mid := Wrap(Wrap(bd) / TWO32 + Wrap(ad) % TWO32 + Wrap(bc) % TWO32 + TWO31);
    Wrap(Wrap(ac) + Wrap(ad) / TWO32 + Wrap(bc) / TWO32 + mid / TWO32)
  }

  lemma NothingWraps(ac: nat, ad: nat, bc: nat, bd: nat)
    requires ac < TWO64 && ad < TWO64 && bc < TWO64 && bd <= (TWO32 - 1) * (TWO32 - 1)
    requires Combined(ac, ad, bc, bd) < TWO64
    ensures Combine(ac, ad, bc, bd) == Combined(ac, ad, bc, bd)
  {
    hide Wrap;
    WrapSmall(ac);
    WrapSmall(ad);
    WrapSmall(bc);
    WrapSmall(bd);
    WrapSmall(bd / TWO32 + ad % TWO32 + bc % TWO32 + TWO31);
    WrapSmall(Combined(ac, ad, bc, bd));
  }

  lemma RoundedFits(x: u64, y: u64)
    ensures (x * y + TWO63) / TWO64 < TWO64
  {
    MulBound(x, y, TWO64);
  }

  function High(x: u64): nat {
    x / TWO32
  }

  function Low(x: u64): nat {
    x % TWO32
  }

  /** The partial products of the halves: each fits, and together they make the product. */
  lemma Partial(x: u64, y: u64)
    ensures var a, b, c, d := High(x), Low(x), High(y), Low(y);
            && a * c < TWO64 && a * d < TWO64 && b * c < TWO64 && b * d <= (TWO32 - 1) * (TWO32 - 1)
            && x * y == a * c * TWO64 + (a * d + b * c) * TWO32 + b * d
  {
    var a, b, c, d := High(x), Low(x), High(y), Low(y);
    MulBound(a, c, TWO32);
    MulBound(a, d, TWO32);
    MulBound(b, c, TWO32);
    MulBound(b, d, TWO32);
    Expand(a, b, c, d);
  }

  /** operator*(fp, fp): four partial products, the middle 64 bits rounded at bit 31. */
  function Multiply(x: Fp, y: Fp): Fp {
    var a, b, c, d := High(x.f), Low(x.f), High(y.f), Low(y.f);
    Fp(Combine(a * c, a * d, b * c, b * d), x.e + y.e + 64)
  }

  /** The product of the significands divided by 2^64, rounded to nearest with ties up; nothing wraps. */
  lemma MultiplyRounds(x: Fp, y: Fp)
    ensures Multiply(x, y).f == (x.f * y.f + TWO63) / TWO64
    ensures Multiply(x, y).e == x.e + y.e + 64
  {
    hide Combine, High, Low;
    var a, b, c, d := High(x.f), Low(x.f), High(y.f), Low(y.f);
    Partial(x.f, y.f);
    RoundedFits(x.f, y.f);
    FromPartial(x.f * y.f, a * c, a * d, b * c, b * d);
  }

  lemma FromPartial(xy: nat, ac: nat, ad: nat, bc: nat, bd: nat)
    requires ac < TWO64 && ad < TWO64 && bc < TWO64 && bd <= (TWO32 - 1) * (TWO32 - 1)
    requires xy == ac * TWO64 + (ad + bc) * TWO32 + bd && (xy + TWO63) / TWO64 < TWO64
    ensures Combine(ac, ad, bc, bd) == (xy + TWO63) / TWO64
  {
    hide Combine, Combined;
    Regroup(xy, ac, ad, bc, bd);
    NothingWraps(ac, ad, bc, bd);
  }
}
