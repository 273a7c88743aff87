/** The portable two-word arithmetic of longlong.h, for words made of two halves of h bits. */
module LongLong {
  import opened Words

  /** `__ll_B`: one more than the largest half word. */
  function B(h: nat): nat { Pow2(h) }

  /** One more than the largest word. */
  function W(h: nat): nat { Pow2(h) * Pow2(h) }

  lemma WIsPow2(h: nat)
    ensures W(h) == Pow2(2 * h)
  {
    Pow2Add(h, h);
  }

  // ----- Words that wrap around -----

  lemma ModOnce(a: int, w: nat)
    requires 0 < w && 0 <= a + w && a < 2 * w
    ensures a % w == if a < 0 then a + w else if a < w then a else a - w
  {
    if a < 0 {
      ModUnique(a, w, -1, a + w);
    } else if a < w {
      ModUnique(a, w, 0, a);
    } else {
      ModUnique(a, w, 1, a - w);
    }
  }

  // ----- Division -----

  lemma QuotientBound(b: nat, d1: nat, d0: nat, r: nat)
    requires b <= 2 * d1 && 0 < d1 && d0 < b && r < d1 * b + d0
    ensures r / d1 <= b + 1
  {
    var q := r / d1;
    DivMod(r, d1);
    if q >= b + 2 {
      MulLe(b + 2, q, d1);
      Expand(d1, b, 2);
      assert false;
    }
  }

  lemma EstimateBound(b: nat, q: nat, d0: nat)
    requires q <= b + 1 && d0 < b
    ensures q * d0 < b * b
  {
    MulLe(q, b + 1, d0);
    Expand(d0, b, 1);
    MulLe(d0, b - 1, b);
    Expand(b, b, -1);
  }

  lemma EstimateIdentity(b: nat, d1: nat, d0: nat, d: nat, r: nat, q: nat, e: nat, n: nat)
    requires d == d1 * b + d0 && r == q * d1 + e
    ensures r * b + n - q * d == e * b + n - q * d0
  {
    Expand(b, q * d1, e);
    TimesAssociative(q, d1, b);
    Expand(q, d1 * b, d0);
  }

  lemma DivisorBounds(b: nat, d1: nat, d0: nat, e: nat, n: nat)
    requires b <= 2 * d1 && e < d1 < b && d0 < b && n < b
    ensures e * b + n < d1 * b + d0 < b * b <= 2 * (d1 * b + d0)
  {
    MulLe(e, d1 - 1, b);
    Expand(b, d1, -1);
    MulLe(d1, b - 1, b);
    Expand(b, b, -1);
    MulLe(b, 2 * d1, b);
    TimesAssociative(2, d1, b);
  }

  /** What a digit q estimated from the top half d1 of the divisor d leaves to correct. */
  lemma DigitBounds(b: nat, d: nat, d1: nat, d0: nat, r: nat, n: nat, q: nat, e: nat, m: nat, t: nat)
    requires b <= 2 * d1 && 0 < d1 < b && d0 < b && n < b && d == d1 * b + d0 && r < d
    requires q == r / d1 && e == r % d1 && m == q * d0 && t == e * b + n
    ensures q <= b + 1 && m < b * b && t < d < b * b <= 2 * d && r * b + n - q * d == t - m
    ensures m > 0 ==> q > 0
  {
    QuotientBound(b, d1, d0, r);
    EstimateBound(b, q, d0);
    DivisorBounds(b, d1, d0, e, n);
    DivMod(r, d1);
    EstimateIdentity(b, d1, d0, d, r, q, e, n);
  }

  /** A remainder below the divisor leaves a quotient digit. */
  lemma DigitRange(b: nat, d: nat, r0: nat, n: nat, q: int, r: int)
    requires r0 < d && n < b && 0 <= r < d && q * d + r == r0 * b + n
    ensures 0 <= q < b
  {
    if q < 0 {
      MulLe(1, -q, d);
      assert false;
    } else if q >= b {
      MulLe(b, q, d);
      MulLe(r0, d - 1, b);
      Expand(b, d, -1);
      assert false;
    }
  }

  /** Half of `__udiv_qrnnd_c`: the digit is corrected at most twice, and a wrap-around of r + d ends it. */
  method CorrectDigit(h: nat, d: nat, estimate: nat, e: nat, m: nat, ghost r0: nat, ghost n: nat)
    returns (q: nat, r: nat)
    requires var b := B(h);
      && r0 < d && n < b && estimate <= b + 1 && m < W(h) && e < d < W(h) <= 2 * d
      && r0 * b + n - estimate * d == e - m && (m > 0 ==> estimate > 0)
    ensures q * d + r == r0 * B(h) + n && r < d && q < B(h)
  {
    var w := W(h);
    ghost var b, x := B(h), r0 * B(h) + n;
    q, r := estimate, e;
    ghost var i: int := 0;
    if r < m {
      ModOnce(r + d, w);
      Expand(d, estimate, -1);
      q, r, i := q - 1, (r + d) % w, 1;
      if r >= d {
        if r < m {
          ModOnce(r + d, w);
          Expand(d, estimate, -2);
          assert estimate >= 2;
          q, r, i := q - 1, (r + d) % w, 2;
        }
      }
    }
    assert x - (estimate - i) * d == e + i * d - m;
    ModOnce(r - m, w);
    r := (r - m) % w;
    DigitRange(b, d, r0, n, q, r);
  }

  /** One half of `__udiv_qrnnd_c`: divides r0*b + n by d. */
  method Digit(h: nat, d: nat, d1: nat, d0: nat, r0: nat, n: nat) returns (q: nat, r: nat)
    requires var b := B(h); b <= 2 * d1 && d1 < b && d0 < b && n < b && d == d1 * b + d0 && r0 < d
    ensures q * d + r == r0 * B(h) + n && r < d && q < B(h)
  {
    var b := B(h);
    r, q := r0 % d1, r0 / d1;
    var m := q * d0;
    ghost var e := r;
    r := Join(h, r, n);
    DigitBounds(b, d, d1, d0, r0, n, q, e, m, r);
    q, r := CorrectDigit(h, d, q, r, m, r0, n);
  }

  /** `__ll_highpart` and `__ll_lowpart`. */
  method Parts(b: nat, x: nat) returns (high: nat, low: nat)
    requires b > 0 && x < b * b
    ensures x == high * b + low && high < b && low < b
  {
    high, low := x / b, x % b;
    HighBound(b, x, high, low);
  }

  lemma HighBound(b: nat, x: nat, hi: nat, lo: nat)
    requires b > 0 && x < b * b && hi == x / b && lo == x % b
    ensures x == hi * b + lo && hi < b
  {
    DivMod(x, b);
    if hi >= b {
      MulLe(b, hi, b);
      assert false;
    }
  }

  lemma TopHalf(b: nat, half: nat, d: nat, d1: nat, d0: nat)
    requires b == 2 * half && d == d1 * b + d0 && d0 < b && b * b <= 2 * d
    ensures b <= 2 * d1
  {
    if d1 < half {
      MulLe(d1, half - 1, b);
      Expand(b, half, -1);
      TimesAssociative(2, half, b);
      assert false;
    }
  }

  /** `__udiv_qrnnd_c`. The top bit of d must be set, which is the normalisation the macro asks for. */
  method UdivQrnndC(h: nat, n1: nat, n0: nat, d: nat) returns (q: nat, r: nat)
    requires h > 0 && n1 < d < W(h) <= 2 * d && n0 < W(h)
    ensures q * d + r == n1 * W(h) + n0 && r < d && q < W(h)
  {
    var b := B(h);
    ghost var w := W(h);
    var d1, d0 := Parts(b, d);
    var nh, nl := Parts(b, n0);
    TopHalf(b, Pow2(h - 1), d, d1, d0);
    var q1, r1 := Digit(h, d, d1, d0, n1, nh);
    var q0, r0 := Digit(h, d, d1, d0, r1, nl);
    q := Join(h, q1, q0);
    r := r0;
    JoinDigits(b, w, d, n1, n0, nh, nl, q1, r1, q0, r0, q);
  }

  /** `high * __ll_B | low`. */
  method Join(h: nat, high: nat, low: nat) returns (x: nat)
    requires low < B(h)
    ensures x == high * B(h) + low
  {
    OrIsPlus(high, h, low);
    x := Or(high * B(h), low);
  }

  lemma JoinDigits(b: nat, w: nat, d: nat, n1: nat, n0: nat, nh: nat, nl: nat, q1: nat, r1: nat, q0: nat, r0: nat,
                   q: nat)
    requires q1 * d + r1 == n1 * b + nh && q0 * d + r0 == r1 * b + nl && q1 < b && q0 < b
    requires w == b * b && n0 == nh * b + nl && q == q1 * b + q0
    ensures q * d + r0 == n1 * w + n0 && q < w
  {
    Expand(d, q1 * b, q0);
    TimesAssociative(q1, b, d);
    TimesAssociative(q1, d, b);
    assert q1 * (b * d) == (q1 * d) * b;
    Expand(b, q1 * d, r1);
    Expand(b, n1 * b, nh);
    TimesAssociative(n1, b, b);
    MulLe(q1, b - 1, b);
    Expand(b, b, -1);
  }

  // ----- Addition and subtraction -----

  /** `add_ssaaaa`: the carry out of the low words is seen as a sum below its operand. */
  method AddSsaaaa(w: nat, ah: nat, al: nat, bh: nat, bl: nat) returns (sh: nat, sl: nat)
    requires ah < w && al < w && bh < w && bl < w
    ensures sh < w && sl < w && sh * w + sl == ((ah * w + al) + (bh * w + bl)) % (w * w)
  {
    var x := (al + bl) % w;
    ModOnce(al + bl, w);
    var carry := if x < al then 1 else 0;
    sh := (ah + bh + carry) % w;
    sl := x;
    var top := ah + bh + carry;
    ModOnce(top, w);
    AddWeights(w, ah, al, bh, bl, carry, sl);
    TwoWord(w, top, (if top < w then 0 else 1), sh, sl, (ah * w + al) + (bh * w + bl));
  }

  /** `sub_ddmmss`: the borrow is seen as a difference above its operand. */
  method SubDdmmss(w: nat, ah: nat, al: nat, bh: nat, bl: nat) returns (sh: nat, sl: nat)
    requires ah < w && al < w && bh < w && bl < w
    ensures sh < w && sl < w && sh * w + sl == ((ah * w + al) - (bh * w + bl)) % (w * w)
  {
    var x := (al - bl) % w;
    ModOnce(al - bl, w);
    var borrow := if x > al then 1 else 0;
    sh := (ah - bh - borrow) % w;
    sl := x;
    var top := ah - bh - borrow;
    ModOnce(top, w);
    AddWeights(w, ah, al, 0 - bh, 0 - bl, 0 - borrow, sl);
    Negate(w, bh);
    TwoWord(w, top, (if top < 0 then -1 else 0), sh, sl, (ah * w + al) - (bh * w + bl));
  }

  lemma Negate(w: int, x: int)
    ensures (0 - x) * w == -(x * w)
  {
  }

  /** Two-word operands add word by word, with a carry from the low to the high word. */
  lemma AddWeights(w: nat, ah: int, al: int, bh: int, bl: int, carry: int, sl: int)
    requires al + bl == carry * w + sl
    ensures (ah * w + al) + (bh * w + bl) == (ah + bh + carry) * w + sl
  {
    Expand(w, ah, bh);
    Expand(w, ah + bh, carry);
  }

  /** Reducing the high word modulo w reduces the two-word value modulo w*w. */
  lemma TwoWord(w: nat, top: int, c: int, sh: nat, sl: nat, x: int)
    requires sh < w && sl < w && top == c * w + sh && x == top * w + sl
    ensures sh * w + sl == x % (w * w)
  {
    Expand(w, c * w, sh);
    TimesAssociative(c, w, w);
    MulLe(sh, w - 1, w);
    Expand(w, w, -1);
    ModUnique(x, w * w, c, sh * w + sl);
  }

  // ----- Multiplication -----

  /** `umul_ppmm` in plain C: the middle products may carry, and the carry is added in the right position. */
  method UmulPpmm(h: nat, u: nat, v: nat) returns (w1: nat, w0: nat)
    requires u < W(h) && v < W(h)
    ensures w1 < W(h) && w0 < W(h) && w1 * W(h) + w0 == u * v
  {
    var b, w := B(h), W(h);
    var uh, ul := Parts(b, u);
    var vh, vl := Parts(b, v);
    var x0 := HalfProduct(b, ul, vl);
    var x1 := HalfProduct(b, ul, vh);
    var x2 := HalfProduct(b, uh, vl);
    var x3 := HalfProduct(b, uh, vh);
    var xh, xl := Parts(b, x0);
    ghost var mid := x1 + xh + x2;
    NoWrap(x1 + xh, w);
    x1 := (x1 + xh) % w;
    ModOnce(x1 + x2, w);
    x1 := (x1 + x2) % w;
    var yh, yl := Parts(b, x1);
    ghost var carry := if x1 < x2 then 1 else 0;
    WeightedSum(b, w, ul, uh, vl, vh, u, v, x0, x1, x2, x3, xh, xl, mid, carry, yh, yl);
    if x1 < x2 {
      NoWrap(x3 + b, w);
      x3 := (x3 + b) % w;
    }
    NoWrap(x3 + yh, w);
    NoWrap(yl * b + xl, w);
    w1 := (x3 + yh) % w;
    w0 := (yl * b + xl) % w;
  }

  lemma NoWrap(x: nat, w: nat)
    ensures x < w ==> x % w == x
  {
  }

  method HalfProduct(b: nat, x: nat, y: nat) returns (p: nat)
    requires x < b && y < b
    ensures p == x * y && p + b <= b * b
  {
    ProductBound(b, x, y);
    p := x * y;
  }

  lemma ProductBound(b: nat, x: nat, y: nat)
    requires x < b && y < b
    ensures x * y + b <= b * b
  {
    MulLe(x, b - 1, y);
    MulLe(y, b, b - 1);
    Expand(b, b, -1);
  }

  /** The four half products in their positions make up u*v, and the top word does not overflow. */
  lemma WeightedSum(b: nat, w: nat, ul: nat, uh: nat, vl: nat, vh: nat, u: nat, v: nat, x0: nat, x1: nat, x2: nat,
                    x3: nat, xh: nat, xl: nat, mid: nat, carry: nat, yh: nat, yl: nat)
    requires w == b * b && u == uh * b + ul && v == vh * b + vl && u < w && v < w
    requires x0 == ul * vl && x2 == uh * vl && x3 == uh * vh && x0 == xh * b + xl && xl < b && yl < b
    requires mid == ul * vh + xh + x2 && mid == carry * w + x1 && x1 == yh * b + yl
    ensures (x3 + carry * b + yh) * w + (yl * b + xl) == u * v
    ensures yl * b + xl < w && x3 + carry * b + yh < w
  {
    CrossProducts(b, w, ul, uh, vl, vh);
    MiddleSum(b, ul * vh + x2, xh, xl);
    CarryUp(b, w, x3, carry, yh, yl, xl);
    LowWord(b, w, yl, xl);
    HighWord(w, x3 + carry * b + yh, u, v);
  }

  lemma LowWord(b: nat, w: nat, yl: nat, xl: nat)
    requires w == b * b && yl < b && xl < b
    ensures yl * b + xl < w
  {
    MulLe(yl, b - 1, b);
    Expand(b, b, -1);
  }

  lemma MiddleSum(b: nat, p: nat, xh: nat, xl: nat)
    ensures p * b + (xh * b + xl) == (p + xh) * b + xl
  {
    Expand(b, p, xh);
  }

  lemma CarryUp(b: nat, w: nat, x3: nat, carry: nat, yh: nat, yl: nat, xl: nat)
    requires w == b * b
    ensures x3 * w + (carry * w + (yh * b + yl)) * b + xl == (x3 + carry * b + yh) * w + (yl * b + xl)
  {
    Expand(b, carry * w, yh * b + yl);
    Expand(b, yh * b, yl);
    TimesAssociative(yh, b, b);
    TimesAssociative(carry, w, b);
    TimesAssociative(carry, b, w);
    Expand(w, x3 + carry * b, yh);
    Expand(w, x3, carry * b);
  }

  lemma CrossProducts(b: nat, w: nat, ul: nat, uh: nat, vl: nat, vh: nat)
    requires w == b * b
    ensures (uh * b + ul) * (vh * b + vl) == (uh * vh) * w + (ul * vh + uh * vl) * b + ul * vl
  {
    Expand(uh * b + ul, vh * b, vl);
    Expand(vh * b, uh * b, ul);
    Expand(vl, uh * b, ul);
    assert (uh * b) * (vh * b) == (uh * vh) * w;
    assert ul * (vh * b) == (ul * vh) * b;
    assert (uh * b) * vl == (uh * vl) * b;
    Expand(b, ul * vh, uh * vl);
  }

  lemma HighWord(w: nat, top: nat, u: nat, v: nat)
    requires u < w && v < w && top * w <= u * v
    ensures top < w
  {
    MulLe(u, w - 1, v);
    MulLe(v, w, w - 1);
    if top >= w {
      MulLe(w - 1, top - 1, w);
      Expand(w, top, -1);
      assert false;
    }
  }

  /** A word read as a two's complement number. */
  function Signed(w: nat, x: nat): int { if 2 * x >= w then x - w else x }

  /** The machine's signed double-word product. */
  method SmulPpmm(w: nat, u: nat, v: nat) returns (w1: nat, w0: nat)
    requires u < w && v < w
    ensures w1 < w && w0 < w && w1 * w + w0 == (Signed(w, u) * Signed(w, v)) % (w * w)
  {
    var p := (Signed(w, u) * Signed(w, v)) % (w * w);
    w1, w0 := Parts(w, p);
  }

  /** `-(x >> (W_TYPE_SIZE - 1)) & y`: y if the top bit of x is set, else 0. */
  method TopBitMask(h: nat, x: nat, y: nat) returns (r: nat)
    requires h > 0 && x < W(h) && y < W(h)
    ensures r == if 2 * x >= W(h) then y else 0
  {
    WIsPow2(h);
    var w, half := W(h), Pow2(2 * h - 1);
    assert w == 2 * half;
    var bit := Quotient(x, half);
    HalfQuotient(x, half, bit);
    var negated: int := if bit == 0 then 0 else -1;
    ModOnce(negated, w);
    var mask := negated % w;
    if bit == 1 { AndOnes(2 * h, y); }
    r := And(mask, y);
  }

  lemma HalfQuotient(x: nat, half: nat, bit: nat)
    requires half > 0 && x < 2 * half && Shifted(x, half, bit)
    ensures bit == if x >= half then 1 else 0
  {
    ScaledBounds(x, half, bit, 1, 2);
    ScaledBounds(x, half, bit, 0, 1);
  }

  /** The variant of `umul_ppmm` made from `smul_ppmm` computes the same two words. */
  method UmulFromSmul(h: nat, u: nat, v: nat) returns (w1: nat, w0: nat)
    requires h > 0 && u < W(h) && v < W(h)
    ensures w1 < W(h) && w0 < W(h) && w1 * W(h) + w0 == u * v
  {
    var w := W(h);
    var s1, s0 := SmulPpmm(w, u, v);
    var mu := TopBitMask(h, u, v);
    var mv := TopBitMask(h, v, u);
    w1, w0 := (s1 + mu + mv) % w, s0;
    SignCorrection(w, u, v, s1, s0, mu, mv);
    SmallMod(w, u, v);
    ReducedHigh(w, s1 + mu + mv, w1, s0);
  }

  lemma ReducedHigh(w: nat, top: nat, w1: nat, w0: nat)
    requires w0 < w && w1 == top % w
    ensures w1 < w && w1 * w + w0 == (top * w + w0) % (w * w)
  {
    DivMod(top, w);
    TwoWord(w, top, top / w, w1, w0, top * w + w0);
  }

  lemma SmallMod(w: nat, u: nat, v: nat)
    requires u < w && v < w
    ensures (u * v) % (w * w) == u * v
  {
    ProductBound(w, u, v);
    NoWrap(u * v, w * w);
  }

  lemma SignCorrection(w: nat, u: nat, v: nat, s1: nat, s0: nat, mu: nat, mv: nat)
    requires u < w && v < w && s1 * w + s0 == (Signed(w, u) * Signed(w, v)) % (w * w)
    requires mu == (if 2 * u >= w then v else 0) && mv == (if 2 * v >= w then u else 0)
    ensures ((s1 + mu + mv) * w + s0) % (w * w) == (u * v) % (w * w)
  {
    var p, hu, hv := Signed(w, u) * Signed(w, v), (if 2 * u >= w then 1 else 0), (if 2 * v >= w then 1 else 0);
    var m := w * w;
    SignedProduct(w, u, v, hu, hv);
    Expand(w, s1 + mu, mv);
    Expand(w, s1, mu);
    DivMod(p, m);
    var x := (s1 + mu + mv) * w + s0;
    assert x == u * v - (p / m - hu * hv) * m by { Expand(m, p / m, 0 - hu * hv); }
    SameMod(x, u * v, m, p / m - hu * hv);
  }

  lemma SignedProduct(w: nat, u: nat, v: nat, hu: nat, hv: nat)
    requires hu == (if 2 * u >= w then 1 else 0) && hv == (if 2 * v >= w then 1 else 0)
    ensures Signed(w, u) * Signed(w, v) == u * v - (hu * v) * w - (hv * u) * w + (hu * hv) * (w * w)
  {
    if hu == 1 && hv == 1 {
      Expand(u - w, v, 0 - w);
      Expand(v, u, 0 - w);
      Expand(w, u, 0 - w);
    } else if hu == 1 {
      Expand(v, u, 0 - w);
    } else if hv == 1 {
      Expand(u, v, 0 - w);
    }
  }

  lemma SameMod(x: int, y: int, d: nat, q: int)
    requires d > 0 && x == y - q * d
    ensures x % d == y % d
  {
    DivMod(y, d);
    Expand(d, y / d, 0 - q);
    ModUnique(x, d, y / d - q, y % d);
  }

  // ----- Counting zeros -----

  /** The entries of `__clz_tab`. */
  function BitLength(x: nat): nat {
    if x == 0 then 0 else 1 + BitLength(x / 2)
  }

  lemma {:induction false} BitLengthBounds(x: nat)
    ensures x < Pow2(BitLength(x)) && (x > 0 ==> BitLength(x) > 0 && Pow2(BitLength(x) - 1) <= x)
  {
    if x > 0 { BitLengthBounds(x / 2); }
  }

  /** `x >> a`. */
  method ShiftRight(x: nat, a: nat) returns (y: nat)
    ensures Shifted(x, Pow2(a), y)
  {
    y := Quotient(x, Pow2(a));
  }

  method Quotient(x: nat, p: nat) returns (y: nat)
    requires p > 0
    ensures Shifted(x, p, y)
  {
    y := x / p;
    DivMod(x, p);
  }

  ghost predicate Shifted(x: nat, p: nat, y: nat) { y * p <= x < y * p + p }

  lemma ScaledBounds(x: nat, p: nat, y: nat, low: nat, high: nat)
    requires Shifted(x, p, y)
    ensures low <= y ==> low * p <= x
    ensures y < high ==> x < high * p
    ensures x < high * p ==> y < high
  {
    if low <= y { MulLe(low, y, p); }
    if y < high { MulLe(y + 1, high, p); } else { MulLe(high, y, p); }
  }

  /** Shifting right by a takes a off the bit length. */
  lemma ShiftedLength(x: nat, a: nat, y: nat)
    requires Shifted(x, Pow2(a), y) && y > 0
    ensures var l := BitLength(y) + a; l > 0 && Pow2(l - 1) <= x < Pow2(l)
  {
    var l := BitLength(y);
    BitLengthBounds(y);
    Pow2Add(l, a);
    Pow2Add(l - 1, a);
    ScaledBounds(x, Pow2(a), y, Pow2(l - 1), Pow2(l));
  }

  lemma ShiftBound(x: nat, a: nat, k: nat, y: nat)
    requires Shifted(x, Pow2(a), y) && x < Pow2(a + k)
    ensures y < Pow2(k)
  {
    Pow2Add(k, a);
    ScaledBounds(x, Pow2(a), y, 0, Pow2(k));
  }

  lemma ShiftNonzero(x: nat, a: nat, y: nat)
    requires Shifted(x, Pow2(a), y) && x >= Pow2(a)
    ensures y > 0
  {
    ScaledBounds(x, Pow2(a), y, 0, 1);
  }

  lemma ShiftOne(x: nat, a: nat, y: nat)
    requires Shifted(x, Pow2(a), y) && y > 0
    ensures x >= Pow2(a)
  {
    ScaledBounds(x, Pow2(a), y, 1, 0);
  }

  lemma ShiftZero(x: nat, a: nat, y: nat)
    requires Shifted(x, Pow2(a), y) && y == 0
    ensures x < Pow2(a)
  {
  }

  /** `__clz_tab[n]`, which has 256 entries. */
  method ClzTab(n: nat) returns (r: nat)
    requires n < 256
    ensures r == BitLength(n)
  {
    r := BitLength(n);
  }

  /** For words over 32 bits: the first byte from the top that is not zero. */
  method TopByte(size: nat, x: nat) returns (a: nat)
    requires 32 < size && size % 8 == 0 && x < Pow2(size)
    ensures a < size && x < Pow2(a + 8) && (a == 0 || x >= Pow2(a))
  {
    a := size - 8;
    while a > 0
      invariant a % 8 == 0 && a < size && x < Pow2(a + 8)
    {
      var y := ShiftRight(x, a);
      TopIndex(x, a, y);
      if y % 256 != 0 {
        break;
      }
      a := a - 8;
    }
  }

  lemma TopIndex(x: nat, a: nat, y: nat)
    requires x < Pow2(a + 8) && Shifted(x, Pow2(a), y)
    ensures y % 256 != 0 <==> x >= Pow2(a)
  {
    ByteBound(x, a, y);
    if y > 0 { ShiftOne(x, a, y); } else { ShiftZero(x, a, y); }
  }

  lemma ByteBound(x: nat, a: nat, y: nat)
    requires x < Pow2(a + 8) && Shifted(x, Pow2(a), y)
    ensures y < 256
  {
    ShiftBound(x, a, 8, y);
    assert Pow2(8) == 256;
  }

  /** For the others: the first quarter from the top that is not zero. */
  method TopQuarter(bits4: nat, x: nat) returns (a: nat)
    requires 0 < bits4 <= 8 && x < Pow2(4 * bits4)
    ensures a < 4 * bits4 && x < Pow2(a + 8) && (a == 0 || x >= Pow2(a))
  {
    a := if x < Pow2(2 * bits4) then (if x < Pow2(bits4) then 0 else bits4)
         else (if x < Pow2(3 * bits4) then 2 * bits4 else 3 * bits4);
    Pow2Monotone(a + bits4, a + 8);
  }

  /** The shift that leaves the top non-zero part of x as an index of the table. */
  method TableShift(size: nat, x: nat) returns (a: nat)
    requires (0 < size <= 32 && size % 4 == 0) || (32 < size && size % 8 == 0)
    requires x < Pow2(size)
    ensures a < size && x < Pow2(a + 8) && (a == 0 || x >= Pow2(a))
  {
    if size <= 32 {
      a := TopQuarter(size / 4, x);
    } else {
      a := TopByte(size, x);
    }
  }

  method CountLeadingZeros(size: nat, x: nat) returns (count: nat)
    requires (0 < size <= 32 && size % 4 == 0) || (32 < size && size % 8 == 0)
    requires x < Pow2(size)
    ensures if x == 0 then count == size else count < size && Pow2(size - 1 - count) <= x < Pow2(size - count)
  {
    var a := TableShift(size, x);
    var y := ShiftRight(x, a);
    ShiftBound(x, a, 8, y);
    var t := ClzTab(y);
    if x > 0 {
      IndexLength(size, x, a, y);
    } else {
      ShiftOfZero(a, y);
    }
    count := size - (t + a);
  }

  /** The index and the shift give the length of x. */
  lemma IndexLength(size: nat, x: nat, a: nat, y: nat)
    requires 0 < x < Pow2(size) && Shifted(x, Pow2(a), y) && (a == 0 || x >= Pow2(a))
    ensures var l := BitLength(y) + a; 0 < l <= size && Pow2(l - 1) <= x < Pow2(l)
  {
    if a > 0 {
      ShiftNonzero(x, a, y);
    } else {
      WholeIndex(x, y);
    }
    ShiftedLength(x, a, y);
    LengthRange(size, x, BitLength(y) + a);
  }

  lemma WholeIndex(x: nat, y: nat)
    requires Shifted(x, Pow2(0), y)
    ensures y == x
  {
  }

  lemma ShiftOfZero(a: nat, y: nat)
    requires Shifted(0, Pow2(a), y)
    ensures y == 0
  {
    if y > 0 { ShiftOne(0, a, y); }
  }

  lemma LengthRange(size: nat, x: nat, l: nat)
    requires x < Pow2(size) && l > 0 && Pow2(l - 1) <= x
    ensures l <= size
  {
    if l > size {
      Pow2Monotone(size, l - 1);
      assert false;
    }
  }

  /** `x & -x` isolates the lowest set bit; the count is the exponent of the largest power of two dividing x. */
  method CountTrailingZeros(size: nat, x: nat) returns (count: nat)
    requires (0 < size <= 32 && size % 4 == 0) || (32 < size && size % 8 == 0)
    requires 0 < x < Pow2(size)
    ensures count < size && x % Pow2(count) == 0
    ensures forall j :: j > count ==> x % Pow2(j) != 0
  {
    ghost var t, odd := LowestBit(x, size);
    NoWrap(Pow2(size) - x, Pow2(size));
    var low := And(x, (Pow2(size) - x) % Pow2(size));
    Pow2Less(t, size);
    var c := CountLeadingZeros(size, low);
    count := size - 1 - c;
    SamePower(t, count);
    ModUnique(x, Pow2(t), odd, 0);
    forall j | j > count ensures x % Pow2(j) != 0 { LargestPower(x, t, odd, j); }
  }

  lemma Pow2Less(a: nat, b: nat)
    requires a < b
    ensures Pow2(a) < Pow2(b)
  {
    Pow2Monotone(a + 1, b);
  }

  lemma SamePower(a: nat, b: nat)
    requires Pow2(b) <= Pow2(a) < Pow2(b + 1)
    ensures a == b
  {
    if a < b { Pow2Less(a, b); }
    if a > b { Pow2Monotone(b + 1, a); }
  }

  lemma MulLess(a: nat, b: nat, p: nat)
    requires a < b && p > 0
    ensures a * p < b * p
  {
    MulLe(a + 1, b, p);
    Expand(p, a, 1);
  }

  lemma Cancel(a: nat, b: nat, p: nat)
    requires p > 0
    ensures a * p == b * p ==> a == b
  {
    if a < b {
      MulLess(a, b, p);
    } else if b < a {
      MulLess(b, a, p);
    }
  }

  /** No larger power of two divides a number with an odd cofactor. */
  lemma LargestPower(x: nat, k: nat, odd: nat, j: nat)
    requires x == odd * Pow2(k) && odd % 2 == 1 && j > k
    ensures x % Pow2(j) != 0
  {
    var p, q, m := Pow2(k), Pow2(j - k - 1), x / Pow2(j);
    Pow2Add(j - k, k);
    if x % Pow2(j) == 0 {
      ExactQuotient(x, Pow2(j), 2 * q, p, m, odd);
      EvenProduct(m, q);
      assert false;
    }
  }

  lemma ExactQuotient(x: nat, d: nat, e: nat, p: nat, m: nat, o: nat)
    requires p > 0 && d > 0 && d == e * p && x % d == 0 && m == x / d && x == o * p
    ensures o == m * e
  {
    DivMod(x, d);
    TimesAssociative(m, e, p);
    Cancel(o, m * e, p);
  }

  lemma EvenProduct(m: nat, q: nat)
    ensures (m * (2 * q)) % 2 == 0
  {
    assert m * (2 * q) == 2 * (m * q);
  }
}
