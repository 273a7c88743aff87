/** Powers of two, the bitwise operators of C on unsigned values, bytes and their digits. */
module Words {
  type Byte = b: nat | b < 256

  function Pow2(k: nat): (r: nat)
    ensures r >= 1
  {
    if k == 0 then 1 else 2 * Pow2(k - 1)
  }

  lemma {:induction false} Pow2Monotone(a: nat, b: nat)
    requires a <= b
    ensures Pow2(a) <= Pow2(b)
    decreases b
  {
    if a < b { Pow2Monotone(a, b - 1); }
  }

  lemma {:induction false} Pow2Add(a: nat, b: nat)
    ensures Pow2(a + b) == Pow2(a) * Pow2(b)
  {
    if a > 0 { Pow2Add(a - 1, b); }
  }

  function Or(a: nat, b: nat): nat {
    if a == 0 then b else if b == 0 then a
    else (if a % 2 == 1 || b % 2 == 1 then 1 else 0) + 2 * Or(a / 2, b / 2)
  }

  function And(a: nat, b: nat): nat {
    if a == 0 || b == 0 then 0
    else (if a % 2 == 1 && b % 2 == 1 then 1 else 0) + 2 * And(a / 2, b / 2)
  }

  /** `x << k | y` adds when y fits below the shift. */
  lemma {:induction false} OrIsPlus(x: nat, k: nat, y: nat)
    requires y < Pow2(k)
    ensures Or(x * Pow2(k), y) == x * Pow2(k) + y
  {
    if k > 0 && x > 0 && y > 0 {
      var h := x * Pow2(k - 1);
      assert x * Pow2(k) == 2 * h;
      OrIsPlus(x, k - 1, y / 2);
    }
  }

  lemma {:induction false} OrCommutes(a: nat, b: nat)
    ensures Or(a, b) == Or(b, a)
  {
    if a > 0 && b > 0 { OrCommutes(a / 2, b / 2); }
  }

  lemma {:induction false} AndComplement(x: nat, k: nat)
    requires x < Pow2(k)
    ensures And(x, Pow2(k) - 1 - x) == 0
  {
    if k > 0 {
      AndComplement(x / 2, k - 1);
      assert (Pow2(k) - 1 - x) / 2 == Pow2(k - 1) - 1 - x / 2;
    }
  }

  /** A mask of k ones keeps a k-bit value. */
  lemma {:induction false} AndOnes(k: nat, x: nat)
    requires x < Pow2(k)
    ensures And(Pow2(k) - 1, x) == x
  {
    if k > 0 && x > 0 {
      AndOnes(k - 1, x / 2);
      assert (Pow2(k) - 1) / 2 == Pow2(k - 1) - 1 && (Pow2(k) - 1) % 2 == 1;
    }
  }

  /** `x & -x` in k bits is the lowest set bit of x. */
  lemma {:induction false} LowestBit(x: nat, k: nat) returns (t: nat, odd: nat)
    requires 0 < x < Pow2(k)
    ensures t < k && odd % 2 == 1 && x == odd * Pow2(t) && And(x, Pow2(k) - x) == Pow2(t)
  {
    if x % 2 == 1 {
      t, odd := 0, x;
      AndComplement(x / 2, k - 1);
      assert (Pow2(k) - x) / 2 == Pow2(k - 1) - 1 - x / 2;
    } else {
      var half := x / 2;
      t, odd := LowestBit(half, k - 1);
      AndDoubles(half, Pow2(k - 1) - half);
      Doubled(odd, Pow2(t), half);
      t := t + 1;
    }
  }

  lemma AndDoubles(a: nat, b: nat)
    ensures And(2 * a, 2 * b) == 2 * And(a, b)
  {
  }

  lemma Doubled(a: nat, p: nat, x: nat)
    requires x == a * p
    ensures 2 * x == a * (2 * p)
  {
  }

  // ----- Arithmetic on products -----

  lemma MulLe(a: nat, b: nat, c: nat)
    requires a <= b
    ensures a * c <= b * c
  {
  }

  lemma Expand(q: int, x: int, y: int)
    ensures q * (x + y) == q * x + q * y && (x + y) * q == x * q + y * q
  {
  }

  lemma TimesAssociative(a: int, b: int, c: int)
    ensures (a * b) * c == a * (b * c)
  {
  }

  lemma DivMod(r: int, d: nat)
    requires d > 0
    ensures r == (r / d) * d + r % d
  {
  }

  lemma ModUnique(x: int, d: nat, q: int, r: nat)
    requires r < d && x == q * d + r
    ensures x % d == r
  {
    var q', r' := x / d, x % d;
    assert x == d * q' + r';
    if q' > q {
      MulLe(1, q' - q, d);
      Expand(d, q', -q);
      assert false;
    } else if q' < q {
      MulLe(1, q - q', d);
      Expand(d, q, -q');
      assert false;
    }
  }

  const TWO_63: nat := 0x8000_0000_0000_0000
  const TWO_64: nat := 0x1_0000_0000_0000_0000

  lemma WordSizes()
    ensures Pow2(63) == TWO_63 && Pow2(64) == TWO_64
  {
    assert Pow2(8) == 0x100;
    Pow2Add(8, 8);
    Pow2Add(16, 16);
    Pow2Add(32, 32);
    assert Pow2(64) == 2 * Pow2(63);
  }

  /** The lower-case digit of C's hexadecimal output. */
  function HexDigit(d: nat): Byte
    requires d < 16
  {
    if d < 10 then 48 + d else 97 + d - 10
  }
}
