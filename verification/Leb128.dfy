/** LEB128 numbers: the readers and the skipper of leb128.h, against the encoding of DWARF version 4, section 7.6. */
module Leb128 {
  import opened Words

  datatype Option<+T> = None | Some(value: T)

  // ----- The encoding -----

  function EncodeU(v: nat): seq<Byte> {
    if v < 128 then [v] else [v % 128 + 128] + EncodeU(v / 128)
  }

  function EncodeS(v: int): seq<Byte>
    decreases if v < 0 then -v else v
  {
    if -64 <= v < 64 then [v % 128] else [v % 128 + 128] + EncodeS(v / 128)
  }

  // ----- What a byte sequence denotes -----

  /** The position after the first byte without the continuation bit; 0 if there is none. */
  function Length(buf: seq<Byte>): (n: nat)
    ensures n <= |buf|
    ensures n > 0 ==> buf[n - 1] < 128 && forall i :: 0 <= i < n - 1 ==> buf[i] >= 128
    ensures n == 0 ==> forall i :: 0 <= i < |buf| ==> buf[i] >= 128
  {
    if buf == [] then 0
    else if buf[0] < 128 then 1
    else var n := Length(buf[1..]); if n == 0 then 0 else n + 1
  }

  function Unsigned(bytes: seq<Byte>): nat {
    if bytes == [] then 0 else bytes[0] % 128 + 128 * Unsigned(bytes[1..])
  }

  /** As Unsigned, with bit 6 of the last byte extended. */
  function Signed(bytes: seq<Byte>): int
    requires bytes != []
  {
    if |bytes| == 1 then (if bytes[0] % 128 >= 64 then bytes[0] % 128 - 128 else bytes[0] % 128)
    else bytes[0] % 128 + 128 * Signed(bytes[1..])
  }

  /** A 64-bit pattern read as int64_t. */
  function AsInt64(x: nat): int { if x >= TWO_63 then x - TWO_64 else x }

  lemma {:induction false} LengthEncoded(bytes: seq<Byte>, rest: seq<Byte>)
    requires bytes != [] && bytes[|bytes| - 1] < 128 && forall i :: 0 <= i < |bytes| - 1 ==> bytes[i] >= 128
    ensures Length(bytes + rest) == |bytes|
  {
    if |bytes| > 1 {
      LengthEncoded(bytes[1..], rest);
      assert (bytes + rest)[1..] == bytes[1..] + rest;
    }
  }

  lemma {:induction false} EncodedU(v: nat)
    ensures var e := EncodeU(v); e != [] && e[|e| - 1] < 128 && forall i :: 0 <= i < |e| - 1 ==> e[i] >= 128
    ensures Unsigned(EncodeU(v)) == v
  {
    if v >= 128 {
      EncodedU(v / 128);
      var e := EncodeU(v);
      assert e[1..] == EncodeU(v / 128);
    } else {
      assert Unsigned([v]) == v % 128 + 128 * Unsigned([v][1..]);
    }
  }

  lemma {:induction false} EncodedS(v: int)
    ensures var e := EncodeS(v); e != [] && e[|e| - 1] < 128 && forall i :: 0 <= i < |e| - 1 ==> e[i] >= 128
    ensures Signed(EncodeS(v)) == v
    decreases if v < 0 then -v else v
  {
    if !(-64 <= v < 64) {
      EncodedS(v / 128);
      var e := EncodeS(v);
      assert e[1..] == EncodeS(v / 128);
    }
  }

  /** A number below 2^(7k) takes at most k bytes. */
  lemma {:induction false} EncodedULength(v: nat, k: nat)
    requires k > 0 && v < Pow2(7 * k)
    ensures |EncodeU(v)| <= k
  {
    if v >= 128 {
      Pow2Add(7, 7 * (k - 1));
      assert Pow2(7) == 128;
      EncodedULength(v / 128, k - 1);
    }
  }

  lemma {:induction false} EncodedSLength(v: int, k: nat)
    requires k > 0 && 0 <= v + Pow2(7 * k - 1) && v < Pow2(7 * k - 1)
    ensures |EncodeS(v)| <= k
    decreases k
  {
    if !(-64 <= v < 64) {
      assert Pow2(6) == 64 && Pow2(7) == 128;
      if k > 1 {
        Pow2Add(7, 7 * (k - 1) - 1);
        EncodedSLength(v / 128, k - 1);
      }
    }
  }

  /** One more byte adds its seven bits on top. */
  lemma {:induction false} UnsignedAppend(bytes: seq<Byte>, b: Byte)
    ensures Unsigned(bytes + [b]) == Unsigned(bytes) + (b % 128) * Pow2(7 * |bytes|)
    ensures Unsigned(bytes) < Pow2(7 * |bytes|)
  {
    if bytes == [] {
      assert Unsigned([b]) == b % 128 + 128 * Unsigned([b][1..]);
      assert bytes + [b] == [b];
    } else {
      UnsignedAppend(bytes[1..], b);
      assert (bytes + [b])[1..] == bytes[1..] + [b];
      Pow2Add(7, 7 * |bytes[1..]|);
      assert Pow2(7) == 128;
      Scale(128, b % 128, Pow2(7 * |bytes[1..]|), Pow2(7 * |bytes|));
    }
  }

  lemma Scale(c: nat, x: nat, p: nat, q: nat)
    requires q == c * p
    ensures c * (x * p) == x * q
  {
  }

  /** The signed value is the unsigned one less 2^(7n) if the sign bit is set. */
  lemma {:induction false} SignedUnsigned(bytes: seq<Byte>)
    requires bytes != []
    ensures Signed(bytes) == Unsigned(bytes) - (if bytes[|bytes| - 1] % 128 >= 64 then Pow2(7 * |bytes|) else 0)
  {
    if |bytes| == 1 {
      assert Unsigned(bytes) == bytes[0] % 128 + 128 * Unsigned(bytes[1..]);
      assert Pow2(7) == 128;
    } else {
      SignedUnsigned(bytes[1..]);
      Pow2Add(7, 7 * |bytes[1..]|);
      assert Pow2(7) == 128;
    }
  }

  // ----- The readers -----

  /** The number ends, or the buffer does, within ten bytes; beyond that the shift count leaves the 64-bit word. */
  ghost predicate TenBytes(buf: seq<Byte>) { |buf| <= 10 || 0 < Length(buf) <= 10 }

  /** `result |= (uint64_t) x << shift` is addition modulo 2^64. */
  lemma OrDigit(result: nat, shift: nat, x: nat)
    requires shift < 64 && result < Pow2(shift)
    ensures Or(result, (x * Pow2(shift)) % TWO_64) == (result + x * Pow2(shift)) % TWO_64
  {
    var m, s := Pow2(64 - shift), Pow2(shift);
    WordSplit(shift);
    var high, low := Divide(x, m);
    ShiftedSum(x, high, low, m, s, result);
    OrIsPlus(low, shift, result);
    OrCommutes(result, low * s);
  }

  lemma WordSplit(shift: nat)
    requires shift <= 64
    ensures TWO_64 == Pow2(64 - shift) * Pow2(shift)
  {
    WordSizes();
    Pow2Add(64 - shift, shift);
  }

  lemma Divide(x: nat, m: nat) returns (high: nat, low: nat)
    requires m > 0
    ensures x == high * m + low && low < m
  {
    high, low := x / m, x % m;
  }

  /** Only the bits of x that stay below 2^64 after the shift survive. */
  lemma ShiftedSum(x: nat, high: nat, low: nat, m: nat, s: nat, result: nat)
    requires x == high * m + low && low < m && TWO_64 == m * s && result < s
    ensures (x * s) % TWO_64 == low * s && (result + x * s) % TWO_64 == low * s + result
  {
    Expand(s, high * m, low);
    TimesAssociative(high, m, s);
    SmallSum(low, m, s, result, TWO_64);
    ModUnique(x * s, TWO_64, high, low * s);
    ModUnique(result + x * s, TWO_64, high, low * s + result);
  }

  lemma SmallSum(low: nat, m: nat, s: nat, r: nat, w: nat)
    requires low < m && r < s && w == m * s
    ensures low * s + r < w
  {
    MulLe(low + 1, m, s);
    Expand(s, low, 1);
  }

  lemma BelowWord(shift: nat)
    requires shift <= 64
    ensures Pow2(shift) <= TWO_64
  {
    WordSizes();
    Pow2Monotone(shift, 64);
  }

  /** One turn of the reading loop, at byte p. */
  lemma ReadByte(buf: seq<Byte>, p: nat, shift: nat, result: nat, x: nat)
    requires p < |buf| && p < 10 && shift == 7 * p && x == buf[p] % 128 && result == Unsigned(buf[..p]) % TWO_64
    ensures Or(result, (x * Pow2(shift)) % TWO_64) == Unsigned(buf[..p + 1]) % TWO_64
  {
    var before := buf[..p];
    assert buf[..p + 1] == before + [buf[p]];
    UnsignedAppend(before, buf[p]);
    BelowWord(shift);
    ReadDigit(Unsigned(before), Unsigned(before + [buf[p]]), shift, result, x);
  }

  lemma ReadDigit(u: nat, u': nat, shift: nat, result: nat, x: nat)
    requires shift < 64 && u < Pow2(shift) <= TWO_64 && u' == u + x * Pow2(shift) && result == u % TWO_64
    ensures Or(result, (x * Pow2(shift)) % TWO_64) == u' % TWO_64
  {
    SmallWord(u);
    OrDigit(u, shift, x);
  }

  lemma SmallWord(u: nat)
    ensures u < TWO_64 ==> u % TWO_64 == u
  {
  }

  lemma LengthIs(buf: seq<Byte>, n: nat)
    requires n <= |buf| && forall i :: 0 <= i < n ==> buf[i] >= 128
    ensures n < |buf| && buf[n] < 128 ==> Length(buf) == n + 1
    ensures n == |buf| ==> Length(buf) == 0
    ensures Length(buf) == 0 || Length(buf) > n
  {
  }

  method ReadUleb128ToUint64(buf: seq<Byte>) returns (n: nat, r: Option<nat>)
    requires TenBytes(buf)
    ensures n == Length(buf)
    ensures r == if n == 0 then None else Some(Unsigned(buf[..n]) % TWO_64)
  {
    var p, shift, result := 0, 0, 0;
    while true
      invariant p <= |buf| && shift == 7 * p && forall i :: 0 <= i < p ==> buf[i] >= 128
      invariant result == Unsigned(buf[..p]) % TWO_64
      decreases |buf| - p
    {
      LengthIs(buf, p);
      if p >= |buf| {
        return 0, None;
      }
      ReadByte(buf, p, shift, result, buf[p] % 128);
      var byte := buf[p];
      p := p + 1;
      result := Or(result, ((byte % 128) * Pow2(shift)) % TWO_64);
      if byte < 128 {
        break;
      }
      shift := shift + 7;
    }
    return p, Some(result);
  }

  method ReadSleb128ToInt64(buf: seq<Byte>) returns (n: nat, r: Option<int>)
    requires TenBytes(buf)
    ensures n == Length(buf)
    ensures r == if n == 0 then None else Some(AsInt64(Signed(buf[..n]) % TWO_64))
  {
    var p, shift, result := 0, 0, 0;
    var byte: Byte;
    while true
      invariant p <= |buf| && shift == 7 * p && forall i :: 0 <= i < p ==> buf[i] >= 128
      invariant result == Unsigned(buf[..p]) % TWO_64
      decreases |buf| - p
    {
      LengthIs(buf, p);
      if p >= |buf| {
        return 0, None;
      }
      ReadByte(buf, p, shift, result, buf[p] % 128);
      byte := buf[p];
      p := p + 1;
      result := Or(result, ((byte % 128) * Pow2(shift)) % TWO_64);
      shift := shift + 7;
      if byte < 128 {
        break;
      }
    }
    SignBits(buf[..p], result);
    if shift < 64 && (byte / 64) % 2 == 1 {
      result := Or(result, TWO_64 - Pow2(shift));
    }
    return p, Some(AsInt64(result));
  }

  /** Extending the sign, or not, turns the unsigned reading into the signed one modulo 2^64. */
  lemma SignBits(bytes: seq<Byte>, result: nat)
    requires 0 < |bytes| <= 10 && result == Unsigned(bytes) % TWO_64
    ensures var shift, sign := 7 * |bytes|, (bytes[|bytes| - 1] / 64) % 2 == 1;
      && (shift < 64 ==> Pow2(shift) <= TWO_64)
      && Signed(bytes) % TWO_64 == if shift < 64 && sign then Or(result, TWO_64 - Pow2(shift)) else result
  {
    var shift, b := 7 * |bytes|, bytes[|bytes| - 1];
    SignedUnsigned(bytes);
    UnsignedAppend(bytes, 0);
    SignBit(b);
    ExtendSign(Unsigned(bytes), result, Signed(bytes), shift, b % 128 >= 64);
  }

  lemma ExtendSign(u: nat, result: nat, value: int, shift: nat, sign: bool)
    requires u < Pow2(shift) && result == u % TWO_64 && (shift < 64 || shift == 70)
    requires value == u - (if sign then Pow2(shift) else 0)
    ensures shift < 64 ==> Pow2(shift) <= TWO_64
    ensures value % TWO_64 == if shift < 64 && sign then Or(result, TWO_64 - Pow2(shift)) else result
  {
    if shift < 64 {
      OrSign(u, shift);
      ShortNumber(u, Pow2(shift), value);
    } else {
      Pow2Of70();
      TenByteNumber(u, value);
    }
  }

  lemma Pow2Of70()
    ensures Pow2(70) == 64 * TWO_64
  {
    WordSizes();
    Pow2Add(6, 64);
    assert Pow2(6) == 64;
  }

  lemma ShortNumber(u: nat, p: nat, value: int)
    requires u < p <= TWO_64
    ensures u % TWO_64 == u
    ensures value == u - p ==> value % TWO_64 == u + (TWO_64 - p)
  {
  }

  lemma TenByteNumber(u: nat, value: int)
    requires value == u || value == u - 64 * TWO_64
    ensures value % TWO_64 == u % TWO_64
  {
  }

  lemma SignBit(b: Byte)
    ensures (b / 64) % 2 == 1 <==> b % 128 >= 64
  {
  }

  /** `result |= -(1 << shift)`. */
  lemma OrSign(result: nat, shift: nat)
    requires shift < 64 && result < Pow2(shift)
    ensures Pow2(shift) <= TWO_64 && Or(result, TWO_64 - Pow2(shift)) == result + (TWO_64 - Pow2(shift))
  {
    WordSizes();
    Pow2Add(64 - shift, shift);
    var high := Pow2(64 - shift) - 1;
    Expand(Pow2(shift), Pow2(64 - shift), -1);
    Pow2Monotone(shift, 64);
    OrIsPlus(high, shift, result);
    OrCommutes(result, high * Pow2(shift));
  }

  method SkipLeb128(buf: seq<Byte>) returns (n: nat)
    ensures n == Length(buf)
  {
    var p := 0;
    while true
      invariant p <= |buf| && forall i :: 0 <= i < p ==> buf[i] >= 128
      decreases |buf| - p
    {
      LengthIs(buf, p);
      if p == |buf| {
        return 0;
      }
      var byte := buf[p];
      p := p + 1;
      if byte < 128 {
        return p;
      }
    }
  }

  // ----- Round trips -----

  /** An encoded uint64_t, whatever follows it, is read back with its length. */
  lemma UlebRoundTrip(v: nat, rest: seq<Byte>)
    requires v < TWO_64
    ensures var e := EncodeU(v);
      TenBytes(e + rest) && Length(e + rest) == |e| && Unsigned((e + rest)[..|e|]) % TWO_64 == v
  {
    var e := EncodeU(v);
    EncodedU(v);
    LengthEncoded(e, rest);
    WordSizes();
    Pow2Monotone(64, 70);
    EncodedULength(v, 10);
    assert (e + rest)[..|e|] == e;
  }

  lemma Int64Bytes(v: int)
    requires 0 <= v + TWO_63 && v < TWO_63
    ensures |EncodeS(v)| <= 10
  {
    WordSizes();
    Pow2Monotone(63, 69);
    EncodedSLength(v, 10);
  }

  lemma Int64Pattern(v: int)
    requires 0 <= v + TWO_63 && v < TWO_63
    ensures AsInt64(v % TWO_64) == v
  {
  }

  /** An encoded int64_t, whatever follows it, is read back with its length. */
  lemma SlebRoundTrip(v: int, rest: seq<Byte>)
    requires 0 <= v + TWO_63 && v < TWO_63
    ensures var e := EncodeS(v);
      && TenBytes(e + rest) && Length(e + rest) == |e| && e != []
      && AsInt64(Signed((e + rest)[..|e|]) % TWO_64) == v
  {
    var e := EncodeS(v);
    EncodedS(v);
    LengthEncoded(e, rest);
    Int64Bytes(v);
    assert (e + rest)[..|e|] == e;
    Int64Pattern(v);
  }

  /** The examples of the standard. */
  lemma Examples()
    ensures EncodeU(2) == [2] && EncodeU(127) == [127] && EncodeU(128) == [0x80, 1] && EncodeU(129) == [0x81, 1]
    ensures EncodeU(12857) == [0xb9, 0x64]
    ensures EncodeS(2) == [2] && EncodeS(-2) == [0x7e] && EncodeS(127) == [0xff, 0] && EncodeS(-127) == [0x81, 0x7f]
    ensures EncodeS(128) == [0x80, 1] && EncodeS(-128) == [0x80, 0x7f] && EncodeS(129) == [0x81, 1]
    ensures EncodeS(-129) == [0xff, 0x7e]
  {
  }
}
