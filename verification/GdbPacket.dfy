/** The GDB remote protocol codec of libgloss: hex dumps, and packets framed as $<payload>#<checksum>. */
module GdbPacket {
  import opened Words

  const DOLLAR: Byte := 36
  const HASH: Byte := 35
  const PLUS: Byte := 43
  const BUFMAX: nat := 2048

  // ----- Hex digits -----

  /** `hex2digit`; -1 is its ERROR. */
  function Hex2Digit(digit: int): int {
    if digit == 0 then 0
    else if 48 <= digit <= 57 then digit - 48
    else if 97 <= digit <= 102 then digit - 97 + 10
    else if 65 <= digit <= 70 then digit - 65 + 10
    else -1
  }

  /** The byte that a pair of characters stands for. A character that is no digit sets bits. */
  function HexPair(h: Byte, l: Byte): Byte {
    var high, low := Hex2Digit(h), Hex2Digit(l);
    if low < 0 then 255 else if high < 0 then 240 + low else 16 * high + low
  }

  lemma OrNibble(high: nat, low: nat)
    requires high % 16 == 0 && low < 16
    ensures Or(high, low) == high + low
  {
    assert Pow2(4) == 16;
    OrIsPlus(high / 16, 4, low);
  }

  /** The hex digits of both cases, and NUL as 0; nothing else is a digit. */
  lemma HexDigits(x: int)
    ensures forall d :: 0 <= d < 16 ==> Hex2Digit(HexDigit(d)) == d
    ensures forall d :: 10 <= d < 16 ==> Hex2Digit(HexDigit(d) - 32) == d
    ensures Hex2Digit(x) == -1 || x == 0 || x == HexDigit(Hex2Digit(x))
         || (Hex2Digit(x) >= 10 && x == HexDigit(Hex2Digit(x)) - 32)
    ensures Hex2Digit(0) == 0
  {
  }

  /** `ch = hex2digit(h) << 4; ch |= hex2digit(l)` in an unsigned char; or-ing with -1 sets all bits. */
  function OrPair(h: Byte, l: Byte): (ch: Byte)
    ensures ch == HexPair(h, l)
  {
    var high := (Hex2Digit(h) * 16) % 256;
    HighDigit(Hex2Digit(h));
    if Hex2Digit(l) < 0 then 255
    else
      OrNibble(high, Hex2Digit(l));
      Or(high, Hex2Digit(l))
  }

  lemma HighDigit(v: int)
    requires -1 <= v < 16
    ensures (v * 16) % 256 == if v == -1 then 240 else 16 * v
  {
  }

  lemma DigitBack(d: nat)
    requires d < 16
    ensures Hex2Digit(HexDigit(d)) == d
  {
  }

  lemma HexPairInverse(b: Byte)
    ensures HexPair(HexDigit(b / 16), HexDigit(b % 16)) == b
  {
    DigitBack(b / 16);
    DigitBack(b % 16);
  }

  function HexOf(mem: seq<Byte>): (r: seq<Byte>)
    ensures |r| == 2 * |mem|
  {
    if mem == [] then [] else [HexDigit(mem[0] / 16), HexDigit(mem[0] % 16)] + HexOf(mem[1..])
  }

  function BytesOf(hex: seq<Byte>, count: nat): (r: seq<Byte>)
    requires 2 * count <= |hex|
    ensures |r| == count
  {
    if count == 0 then [] else [HexPair(hex[0], hex[1])] + BytesOf(hex[2..], count - 1)
  }

  /** hex2mem undoes mem2hex on every byte sequence. */
  lemma {:induction false} HexRoundTrip(mem: seq<Byte>, rest: seq<Byte>)
    ensures BytesOf(HexOf(mem) + rest, |mem|) == mem
  {
    if mem != [] {
      HexPairInverse(mem[0]);
      assert (HexOf(mem) + rest)[2..] == HexOf(mem[1..]) + rest;
      HexRoundTrip(mem[1..], rest);
    }
  }

  lemma {:induction false} HexOfAppend(mem: seq<Byte>, b: Byte)
    ensures HexOf(mem + [b]) == HexOf(mem) + [HexDigit(b / 16), HexDigit(b % 16)]
  {
    if mem == [] {
      assert mem + [b] == [b];
    } else {
      assert (mem + [b])[1..] == mem[1..] + [b];
      HexOfAppend(mem[1..], b);
    }
  }

  lemma {:induction false} BytesOfAppend(hex: seq<Byte>, count: nat)
    requires 2 * count + 2 <= |hex|
    ensures BytesOf(hex, count + 1) == BytesOf(hex, count) + [HexPair(hex[2 * count], hex[2 * count + 1])]
  {
    if count > 0 {
      BytesOfAppend(hex[2..], count - 1);
      var tail := hex[2..];
      assert tail[2 * count - 2] == hex[2 * count] && tail[2 * count - 1] == hex[2 * count + 1];
      var first, rest := HexPair(hex[0], hex[1]), BytesOf(tail, count - 1);
      assert [first] + (rest + [HexPair(hex[2 * count], hex[2 * count + 1])])
          == [first] + rest + [HexPair(hex[2 * count], hex[2 * count + 1])];
    }
  }

  /** `mem2hex` when no access faults. The result is the position of the final NUL. */
  method Mem2Hex(mem: array<Byte>, buf: array<Byte>, count: nat) returns (end: nat)
    requires mem != buf && count <= mem.Length && 2 * count < buf.Length
    modifies buf
    ensures end == 2 * count && buf[..end] == HexOf(mem[..count]) && buf[end] == 0
    ensures buf[end + 1..] == old(buf[2 * count + 1..])
  {
    var i := 0;
    while i < count
      invariant i <= count && buf[..2 * i] == HexOf(mem[..i])
      invariant forall j :: 2 * count < j < buf.Length ==> buf[j] == old(buf[j])
    {
      var ch := mem[i];
      HexOfAppend(mem[..i], ch);
      assert mem[..i + 1] == mem[..i] + [ch];
      buf[2 * i] := HexDigit(ch / 16);
      buf[2 * i + 1] := HexDigit(ch % 16);
      assert buf[..2 * i + 2] == buf[..2 * i] + [HexDigit(ch / 16), HexDigit(ch % 16)];
      i := i + 1;
    }
    end := 2 * count;
    buf[end] := 0;
  }

  /** `hex2mem` when no access faults. The result is the position after the last byte written. */
  method Hex2Mem(buf: array<Byte>, mem: array<Byte>, count: nat) returns (end: nat)
    requires mem != buf && count <= mem.Length && 2 * count <= buf.Length
    modifies mem
    ensures end == count && mem[..end] == BytesOf(buf[..], count) && mem[end..] == old(mem[count..])
  {
    var i := 0;
    while i < count
      invariant i <= count && mem[..i] == BytesOf(buf[..], i)
      invariant forall j :: i <= j < mem.Length ==> mem[j] == old(mem[j])
    {
      BytesOfAppend(buf[..], i);
      mem[i] := OrPair(buf[2 * i], buf[2 * i + 1]);
      assert mem[..i + 1] == mem[..i] + [mem[i]];
      i := i + 1;
    }
    end := count;
  }

  // ----- Packets -----

  function Checksum(p: seq<Byte>): Byte {
    if p == [] then 0 else (Checksum(p[..|p| - 1]) + p[|p| - 1]) % 256
  }

  /** The checksum of one byte is that byte, and checksums add up modulo 256. */
  lemma ChecksumOne(c: Byte)
    ensures Checksum([c]) == c
  {
    assert [c][..0] == [];
  }

  lemma {:induction false} ChecksumSum(a: seq<Byte>, b: seq<Byte>)
    ensures Checksum(a + b) == (Checksum(a) + Checksum(b)) % 256
    decreases |b|
  {
    if b == [] {
      assert a + b == a;
    } else {
      var b', c := b[..|b| - 1], b[|b| - 1];
      ChecksumSum(a, b');
      SumPush(a, b', c);
      assert a + b == a + b' + [c] && b == b' + [c];
    }
  }

  lemma SumPush(a: seq<Byte>, b: seq<Byte>, c: Byte)
    requires Checksum(a + b) == (Checksum(a) + Checksum(b)) % 256
    ensures Checksum(a + b + [c]) == (Checksum(a) + Checksum(b + [c])) % 256
  {
    ChecksumPush(a + b, c);
    ChecksumPush(b, c);
    AddThree(Checksum(a), Checksum(b), c);
  }

  lemma ChecksumPush(a: seq<Byte>, c: Byte)
    ensures Checksum(a + [c]) == (Checksum(a) + c) % 256
  {
    assert (a + [c])[..|a|] == a;
  }

  lemma AddThree(x: nat, y: nat, z: nat)
    ensures ((x + y) % 256 + z) % 256 == (x + (y + z) % 256) % 256
  {
  }

  function Transmission(p: seq<Byte>): seq<Byte> {
    [DOLLAR] + p + [HASH, HexDigit(Checksum(p) / 16), HexDigit(Checksum(p) % 16)]
  }

  function Repeat(p: seq<Byte>, n: nat): seq<Byte> {
    if n == 0 then [] else Repeat(p, n - 1) + p
  }

  /** How a call of `putpacket` ends: with a '+', waiting for a reply that never comes, or because `outbyte` refused a
      byte of the payload. */
  datatype Ending = Acknowledged | Unanswered | Refused

  /** The first byte of the payload from i on that `outbyte` refuses; `start` is the number of bytes sent before. */
  function Accepted(p: seq<Byte>, start: nat, accepts: nat -> bool, i: nat): (j: nat)
    requires i <= |p|
    ensures i <= j <= |p| && (forall b :: start + i <= b < start + j ==> accepts(b))
    ensures j < |p| ==> !accepts(start + j)
    decreases |p| - i
  {
    if i == |p| || !accepts(start + i) then i else Accepted(p, start, accepts, i + 1)
  }

  /** All bytes on the line at the end, `before` having been sent already. */
  function Sent(p: seq<Byte>, replies: seq<Byte>, accepts: nat -> bool, before: seq<Byte>): (Ending, seq<Byte>)
    decreases |replies|
  {
    var j := Accepted(p, |before| + 1, accepts, 0);
    if j < |p| then (Refused, before + ([DOLLAR] + p[..j]))
    else if replies == [] then (Unanswered, before + Transmission(p))
    else if replies[0] % 128 == PLUS then (Acknowledged, before + Transmission(p))
    else Sent(p, replies[1..], accepts, before + Transmission(p))
  }

  /** On a line that takes every byte, the frame goes out once for each reply up to the first '+', or once more than
      there are replies if none of them is one. */
  lemma {:induction false} SentUntilAck(p: seq<Byte>, replies: seq<Byte>, accepts: nat -> bool, k: nat, n: nat)
    requires (forall i :: accepts(i)) && k <= |replies| && forall i :: 0 <= i < k ==> replies[i] % 128 != '+' as int
    requires k < |replies| ==> replies[k] % 128 == '+' as int
    ensures Sent(p, replies, accepts, Repeat(Transmission(p), n))
         == (if k < |replies| then Acknowledged else Unanswered, Repeat(Transmission(p), n + k + 1))
    decreases k
  {
    SentOnce(p, replies, accepts, Repeat(Transmission(p), n));
    if k > 0 { SentUntilAck(p, replies[1..], accepts, k - 1, n + 1); }
  }

  lemma SentOnce(p: seq<Byte>, replies: seq<Byte>, accepts: nat -> bool, before: seq<Byte>)
    requires forall i :: accepts(i)
    ensures Sent(p, replies, accepts, before) ==
      if replies == [] then (Unanswered, before + Transmission(p))
      else if replies[0] % 128 == PLUS then (Acknowledged, before + Transmission(p))
      else Sent(p, replies[1..], accepts, before + Transmission(p))
  {
    AllAccepted(p, |before| + 1, accepts, 0);
  }

  lemma {:induction false} AllAccepted(p: seq<Byte>, start: nat, accepts: nat -> bool, i: nat)
    requires (forall j :: accepts(j)) && i <= |p|
    ensures Accepted(p, start, accepts, i) == |p|
    decreases |p| - i
  {
    if i < |p| { AllAccepted(p, start, accepts, i + 1); }
  }

  /** Whatever is refused or answered, the line carries complete frames, and at its end perhaps the start of one. */
  lemma {:induction false} SentFrames(p: seq<Byte>, replies: seq<Byte>, accepts: nat -> bool, n: nat) returns (k: nat)
    ensures var r := Sent(p, replies, accepts, Repeat(Transmission(p), n));
      && n <= k <= n + |replies| && Repeat(Transmission(p), k) <= r.1 <= Repeat(Transmission(p), k + 1)
      && (r.0.Refused? <==> r.1 != Repeat(Transmission(p), k + 1))
    decreases |replies|
  {
    var before, t := Repeat(Transmission(p), n), Transmission(p);
    var j := Accepted(p, |before| + 1, accepts, 0);
    k := n;
    if j < |p| {
      assert [DOLLAR] + p[..j] == t[..j + 1];
      assert before + t[..j + 1] == (before + t)[..|before| + j + 1];
    } else if replies != [] && replies[0] % 128 != PLUS {
      assert before + t == Repeat(t, n + 1);
      k := SentFrames(p, replies[1..], accepts, n + 1);
    }
  }

  /** The payload loop of `putpacket`: sends until the NUL or the first refused byte. */
  method SendPayload(buffer: seq<Byte>, ghost len: nat, before: seq<Byte>, accepts: nat -> bool)
    returns (sent: seq<Byte>, checksum: Byte, ok: bool)
    requires len < |buffer| && buffer[len] == 0 && forall i :: 0 <= i < len ==> buffer[i] != 0
    ensures var j := Accepted(buffer[..len], |before| + 1, accepts, 0);
      && sent == before + ([DOLLAR] + buffer[..j]) && (ok <==> j == len)
    ensures ok ==> checksum == Checksum(buffer[..len])
  {
    sent, checksum, ok := before + [DOLLAR], 0, true;
    var count := 0;
    while buffer[count] != 0
      invariant count <= len && checksum == Checksum(buffer[..count])
      invariant sent == before + ([DOLLAR] + buffer[..count])
      invariant Accepted(buffer[..len], |before| + 1, accepts, 0)
             == Accepted(buffer[..len], |before| + 1, accepts, count)
      decreases len - count
    {
      var ch := buffer[count];
      assert buffer[..count + 1] == buffer[..count] + [ch];
      assert buffer[..count + 1][..count] == buffer[..count];
      if !accepts(|sent|) {
        return sent, checksum, false;
      }
      sent := sent + [ch];
      checksum := (checksum + ch) % 256;
      count := count + 1;
    }
  }

  /** `putpacket`: transmits the bytes of the buffer up to its NUL, again and again until a '+' comes back. */
  method PutPacket(buffer: seq<Byte>, ghost len: nat, replies: seq<Byte>, accepts: nat -> bool)
    returns (end: Ending, sent: seq<Byte>)
    requires len < |buffer| && buffer[len] == 0 && forall i :: 0 <= i < len ==> buffer[i] != 0
    ensures (end, sent) == Sent(buffer[..len], replies, accepts, [])
  {
    sent := [];
    var rest := replies;
    while true
      invariant Sent(buffer[..len], rest, accepts, sent) == Sent(buffer[..len], replies, accepts, [])
      decreases |rest|
    {
      ghost var before := sent;
      ghost var j := Accepted(buffer[..len], |before| + 1, accepts, 0);
      assert buffer[..j] == buffer[..len][..j];
      var checksum, ok;
      sent, checksum, ok := SendPayload(buffer, len, sent, accepts);
      if !ok {
        return Refused, sent;
      }
      sent := sent + [HASH];
      sent := sent + [HexDigit(checksum / 16)];
      sent := sent + [HexDigit(checksum % 16)];
      assert sent == before + Transmission(buffer[..len]);
      if rest == [] {
        return Unanswered, sent;
      }
      if rest[0] % 128 == PLUS {
        return Acknowledged, sent;
      }
      rest := rest[1..];
    }
  }

  /** What the input makes `getpacket` do: return a packet and go on with the rest, return an unterminated buffer after
      an over-long packet whose checksum happens to be 255, or wait for more input. */
  datatype Outcome =
    | Packet(payload: seq<Byte>, rest: seq<Byte>)
    | Unterminated(bytes: seq<Byte>, rest: seq<Byte>)
    | Waiting

  datatype Scan = More | Full(body: seq<Byte>, rest: seq<Byte>) | Ended(body: seq<Byte>, rest: seq<Byte>)

  /** The input after its first '$', if there is one. */
  function AfterStart(input: seq<Byte>): (r: Scan)
    ensures r.Ended? ==> |r.rest| < |input|
    ensures !r.Full?
  {
    if input == [] then More else if input[0] % 128 == DOLLAR then Ended([], input[1..]) else AfterStart(input[1..])
  }

  /** The bytes up to '#', at most `room` of them. */
  function Body(input: seq<Byte>, room: nat): (r: Scan)
    ensures !r.More? ==> |r.rest| <= |input|
  {
    if room == 0 then Full([], input)
    else if input == [] then More
    else if input[0] % 128 == HASH then Ended([], input[1..])
    else match Body(input[1..], room - 1)
      case More => More
      case Full(body, rest) => Full([input[0] % 128] + body, rest)
      case Ended(body, rest) => Ended([input[0] % 128] + body, rest)
  }

  /** `bufmax` is the size of the buffer, BUFMAX. */
  function Receive(input: seq<Byte>, bufmax: nat): Outcome
    decreases |input|
  {
    match AfterStart(input)
    case More => Waiting
    case Full(_, _) => Waiting
    case Ended(_, start) =>
      match Body(start, bufmax)
      case More => Waiting
      case Full(body, rest) => if Checksum(body) == 255 then Unterminated(body, rest) else Receive(rest, bufmax)
      case Ended(body, rest) => if |rest| < 2 then Waiting else Packet(body, rest[2..])
  }

  lemma {:induction false} SkipNoise(noise: seq<Byte>, input: seq<Byte>)
    requires forall i :: 0 <= i < |noise| ==> noise[i] % 128 != DOLLAR
    ensures AfterStart(noise + [DOLLAR] + input) == Ended([], input)
  {
    var all := noise + [DOLLAR] + input;
    if noise == [] {
      assert all[1..] == input;
    } else {
      assert all[1..] == noise[1..] + [DOLLAR] + input;
      SkipNoise(noise[1..], input);
    }
  }

  lemma {:induction false} ReadBody(p: seq<Byte>, rest: seq<Byte>, room: nat)
    requires |p| < room && forall i :: 0 <= i < |p| ==> p[i] < 128 && p[i] != HASH
    ensures Body(p + [HASH] + rest, room) == Ended(p, rest)
  {
    var all := p + [HASH] + rest;
    if p == [] {
      assert all[1..] == rest;
    } else {
      assert all[1..] == p[1..] + [HASH] + rest;
      ReadBody(p[1..], rest, room - 1);
    }
  }

  /** After any noise without '$', a framed 7-bit payload without '#' is received whole, whatever two bytes stand for
      the checksum: the code answers '+' without comparing them. */
  lemma ChecksumIgnored(noise: seq<Byte>, p: seq<Byte>, c1: Byte, c2: Byte, rest: seq<Byte>, bufmax: nat)
    requires forall i :: 0 <= i < |noise| ==> noise[i] % 128 != DOLLAR
    requires |p| < bufmax && forall i :: 0 <= i < |p| ==> p[i] < 128 && p[i] != HASH
    ensures Receive(noise + ([DOLLAR] + p + [HASH, c1, c2]) + rest, bufmax) == Packet(p, rest)
  {
    var tail := [c1, c2] + rest;
    assert noise + ([DOLLAR] + p + [HASH, c1, c2]) + rest == noise + [DOLLAR] + (p + [HASH] + tail);
    SkipNoise(noise, p + [HASH] + tail);
    ReadBody(p, tail, bufmax);
    assert tail[2..] == rest;
  }

  /** What putpacket sends is what getpacket returns, and its two check digits denote the byte sum modulo 256. */
  lemma PacketRoundTrip(noise: seq<Byte>, p: seq<Byte>, rest: seq<Byte>, bufmax: nat)
    requires forall i :: 0 <= i < |noise| ==> noise[i] % 128 != DOLLAR
    requires |p| < bufmax && forall i :: 0 <= i < |p| ==> p[i] < 128 && p[i] != HASH
    ensures Receive(noise + Transmission(p) + rest, bufmax) == Packet(p, rest)
    ensures var t := Transmission(p); HexPair(t[|p| + 2], t[|p| + 3]) == Checksum(p)
  {
    ChecksumIgnored(noise, p, HexDigit(Checksum(p) / 16), HexDigit(Checksum(p) % 16), rest, bufmax);
    HexPairInverse(Checksum(p));
  }

  lemma {:induction false} RepeatFront(p: seq<Byte>, n: nat)
    ensures Repeat(p, n + 1) == p + Repeat(p, n)
  {
    if n > 0 {
      RepeatFront(p, n - 1);
      assert p + Repeat(p, n - 1) + p == p + (Repeat(p, n - 1) + p);
    } else {
      assert Repeat(p, 0) + p == p + Repeat(p, 0);
    }
  }

  /** A receiver reads each of the frames that putpacket sends in vain as the same packet, one after the other. */
  lemma FramesReceived(p: seq<Byte>, n: nat, rest: seq<Byte>, bufmax: nat)
    requires |p| < bufmax && forall i :: 0 <= i < |p| ==> p[i] < 128 && p[i] != HASH
    ensures Receive(Repeat(Transmission(p), n + 1) + rest, bufmax) == Packet(p, Repeat(Transmission(p), n) + rest)
  {
    var t := Transmission(p);
    RepeatFront(t, n);
    assert t + Repeat(t, n) + rest == [] + t + (Repeat(t, n) + rest);
    PacketRoundTrip([], p, Repeat(t, n) + rest, bufmax);
  }

  /** The high bit of every input byte is ignored. */
  function Masked(input: seq<Byte>): (r: seq<Byte>)
    ensures |r| == |input|
  {
    seq(|input|, i requires 0 <= i < |input| => input[i] % 128)
  }

  function MaskedScan(s: Scan): Scan {
    match s
    case More => More
    case Full(body, rest) => Full(body, Masked(rest))
    case Ended(body, rest) => Ended(body, Masked(rest))
  }

  lemma MaskedTail(input: seq<Byte>)
    requires input != []
    ensures Masked(input)[0] == input[0] % 128 && Masked(input)[1..] == Masked(input[1..])
  {
  }

  lemma {:induction false} MaskedStart(input: seq<Byte>)
    ensures AfterStart(Masked(input)) == MaskedScan(AfterStart(input))
  {
    if input != [] {
      MaskedTail(input);
      MaskedStart(input[1..]);
    }
  }

  lemma {:induction false} MaskedBody(input: seq<Byte>, room: nat)
    ensures Body(Masked(input), room) == MaskedScan(Body(input, room))
    decreases |input|
  {
    if room > 0 && input != [] {
      MaskedTail(input);
      MaskedBody(input[1..], room - 1);
    }
  }

  lemma {:induction false} HighBitIgnored(input: seq<Byte>, bufmax: nat)
    ensures Receive(Masked(input), bufmax) == match Receive(input, bufmax)
      case Packet(payload, rest) => Packet(payload, Masked(rest))
      case Unterminated(bytes, rest) => Unterminated(bytes, Masked(rest))
      case Waiting => Waiting
    decreases |input|
  {
    MaskedStart(input);
    match AfterStart(input)
    case More =>
    case Full(_, _) =>
    case Ended(_, start) =>
      MaskedBody(start, bufmax);
      match Body(start, bufmax)
      case More =>
      case Full(body, rest) => if Checksum(body) != 255 { HighBitIgnored(rest, bufmax); }
      case Ended(body, rest) => if |rest| >= 2 { assert Masked(rest)[2..] == Masked(rest[2..]); }
  }

  /** "E01" goes out as "$E01#a6", and the byte 0xa6 as "a6". */
  lemma ExampleFrame()
    ensures Transmission([69, 48, 49]) == [36, 69, 48, 49, 35, 97, 54]
    ensures HexOf([0xa6]) == [97, 54]
  {
    assert [69, 48, 49][..2] == [69, 48] && [69, 48][..1] == [69] && [69][..0] == [];
    assert Checksum([69, 48, 49]) == 0xa6;
    assert [0xa6][1..] == [];
  }

  // ----- Packets as long as the buffer -----

  lemma {:induction false} FillsBuffer(p: seq<Byte>, rest: seq<Byte>)
    requires forall i :: 0 <= i < |p| ==> p[i] < 128 && p[i] != HASH
    ensures Body(p + rest, |p|) == Full(p, rest)
  {
    if p == [] {
      assert p + rest == rest;
    } else {
      assert (p + rest)[1..] == p[1..] + rest;
      FillsBuffer(p[1..], rest);
    }
  }

  /** A packet that fills the buffer before its '#' is dropped, and the rest of it taken for noise, unless its byte sum
      is 255, which is what the code has put in the place of the checksum: then it is returned without a NUL. */
  lemma OverLong(noise: seq<Byte>, p: seq<Byte>, rest: seq<Byte>)
    requires forall i :: 0 <= i < |noise| ==> noise[i] % 128 != DOLLAR
    requires forall i :: 0 <= i < |p| ==> p[i] < 128 && p[i] != HASH
    ensures Receive(noise + [DOLLAR] + (p + rest), |p|)
         == if Checksum(p) == 255 then Unterminated(p, rest) else Receive(rest, |p|)
  {
    SkipNoise(noise, p + rest);
    FillsBuffer(p, rest);
  }

  /** n letters 'A'. */
  function Letters(n: nat): (r: seq<Byte>)
    ensures |r| == n && forall i :: 0 <= i < n ==> r[i] == 65
  {
    seq(n, i => 65)
  }

  lemma {:induction false} LettersSum(n: nat)
    ensures Checksum(Letters(n)) == (65 * n) % 256
  {
    if n > 0 {
      LettersSum(n - 1);
      assert Letters(n)[..n - 1] == Letters(n - 1);
      AddMod(65 * (n - 1), 65);
    }
  }

  lemma AddMod(x: nat, c: nat)
    ensures (x % 256 + c) % 256 == (x + c) % 256
  {
  }

  lemma SumTo255()
    ensures Checksum(Letters(BUFMAX - 1) + [64]) == 255
  {
    var p := Letters(BUFMAX - 1);
    LettersSum(BUFMAX - 1);
    assert (p + [64])[..|p|] == p;
  }

  /** Such a packet: 2047 letters 'A' and an '@' come back without a NUL, whatever follows. */
  lemma OverLongReturned(rest: seq<Byte>)
    ensures var p := Letters(BUFMAX - 1) + [64];
      |p| == 2048 && Checksum(p) == 255 && Receive([DOLLAR] + (p + rest), BUFMAX) == Unterminated(p, rest)
  {
    var p := Letters(BUFMAX - 1) + [64];
    SumTo255();
    OverLong([], p, rest);
    assert [] + [DOLLAR] + (p + rest) == [DOLLAR] + (p + rest);
  }

  /** And one that is dropped: 2048 letters 'A'. */
  lemma OverLongDropped(rest: seq<Byte>)
    ensures Receive([DOLLAR] + (Letters(BUFMAX) + rest), BUFMAX) == Receive(rest, BUFMAX)
  {
    LettersSum(BUFMAX);
    OverLong([], Letters(BUFMAX), rest);
    assert [] + [DOLLAR] + (Letters(BUFMAX) + rest) == [DOLLAR] + (Letters(BUFMAX) + rest);
  }

  // ----- getpacket -----

  method Store(buffer: array<Byte>, count: nat, ch: Byte, checksum: Byte, ghost prefix: seq<Byte>)
    returns (checksum': Byte)
    requires count == |prefix| < buffer.Length && buffer[..count] == prefix && checksum == Checksum(prefix)
    modifies buffer
    ensures buffer[..count + 1] == prefix + [ch] && checksum' == Checksum(prefix + [ch])
  {
    ChecksumPush(prefix, ch);
    checksum' := (checksum + ch) % 256;
    buffer[count] := ch;
    assert buffer[..count + 1] == buffer[..count] + [ch];
  }

  /** The inner loop of `getpacket`: fills the buffer up to a '#' and keeps the running checksum. */
  method FillBuffer(buffer: array<Byte>, input: seq<Byte>) returns (s: Scan, checksum: Byte)
    modifies buffer
    ensures s == Body(input, buffer.Length)
    ensures !s.More? ==> |s.body| <= buffer.Length && buffer[..|s.body|] == s.body
    ensures s.Full? ==> |s.body| == buffer.Length && checksum == Checksum(s.body)
    ensures s.Ended? ==> |s.body| < buffer.Length
  {
    var rest, count := input, 0;
    checksum := 0;
    ghost var prefix: seq<Byte> := [];
    ghost var goal := Body(input, buffer.Length);
    FillStart(goal);
    while count < buffer.Length
      invariant count == |prefix| <= buffer.Length && buffer[..count] == prefix && checksum == Checksum(prefix)
      invariant goal == Extend(prefix, Body(rest, buffer.Length - count))
      decreases buffer.Length - count
    {
      FillStep(prefix, rest, buffer.Length - count);
      if rest == [] {
        return More, checksum;
      }
      var ch := rest[0] % 128;
      if ch == HASH {
        s := Ended(buffer[..count], rest[1..]);
        assert s == goal;
        return;
      }
      checksum := Store(buffer, count, ch, checksum, prefix);
      prefix := prefix + [ch];
      count := count + 1;
      rest := rest[1..];
    }
    FillEnd(prefix, rest);
    assert buffer[..] == prefix;
    s := Full(buffer[..], rest);
    assert s == goal;
  }

  lemma FillStart(s: Scan)
    ensures Extend([], s) == s
  {
  }

  /** One turn of that loop. */
  lemma FillStep(prefix: seq<Byte>, rest: seq<Byte>, room: nat)
    requires room > 0
    ensures Extend(prefix, Body(rest, room)) ==
      if rest == [] then More
      else if rest[0] % 128 == HASH then Ended(prefix, rest[1..])
      else Extend(prefix + [rest[0] % 128], Body(rest[1..], room - 1))
  {
    if rest != [] && rest[0] % 128 != HASH { ExtendOne(prefix, rest[0] % 128, Body(rest[1..], room - 1)); }
  }

  lemma FillEnd(prefix: seq<Byte>, rest: seq<Byte>)
    ensures Extend(prefix, Body(rest, 0)) == Full(prefix, rest)
  {
  }

  /** The loop that waits for '$'. */
  method SkipToStart(input: seq<Byte>) returns (s: Scan)
    ensures s == AfterStart(input)
  {
    var rest := input;
    while rest != [] && rest[0] % 128 != DOLLAR
      invariant AfterStart(rest) == AfterStart(input)
      decreases |rest|
    {
      rest := rest[1..];
    }
    s := if rest == [] then More else Ended([], rest[1..]);
  }

  /** `getpacket` over a finite input; `acks` counts the '+' it sends. */
  method GetPacket(buffer: array<Byte>, input: seq<Byte>) returns (r: Outcome, acks: nat)
    modifies buffer
    ensures r == Receive(input, buffer.Length) && acks == (if r.Packet? then 1 else 0)
    ensures r.Packet? ==>
      |r.payload| < buffer.Length && buffer[..|r.payload|] == r.payload && buffer[|r.payload|] == 0
    ensures r.Unterminated? ==> buffer[..] == r.bytes
  {
    var rest := input;
    acks := 0;
    while true
      invariant Receive(rest, buffer.Length) == Receive(input, buffer.Length)
      decreases |rest|
    {
      var start := SkipToStart(rest);
      if start.More? {
        return Waiting, acks;
      }
      var body, checksum := FillBuffer(buffer, start.rest);
      match body {
        case More =>
          return Waiting, acks;
        case Full(bytes, after) =>
          if checksum == 255 {
            return Unterminated(bytes, after), acks;
          }
          rest := after;
        case Ended(payload, after) =>
          buffer[|payload|] := 0;
          if |after| < 2 {
            return Waiting, acks;
          }
          acks := acks + 1;
          return Packet(payload, after[2..]), acks;
      }
    }
  }

  function Extend(prefix: seq<Byte>, s: Scan): Scan {
    match s
    case More => More
    case Full(body, rest) => Full(prefix + body, rest)
    case Ended(body, rest) => Ended(prefix + body, rest)
  }

  lemma ExtendOne(prefix: seq<Byte>, ch: Byte, s: Scan)
    ensures Extend(prefix, Extend([ch], s)) == Extend(prefix + [ch], s)
  {
    if !s.More? { assert prefix + ([ch] + s.body) == prefix + [ch] + s.body; }
  }
}
