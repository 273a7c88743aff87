/** The kernel's formatted output: the format state machine and the number printer. */
module KernelWrite {
  import opened Words

  type Word = w: int | 0 <= w < WORD

  const WORD: int := 0x1_0000_0000
  const HALF_WORD: int := 0x8000_0000

  const PERCENT: Byte := 37
  const MINUS: Byte := 45

  datatype State = Start | LengthState | ShortState | LongState | Spec
  datatype Length = Default | ShortShort | Short | Long | LongLong

  /** The stack words above `fmt`, and the strings that pointers among them lead to. */
  datatype Args = Args(words: nat -> Word, strings: Word -> seq<Byte>)

  // ----- Numbers -----

  // The digits of `possibleChars` are HexDigit(0) to HexDigit(15).

  function DigitValue(c: Byte): nat { if c < 97 then (if c < 48 then 0 else c - 48) else c - 97 + 10 }

  function Numeral(n: nat, radix: nat): (r: seq<Byte>)
    requires 2 <= radix <= 16
    ensures r != []
    decreases n
  {
    if n < radix then [HexDigit(n)] else Numeral(n / radix, radix) + [HexDigit(n % radix)]
  }

  function Value(digits: seq<Byte>, radix: nat): nat {
    if digits == [] then 0 else Value(digits[..|digits| - 1], radix) * radix + DigitValue(digits[|digits| - 1])
  }

  lemma QuotientStep(n: nat, radix: nat, q: nat, d: nat)
    requires 2 <= radix <= 16 && q == n / radix && d == n % radix
    ensures d < radix && n == q * radix + d && (n > 0 ==> q < n) && (q == 0 <==> n < radix)
  {
    DivMod(n, radix);
    MulLe(2, radix, q);
    if q > 0 { MulLe(1, q, radix); }
  }

  /** One step of the recursion, by quotient and remainder. */
  lemma NumeralStep(n: nat, radix: nat, q: nat, d: nat)
    requires 2 <= radix <= 16 && q == n / radix && d == n % radix
    ensures d < radix && n == q * radix + d && (n > 0 ==> q < n)
    ensures Numeral(n, radix) == (if q == 0 then [] else Numeral(q, radix)) + [HexDigit(d)]
  {
    QuotientStep(n, radix, q, d);
  }

  /** The numeral parses back to the number. */
  lemma {:induction false} NumeralValue(n: nat, radix: nat)
    requires 2 <= radix <= 16
    ensures Value(Numeral(n, radix), radix) == n
    decreases n
  {
    var q, d := n / radix, n % radix;
    NumeralStep(n, radix, q, d);
    ValueAppend(if q == 0 then [] else Numeral(q, radix), HexDigit(d), radix);
    if q > 0 { NumeralValue(q, radix); }
  }

  lemma ValueAppend(digits: seq<Byte>, c: Byte, radix: nat)
    ensures Value(digits + [c], radix) == Value(digits, radix) * radix + DigitValue(c)
  {
    assert (digits + [c])[..|digits|] == digits;
  }

  /** It has no redundant leading zero. */
  lemma {:induction false} NumeralLead(n: nat, radix: nat)
    requires 2 <= radix <= 16
    ensures n > 0 ==> DigitValue(Numeral(n, radix)[0]) > 0
    ensures n == 0 ==> Numeral(n, radix) == [48]
    decreases n
  {
    if n >= radix { NumeralLead(n / radix, radix); }
  }

  function Power(b: nat, k: nat): nat { if k == 0 then 1 else b * Power(b, k - 1) }

  lemma {:induction false} NumeralLength(n: nat, radix: nat, k: nat)
    requires 8 <= radix <= 16 && k > 0 && n < Power(8, k)
    ensures |Numeral(n, radix)| <= k
    decreases k
  {
    if n >= radix {
      assert n / radix <= n / 8 by { Quotients(n, radix); }
      if k > 1 { NumeralLength(n / radix, radix, k - 1); }
    }
  }

  lemma Quotients(n: nat, radix: nat)
    requires radix >= 8
    ensures n / radix <= n / 8
  {
    var q := n / radix;
    assert n >= q * radix >= q * 8;
  }

  function Signed32(w: Word): int { if w >= HALF_WORD then w - WORD else w }

  function Signed64(low: Word, high: Word): int { Signed32(high) * WORD + low }

  /** The sign and the 32-bit magnitude that are printed; the negation wraps around as the machine's does. */
  function Magnitude(args: Args, argp: nat, length: Length, sign: bool): (bool, Word) {
    if !sign then (false, args.words(argp))
    else
      var low := args.words(argp);
      var n := if length == LongLong then Signed64(low, args.words(argp + 1)) else Signed32(low);
      if n < 0 then (true, (-n) % WORD) else (false, n % WORD)
  }

  function Advance(length: Length): nat {
    match length case Long => 2 case LongLong => 4 case _ => 1
  }

  function NumberText(args: Args, argp: nat, length: Length, sign: bool, radix: nat): seq<Byte>
    requires 2 <= radix <= 16
  {
    var m := Magnitude(args, argp, length, sign);
    (if m.0 then [MINUS] else []) + Numeral(m.1, radix)
  }

  function Negated(n: int): int { -n }

  /** Reads a numeral with an optional minus sign. */
  function ParseInt(text: seq<Byte>, radix: nat): int {
    if text != [] && text[0] == MINUS then Negated(Value(text[1..], radix)) else Value(text, radix)
  }

  lemma {:induction false} NumeralDigits(n: nat, radix: nat)
    requires 2 <= radix <= 16
    ensures Numeral(n, radix)[0] != MINUS
    decreases n
  {
    if n >= radix { NumeralDigits(n / radix, radix); }
  }

  lemma DefaultMagnitude(args: Args, argp: nat, sign: bool)
    ensures var m, w := Magnitude(args, argp, Default, sign), args.words(argp);
      (if m.0 then Negated(m.1) else m.1) == if sign then Signed32(w) else w
  {
  }

  lemma ParseSigned(digits: seq<Byte>, radix: nat)
    requires digits != [] && digits[0] != MINUS
    ensures ParseInt(digits, radix) == Value(digits, radix)
    ensures ParseInt([MINUS] + digits, radix) == Negated(Value(digits, radix))
  {
    assert ([MINUS] + digits)[1..] == digits;
  }

  /** For arguments of default length, what is printed reads back as the argument, signed or unsigned. */
  lemma NumberRoundTrip(args: Args, argp: nat, sign: bool, radix: nat)
    requires 2 <= radix <= 16
    ensures ParseInt(NumberText(args, argp, Default, sign, radix), radix)
         == if sign then Signed32(args.words(argp)) else args.words(argp)
  {
    var m := Magnitude(args, argp, Default, sign);
    DefaultMagnitude(args, argp, sign);
    NumeralValue(m.1, radix);
    NumeralDigits(m.1, radix);
    ParseSigned(Numeral(m.1, radix), radix);
    assert [] + Numeral(m.1, radix) == Numeral(m.1, radix);
  }

  function Reversed(s: seq<Byte>): seq<Byte> {
    if s == [] then [] else [s[|s| - 1]] + Reversed(s[..|s| - 1])
  }

  lemma ReversedPush(s: seq<Byte>, c: Byte)
    ensures Reversed(s + [c]) == [c] + Reversed(s)
  {
    assert (s + [c])[..|s|] == s;
  }

  lemma WordNumeralLength(n: nat, radix: nat)
    requires 8 <= radix <= 16 && n < WORD
    ensures |Numeral(n, radix)| <= 11
  {
    assert Power(8, 11) == 8589934592;
    NumeralLength(n, radix, 11);
  }

  /** The `do` loop: the digits of the number from the lowest up. */
  method FillDigits(buffer: array<Byte>, n: nat, radix: nat) returns (pos: nat)
    requires 2 <= radix <= 16 && |Numeral(n, radix)| <= buffer.Length
    modifies buffer
    ensures pos == |Numeral(n, radix)| && Reversed(buffer[..pos]) == Numeral(n, radix)
  {
    var number: nat := n;
    pos := 0;
    while true
      invariant pos + |Numeral(number, radix)| == |Numeral(n, radix)|
      invariant Numeral(number, radix) + Reversed(buffer[..pos]) == Numeral(n, radix)
      decreases number
    {
      var rem, quotient := LowDigit(number, radix);
      ghost var before := buffer[..pos];
      ReversedPush(before, HexDigit(rem));
      JoinTexts(if quotient == 0 then [] else Numeral(quotient, radix), [HexDigit(rem)], Reversed(before));
      number := quotient;
      buffer[pos] := HexDigit(rem);
      pos := pos + 1;
      assert buffer[..pos] == before + [HexDigit(rem)];
      if number == 0 {
        break;
      }
    }
  }

  /** `rem = number % radix; number = number / radix`. */
  method LowDigit(number: nat, radix: nat) returns (rem: nat, quotient: nat)
    requires 2 <= radix <= 16
    ensures rem < radix && (quotient > 0 ==> quotient < number)
    ensures Numeral(number, radix) == (if quotient == 0 then [] else Numeral(quotient, radix)) + [HexDigit(rem)]
  {
    rem, quotient := number % radix, number / radix;
    NumeralStep(number, radix, quotient, rem);
  }

  /** The last loop: the characters of the buffer in reverse. */
  method Drain(buffer: array<Byte>, filled: nat) returns (out: seq<Byte>)
    requires filled <= buffer.Length
    ensures out == Reversed(buffer[..filled])
  {
    out := [];
    var pos: nat := filled;
    while pos > 0
      invariant pos <= filled && out + Reversed(buffer[..pos]) == Reversed(buffer[..filled])
    {
      pos := pos - 1;
      ReversedPush(buffer[..pos], buffer[pos]);
      JoinTexts(out, [buffer[pos]], Reversed(buffer[..pos]));
      assert buffer[..pos + 1] == buffer[..pos] + [buffer[pos]];
      out := out + [buffer[pos]];
    }
  }

  /** `printf_number_kernel`: at most twelve of the 32 bytes of the buffer are used. */
  method PrintfNumber(args: Args, argp: nat, length: Length, sign: bool, radix: nat)
    returns (out: seq<Byte>, argp': nat)
    requires radix == 8 || radix == 10 || radix == 16
    ensures out == NumberText(args, argp, length, sign, radix) && argp' == argp + Advance(length)
    ensures |out| <= 12
  {
    var buffer := new Byte[32](i => 0);
    var m := Magnitude(args, argp, length, sign);
    argp' := argp + Advance(length);
    WordNumeralLength(m.1, radix);
    var pos := FillDigits(buffer, m.1, radix);
    if m.0 {
      ghost var digits := buffer[..pos];
      ReversedPush(digits, MINUS);
      buffer[pos] := MINUS;
      pos := pos + 1;
      assert buffer[..pos] == digits + [MINUS];
    }
    out := Drain(buffer, pos);
  }

  // ----- The format state machine -----

  /** What a conversion character asks for. */
  datatype Directive = Char | Text | Percent | Number(sign: bool, radix: nat) | Unknown

  function DirectiveOf(c: Byte): (d: Directive)
    ensures d.Number? ==> d.radix in {8, 10, 16}
  {
    match c {
      case 99 => Char                            // c
      case 115 => Text                           // s
      case 37 => Percent                         // %
      case 100 => Number(true, 10)               // d
      case 105 => Number(true, 10)               // i
      case 117 => Number(false, 10)              // u
      case 88 => Number(false, 16)               // X
      case 120 => Number(false, 16)              // x
      case 112 => Number(false, 16)              // p
      case 111 => Number(false, 8)               // o
      case _ => Unknown
    }
  }

  /** What one conversion character prints, and where the argument pointer goes. */
  function Convert(c: Byte, length: Length, args: Args, argp: nat): (seq<Byte>, nat) {
    match DirectiveOf(c)
    case Char => ([args.words(argp) % 256], argp + 1)
    case Text => (args.strings(args.words(argp)), argp + (if length == Long || length == LongLong then 2 else 1))
    case Percent => ([PERCENT], argp)
    case Number(sign, radix) => (NumberText(args, argp, length, sign, radix), argp + Advance(length))
    case Unknown => ([], argp)
  }

  /** The output for the rest of a format. */
  function Write(fmt: seq<Byte>, state: State, length: Length, args: Args, argp: nat): seq<Byte>
    decreases |fmt|
  {
    if fmt == [] then []
    else
      var c, rest := fmt[0], fmt[1..];
      if state == Start && c == PERCENT then Write(rest, LengthState, length, args, argp)
      else if state == Start then [c] + Write(rest, Start, length, args, argp)
      else if state == LengthState && c == 104 then Write(rest, ShortState, Short, args, argp)
      else if state == LengthState && c == 108 then Write(rest, LongState, Long, args, argp)
      else if state == ShortState && c == 104 then Write(rest, Spec, ShortShort, args, argp)
      else if state == LongState && c == 108 then Write(rest, Spec, LongLong, args, argp)
      else
        var r := Convert(c, length, args, argp);
        r.0 + Write(rest, Start, Default, args, r.1)
  }

  /** The `PRINTF_STATE_SPEC_` branch. */
  method Conversion(c: Byte, length: Length, args: Args, argp: nat) returns (out: seq<Byte>, argp': nat)
    ensures (out, argp') == Convert(c, length, args, argp)
  {
    match DirectiveOf(c) {
      case Number(sign, radix) => out, argp' := PrintfNumber(args, argp, length, sign, radix);
      case _ =>
        var r := Convert(c, length, args, argp);
        out, argp' := r.0, r.1;
    }
  }

  /** `kernel_write`, with the characters put on the screen returned as a sequence. The format ends at its first NUL. */
  method WriteFormat(fmt: seq<Byte>, ghost len: nat, args: Args) returns (screen: seq<Byte>)
    requires len < |fmt| && fmt[len] == 0 && forall i :: 0 <= i < len ==> fmt[i] != 0
    ensures screen == Write(fmt[..len], Start, Default, args, 0)
  {
    var state, length, argp := Start, Default, 0;
    screen := [];
    var i := 0;
    while fmt[i] != 0
      invariant i <= len
      invariant screen + Write(fmt[i..len], state, length, args, argp) == Write(fmt[..len], Start, Default, args, 0)
      decreases len - i
    {
      var c := fmt[i];
      assert fmt[i..len][0] == c && fmt[i..len][1..] == fmt[i + 1..len];
      if state == Start {
        if c == PERCENT {
          state := LengthState;
        } else {
          screen := screen + [c];
        }
      } else if state == LengthState && c == 104 {
        length, state := Short, ShortState;
      } else if state == LengthState && c == 108 {
        length, state := Long, LongState;
      } else if state == ShortState && c == 104 {
        length, state := ShortShort, Spec;
      } else if state == LongState && c == 108 {
        length, state := LongLong, Spec;
      } else {
        var text;
        text, argp := Conversion(c, length, args, argp);
        screen := screen + text;
        state, length := Start, Default;
      }
      i := i + 1;
    }
  }

  // ----- Literal text -----

  /** A string with its percent signs doubled. */
  function Doubled(s: seq<Byte>): seq<Byte> {
    if s == [] then [] else (if s[0] == PERCENT then [PERCENT, PERCENT] else [s[0]]) + Doubled(s[1..])
  }

  lemma PercentStep(c: Byte, rest: seq<Byte>, args: Args, argp: nat)
    requires c != 104 && c != 108
    ensures var r := Convert(c, Default, args, argp);
      Write([PERCENT, c] + rest, Start, Default, args, argp) == r.0 + Write(rest, Start, Default, args, r.1)
  {
    var fmt := [PERCENT, c] + rest;
    assert fmt[1..][0] == c && fmt[1..][1..] == rest;
    assert Write(fmt, Start, Default, args, argp) == Write(fmt[1..], LengthState, Default, args, argp);
  }

  lemma PlainStep(c: Byte, rest: seq<Byte>, args: Args, argp: nat)
    requires c != PERCENT
    ensures Write([c] + rest, Start, Default, args, argp) == [c] + Write(rest, Start, Default, args, argp)
  {
    assert ([c] + rest)[1..] == rest;
  }

  lemma DoubledPercent(rest: seq<Byte>, args: Args, argp: nat)
    ensures Write([PERCENT, PERCENT] + rest, Start, Default, args, argp)
         == [PERCENT] + Write(rest, Start, Default, args, argp)
  {
    PercentStep(PERCENT, rest, args, argp);
  }

  lemma DecimalStep(rest: seq<Byte>, args: Args)
    ensures Write([PERCENT, 100] + rest, Start, Default, args, 0)
         == NumberText(args, 0, Default, true, 10) + Write(rest, Start, Default, args, 1)
  {
    PercentStep(100, rest, args, 0);
  }

  lemma DoubledHead(s: seq<Byte>, rest: seq<Byte>)
    requires s != []
    ensures Doubled(s) + rest == (if s[0] == PERCENT then [PERCENT, PERCENT] else [s[0]]) + (Doubled(s[1..]) + rest)
  {
  }

  lemma HeadAndTail(s: seq<Byte>, rest: seq<Byte>)
    requires s != []
    ensures [s[0]] + (s[1..] + rest) == s + rest
  {
  }

  /** Text whose percent signs were doubled is printed as it was, and the machine is then back where it started. */
  lemma {:induction false} DoubledIsLiteral(s: seq<Byte>, rest: seq<Byte>, args: Args, argp: nat)
    ensures Write(Doubled(s) + rest, Start, Default, args, argp) == s + Write(rest, Start, Default, args, argp)
  {
    if s == [] {
      assert Doubled(s) + rest == rest;
    } else {
      DoubledIsLiteral(s[1..], rest, args, argp);
      var tail := Doubled(s[1..]) + rest;
      DoubledHead(s, rest);
      if s[0] == PERCENT {
        DoubledPercent(tail, args, argp);
      } else {
        PlainStep(s[0], tail, args, argp);
      }
      HeadAndTail(s, Write(rest, Start, Default, args, argp));
    }
  }

  /** Literal text, one %d, and more literal text: what stands between the two texts reads back as the argument. */
  lemma LiteralAndNumber(a: seq<Byte>, b: seq<Byte>, args: Args)
    ensures var n := NumberText(args, 0, Default, true, 10);
      && Write(Doubled(a) + ([PERCENT, 100] + Doubled(b)), Start, Default, args, 0) == a + (n + b)
      && ParseInt(n, 10) == Signed32(args.words(0))
  {
    DoubledIsLiteral(a, [PERCENT, 100] + Doubled(b), args, 0);
    DecimalStep(Doubled(b), args);
    DoubledIsLiteral(b, [], args, 1);
    assert Doubled(b) + [] == Doubled(b);
    NumberRoundTrip(args, 0, true, 10);
  }

  // ----- Any format -----

  /** A format is made of literal text and conversions, each with a length prefix. */
  datatype Piece = Literal(text: seq<Byte>) | Conv(length: Length, c: Byte)

  /** The conversion character cannot be read as a part of its prefix. */
  predicate PieceOk(p: Piece) {
    match p
    case Literal(_) => true
    case Conv(length, c) =>
      (length == Default ==> c != 104 && c != 108) && (length == Short ==> c != 104) && (length == Long ==> c != 108)
  }

  function Prefix(length: Length): seq<Byte> {
    match length
    case Default => []
    case ShortShort => [104, 104]
    case Short => [104]
    case Long => [108]
    case LongLong => [108, 108]
  }

  function Render(ps: seq<Piece>): seq<Byte> {
    if ps == [] then [] else RenderPiece(ps[0]) + Render(ps[1..])
  }

  function RenderPiece(p: Piece): seq<Byte> {
    match p
    case Literal(text) => Doubled(text)
    case Conv(length, c) => [PERCENT] + Prefix(length) + [c]
  }

  /** What a piece prints, and where the argument pointer is afterwards. */
  function Printed(p: Piece, args: Args, argp: nat): (seq<Byte>, nat) {
    match p
    case Literal(text) => (text, argp)
    case Conv(length, c) => Convert(c, length, args, argp)
  }

  function AllPrinted(ps: seq<Piece>, args: Args, argp: nat): (seq<Byte>, nat) {
    if ps == [] then ([], argp)
    else
      var r := Printed(ps[0], args, argp);
      var rest := AllPrinted(ps[1..], args, r.1);
      (r.0 + rest.0, rest.1)
  }

  /** The machine on a percent sign, a length prefix and a conversion character. */
  lemma ConversionStep(length: Length, c: Byte, rest: seq<Byte>, args: Args, argp: nat)
    requires PieceOk(Conv(length, c))
    ensures var r := Convert(c, length, args, argp);
      Write([PERCENT] + Prefix(length) + [c] + rest, Start, Default, args, argp)
      == r.0 + Write(rest, Start, Default, args, r.1)
  {
    var all := [PERCENT] + Prefix(length) + [c] + rest;
    assert all[1..] == Prefix(length) + [c] + rest;
    AfterPercent(length, c, rest, args, argp);
  }

  lemma AfterPercent(length: Length, c: Byte, rest: seq<Byte>, args: Args, argp: nat)
    requires PieceOk(Conv(length, c))
    ensures var r := Convert(c, length, args, argp);
      Write(Prefix(length) + [c] + rest, LengthState, Default, args, argp)
      == r.0 + Write(rest, Start, Default, args, r.1)
  {
    var all := Prefix(length) + [c] + rest;
    if length == Default {
      assert all[1..] == rest;
    } else {
      var x := all[0];
      if length == Short || length == Long {
        assert all[1..] == [c] + rest && ([c] + rest)[1..] == rest;
      } else {
        var tail := [x] + ([c] + rest);
        assert all[1..] == tail && tail[1..] == [c] + rest && ([c] + rest)[1..] == rest;
        assert Write(tail, if x == 104 then ShortState else LongState, if x == 104 then Short else Long, args, argp)
            == Write([c] + rest, Spec, length, args, argp);
      }
    }
  }

  lemma PieceStep(p: Piece, rest: seq<Byte>, args: Args, argp: nat)
    requires PieceOk(p)
    ensures var r := Printed(p, args, argp);
      Write(RenderPiece(p) + rest, Start, Default, args, argp) == r.0 + Write(rest, Start, Default, args, r.1)
  {
    match p
    case Literal(text) => DoubledIsLiteral(text, rest, args, argp);
    case Conv(length, c) => ConversionStep(length, c, rest, args, argp);
  }

  lemma JoinTexts(a: seq<Byte>, b: seq<Byte>, c: seq<Byte>)
    ensures a + b + c == a + (b + c)
  {
  }

  /** Every format prints the texts of its pieces one after the other, each conversion taking its arguments where the
      one before it left off. */
  lemma {:induction false} PiecesPrinted(ps: seq<Piece>, rest: seq<Byte>, args: Args, argp: nat)
    requires forall p <- ps :: PieceOk(p)
    ensures var r := AllPrinted(ps, args, argp);
      Write(Render(ps) + rest, Start, Default, args, argp) == r.0 + Write(rest, Start, Default, args, r.1)
    decreases |ps|
  {
    if ps == [] {
      assert Render(ps) + rest == rest;
    } else {
      var r := Printed(ps[0], args, argp);
      PieceStep(ps[0], Render(ps[1..]) + rest, args, argp);
      PiecesPrinted(ps[1..], rest, args, r.1);
      JoinTexts(RenderPiece(ps[0]), Render(ps[1..]), rest);
      var tail := AllPrinted(ps[1..], args, r.1);
      JoinTexts(r.0, tail.0, Write(rest, Start, Default, args, tail.1));
    }
  }

  /** So a whole format prints exactly the texts of its pieces. */
  lemma FormatPrinted(ps: seq<Piece>, args: Args)
    requires forall p <- ps :: PieceOk(p)
    ensures Write(Render(ps), Start, Default, args, 0) == AllPrinted(ps, args, 0).0
  {
    PiecesPrinted(ps, [], args, 0);
    assert Render(ps) + [] == Render(ps);
  }

  // ----- What each conversion prints -----

  /** How many words of the stack a number takes. */
  lemma NumberWords(length: Length)
    ensures Advance(length) == if length == LongLong then 4 else if length == Long then 2 else 1
  {
  }

  lemma NumberPrinted(length: Length, c: Byte, rest: seq<Byte>, args: Args, argp: nat, sign: bool, radix: nat)
    requires DirectiveOf(c) == Number(sign, radix) && PieceOk(Conv(length, c))
    ensures Write([PERCENT] + Prefix(length) + [c] + rest, Start, Default, args, argp)
         == NumberText(args, argp, length, sign, radix) + Write(rest, Start, Default, args, argp + Advance(length))
  {
    ConversionStep(length, c, rest, args, argp);
  }

  lemma UnsignedNumeral(args: Args, argp: nat, length: Length, radix: nat)
    requires 2 <= radix <= 16
    ensures NumberText(args, argp, length, false, radix) == Numeral(args.words(argp), radix)
  {
    assert [] + Numeral(args.words(argp), radix) == Numeral(args.words(argp), radix);
  }

  lemma UnsignedText(args: Args, argp: nat, length: Length, radix: nat)
    requires 2 <= radix <= 16
    ensures var text := NumberText(args, argp, length, false, radix);
      text == Numeral(args.words(argp), radix) && ParseInt(text, radix) == args.words(argp)
  {
    var n := args.words(argp);
    NumeralValue(n, radix);
    NumeralDigits(n, radix);
    ParseSigned(Numeral(n, radix), radix);
    UnsignedNumeral(args, argp, length, radix);
  }

  /** %x, %X and %p print the word in radix 16, %o in radix 8 and %u in radix 10, whatever the length prefix. */
  lemma UnsignedPrinted(length: Length, c: Byte, rest: seq<Byte>, args: Args, argp: nat) returns (text: seq<Byte>)
    requires c == 120 || c == 88 || c == 112 || c == 111 || c == 117
    ensures Write([PERCENT] + Prefix(length) + [c] + rest, Start, Default, args, argp)
         == text + Write(rest, Start, Default, args, argp + Advance(length))
    ensures ParseInt(text, if c == 111 then 8 else if c == 117 then 10 else 16) == args.words(argp)
    ensures text == Numeral(args.words(argp), if c == 111 then 8 else if c == 117 then 10 else 16)
  {
    var radix := if c == 111 then 8 else if c == 117 then 10 else 16;
    text := NumberText(args, argp, length, false, radix);
    NumberPrinted(length, c, rest, args, argp, false, radix);
    UnsignedText(args, argp, length, radix);
  }

  /** %d and %i print the word as a signed number in radix 10. With the prefix ll the sign is that of the 64-bit number,
      and of the magnitude only the low word is printed. */
  lemma SignedPrinted(length: Length, c: Byte, rest: seq<Byte>, args: Args, argp: nat) returns (text: seq<Byte>)
    requires c == 100 || c == 105
    ensures Write([PERCENT] + Prefix(length) + [c] + rest, Start, Default, args, argp)
         == text + Write(rest, Start, Default, args, argp + Advance(length))
    ensures ParseInt(text, 10) == PrintedSigned(length, args.words(argp), args.words(argp + 1))
    ensures text != []
    ensures text[0] == MINUS <==> args.words(if length == LongLong then argp + 1 else argp) >= 0x8000_0000
  {
    text := NumberText(args, argp, length, true, 10);
    NumberPrinted(length, c, rest, args, argp, true, 10);
    SignedText(args, argp, length);
  }

  /** The signed number that is printed for a word and, with the prefix ll, the word above it. */
  function PrintedSigned(length: Length, low: Word, high: Word): int {
    if length != LongLong then (if low < 0x8000_0000 then low else low - 0x1_0000_0000)
    else if high < 0x8000_0000 || low == 0 then low
    else low - 0x1_0000_0000
  }

  lemma SignedText(args: Args, argp: nat, length: Length)
    ensures var text := NumberText(args, argp, length, true, 10);
      && text != [] && ParseInt(text, 10) == PrintedSigned(length, args.words(argp), args.words(argp + 1))
      && (text[0] == MINUS <==> args.words(if length == LongLong then argp + 1 else argp) >= 0x8000_0000)
  {
    var m := Magnitude(args, argp, length, true);
    SignedMagnitude(args, argp, length);
    NumeralValue(m.1, 10);
    NumeralDigits(m.1, 10);
    ParseSigned(Numeral(m.1, 10), 10);
    assert [] + Numeral(m.1, 10) == Numeral(m.1, 10);
  }

  lemma SignedMagnitude(args: Args, argp: nat, length: Length)
    ensures var m, low, high := Magnitude(args, argp, length, true), args.words(argp), args.words(argp + 1);
      && (m.0 <==> (if length == LongLong then high else low) >= 0x8000_0000)
      && (if m.0 then Negated(m.1) else m.1) == PrintedSigned(length, low, high)
  {
    var low, high := args.words(argp), args.words(argp + 1);
    if length == LongLong && high >= 0x8000_0000 {
      LowWord(high, low);
    } else if length == LongLong {
      ModUnique(high * WORD + low, WORD, high, low);
    }
  }

  /** The low word of a negated 64-bit number. */
  lemma LowWord(high: Word, low: Word)
    requires high >= HALF_WORD
    ensures (-((high - WORD) * WORD + low)) % WORD == if low == 0 then 0 else WORD - low
    ensures (high - WORD) * WORD + low < 0
  {
    var n := -((high - WORD) * WORD + low);
    if low == 0 {
      ModUnique(n, WORD, WORD - high, 0);
    } else {
      ModUnique(n, WORD, WORD - high - 1, WORD - low);
    }
  }

  /** %c prints the low byte of the word. */
  lemma CharPrinted(length: Length, rest: seq<Byte>, args: Args, argp: nat)
    ensures Write([PERCENT] + Prefix(length) + [99] + rest, Start, Default, args, argp)
         == [args.words(argp) % 256] + Write(rest, Start, Default, args, argp + 1)
  {
    ConversionStep(length, 99, rest, args, argp);
  }

  /** %s prints the string the word points to; the prefixes l and ll make it skip a word. */
  lemma TextPrinted(length: Length, rest: seq<Byte>, args: Args, argp: nat)
    ensures Write([PERCENT] + Prefix(length) + [115] + rest, Start, Default, args, argp)
         == args.strings(args.words(argp))
            + Write(rest, Start, Default, args, argp + if length == Long || length == LongLong then 2 else 1)
  {
    ConversionStep(length, 115, rest, args, argp);
  }

  /** A percent sign prints itself and takes no argument, with a prefix too. */
  lemma PercentPrinted(length: Length, rest: seq<Byte>, args: Args, argp: nat)
    ensures Write([PERCENT] + Prefix(length) + [PERCENT] + rest, Start, Default, args, argp)
         == [PERCENT] + Write(rest, Start, Default, args, argp)
  {
    ConversionStep(length, PERCENT, rest, args, argp);
  }

  /** Any other character prints nothing and takes no argument. */
  lemma UnknownPrinted(length: Length, c: Byte, rest: seq<Byte>, args: Args, argp: nat)
    requires PieceOk(Conv(length, c)) && c !in [99, 115, 37, 100, 105, 117, 88, 120, 112, 111]
    ensures Write([PERCENT] + Prefix(length) + [c] + rest, Start, Default, args, argp)
         == Write(rest, Start, Default, args, argp)
  {
    ConversionStep(length, c, rest, args, argp);
    var tail := Write(rest, Start, Default, args, argp);
    assert [] + tail == tail;
  }

  /** A format that ends before the conversion character prints no more. */
  lemma Unfinished(length: Length, args: Args, argp: nat)
    ensures Write([PERCENT] + Prefix(length), Start, Default, args, argp) == []
  {
    var all := [PERCENT] + Prefix(length);
    assert all[1..] == Prefix(length);
    PrefixAlone(length, args, argp);
  }

  lemma PrefixAlone(length: Length, args: Args, argp: nat)
    ensures Write(Prefix(length), LengthState, Default, args, argp) == []
  {
    if length != Default {
      var x, tail := Prefix(length)[0], Prefix(length)[1..];
      assert tail == [] || (tail == [x] && tail[1..] == []);
      var state, l := if x == 104 then ShortState else LongState, if x == 104 then Short else Long;
      assert Write(tail, state, l, args, argp) == [];
    }
  }

  // ----- Examples -----

  /** "%x" of 255 is "ff", "%d" of the word of -42 is "-42", "%o" of 8 is "10". */
  lemma ExampleNumbers(args: Args)
    ensures args.words(0) == 255 ==> Write([37, 120], Start, Default, args, 0) == [102, 102]
    ensures args.words(0) == 0xffff_ffd6 ==> Write([37, 100], Start, Default, args, 0) == [45, 52, 50]
    ensures args.words(0) == 8 ==> Write([37, 111], Start, Default, args, 0) == [49, 48]
  {
    ExampleNumerals();
    ExampleFormat(120, args, 0);
    ExampleFormat(111, args, 0);
    UnsignedNumeral(args, 0, Default, 16);
    UnsignedNumeral(args, 0, Default, 8);
    if args.words(0) == 0xffff_ffd6 { ExampleSigned(args); }
  }

  lemma ExampleSigned(args: Args)
    requires args.words(0) == 0xffff_ffd6
    ensures Write([37, 100], Start, Default, args, 0) == [45, 52, 50]
  {
    ExampleFormat(100, args, 0);
    ExampleNumerals();
    assert Magnitude(args, 0, Default, true) == (true, 42);
  }

  lemma ExampleFormat(c: Byte, args: Args, argp: nat)
    requires c != 104 && c != 108
    ensures Write([37, c], Start, Default, args, argp) == Convert(c, Default, args, argp).0
  {
    PercentStep(c, [], args, argp);
    var r := Convert(c, Default, args, argp).0;
    assert [PERCENT, c] + [] == [37, c] && r + [] == r;
  }

  lemma ExampleNumerals()
    ensures Numeral(255, 16) == [102, 102] && Numeral(42, 10) == [52, 50] && Numeral(8, 8) == [49, 48]
  {
    assert Numeral(15, 16) == [102] && Numeral(4, 10) == [52] && Numeral(1, 8) == [49];
  }

  lemma TwoNumbers(length: Length, args: Args)
    ensures Write([PERCENT] + Prefix(length) + [117] + [37, 117], Start, Default, args, 0)
         == Numeral(args.words(0), 10) + Numeral(args.words(Advance(length)), 10)
  {
    var first := UnsignedPrinted(length, 117, [37, 117], args, 0);
    LastNumber(args, Advance(length));
  }

  lemma LastNumber(args: Args, argp: nat)
    ensures Write([37, 117], Start, Default, args, argp) == Numeral(args.words(argp), 10)
  {
    ExampleFormat(117, args, argp);
    UnsignedNumeral(args, argp, Default, 10);
  }

  /** In "%hu%u" and "%hhu%u" the second number is the word 1, in "%lu%u" the word 2 and in "%llu%u" the word 4. */
  lemma ExamplePrefixes(args: Args)
    ensures var n := (i: nat) => Numeral(args.words(i), 10);
      && Write([37, 104, 117, 37, 117], Start, Default, args, 0) == n(0) + n(1)
      && Write([37, 104, 104, 117, 37, 117], Start, Default, args, 0) == n(0) + n(1)
      && Write([37, 108, 117, 37, 117], Start, Default, args, 0) == n(0) + n(2)
      && Write([37, 108, 108, 117, 37, 117], Start, Default, args, 0) == n(0) + n(4)
  {
    TwoNumbers(Short, args);
    TwoNumbers(ShortShort, args);
    TwoNumbers(Long, args);
    TwoNumbers(LongLong, args);
    assert [PERCENT] + Prefix(Short) + [117] + [37, 117] == [37, 104, 117, 37, 117];
    assert [PERCENT] + Prefix(ShortShort) + [117] + [37, 117] == [37, 104, 104, 117, 37, 117];
    assert [PERCENT] + Prefix(Long) + [117] + [37, 117] == [37, 108, 117, 37, 117];
    assert [PERCENT] + Prefix(LongLong) + [117] + [37, 117] == [37, 108, 108, 117, 37, 117];
  }
}
