/** The MCP server's JSON strings: the decoder for the text between two quotes, with UTF-16 escapes and UTF-8 output
    (section 7 of RFC 8259, section 3 of RFC 3629), and the escaping writer with its bounded chunk. */
module JsonStrings {
  import opened Statuses

  const QUOTE: Byte := 0x22
  const BACKSLASH: Byte := 0x5C
  const LETTER_U: Byte := 0x75

  // ---------------------------------------------------------------- one piece of the input

  function Hexadecimal(b: Byte): int {
    if 0x30 <= b <= 0x39 then b - 0x30
    else if 0x61 <= b <= 0x66 then b - 0x61 + 10
    else if 0x41 <= b <= 0x46 then b - 0x41 + 10
    else -1
  }

  /** The value of the first n of four hexadecimal digits. */
  function HexValue(s: seq<Byte>, n: nat): (v: Option<nat>)
    requires n <= 4 && n <= |s|
    ensures v.Some? ==> v.value < (if n == 0 then 1 else if n == 1 then 0x10 else if n == 2 then 0x100
                                   else if n == 3 then 0x1000 else 0x1_0000)
  {
    if n == 0 then Some(0)
    else
      var front := HexValue(s, n - 1);
      if front.None? || Hexadecimal(s[n - 1]) < 0 then None else Some(front.value * 16 + Hexadecimal(s[n - 1]))
  }

  /** The bytes that append_utf8 writes for a value. Values from U+D800 to U+DFFF fall through to four bytes. */
  function CodeBytes(v: nat): Option<seq<Byte>> {
    if v <= 0x7F then (if v == 0 then None else Some([v]))
    else if v <= 0x7FF then Some([0xC0 + v / 64, 0x80 + v % 64])
    else if v <= 0xFFFF && (v < 0xD800 || v > 0xDFFF) then Some([0xE0 + v / 4096, 0x80 + v / 64 % 64, 0x80 + v % 64])
    else if v <= 0x10FFFF then Some([0xF0 + v / 262144, 0x80 + v / 4096 % 64, 0x80 + v / 64 % 64, 0x80 + v % 64])
    else None
  }

  datatype Code = NoCode | Code(length: nat, value: nat)

  /** The code point of a \u escape at the front of s, which takes two escapes for a surrogate pair. */
  function EscapedCode(s: seq<Byte>): (c: Code)
    ensures c.Code? ==> c.length in {6, 12} && c.length <= |s| && c.value <= 0x10FFFF
  {
    if |s| < 6 then NoCode
    else
      var high := HexValue(s[2..6], 4);
      if high.None? then NoCode
      else if !(0xD800 <= high.value <= 0xDBFF) then Code(6, high.value)
      else if |s| < 12 || s[6] != BACKSLASH || s[7] != LETTER_U then NoCode
      else
        var low := HexValue(s[8..12], 4);
        if low.None? || !(0xDC00 <= low.value <= 0xDFFF) then NoCode
        else Code(12, 0x10000 + (high.value - 0xD800) * 1024 + low.value - 0xDC00)
  }

  function ShortEscape(b: Byte): Option<Byte> {
    if b == QUOTE || b == BACKSLASH || b == 0x2F then Some(b)
    else if b == 0x62 then Some(0x08)
    else if b == 0x66 then Some(0x0C)
    else if b == 0x6E then Some(0x0A)
    else if b == 0x72 then Some(0x0D)
    else if b == 0x74 then Some(0x09)
    else None
  }

  datatype Piece = Bad | Piece(length: nat, bytes: seq<Byte>)

  predicate StartsCode(s: seq<Byte>) { |s| >= 2 && s[0] == BACKSLASH && s[1] == LETTER_U }

  /** The first character or escape of the text, and the bytes it stands for. */
  function FirstPiece(s: seq<Byte>): (p: Piece)
    requires s != []
    ensures p.Piece? ==> 1 <= p.length <= |s| && p.bytes != []
  {
    if s[0] != BACKSLASH then (if s[0] < 0x20 then Bad else Piece(1, [s[0]]))
    else if |s| == 1 then Bad
    else if s[1] == LETTER_U then
      var code := EscapedCode(s);
      if code.NoCode? || CodeBytes(code.value).None? then Bad else Piece(code.length, CodeBytes(code.value).value)
    else if ShortEscape(s[1]).None? then Bad else Piece(2, [ShortEscape(s[1]).value])
  }

  /** What the text stands for, when all of it is well formed. */
  function Decoded(s: seq<Byte>): Option<seq<Byte>> {
    if s == [] then Some([])
    else
      var piece := FirstPiece(s);
      if piece.Bad? then None
      else
        var rest := Decoded(s[piece.length..]);
        if rest.None? then None else Some(piece.bytes + rest.value)
  }

  // ---------------------------------------------------------------- the decoder

  method AppendUtf8(value: nat, output: array<Byte>, size: nat) returns (ok: bool, after: nat)
    requires size <= output.Length
    modifies output
    ensures ok <==> CodeBytes(value).Some? && size + |CodeBytes(value).value| <= output.Length
    ensures size <= after <= output.Length
    ensures ok ==> output[..after] == old(output[..size]) + CodeBytes(value).value
    ensures !ok ==> after == size && output[..] == old(output[..])
  {
    after := size;
    var capacity := output.Length;
    if value <= 0x7F {
      if size == capacity || value == 0 {
        return false, size;
      }
      output[after] := value;
      after := after + 1;
    } else if value <= 0x7FF {
      if capacity - size < 2 {
        return false, size;
      }
      output[after] := 0xC0 + value / 64;
      output[after + 1] := 0x80 + value % 64;
      after := after + 2;
    } else if value <= 0xFFFF && (value < 0xD800 || value > 0xDFFF) {
      if capacity - size < 3 {
        return false, size;
      }
      output[after] := 0xE0 + value / 4096;
      output[after + 1] := 0x80 + value / 64 % 64;
      output[after + 2] := 0x80 + value % 64;
      after := after + 3;
    } else if value <= 0x10FFFF {
      if capacity - size < 4 {
        return false, size;
      }
      output[after] := 0xF0 + value / 262144;
      output[after + 1] := 0x80 + value / 4096 % 64;
      output[after + 2] := 0x80 + value / 64 % 64;
      output[after + 3] := 0x80 + value % 64;
      after := after + 4;
    } else {
      return false, size;
    }
    ok := true;
  }

  method ReadHex4(input: seq<Byte>, at: nat) returns (ok: bool, value: nat)
    requires at + 4 <= |input|
    ensures ok <==> HexValue(input[at..at + 4], 4).Some?
    ensures ok ==> Some(value) == HexValue(input[at..at + 4], 4)
  {
    ghost var digits := input[at..at + 4];
    value := 0;
    for digit := 0 to 4
      invariant HexValue(digits, digit) == Some(value)
    {
      var nibble := Hexadecimal(input[at + digit]);
      assert digits[digit] == input[at + digit];
      if nibble < 0 {
        NoValueAfter(digits, digit);
        return false, 0;
      }
      value := value * 16 + nibble;
    }
    ok := true;
  }

  lemma NoValueAfter(s: seq<Byte>, n: nat)
    requires |s| == 4 && n < 4 && Hexadecimal(s[n]) < 0
    ensures HexValue(s, 4).None?
  {
    assert HexValue(s, 1).None? || n > 0;
    assert HexValue(s, 2).None? || n > 1;
    assert HexValue(s, 3).None? || n > 2;
  }

  /** Decode the text into the output: accepted exactly when it is well formed and what it stands for fits. */
  method DecodeString(input: seq<Byte>, output: array<Byte>) returns (ok: bool, size: nat)
    modifies output
    ensures ok <==> Decoded(input).Some? && |Decoded(input).value| <= output.Length
    ensures ok ==> size <= output.Length && output[..size] == Decoded(input).value
  {
    var index, written := 0, 0;
    assert input[0..] == input && output[..0] == [];
    assert Decoded(input).Some? ==> [] + Decoded(input).value == Decoded(input).value;
    while index < |input|
      invariant index <= |input| && written <= output.Length
      invariant Decoded(input) == After(output[..written], Decoded(input[index..]))
      decreases |input| - index
    {
      ghost var rest, before := input[index..], output[..written];
      ghost var piece := FirstPiece(rest);
      AfterPiece(before, rest);
      var value := input[index];
      if value != BACKSLASH {
        if written == output.Length || value < 0x20 {
          return false, 0;
        }
        output[written] := value;
        written := written + 1;
        index := index + 1;
        assert output[..written] == before + piece.bytes;
        assert input[index..] == rest[1..];
        continue;
      }
      if index + 1 == |input| {
        return false, 0;
      }
      var escaped := input[index + 1];
      if escaped == LETTER_U {
        var length, codepoint := ReadCode(input, index);
        if length == 0 {
          return false, 0;
        }
        var appended, after := AppendUtf8(codepoint, output, written);
        if !appended {
          return false, 0;
        }
        written := after;
        assert input[index + length..] == rest[length..];
        index := index + length;
        continue;
      }
      var decoded := ShortEscape(escaped);
      if decoded.None? || written == output.Length {
        return false, 0;
      }
      output[written] := decoded.value;
      written := written + 1;
      assert output[..written] == before + piece.bytes;
      assert input[index + 2..] == rest[2..];
      index := index + 2;
    }
    return true, written;
  }

  /** The code point of the escape at `index`, with the length of the escape, or 0 when it is not well formed. */
  method ReadCode(input: seq<Byte>, index: nat) returns (length: nat, codepoint: nat)
    requires index < |input|
    ensures var code := EscapedCode(input[index..]);
            if length == 0 then code.NoCode? else code == Code(length, codepoint)
  {
    ghost var rest := input[index..];
    if |input| - index <= 5 {
      return 0, 0;
    }
    assert input[index + 2..index + 6] == rest[2..6];
    var ok, high := ReadHex4(input, index + 2);
    if !ok {
      return 0, 0;
    }
    if high < 0xD800 || high > 0xDBFF {
      return 6, high;
    }
    if |input| - (index + 5) <= 6 || input[index + 6] != BACKSLASH || input[index + 7] != LETTER_U {
      return 0, 0;
    }
    assert input[index + 8..index + 12] == rest[8..12];
    var low;
    ok, low := ReadHex4(input, index + 8);
    if !ok || low < 0xDC00 || low > 0xDFFF {
      return 0, 0;
    }
    return 12, 0x10000 + (high - 0xD800) * 1024 + low - 0xDC00;
  }

  function After(front: seq<Byte>, rest: Option<seq<Byte>>): Option<seq<Byte>> {
    if rest.None? then None else Some(front + rest.value)
  }

  lemma AfterPiece(front: seq<Byte>, s: seq<Byte>)
    requires s != []
    ensures FirstPiece(s).Bad? ==> After(front, Decoded(s)).None?
    ensures FirstPiece(s).Piece? ==>
              After(front, Decoded(s)) == After(front + FirstPiece(s).bytes, Decoded(s[FirstPiece(s).length..]))
  {
    if FirstPiece(s).Piece? && Decoded(s).Some? {
      var rest := Decoded(s[FirstPiece(s).length..]).value;
      assert front + (FirstPiece(s).bytes + rest) == front + FirstPiece(s).bytes + rest;
    }
  }

  // ---------------------------------------------------------------- UTF-8

  predicate IsScalar(v: nat) { v <= 0x10FFFF && !(0xD800 <= v <= 0xDFFF) }

  predicate Tail(b: Byte) { 0x80 <= b <= 0xBF }

  /** The six bits that a continuation byte carries. */
  function Bits(b: Byte): nat { (b as int) % 64 }

  /** The first character of a UTF-8 text by the syntax of section 4 of RFC 3629: no overlong forms, no surrogates. */
  function FirstCharacter(s: seq<Byte>): (c: Code)
    requires s != []
    ensures c.Code? ==> 1 <= c.length <= |s| && c.length <= 4
  {
    if s[0] <= 0x7F then Code(1, s[0])
    else if 0xC2 <= s[0] <= 0xDF && |s| >= 2 && Tail(s[1]) then Code(2, (s[0] as int - 0xC0) * 64 + Bits(s[1]))
    else if 0xE0 <= s[0] <= 0xEF && |s| >= 3 && Tail(s[1]) && Tail(s[2])
            && (s[0] == 0xE0 ==> s[1] >= 0xA0) && (s[0] == 0xED ==> s[1] <= 0x9F)
    then Code(3, (s[0] as int - 0xE0) * 4096 + Bits(s[1]) * 64 + Bits(s[2]))
    else if 0xF0 <= s[0] <= 0xF4 && |s| >= 4 && Tail(s[1]) && Tail(s[2]) && Tail(s[3])
            && (s[0] == 0xF0 ==> s[1] >= 0x90) && (s[0] == 0xF4 ==> s[1] <= 0x8F)
    then Code(4, (s[0] as int - 0xF0) * 262144 + Bits(s[1]) * 4096 + Bits(s[2]) * 64 + Bits(s[3]))
    else NoCode
  }

  /** The scalar values of a UTF-8 text, when it is well formed. */
  function Scalars(s: seq<Byte>): Option<seq<nat>> {
    if s == [] then Some([])
    else
      var c := FirstCharacter(s);
      if c.NoCode? then None
      else
        var rest := Scalars(s[c.length..]);
        if rest.None? then None else Some([c.value] + rest.value)
  }

  predicate WellFormed(s: seq<Byte>) { Scalars(s).Some? }

  lemma TwoBytes(v: nat, s: seq<Byte>)
    requires 0x80 <= v <= 0x7FF && |s| >= 2 && s[0] == 0xC0 + v / 64 && s[1] == 0x80 + v % 64
    ensures FirstCharacter(s) == Code(2, v)
  {
  }

  lemma ThreeBytes(v: nat, s: seq<Byte>)
    requires 0x800 <= v <= 0xFFFF && IsScalar(v)
    requires |s| >= 3 && s[0] == 0xE0 + v / 4096 && s[1] == 0x80 + v / 64 % 64 && s[2] == 0x80 + v % 64
    ensures FirstCharacter(s) == Code(3, v)
  {
    assert v / 4096 * 4096 + v / 64 % 64 * 64 + v % 64 == v;
  }

  lemma FourBytes(v: nat, s: seq<Byte>)
    requires 0xD800 <= v <= 0x10FFFF && (v >= 0x1_0000 || !IsScalar(v)) && |s| >= 4 && s[0] == 0xF0 + v / 262144
    requires s[1] == 0x80 + v / 4096 % 64 && s[2] == 0x80 + v / 64 % 64 && s[3] == 0x80 + v % 64
    ensures FirstCharacter(s) == if IsScalar(v) then Code(4, v) else NoCode
  {
    FourParts(v);
    assert Bits(s[1]) == v / 4096 % 64 && Bits(s[2]) == v / 64 % 64 && Bits(s[3]) == v % 64;
  }

  lemma FourParts(v: nat)
    ensures v / 262144 * 262144 + v / 4096 % 64 * 4096 + v / 64 % 64 * 64 + v % 64 == v
  {
    assert v / 64 / 64 == v / 4096 && v / 4096 / 64 == v / 262144;
  }

  /** For every value it accepts, append_utf8 writes the UTF-8 form exactly when the value is a scalar value;
      what it writes for a surrogate begins no UTF-8 text. */
  lemma CodeBytesAreUtf8Exactly(v: nat, rest: seq<Byte>)
    requires CodeBytes(v).Some?
    ensures 1 <= |CodeBytes(v).value| <= 4
    ensures FirstCharacter(CodeBytes(v).value + rest)
         == if IsScalar(v) then Code(|CodeBytes(v).value|, v) else NoCode
  {
    hide FirstCharacter;
    var s := CodeBytes(v).value + rest;
    if v <= 0x7F {
      AsciiFirst(s);
    } else if v <= 0x7FF {
      TwoBytes(v, s);
    } else if v <= 0xFFFF && IsScalar(v) {
      ThreeBytes(v, s);
    } else {
      FourBytes(v, s);
    }
  }

  lemma AsciiFirst(s: seq<Byte>)
    requires s != [] && s[0] <= 0x7F
    ensures FirstCharacter(s) == Code(1, s[0])
  {
  }

  // ---------------------------------------------------------------- escaped UTF-16

  function HexDigit(n: nat, upper: bool): (b: Byte)
    requires n < 16
    ensures Hexadecimal(b) == n
  {
    if n < 10 then 0x30 + n else if upper then 0x41 + n - 10 else 0x61 + n - 10
  }

  /** Which letter case each hexadecimal digit of a text is written in, by its position among the digits. */
  type Cases = nat -> bool

  function UnitEscape(unit: nat, upper: Cases, at: nat): (s: seq<Byte>)
    requires unit < 0x1_0000
    ensures |s| == 6
  {
    [BACKSLASH, LETTER_U, HexDigit(unit / 4096, upper(at)), HexDigit(unit / 256 % 16, upper(at + 1)),
     HexDigit(unit / 16 % 16, upper(at + 2)), HexDigit(unit % 16, upper(at + 3))]
  }

  function High(v: nat): nat
    requires 0x1_0000 <= v <= 0x10FFFF
  {
    0xD800 + (v - 0x10000) / 1024
  }

  function Low(v: nat): nat
    requires 0x1_0000 <= v <= 0x10FFFF
  {
    0xDC00 + (v - 0x10000) % 1024
  }

  /** The escape of a scalar value: one UTF-16 unit, or a surrogate pair. */
  function ScalarEscape(v: nat, upper: Cases, at: nat): (s: seq<Byte>)
    requires IsScalar(v)
    ensures |s| == if v < 0x1_0000 then 6 else 12
  {
    if v < 0x1_0000 then UnitEscape(v, upper, at)
    else UnitEscape(High(v), upper, at) + UnitEscape(Low(v), upper, at + 4)
  }

  function AllEscapes(scalars: seq<nat>, upper: Cases, at: nat): seq<Byte>
    requires forall i | 0 <= i < |scalars| :: IsScalar(scalars[i])
  {
    if scalars == [] then [] else ScalarEscape(scalars[0], upper, at) + AllEscapes(scalars[1..], upper, at + 8)
  }

  lemma HexNext(d: seq<Byte>, n: nat, front: nat, digit: nat)
    requires n < 4 && n < |d| && HexValue(d, n) == Some(front) && Hexadecimal(d[n]) == digit
    ensures HexValue(d, n + 1) == Some(front * 16 + digit)
  {
  }

  lemma UnitReads(unit: nat, upper: Cases, at: nat)
    requires unit < 0x1_0000
    ensures HexValue(UnitEscape(unit, upper, at)[2..], 4) == Some(unit)
  {
    hide HexValue, HexDigit, Hexadecimal;
    var d := UnitEscape(unit, upper, at)[2..];
    var c := unit / 16;
    var b := c / 16;
    var a := b / 16;
    assert unit / 256 == b && unit / 4096 == a;
    HexDigitReads(a, upper(at));
    HexDigitReads(b % 16, upper(at + 1));
    HexDigitReads(c % 16, upper(at + 2));
    HexDigitReads(unit % 16, upper(at + 3));
    HexNone(d);
    HexNext(d, 0, 0, a);
    HexNext(d, 1, a, b % 16);
    HexNext(d, 2, b, c % 16);
    HexNext(d, 3, c, unit % 16);
  }

  lemma HexDigitReads(n: nat, upper: bool)
    requires n < 16
    ensures Hexadecimal(HexDigit(n, upper)) == n
  {
  }

  lemma HexNone(d: seq<Byte>)
    ensures HexValue(d, 0) == Some(0)
  {
  }

  lemma UnitStarts(unit: nat, upper: Cases, at: nat)
    requires unit < 0x1_0000
    ensures UnitEscape(unit, upper, at)[0] == BACKSLASH && UnitEscape(unit, upper, at)[1] == LETTER_U
  {
  }

  lemma EscapeReads(v: nat, upper: Cases, at: nat, rest: seq<Byte>)
    requires IsScalar(v)
    ensures EscapedCode(ScalarEscape(v, upper, at) + rest) == Code(|ScalarEscape(v, upper, at)|, v)
  {
    hide UnitEscape, HexValue;
    var s := ScalarEscape(v, upper, at) + rest;
    if v < 0x1_0000 {
      UnitReads(v, upper, at);
      assert s[2..6] == UnitEscape(v, upper, at)[2..];
    } else {
      UnitReads(High(v), upper, at);
      UnitReads(Low(v), upper, at + 4);
      UnitStarts(Low(v), upper, at + 4);
      assert s[2..6] == UnitEscape(High(v), upper, at)[2..];
      assert s[8..12] == UnitEscape(Low(v), upper, at + 4)[2..];
      assert s[6] == UnitEscape(Low(v), upper, at + 4)[0] && s[7] == UnitEscape(Low(v), upper, at + 4)[1];
    }
  }

  lemma EscapeStarts(v: nat, upper: Cases, at: nat)
    requires IsScalar(v)
    ensures StartsCode(ScalarEscape(v, upper, at))
  {
  }

  lemma DecodedStep(s: seq<Byte>)
    requires s != [] && FirstPiece(s).Piece?
    ensures Decoded(s) == After(FirstPiece(s).bytes, Decoded(s[FirstPiece(s).length..]))
  {
  }

  lemma ScalarsStep(s: seq<Byte>)
    requires s != [] && FirstCharacter(s).Code?
    ensures var rest := Scalars(s[FirstCharacter(s).length..]);
            Scalars(s) == if rest.None? then None else Some([FirstCharacter(s).value] + rest.value)
  {
  }

  /** For every sequence of scalar values other than U+0000: the \u form of its UTF-16 units, with each digit in
      either letter case, decodes, and to exactly its UTF-8 form. */
  lemma {:induction false} EscapesDecodeToUtf8(scalars: seq<nat>, upper: Cases, at: nat)
    requires forall i | 0 <= i < |scalars| :: IsScalar(scalars[i]) && scalars[i] != 0
    ensures Decoded(AllEscapes(scalars, upper, at)).Some?
    ensures Scalars(Decoded(AllEscapes(scalars, upper, at)).value) == Some(scalars)
  {
    if scalars != [] {
      hide ScalarEscape, EscapedCode, CodeBytes, FirstCharacter, FirstPiece, Decoded, Scalars;
      var v := scalars[0];
      var first, rest := ScalarEscape(v, upper, at), AllEscapes(scalars[1..], upper, at + 8);
      EscapesDecodeToUtf8(scalars[1..], upper, at + 8);
      EscapePiece(v, upper, at, rest);
      assert (first + rest)[|first|..] == rest;
      var bytes, tail := CodeBytes(v).value, Decoded(rest).value;
      DecodedStep(first + rest);
      CodeBytesAreUtf8Exactly(v, tail);
      ScalarsStep(bytes + tail);
      assert (bytes + tail)[|bytes|..] == tail;
      assert [v] + scalars[1..] == scalars;
    }
  }

  lemma EscapePiece(v: nat, upper: Cases, at: nat, rest: seq<Byte>)
    requires IsScalar(v) && v != 0
    ensures CodeBytes(v).Some?
    ensures FirstPiece(ScalarEscape(v, upper, at) + rest) == Piece(|ScalarEscape(v, upper, at)|, CodeBytes(v).value)
  {
    hide ScalarEscape, EscapedCode, CodeBytes;
    EscapeStarts(v, upper, at);
    EscapeReads(v, upper, at, rest);
    HasCode(v);
  }

  lemma HasCode(v: nat)
    requires IsScalar(v) && v != 0
    ensures CodeBytes(v).Some?
  {
  }

  // ---------------------------------------------------------------- well-formed in, well-formed out

  /** Some escape in the text is a low surrogate that no high surrogate precedes. */
  predicate HasLoneLow(s: seq<Byte>) {
    s != [] && FirstPiece(s).Piece?
    && ((StartsCode(s) && 0xDC00 <= EscapedCode(s).value <= 0xDFFF) || HasLoneLow(s[FirstPiece(s).length..]))
  }

  lemma AsciiPrefix(s: seq<Byte>, n: nat)
    requires n <= |s| && (forall i | 0 <= i < n :: s[i] <= 0x7F)
    ensures WellFormed(s) <==> WellFormed(s[n..])
  {
    if n == 0 {
      assert s[0..] == s;
    } else {
      assert FirstCharacter(s) == Code(1, s[0]);
      AsciiPrefix(s[1..], n - 1);
      assert s[1..][n - 1..] == s[n..];
    }
  }

  /** An escape is ASCII. */
  lemma PieceIsAscii(s: seq<Byte>)
    requires s != [] && s[0] == BACKSLASH && FirstPiece(s).Piece?
    ensures forall i | 0 <= i < FirstPiece(s).length :: s[i] <= 0x7F
  {
    if s[1] == LETTER_U {
      HexAscii(s[2..6]);
      assert forall i | 2 <= i < 6 :: s[i] == s[2..6][i - 2];
      if EscapedCode(s).length == 12 {
        HexAscii(s[8..12]);
        assert forall i | 8 <= i < 12 :: s[i] == s[8..12][i - 8];
      }
    }
  }

  lemma HexAscii(d: seq<Byte>)
    requires |d| == 4 && HexValue(d, 4).Some?
    ensures forall i | 0 <= i < 4 :: d[i] <= 0x7F
  {
    assert HexValue(d, 3).Some? && HexValue(d, 2).Some? && HexValue(d, 1).Some?;
  }

  lemma RawByte(s: seq<Byte>)
    requires s != [] && s[0] >= 0x20 && s[0] != BACKSLASH
    ensures FirstPiece(s) == Piece(1, [s[0]])
    ensures HasLoneLow(s) <==> HasLoneLow(s[1..])
    ensures Decoded(s) == After([s[0]], Decoded(s[1..]))
  {
  }

  lemma RawBytesPass(s: seq<Byte>, n: nat)
    requires n <= |s| && (forall i | 0 <= i < n :: s[i] >= 0x20 && s[i] != BACKSLASH)
    ensures Decoded(s) == After(s[..n], Decoded(s[n..]))
    ensures HasLoneLow(s) <==> HasLoneLow(s[n..])
  {
    hide FirstPiece, Decoded, HasLoneLow;
    if n == 0 {
      assert s[0..] == s;
      assert Decoded(s).Some? ==> [] + Decoded(s).value == Decoded(s).value;
    } else {
      RawByte(s);
      RawBytesPass(s[1..], n - 1);
      assert s[1..][n - 1..] == s[n..];
      if Decoded(s[n..]).Some? {
        assert [s[0]] + (s[1..][..n - 1] + Decoded(s[n..]).value) == s[..n] + Decoded(s[n..]).value;
      }
    }
  }

  lemma CharacterLocal(s: seq<Byte>, rest: seq<Byte>)
    requires s != [] && FirstCharacter(s).Code?
    ensures FirstCharacter(s[..FirstCharacter(s).length] + rest) == FirstCharacter(s)
    ensures forall i | 0 < i < FirstCharacter(s).length :: s[i] >= 0x80
    ensures FirstCharacter(s).length > 1 ==> s[0] >= 0x80
  {
  }

  /** Well-formed input that is accepted gives well-formed output exactly when no escape in it is a lone low
      surrogate: such an escape is accepted, and written as four bytes that are not UTF-8. */
  lemma {:induction false} WellFormedExactly(s: seq<Byte>)
    requires WellFormed(s) && Decoded(s).Some?
    ensures WellFormed(Decoded(s).value) <==> !HasLoneLow(s)
    decreases |s|
  {
    if s != [] {
      var c, piece := FirstCharacter(s), FirstPiece(s);
      if s[0] == BACKSLASH {
        PieceIsAscii(s);
        AsciiPrefix(s, piece.length);
        WellFormedExactly(s[piece.length..]);
        EscapeWellFormed(s, Decoded(s[piece.length..]).value);
      } else {
        CharacterLocal(s, []);
        hide FirstPiece;
        RawBytesPass(s, c.length);
        WellFormedExactly(s[c.length..]);
        var rest := Decoded(s[c.length..]).value;
        CharacterLocal(s, rest);
        assert (s[..c.length] + rest)[c.length..] == rest;
      }
    }
  }

  lemma EscapeWellFormed(s: seq<Byte>, rest: seq<Byte>)
    requires s != [] && s[0] == BACKSLASH && FirstPiece(s).Piece?
    ensures WellFormed(FirstPiece(s).bytes + rest)
       <==> WellFormed(rest) && !(StartsCode(s) && 0xDC00 <= EscapedCode(s).value <= 0xDFFF)
  {
    hide HexValue;
    var bytes := FirstPiece(s).bytes;
    assert (bytes + rest)[|bytes|..] == rest;
    if s[1] == LETTER_U {
      var v := EscapedCode(s).value;
      CodeBytesAreUtf8Exactly(v, rest);
      NoHighSurrogate(s);
    } else {
      assert bytes[0] <= 0x7F;
      assert (bytes + rest)[0] == bytes[0];
    }
  }

  /** Such input exists: the escape of a low surrogate alone is accepted, and what it stands for is not UTF-8. */
  lemma LoneLowIsAccepted(unit: nat, upper: Cases)
    requires 0xDC00 <= unit <= 0xDFFF
    ensures var s := UnitEscape(unit, upper, 0);
            && WellFormed(s) && HasLoneLow(s) && Decoded(s).Some? && !WellFormed(Decoded(s).value)
  {
    hide UnitEscape, HexDigit, HexValue, CodeBytes, Scalars;
    var s := UnitEscape(unit, upper, 0);
    UnitReads(unit, upper, 0);
    UnitStarts(unit, upper, 0);
    assert s[2..6] == s[2..];
    assert EscapedCode(s) == Code(6, unit) && StartsCode(s);
    FourBytesFor(unit);
    assert FirstPiece(s).Piece? && s[6..] == [];
    HexAscii(s[2..6]);
    assert forall i | 2 <= i < 6 :: s[i] == s[2..6][i - 2];
    AsciiPrefix(s, 6);
    EmptyIsWellFormed();
    WellFormedExactly(s);
  }

  lemma FourBytesFor(unit: nat)
    requires 0xDC00 <= unit <= 0xDFFF
    ensures CodeBytes(unit).Some?
  {
  }

  lemma EmptyIsWellFormed()
    ensures WellFormed([])
  {
  }

  lemma NoHighSurrogate(s: seq<Byte>)
    requires EscapedCode(s).Code?
    ensures !(0xD800 <= EscapedCode(s).value <= 0xDBFF)
  {
  }

  // ---------------------------------------------------------------- the writer

  /** The letter of a two-character escape, if the byte has one. */
  function EscapeLetter(b: Byte): Option<Byte> {
    if b == QUOTE || b == BACKSLASH then Some(b)
    else if b == 0x08 then Some(0x62)
    else if b == 0x0C then Some(0x66)
    else if b == 0x0A then Some(0x6E)
    else if b == 0x0D then Some(0x72)
    else if b == 0x09 then Some(0x74)
    else None
  }

  function EscapeByte(b: Byte): (s: seq<Byte>)
    ensures 1 <= |s| <= 6
  {
    if EscapeLetter(b).Some? then [BACKSLASH, EscapeLetter(b).value]
    else if b < 0x20 then [BACKSLASH, LETTER_U, 0x30, 0x30, HexDigit(b / 16, false), HexDigit(b % 16, false)]
    else [b]
  }

  /** The escaped text, in one piece. */
  function Escape(bytes: seq<Byte>): seq<Byte> {
    if bytes == [] then [] else Escape(bytes[..|bytes| - 1]) + EscapeByte(bytes[|bytes| - 1])
  }

  /** Nothing in the text ends the string early or needs an escape it does not have. */
  predicate Quotable(s: seq<Byte>) {
    s == []
    || (s[0] == BACKSLASH && |s| >= 2 && s[1] >= 0x20 && Quotable(s[2..]))
    || (s[0] != BACKSLASH && s[0] != QUOTE && s[0] >= 0x20 && Quotable(s[1..]))
  }

  /** A bounded text buffer. */
  class Chunk {
    const storage: array<Byte>
    var size: nat
    var truncated: bool

    ghost predicate Valid()
      reads this
    {
      size <= storage.Length
    }

    ghost function Contents(): seq<Byte>
      reads this, storage
      requires Valid()
    {
      storage[..size]
    }

    constructor (capacity: nat)
      ensures Valid() && fresh(storage) && storage.Length == capacity && Contents() == [] && !truncated
    {
      storage := new Byte[capacity](_ => 0);
      size, truncated := 0, false;
    }

    /** As much of the text as fits is kept, even when not all of it does. */
    method Append(text: seq<Byte>) returns (ok: bool)
      requires Valid()
      modifies this`size, this`truncated, storage
      ensures Valid()
      ensures ok <==> old(size) + |text| <= storage.Length
      ensures Contents() == old(Contents()) + text[..if ok then |text| else storage.Length - old(size)]
      ensures truncated == (old(truncated) || !ok)
    {
      var available := storage.Length - size;
      var copied := if |text| < available then |text| else available;
      forall i | 0 <= i < copied {
        storage[size + i] := text[i];
      }
      assert storage[..size + copied] == old(storage[..size]) + text[..copied];
      size := size + copied;
      if copied != |text| {
        truncated := true;
        return false;
      }
      ok := true;
    }

    method Reset()
      modifies this`size, this`truncated
      ensures Valid() && Contents() == [] && !truncated
    {
      size, truncated := 0, false;
    }
  }

  lemma EscapeNext(bytes: seq<Byte>, n: nat)
    requires n < |bytes|
    ensures Escape(bytes[..n + 1]) == Escape(bytes[..n]) + EscapeByte(bytes[n])
  {
    assert bytes[..n + 1][..n] == bytes[..n];
  }

  /** Put one escape into the chunk, first flushing the chunk to the stream if the longest escape might not fit.
      The append cannot fail. */
  method PutEscape(chunk: Chunk, text: seq<Byte>, left: nat, written: seq<Byte>)
    returns (ok: bool, writesLeft: nat, out: seq<Byte>)
    requires chunk.Valid() && !chunk.truncated && chunk.storage.Length >= 6 && |text| <= 6
    modifies chunk, chunk.storage
    ensures chunk.Valid() && !chunk.truncated
    ensures ok ==> out + chunk.Contents() == written + old(chunk.Contents()) + text
    ensures !ok ==> out == written && left == 0
    ensures ok ==> left - 1 <= writesLeft <= left
  {
    out, writesLeft := written, left;
    ghost var held := chunk.Contents();
    if chunk.size > chunk.storage.Length - 6 {
      if left == 0 {
        return false, 0, written;
      }
      out := out + chunk.storage[..chunk.size];
      writesLeft := left - 1;
      chunk.Reset();
    }
    ghost var now := chunk.Contents();
    assert out + now == written + held;
    ok := chunk.Append(text);
    assert text[..|text|] == text;
    assert out + (now + text) == out + now + text;
  }

  /** Write the string in quotes, through a chunk that is flushed whenever the longest escape might not fit. The
      stream takes `accepts` writes before it fails. Unless it fails, what is written is the escape in one piece;
      if it does, what is written is a front part of that. */
  method WriteJsonString(bytes: seq<Byte>, chunk: Chunk, accepts: nat) returns (ok: bool, written: seq<Byte>)
    requires chunk.Valid() && chunk.Contents() == [] && !chunk.truncated && chunk.storage.Length >= 6
    modifies chunk, chunk.storage
    ensures ok ==> written == [QUOTE] + Escape(bytes) + [QUOTE]
    ensures !ok ==> written <= [QUOTE] + Escape(bytes) && accepts < 3 + |bytes|
    ensures chunk.Valid() && !chunk.truncated
  {
    hide Escape, EscapeByte;
    written := [];
    if accepts == 0 {
      return false, written;
    }
    written := [QUOTE];
    var left: nat := accepts - 1;
    NothingEscaped(bytes);
    for index := 0 to |bytes|
      invariant chunk.Valid() && !chunk.truncated && left + 1 + index >= accepts
      invariant written + chunk.Contents() == [QUOTE] + Escape(bytes[..index])
    {
      EscapeNext(bytes, index);
      ghost var before := [QUOTE] + Escape(bytes[..index]);
      EscapePrefix(bytes, index);
      PrefixTo(written, chunk.Contents(), before, [QUOTE] + Escape(bytes));
      var put;
      put, left, written := PutEscape(chunk, EscapeByte(bytes[index]), left, written);
      if !put {
        return false, written;
      }
      assert before + EscapeByte(bytes[index]) == [QUOTE] + Escape(bytes[..index + 1]);
    }
    assert bytes[..|bytes|] == bytes;
    if left == 0 {
      return false, written;
    }
    written := written + chunk.storage[..chunk.size];
    if left == 1 {
      return false, written;
    }
    return true, written + [QUOTE];
  }

  lemma NothingEscaped(bytes: seq<Byte>)
    ensures Escape(bytes[..0]) == []
  {
  }

  lemma PrefixTo(a: seq<Byte>, b: seq<Byte>, c: seq<Byte>, d: seq<Byte>)
    requires a + b == c && c <= d
    ensures a <= d
  {
  }

  lemma {:induction false} EscapePrefix(bytes: seq<Byte>, n: nat)
    requires n <= |bytes|
    ensures Escape(bytes[..n]) <= Escape(bytes)
    decreases |bytes| - n
  {
    if n == |bytes| {
      assert bytes[..n] == bytes;
    } else {
      EscapePrefix(bytes, n + 1);
      EscapeNext(bytes, n);
    }
  }

  // ---------------------------------------------------------------- decoding undoes writing

  lemma EscapedByteReads(b: Byte, rest: seq<Byte>)
    requires b != 0
    ensures FirstPiece(EscapeByte(b) + rest) == Piece(|EscapeByte(b)|, [b])
    ensures EscapeByte(b)[0] != QUOTE
  {
    if EscapeLetter(b).None? && b < 0x20 {
      var s := EscapeByte(b) + rest;
      var d := s[2..6];
      assert d == [0x30, 0x30, HexDigit(b / 16, false), HexDigit(b % 16, false)];
      HexNone(d);
      HexNext(d, 0, 0, 0);
      HexNext(d, 1, 0, 0);
      HexNext(d, 2, 0, b / 16);
      HexNext(d, 3, b / 16, b % 16);
    }
  }

  lemma {:induction false} EscapeFirst(bytes: seq<Byte>)
    requires bytes != []
    ensures Escape(bytes) == EscapeByte(bytes[0]) + Escape(bytes[1..])
  {
    hide EscapeByte;
    if |bytes| > 1 {
      var front := bytes[..|bytes| - 1];
      EscapeFirst(front);
      assert front[1..] == bytes[1..][..|bytes| - 2];
    }
  }

  /** For every byte string without a zero byte, decode_string undoes write_json_string, and what is written
      between the quotes contains no quote of its own. */
  lemma {:induction false} DecodeUndoesWrite(bytes: seq<Byte>)
    requires forall i | 0 <= i < |bytes| :: bytes[i] != 0
    ensures Decoded(Escape(bytes)) == Some(bytes)
    ensures Quotable(Escape(bytes))
  {
    if bytes != [] {
      hide FirstPiece, Decoded, EscapeByte, Quotable;
      var rest := Escape(bytes[1..]);
      EscapeFirst(bytes);
      DecodeUndoesWrite(bytes[1..]);
      EscapedByteReads(bytes[0], rest);
      DecodedStep(Escape(bytes));
      assert (EscapeByte(bytes[0]) + rest)[|EscapeByte(bytes[0])|..] == rest;
      assert [bytes[0]] + bytes[1..] == bytes;
      EscapedByteQuotable(bytes[0], rest);
    }
  }

  lemma EscapedByteQuotable(b: Byte, rest: seq<Byte>)
    requires Quotable(rest)
    ensures Quotable(EscapeByte(b) + rest)
  {
    var s := EscapeByte(b) + rest;
    if EscapeLetter(b).Some? {
      assert s[2..] == rest;
    } else if b < 0x20 {
      assert s[6..] == rest;
      assert Quotable(s[5..]) by { assert s[5..][1..] == s[6..]; }
      assert Quotable(s[4..]) by { assert s[4..][1..] == s[5..]; }
      assert Quotable(s[3..]) by { assert s[3..][1..] == s[4..]; }
      assert Quotable(s[2..]) by { assert s[2..][1..] == s[3..]; }
    } else {
      assert s[1..] == rest;
    }
  }

  /** The escape of a zero byte is written but not accepted. */
  lemma ZeroByteIsRejected(rest: seq<Byte>)
    ensures Decoded(EscapeByte(0) + rest) == None
  {
    var s := EscapeByte(0) + rest;
    assert s[2..6] == [0x30, 0x30, 0x30, 0x30];
    HexNone(s[2..6]);
    HexNext(s[2..6], 0, 0, 0);
    HexNext(s[2..6], 1, 0, 0);
    HexNext(s[2..6], 2, 0, 0);
    HexNext(s[2..6], 3, 0, 0);
  }

  /** What decode_string makes of what write_json_string wrote, for every byte string: the string itself, unless there
      is a zero byte anywhere in it; then the text is refused. */
  lemma {:induction false} DecodeUndoesWriteExactly(bytes: seq<Byte>)
    ensures Decoded(Escape(bytes)) == if 0 in bytes then None else Some(bytes)
  {
    if bytes != [] {
      hide FirstPiece, Decoded, EscapeByte;
      var rest := Escape(bytes[1..]);
      EscapeFirst(bytes);
      assert bytes == [bytes[0]] + bytes[1..];
      if bytes[0] == 0 {
        ZeroByteIsRejected(rest);
      } else {
        DecodeUndoesWriteExactly(bytes[1..]);
        EscapedByteReads(bytes[0], rest);
        DecodedStep(Escape(bytes));
        assert (EscapeByte(bytes[0]) + rest)[|EscapeByte(bytes[0])|..] == rest;
      }
    }
  }
}
