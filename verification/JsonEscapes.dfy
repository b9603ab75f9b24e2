/** The escapes of section 7 of RFC 8259, as the document lists them, and what the MCP server makes of them. */
module JsonEscapes {
  import opened Statuses
  import opened JsonStrings

  /** The letter after the backslash, and the code point of the character it stands for. */
  datatype Pair = Pair(letter: char, code: nat)

  const SHORT_ESCAPES: seq<Pair> :=
    [Pair('"', 0x22), Pair('\\', 0x5C), Pair('/', 0x2F), Pair('b', 0x08), Pair('f', 0x0C), Pair('n', 0x0A),
     Pair('r', 0x0D), Pair('t', 0x09)]

  const LOWER_DIGITS := "0123456789abcdef"
  const UPPER_DIGITS := "0123456789ABCDEF"

  /** The bytes are this text of ASCII characters. */
  ghost predicate Spells(bytes: seq<Byte>, text: string) {
    |bytes| == |text| && forall i | 0 <= i < |text| :: bytes[i] == text[i] as int
  }

  ghost predicate IsShort(letter: Byte, code: nat) {
    exists i :: 0 <= i < |SHORT_ESCAPES| && SHORT_ESCAPES[i].letter as int == letter && SHORT_ESCAPES[i].code == code
  }

  // ---------------------------------------------------------------- hexadecimal digits

  /** A byte is read as a digit of value v exactly if it is the digit for v, in either case. */
  lemma HexadecimalExactly(b: Byte, v: nat)
    requires v < 16
    ensures Hexadecimal(b) == v <==> b == LOWER_DIGITS[v] as int || b == UPPER_DIGITS[v] as int
  {
  }

  /** The bytes read as no digit are all others. */
  lemma NoDigitExactly(b: Byte)
    ensures Hexadecimal(b) < 0 <==> forall v | 0 <= v < 16 :: b != LOWER_DIGITS[v] as int && b != UPPER_DIGITS[v] as int
  {
    if Hexadecimal(b) >= 0 {
      HexadecimalExactly(b, Hexadecimal(b));
    } else {
      forall v | 0 <= v < 16 ensures b != LOWER_DIGITS[v] as int && b != UPPER_DIGITS[v] as int {
        HexadecimalExactly(b, v);
      }
    }
  }

  // ---------------------------------------------------------------- anywhere in a text

  lemma FirstPieceLocal(front: seq<Byte>, rest: seq<Byte>)
    requires front != [] && FirstPiece(front).Piece?
    ensures FirstPiece(front + rest) == FirstPiece(front)
  {
    hide HexValue, CodeBytes, ShortEscape;
    var s := front + rest;
    if |front| >= 6 {
      assert s[2..6] == front[2..6];
    }
    if |front| >= 12 {
      assert s[8..12] == front[8..12];
    }
  }

  /** A well-formed beginning of a text is decoded by itself. */
  lemma {:induction false} DecodedAfter(front: seq<Byte>, rest: seq<Byte>)
    requires Decoded(front).Some?
    ensures Decoded(front + rest) == After(Decoded(front).value, Decoded(rest))
  {
    hide FirstPiece, Decoded;
    if front == [] {
      EmptyDecodes();
      assert front + rest == rest;
      AfterNothing(Decoded(rest));
    } else {
      DecodedFirst(front);
      FirstPieceLocal(front, rest);
      var n := FirstPiece(front).length;
      DecodedAfter(front[n..], rest);
      DecodedStep(front);
      DecodedStep(front + rest);
      assert (front + rest)[n..] == front[n..] + rest;
      AfterTwice(FirstPiece(front).bytes, Decoded(front[n..]).value, Decoded(rest));
    }
  }

  lemma EmptyDecodes()
    ensures Decoded([]) == Some([])
  {
  }

  lemma DecodedFirst(s: seq<Byte>)
    requires s != [] && Decoded(s).Some?
    ensures FirstPiece(s).Piece? && Decoded(s[FirstPiece(s).length..]).Some?
  {
  }

  lemma AfterNothing(rest: Option<seq<Byte>>)
    ensures After([], rest) == rest
  {
    if rest.Some? {
      assert [] + rest.value == rest.value;
    }
  }

  lemma AfterTwice(a: seq<Byte>, b: seq<Byte>, rest: Option<seq<Byte>>)
    ensures After(a, After(b, rest)) == After(a + b, rest)
  {
    if rest.Some? {
      assert a + (b + rest.value) == a + b + rest.value;
    }
  }

  lemma RefusedAfter(front: seq<Byte>, rest: seq<Byte>)
    requires Decoded(front).Some? && rest != [] && FirstPiece(rest).Bad?
    ensures Decoded(front + rest) == None
  {
    hide FirstPiece;
    DecodedAfter(front, rest);
  }

  lemma PieceAfter(front: seq<Byte>, escape: seq<Byte>, rest: seq<Byte>, bytes: seq<Byte>)
    requires Decoded(front).Some? && escape != [] && FirstPiece(escape + rest) == Piece(|escape|, bytes)
    ensures Decoded(front + escape + rest) == After(Decoded(front).value + bytes, Decoded(rest))
  {
    hide FirstPiece, Decoded;
    assert front + escape + rest == front + (escape + rest);
    DecodedAfter(front, escape + rest);
    DecodedStep(escape + rest);
    assert (escape + rest)[|escape|..] == rest;
    AfterTwice(Decoded(front).value, bytes, Decoded(rest));
  }

  // ---------------------------------------------------------------- the two-character escapes

  lemma ShortPiece(letter: Byte, code: nat, rest: seq<Byte>)
    requires IsShort(letter, code)
    ensures 0 < code < 0x80 && FirstPiece([BACKSLASH, letter] + rest) == Piece(2, [code])
  {
  }

  lemma LongPiece(code: nat, upper: Cases, at: nat, rest: seq<Byte>)
    requires 0 < code < 0x80
    ensures FirstPiece(UnitEscape(code, upper, at) + rest) == Piece(6, [code])
  {
    hide UnitEscape, HexValue;
    var s := UnitEscape(code, upper, at) + rest;
    UnitReads(code, upper, at);
    UnitStarts(code, upper, at);
    assert s[2..6] == UnitEscape(code, upper, at)[2..];
    assert s[0] == BACKSLASH && s[1] == LETTER_U;
  }

  /** Each short escape stands for the character that the document names: wherever it stands, it is decoded like the
      \u escape of that character. */
  lemma ShortEscapesDecode(front: seq<Byte>, letter: Byte, code: nat, rest: seq<Byte>, upper: Cases, at: nat)
    requires Decoded(front).Some? && IsShort(letter, code)
    ensures 0 < code < 0x80
    ensures Decoded(front + [BACKSLASH, letter] + rest) == After(Decoded(front).value + [code], Decoded(rest))
    ensures Decoded(front + [BACKSLASH, letter] + rest) == Decoded(front + UnitEscape(code, upper, at) + rest)
  {
    hide FirstPiece, Decoded, UnitEscape, IsShort;
    ShortPiece(letter, code, rest);
    LongPiece(code, upper, at, rest);
    PieceAfter(front, [BACKSLASH, letter], rest, [code]);
    PieceAfter(front, UnitEscape(code, upper, at), rest, [code]);
  }

  /** Any other letter after a backslash is refused, except the u of a \u escape. */
  lemma OtherEscapesAreRefused(front: seq<Byte>, letter: Byte, rest: seq<Byte>)
    requires Decoded(front).Some? && letter != 'u' as int && forall code: nat :: !IsShort(letter, code)
    ensures Decoded(front + [BACKSLASH, letter] + rest) == None
  {
    OtherIsBad(letter, rest);
    hide FirstPiece, Decoded, IsShort;
    assert front + [BACKSLASH, letter] + rest == front + ([BACKSLASH, letter] + rest);
    RefusedAfter(front, [BACKSLASH, letter] + rest);
  }

  lemma OtherIsBad(letter: Byte, rest: seq<Byte>)
    requires letter != 'u' as int && forall code: nat :: !IsShort(letter, code)
    ensures FirstPiece([BACKSLASH, letter] + rest).Bad?
  {
    forall i | 0 <= i < |SHORT_ESCAPES| ensures SHORT_ESCAPES[i].letter as int != letter {
      assert !IsShort(letter, SHORT_ESCAPES[i].code);
    }
    assert SHORT_ESCAPES[0].letter as int != letter && SHORT_ESCAPES[1].letter as int != letter;
    assert SHORT_ESCAPES[2].letter as int != letter && SHORT_ESCAPES[3].letter as int != letter;
    assert SHORT_ESCAPES[4].letter as int != letter && SHORT_ESCAPES[5].letter as int != letter;
    assert SHORT_ESCAPES[6].letter as int != letter && SHORT_ESCAPES[7].letter as int != letter;
  }

  // ---------------------------------------------------------------- what the writer emits

  /** The text stands for the byte: as itself, by a short escape, or by a \u escape. */
  ghost predicate StandsFor(text: seq<Byte>, b: Byte) {
    || (b >= 0x20 && b != '"' as int && b != '\\' as int && text == [b])
    || (|text| == 2 && text[0] == '\\' as int && IsShort(text[1], b))
    || (b < 0x20 && |text| == 6 && Spells(text[..4], "\\u00")
        && text[4] == LOWER_DIGITS[b / 16] as int && text[5] == LOWER_DIGITS[b % 16] as int)
  }

  /** What the writer puts for a byte stands for that byte; a short escape is used whenever there is one, except for
      the slash, which needs none. */
  lemma WriterStandsFor(b: Byte)
    ensures StandsFor(EscapeByte(b), b)
    ensures |EscapeByte(b)| == 2 <==> b != '/' as int && exists letter: Byte :: IsShort(letter, b)
  {
    if b == 0x22 {
      assert SHORT_ESCAPES[0].letter as int == 0x22;
    } else if b == 0x5C {
      assert SHORT_ESCAPES[1].letter as int == 0x5C;
    } else if b == 0x08 {
      assert SHORT_ESCAPES[3].letter as int == 0x62;
    } else if b == 0x0C {
      assert SHORT_ESCAPES[4].letter as int == 0x66;
    } else if b == 0x0A {
      assert SHORT_ESCAPES[5].letter as int == 0x6E;
    } else if b == 0x0D {
      assert SHORT_ESCAPES[6].letter as int == 0x72;
    } else if b == 0x09 {
      assert SHORT_ESCAPES[7].letter as int == 0x74;
    }
  }

  // ---------------------------------------------------------------- the document's example of a surrogate pair

  /** The G clef U+1D11E, escaped as \uD834\uDD1E, decodes to its UTF-8 form. */
  lemma ClefDecodes(s: seq<Byte>)
    requires Spells(s, "\\uD834\\uDD1E")
    ensures Decoded(s) == Some([0xF0, 0x9D, 0x84, 0x9E])
  {
    var high, low := s[2..6], s[8..12];
    HexNone(high);
    HexNone(low);
    DigitsRead(high, 0xD, 0x8, 0x3, 0x4);
    DigitsRead(low, 0xD, 0xD, 0x1, 0xE);
    hide HexValue, Decoded;
    assert EscapedCode(s) == Code(12, 0x1D11E);
    var clef: seq<Byte> := [0xF0, 0x9D, 0x84, 0x9E];
    assert CodeBytes(0x1D11E) == Some(clef);
    assert FirstPiece(s) == Piece(12, clef);
    assert clef + [] == clef;
    DecodedStep(s);
    assert s[12..] == [];
    EmptyDecodes();
  }

  lemma DigitsRead(d: seq<Byte>, a: nat, b: nat, c: nat, e: nat)
    requires |d| == 4 && a < 16 && b < 16 && c < 16 && e < 16
    requires Hexadecimal(d[0]) == a && Hexadecimal(d[1]) == b && Hexadecimal(d[2]) == c && Hexadecimal(d[3]) == e
    ensures HexValue(d, 4) == Some(((a * 16 + b) * 16 + c) * 16 + e)
  {
    hide HexValue;
    HexNone(d);
    HexNext(d, 0, 0, a);
    HexNext(d, 1, a, b);
    HexNext(d, 2, a * 16 + b, c);
    HexNext(d, 3, (a * 16 + b) * 16 + c, e);
  }
}
