/** Unsigned integers as little-endian bytes. */
module Words {
  import opened Statuses

  function Power256(width: nat): nat { if width == 0 then 1 else 256 * Power256(width - 1) }

  function LittleEndian(value: nat, width: nat): (bytes: seq<Byte>)
    ensures |bytes| == width
    decreases width
  {
    if width == 0 then [] else [value % 256] + LittleEndian(value / 256, width - 1)
  }

  function FromLittleEndian(bytes: seq<Byte>): nat {
    if bytes == [] then 0 else bytes[0] + 256 * FromLittleEndian(bytes[1..])
  }

  lemma {:induction false} LittleEndianRoundTrip(value: nat, width: nat)
    requires value < Power256(width)
    ensures FromLittleEndian(LittleEndian(value, width)) == value
    decreases width
  {
    if width > 0 {
      LittleEndianRoundTrip(value / 256, width - 1);
      assert LittleEndian(value, width)[1..] == LittleEndian(value / 256, width - 1);
    }
  }

  lemma {:induction false} FromLittleEndianBound(bytes: seq<Byte>)
    ensures FromLittleEndian(bytes) < Power256(|bytes|)
  {
    if bytes != [] {
      FromLittleEndianBound(bytes[1..]);
    }
  }

  lemma FirstByte(b: Byte, rest: nat)
    ensures (b + 256 * rest) % 256 == b && (b + 256 * rest) / 256 == rest
  {
  }

  lemma {:induction false} FromLittleEndianBack(bytes: seq<Byte>)
    ensures LittleEndian(FromLittleEndian(bytes), |bytes|) == bytes
  {
    if bytes != [] {
      FromLittleEndianBack(bytes[1..]);
      FirstByte(bytes[0], FromLittleEndian(bytes[1..]));
      assert bytes == [bytes[0]] + bytes[1..];
    }
  }

  lemma Powers()
    ensures Power256(2) == 0x1_0000 && Power256(4) == U32_LIMIT && Power256(8) == U64_LIMIT
  {
    assert Power256(3) == 0x100_0000;
    assert Power256(5) == 0x100_0000_0000 && Power256(6) == 0x1_0000_0000_0000;
    assert Power256(7) == 0x100_0000_0000_0000;
  }

  // ---------------------------------------------------------------- words at an offset

  function Read16(b: seq<Byte>, at: nat): nat
    requires at + 2 <= |b|
  {
    (b[at] as nat) + 0x100 * (b[at + 1] as nat)
  }

  function Read32(b: seq<Byte>, at: nat): nat
    requires at + 4 <= |b|
  {
    Read16(b, at) + 0x1_0000 * Read16(b, at + 2)
  }

  function Read64(b: seq<Byte>, at: nat): nat
    requires at + 8 <= |b|
  {
    Read32(b, at) + 0x1_0000_0000 * Read32(b, at + 4)
  }

  lemma TwoBytes(s: seq<Byte>)
    requires |s| >= 2
    ensures FromLittleEndian(s) == Read16(s, 0) + 0x1_0000 * FromLittleEndian(s[2..])
  {
    assert s[1..][1..] == s[2..];
  }

  lemma FourBytes(s: seq<Byte>)
    requires |s| >= 4
    ensures FromLittleEndian(s) == Read32(s, 0) + 0x1_0000_0000 * FromLittleEndian(s[4..])
  {
    hide FromLittleEndian;
    TwoBytes(s);
    TwoBytes(s[2..]);
    assert s[2..][2..] == s[4..];
  }

  /** Decoding a field gives the word that stands at its offset. */
  lemma FieldsAreWords(b: seq<Byte>, at: nat)
    ensures at + 2 <= |b| ==> FromLittleEndian(b[at..at + 2]) == Read16(b, at)
    ensures at + 4 <= |b| ==> FromLittleEndian(b[at..at + 4]) == Read32(b, at)
    ensures at + 8 <= |b| ==> FromLittleEndian(b[at..at + 8]) == Read64(b, at)
  {
    assert FromLittleEndian([]) == 0;
    hide FromLittleEndian;
    if at + 2 <= |b| {
      var s := b[at..at + 2];
      TwoBytes(s);
      assert s[2..] == [];
    }
    if at + 4 <= |b| {
      var s := b[at..at + 4];
      FourBytes(s);
      assert s[4..] == [];
    }
    if at + 8 <= |b| {
      var s := b[at..at + 8];
      FourBytes(s);
      FourBytes(s[4..]);
      assert s[4..][4..] == [];
    }
  }
}
