/** Where the fields of a target packet stand: byte offsets of the header and of the 80-byte records, for what the
    writer writes and for what the reader takes from any bytes (include/saccade/saccade_scene.h). */
module PacketLayouts {
  import opened Statuses
  import opened Words
  import opened Targets
  import opened TargetPackets

  // ---------------------------------------------------------------- fields at offsets

  lemma Slice(s: seq<Byte>, a: nat, b: nat, c: nat, d: nat)
    requires a <= b <= |s| && c <= d <= b - a
    ensures s[a..b][c..d] == s[a + c..a + d]
  {
    var inner, whole := s[a..b][c..d], s[a + c..a + d];
    assert |inner| == |whole|;
    forall i | 0 <= i < |inner| ensures inner[i] == whole[i] {
      assert inner[i] == s[a..b][c + i] == s[a + (c + i)];
      assert whole[i] == s[a + c + i];
    }
  }

  lemma SplitFront<T>(x: seq<T>, y: seq<T>, n: nat)
    requires n <= |x|
    ensures (x + y)[..n] == x[..n] && (x + y)[n..] == x[n..] + y
  {
  }

  lemma {:induction false} DecodesApart(a: seq<nat>, b: seq<nat>, x: seq<Byte>, y: seq<Byte>)
    requires |x| == TotalWidth(a) && |y| == TotalWidth(b)
    ensures |x + y| == TotalWidth(a + b) && DecodeFields(a + b, x + y) == DecodeFields(a, x) + DecodeFields(b, y)
    decreases |a|, 1
  {
    ConcatWidth(a, b);
    if a == [] {
      assert a + b == b && x + y == y;
    } else {
      DecodesApartStep(a, b, x, y);
    }
  }

  lemma DecodesApartStep(a: seq<nat>, b: seq<nat>, x: seq<Byte>, y: seq<Byte>)
    requires a != [] && |x| == TotalWidth(a) && |y| == TotalWidth(b) && |x + y| == TotalWidth(a + b)
    ensures DecodeFields(a + b, x + y) == DecodeFields(a, x) + DecodeFields(b, y)
    decreases |a|, 0
  {
    hide FromLittleEndian, DecodeFields, TotalWidth;
    WidthStep(a);
    SplitFront(a, b, 1);
    SplitFront(x, y, a[0]);
    DecodesApart(a[1..], b, x[a[0]..], y);
    DecodeStep(a, x);
    DecodeStep(a + b, x + y);
    SplitFront([FromLittleEndian(x[..a[0]])], DecodeFields(a[1..], x[a[0]..]), 1);
  }

  lemma WidthStep(widths: seq<nat>)
    requires widths != []
    ensures TotalWidth(widths) == widths[0] + TotalWidth(widths[1..])
  {
  }

  lemma DecodeStep(widths: seq<nat>, bytes: seq<Byte>)
    requires widths != [] && |bytes| == TotalWidth(widths)
    ensures TotalWidth(widths) == widths[0] + TotalWidth(widths[1..])
    ensures DecodeFields(widths, bytes)
         == [FromLittleEndian(bytes[..widths[0]])] + DecodeFields(widths[1..], bytes[widths[0]..])
  {
  }

  /** Field number k of fields of the same width. */
  lemma {:induction false} RepeatedField(width: nat, count: nat, bytes: seq<Byte>, k: nat)
    requires |bytes| == width * count && k < count
    ensures |bytes| == TotalWidth(Repeat(width, count)) && 0 <= width * k && width * k + width <= |bytes|
    ensures DecodeFields(Repeat(width, count), bytes)[k] == FromLittleEndian(bytes[width * k..width * k + width])
    decreases k
  {
    hide FromLittleEndian;
    RepeatWidth(width, count);
    RepeatWidth(width, count - 1);
    assert width * count == width + width * (count - 1);
    assert Repeat(width, count)[1..] == Repeat(width, count - 1);
    if k > 0 {
      assert width * k == width + width * (k - 1);
      RepeatedField(width, count - 1, bytes[width..], k - 1);
      assert bytes[width..][width * (k - 1)..width * (k - 1) + width] == bytes[width * k..width * k + width];
    } else {
      assert bytes[width * 0..width * 0 + width] == bytes[..width];
    }
  }

  /** Fields of the same width, standing from `at` on in larger bytes. */
  lemma FieldsFrom(bytes: seq<Byte>, at: nat, width: nat, count: nat, k: nat)
    requires width in {2, 4, 8} && at + width * count <= |bytes| && k < count
    ensures TotalWidth(Repeat(width, count)) == width * count && at + width * k + width <= |bytes|
    ensures DecodeFields(Repeat(width, count), bytes[at..at + width * count])[k]
         == if width == 2 then Read16(bytes, at + 2 * k) else if width == 4 then Read32(bytes, at + 4 * k)
            else Read64(bytes, at + 8 * k)
  {
    hide FromLittleEndian, DecodeFields, Repeat, Read16, Read32, Read64;
    RepeatWidth(width, count);
    var part := bytes[at..at + width * count];
    RepeatedField(width, count, part, k);
    assert width * k + width <= width * count;
    var start := at + width * k;
    Slice(bytes, at, at + width * count, width * k, width * k + width);
    FieldsAreWords(bytes, start);
  }

  /** The header's fields: six 32-bit words, then ten 64-bit words. */
  lemma HeaderWords(bytes: seq<Byte>, k: nat)
    requires |bytes| >= 104 && k < 16
    ensures HeaderOf(bytes)[k] == if k < 6 then Read32(bytes, 4 * k) else Read64(bytes, 24 + 8 * (k - 6))
  {
    hide DecodeFields, Repeat, Read32, Read64, TotalWidth;
    LayoutSizes();
    RepeatWidth(4, 6);
    RepeatWidth(8, 10);
    var head := bytes[..104];
    assert head == bytes[0..24] + bytes[24..104];
    DecodesApart(Repeat(4, 6), Repeat(8, 10), bytes[0..24], bytes[24..104]);
    if k < 6 {
      FieldsFrom(bytes, 0, 4, 6, k);
    } else {
      FieldsFrom(bytes, 24, 8, 10, k - 6);
    }
  }

  lemma RecordGroups(r: seq<Byte>)
    requires |r| == 80
    ensures TotalWidth(Repeat(8, 4)) == 32 && TotalWidth(Repeat(4, 7)) == 28 && TotalWidth(Repeat(2, 2)) == 4
    ensures TotalWidth(Repeat(4, 3)) == 12 && TotalWidth(RecordWidths()) == 80
    ensures DecodeFields(RecordWidths(), r)
         == DecodeFields(Repeat(8, 4), r[..32]) + DecodeFields(Repeat(4, 7), r[32..60])
            + DecodeFields(Repeat(2, 2), r[60..64]) + DecodeFields(Repeat(4, 3), r[64..76])
            + DecodeFields(Repeat(2, 2), r[76..80])
  {
    hide DecodeFields, Repeat, TotalWidth;
    LayoutSizes();
    RepeatWidth(8, 4);
    RepeatWidth(4, 7);
    RepeatWidth(2, 2);
    RepeatWidth(4, 3);
    var a := Repeat(8, 4);
    var b := a + Repeat(4, 7);
    var c := b + Repeat(2, 2);
    var d := c + Repeat(4, 3);
    ConcatWidth(a, Repeat(4, 7));
    ConcatWidth(b, Repeat(2, 2));
    ConcatWidth(c, Repeat(4, 3));
    assert r == r[..76] + r[76..80] && r[..76] == r[..64] + r[64..76];
    assert r[..64] == r[..60] + r[60..64] && r[..60] == r[..32] + r[32..60];
    DecodesApart(a, Repeat(4, 7), r[..32], r[32..60]);
    DecodesApart(b, Repeat(2, 2), r[..60], r[60..64]);
    DecodesApart(c, Repeat(4, 3), r[..64], r[64..76]);
    DecodesApart(d, Repeat(2, 2), r[..76], r[76..80]);
  }

  /** Where field number k of a record stands: four 64-bit words, seven 32-bit words, two 16-bit words, three 32-bit
      words and two 16-bit words. */
  function RecordWord(bytes: seq<Byte>, at: nat, k: nat): nat
    requires at + 80 <= |bytes| && k < 18
  {
    if k < 4 then Read64(bytes, at + 8 * k)
    else if k < 11 then Read32(bytes, at + 32 + 4 * (k - 4))
    else if k < 13 then Read16(bytes, at + 60 + 2 * (k - 11))
    else if k < 16 then Read32(bytes, at + 64 + 4 * (k - 13))
    else Read16(bytes, at + 76 + 2 * (k - 16))
  }

  lemma RecordWords(bytes: seq<Byte>, index: nat, k: nat)
    requires 104 + 80 * (index + 1) <= |bytes| && k < 18
    ensures RecordAt(bytes, index)[k] == RecordWord(bytes, 104 + 80 * index, k)
  {
    hide DecodeFields, Repeat, Read16, Read32, Read64, TotalWidth;
    LayoutSizes();
    var at := 104 + 80 * index;
    var r := bytes[at..at + 80];
    RecordGroups(r);
    assert r[..32] == r[0..32];
    Slice(bytes, at, at + 80, 0, 32);
    Slice(bytes, at, at + 80, 32, 60);
    Slice(bytes, at, at + 80, 60, 64);
    Slice(bytes, at, at + 80, 64, 76);
    Slice(bytes, at, at + 80, 76, 80);
    if k < 4 {
      FieldsFrom(bytes, at, 8, 4, k);
    } else if k < 11 {
      FieldsFrom(bytes, at + 32, 4, 7, k - 4);
    } else if k < 13 {
      FieldsFrom(bytes, at + 60, 2, 2, k - 11);
    } else if k < 16 {
      FieldsFrom(bytes, at + 64, 4, 3, k - 13);
    } else {
      FieldsFrom(bytes, at + 76, 2, 2, k - 16);
    }
  }

  // ---------------------------------------------------------------- the written packet

  /** The header of a written packet, offset by offset. */
  ghost predicate HeaderStands(bytes: seq<Byte>, e: Epochs, count: nat) {
    && |bytes| == 104 + 80 * count
    && Read32(bytes, 0) == 104 && Read32(bytes, 4) == 0x0001_0002 && Read32(bytes, 8) == count
    && Read32(bytes, 12) == 80 && Read32(bytes, 16) == 0 && Read32(bytes, 20) == 2
    && Read64(bytes, 24) == 0 && Read64(bytes, 32) == e.frameId && Read64(bytes, 40) == 0
    && Read64(bytes, 48) == e.modelEpoch && Read64(bytes, 56) == e.sessionEpoch
    && Read64(bytes, 64) == e.transformEpoch && Read64(bytes, 72) == e.topologyEpoch
    && Read64(bytes, 80) == e.sourceId && Read64(bytes, 88) == 104 && Read64(bytes, 96) == 104 + 80 * count
  }

  /** An int32 shifted left by 8 as it stands in 32 bits. */
  ghost predicate Shifted8(word: nat, value: int) {
    0 <= word < 0x1_0000_0000 && (value * 256 - word) % 0x1_0000_0000 == 0
  }

  /** The record of one target, offset by offset: its id, no parent, window or display, box and safe point in 24.8
      fixed point, confidence, no role, the neural source, pointer move and button, actionable, its place in the order,
      and no text. */
  ghost predicate RecordStands(bytes: seq<Byte>, at: nat, t: Target, order: nat) {
    && at + 80 <= |bytes|
    && Read64(bytes, at) == t.stableId && Read64(bytes, at + 8) == 0 && Read64(bytes, at + 16) == 0
    && Read64(bytes, at + 24) == 0
    && Shifted8(Read32(bytes, at + 32), t.x) && Shifted8(Read32(bytes, at + 36), t.y)
    && Shifted8(Read32(bytes, at + 40), t.width) && Shifted8(Read32(bytes, at + 44), t.height)
    && Shifted8(Read32(bytes, at + 48), t.safeX) && Shifted8(Read32(bytes, at + 52), t.safeY)
    && Read32(bytes, at + 56) == t.confidence % 0x1_0000_0000
    && Read16(bytes, at + 60) == 0 && Read16(bytes, at + 62) == 1 && Read32(bytes, at + 64) == 3
    && Read32(bytes, at + 68) == 1 && Read32(bytes, at + 72) == order
    && Read16(bytes, at + 76) == 0 && Read16(bytes, at + 78) == 0
  }

  lemma HeaderStandsIn(e: Epochs, ts: seq<Target>)
    requires |ts| <= MAXIMUM_TARGETS
    ensures HeaderStands(PacketBytes(e, ts), e, |ts|)
  {
    hide HeaderOf, PacketBytes, Read16, Read32, Read64, HeaderAccepted;
    PacketSize(e, ts);
    PacketParts(e, ts);
    var bytes := PacketBytes(e, ts);
    forall k: nat | k < 16
      ensures HeaderOf(bytes)[k] == if k < 6 then Read32(bytes, 4 * k) else Read64(bytes, 24 + 8 * (k - 6))
    {
      HeaderWords(bytes, k);
    }
    var h := HeaderFields(e, |ts|);
    assert h[0] == Read32(bytes, 0) && h[1] == Read32(bytes, 4) && h[2] == Read32(bytes, 8);
    assert h[3] == Read32(bytes, 12) && h[4] == Read32(bytes, 16) && h[5] == Read32(bytes, 20);
    assert h[6] == Read64(bytes, 24) && h[7] == Read64(bytes, 32) && h[8] == Read64(bytes, 40);
    assert h[9] == Read64(bytes, 48) && h[10] == Read64(bytes, 56) && h[11] == Read64(bytes, 64);
    assert h[12] == Read64(bytes, 72) && h[13] == Read64(bytes, 80) && h[14] == Read64(bytes, 88);
    assert h[15] == Read64(bytes, 96);
  }

  lemma PacketSize(e: Epochs, ts: seq<Target>)
    ensures |PacketBytes(e, ts)| == 104 + 80 * |ts|
  {
  }

  lemma RecordStandsIn(e: Epochs, ts: seq<Target>, i: nat)
    requires i < |ts| <= MAXIMUM_TARGETS
    ensures RecordStands(PacketBytes(e, ts), 104 + 80 * i, ts[i], i)
  {
    hide RecordAt, PacketBytes, Read16, Read32, Read64, ToQ8, Shifted8;
    PacketSize(e, ts);
    var bytes, at, t := PacketBytes(e, ts), 104 + 80 * i, ts[i];
    RecordReads(e, ts, i);
    forall k: nat | k < 18 ensures RecordAt(bytes, i)[k] == RecordWord(bytes, at, k) {
      RecordWords(bytes, i, k);
    }
    var f := RecordFields(t, i);
    assert f[0] == Read64(bytes, at) && f[1] == Read64(bytes, at + 8) && f[2] == Read64(bytes, at + 16);
    assert f[3] == Read64(bytes, at + 24) && f[4] == Read32(bytes, at + 32) && f[5] == Read32(bytes, at + 36);
    assert f[6] == Read32(bytes, at + 40) && f[7] == Read32(bytes, at + 44) && f[8] == Read32(bytes, at + 48);
    assert f[9] == Read32(bytes, at + 52) && f[10] == Read32(bytes, at + 56) && f[11] == Read16(bytes, at + 60);
    assert f[12] == Read16(bytes, at + 62) && f[13] == Read32(bytes, at + 64) && f[14] == Read32(bytes, at + 68);
    assert f[15] == Read32(bytes, at + 72) && f[16] == Read16(bytes, at + 76) && f[17] == Read16(bytes, at + 78);
    ShiftStands(t.x);
    ShiftStands(t.y);
    ShiftStands(t.width);
    ShiftStands(t.height);
    ShiftStands(t.safeX);
    ShiftStands(t.safeY);
  }

  lemma ShiftStands(value: int)
    ensures Shifted8(ToQ8(value), value)
  {
  }

  lemma RecordReads(e: Epochs, ts: seq<Target>, i: nat)
    requires i < |ts| <= MAXIMUM_TARGETS
    ensures 104 + 80 * (i + 1) <= |PacketBytes(e, ts)|
    ensures RecordAt(PacketBytes(e, ts), i) == RecordFields(ts[i], i)
  {
    hide HeaderBytes, DecodeFields, EncodeFields, RecordWidths, RecordFields, Fit;
    LayoutSizes();
    RecordsSlice(ts, |ts|, i);
    RecordFits(ts[i], i);
    FieldsRoundTrip(RecordWidths(), RecordFields(ts[i], i));
    var bytes := PacketBytes(e, ts);
    var at := HEADER_SIZE + i * RECORD_SIZE;
    assert bytes[at..at + RECORD_SIZE] == RecordsBytes(ts, |ts|)[i * RECORD_SIZE..(i + 1) * RECORD_SIZE];
  }

  /** Every byte of a written packet is accounted for: the header and each record stand at their offsets. */
  lemma PacketStands(e: Epochs, ts: seq<Target>)
    requires |ts| <= MAXIMUM_TARGETS
    ensures HeaderStands(PacketBytes(e, ts), e, |ts|)
    ensures forall i | 0 <= i < |ts| :: RecordStands(PacketBytes(e, ts), 104 + 80 * i, ts[i], i)
  {
    hide HeaderStands, RecordStands, PacketBytes;
    HeaderStandsIn(e, ts);
    forall i | 0 <= i < |ts| ensures RecordStands(PacketBytes(e, ts), 104 + 80 * i, ts[i], i) {
      RecordStandsIn(e, ts, i);
    }
  }

  // ---------------------------------------------------------------- what the reader takes

  /** The reader goes past the header exactly if the fields it checks hold what they should. */
  lemma AcceptsExactly(bytes: seq<Byte>)
    ensures Accepts(bytes) <==>
            && |bytes| >= 104
            && Read32(bytes, 0) == 104 && Read32(bytes, 4) == 0x0001_0002 && Read32(bytes, 20) == 2
            && Read64(bytes, 24) == 0 && Read32(bytes, 8) <= 32 && Read32(bytes, 12) == 80
            && Read64(bytes, 88) == 104 && Read64(bytes, 96) == |bytes|
  {
    hide HeaderOf, Read32, Read64;
    if |bytes| >= 104 {
      HeaderWords(bytes, 0);
      HeaderWords(bytes, 1);
      HeaderWords(bytes, 2);
      HeaderWords(bytes, 3);
      HeaderWords(bytes, 5);
      HeaderWords(bytes, 6);
      HeaderWords(bytes, 14);
      HeaderWords(bytes, 15);
    }
  }

  /** A signed 24.8 word divided by 256, toward zero. */
  ghost predicate Truncated8(value: int, word: nat) {
    var signed := if word < 0x8000_0000 then word else word - 0x1_0000_0000;
    if signed >= 0 then value * 256 <= signed < value * 256 + 256 else value * 256 - 256 < signed <= value * 256
  }

  ghost predicate TargetTaken(bytes: seq<Byte>, at: nat, t: Target) {
    && at + 80 <= |bytes|
    && t.stableId == Read64(bytes, at)
    && Truncated8(t.x, Read32(bytes, at + 32)) && Truncated8(t.y, Read32(bytes, at + 36))
    && Truncated8(t.width, Read32(bytes, at + 40)) && Truncated8(t.height, Read32(bytes, at + 44))
    && Truncated8(t.safeX, Read32(bytes, at + 48)) && Truncated8(t.safeY, Read32(bytes, at + 52))
    && t.confidence == Read32(bytes, at + 56) && t.area == t.width * t.height % 0x1_0000_0000
  }

  lemma TruncationStands(word: U32)
    ensures Truncated8(FromQ8(word), word)
  {
  }

  lemma CoordinateIsTaken(bytes: seq<Byte>, i: nat, k: nat)
    requires 104 + 80 * (i + 1) <= |bytes| && 4 <= k < 10
    ensures Truncated8(FromQ8(Low32(RecordAt(bytes, i)[k])), Read32(bytes, 104 + 80 * i + 32 + 4 * (k - 4)))
  {
    hide RecordAt, Truncated8, FromQ8;
    RecordWords(bytes, i, k);
    TruncationStands(Low32(RecordAt(bytes, i)[k]));
  }

  lemma IdIsTaken(bytes: seq<Byte>, i: nat)
    requires 104 + 80 * (i + 1) <= |bytes|
    ensures Low64(RecordAt(bytes, i)[0]) == Read64(bytes, 104 + 80 * i)
    ensures RecordAt(bytes, i)[10] == Read32(bytes, 104 + 80 * i + 56)
  {
    hide RecordAt;
    RecordWords(bytes, i, 0);
    RecordWords(bytes, i, 10);
  }

  lemma TargetIsTaken(bytes: seq<Byte>, i: nat)
    requires 104 + 80 * (i + 1) <= |bytes|
    ensures TargetTaken(bytes, 104 + 80 * i, TargetOf(RecordAt(bytes, i)))
  {
    hide RecordAt, Truncated8, FromQ8, Read32, Read64, Low32, Low64;
    IdIsTaken(bytes, i);
    CoordinateIsTaken(bytes, i, 4);
    CoordinateIsTaken(bytes, i, 5);
    CoordinateIsTaken(bytes, i, 6);
    CoordinateIsTaken(bytes, i, 7);
    CoordinateIsTaken(bytes, i, 8);
    CoordinateIsTaken(bytes, i, 9);
  }

  lemma HeaderLong(bytes: seq<Byte>, k: nat)
    requires |bytes| >= 104 && 6 <= k < 16
    ensures Low64(HeaderOf(bytes)[k]) == Read64(bytes, 24 + 8 * (k - 6))
  {
    hide HeaderOf;
    HeaderWords(bytes, k);
  }

  lemma EpochsTaken(bytes: seq<Byte>)
    requires |bytes| >= 104
    ensures var e := EpochsOf(HeaderOf(bytes));
            && e.frameId == Read64(bytes, 32) && e.modelEpoch == Read64(bytes, 48)
            && e.sessionEpoch == Read64(bytes, 56) && e.transformEpoch == Read64(bytes, 64)
            && e.topologyEpoch == Read64(bytes, 72) && e.sourceId == Read64(bytes, 80)
  {
    hide HeaderOf, Read64, Low64;
    HeaderLong(bytes, 7);
    HeaderLong(bytes, 9);
    HeaderLong(bytes, 10);
    HeaderLong(bytes, 11);
    HeaderLong(bytes, 12);
    HeaderLong(bytes, 13);
  }

  /** What the reader takes from bytes it accepts and that hold their records: every epoch and every target field from
      its own offset. */
  lemma DecodingTakes(bytes: seq<Byte>)
    ensures Decoding(bytes).Decoded? <==> Accepts(bytes) && ReadsInside(bytes)
    ensures Decoding(bytes).Decoded? ==>
              var d := Decoding(bytes);
              && |bytes| >= 104 && |d.targets| == Read32(bytes, 8)
              && d.epochs.frameId == Read64(bytes, 32) && d.epochs.modelEpoch == Read64(bytes, 48)
              && d.epochs.sessionEpoch == Read64(bytes, 56) && d.epochs.transformEpoch == Read64(bytes, 64)
              && d.epochs.topologyEpoch == Read64(bytes, 72) && d.epochs.sourceId == Read64(bytes, 80)
              && forall i | 0 <= i < |d.targets| :: TargetTaken(bytes, 104 + 80 * i, d.targets[i])
  {
    hide HeaderOf, RecordAt, TargetOf, EpochsOf, Reads, ReadsInside, HeaderAccepted, TargetTaken, Read32, Read64;
    ReadsInsideExactly(bytes);
    if Decoding(bytes).Decoded? {
      HeaderWords(bytes, 2);
      EpochsTaken(bytes);
      forall i | 0 <= i < |Decoding(bytes).targets|
        ensures TargetTaken(bytes, 104 + 80 * i, Decoding(bytes).targets[i])
      {
        TargetIsTaken(bytes, i);
      }
    }
  }
}
