/** The target packet: a fixed header and one 80-byte record per target, little-endian. */
module TargetPackets {
  import opened Statuses
  import opened Words
  import opened Targets

  const HEADER_SIZE := 104
  const RECORD_SIZE := 80
  const MAXIMUM_OUTPUT_SIZE := HEADER_SIZE + MAXIMUM_TARGETS * RECORD_SIZE
  const PACKET_VERSION := 0x0001_0002
  const SOURCE_Q8 := 2
  const ACTIONABLE := 1
  const SOURCE_NEURAL := 1
  const POINTER_MOVE_AND_BUTTON := 3

  // ---------------------------------------------------------------- consecutive fields

  function TotalWidth(widths: seq<nat>): nat {
    if widths == [] then 0 else widths[0] + TotalWidth(widths[1..])
  }

  /** Consecutive fields without padding. */
  function EncodeFields(widths: seq<nat>, values: seq<nat>): (bytes: seq<Byte>)
    requires |widths| == |values|
    ensures |bytes| == TotalWidth(widths)
  {
    if widths == [] then [] else LittleEndian(values[0], widths[0]) + EncodeFields(widths[1..], values[1..])
  }

  function DecodeFields(widths: seq<nat>, bytes: seq<Byte>): (values: seq<nat>)
    requires |bytes| == TotalWidth(widths)
    ensures |values| == |widths|
  {
    if widths == [] then []
    else [FromLittleEndian(bytes[..widths[0]])] + DecodeFields(widths[1..], bytes[widths[0]..])
  }

  ghost predicate Fit(widths: seq<nat>, values: seq<nat>) {
    |widths| == |values| && forall i | 0 <= i < |widths| :: values[i] < Power256(widths[i])
  }

  lemma {:induction false} FieldsRoundTrip(widths: seq<nat>, values: seq<nat>)
    requires Fit(widths, values)
    ensures DecodeFields(widths, EncodeFields(widths, values)) == values
  {
    if widths != [] {
      var bytes := EncodeFields(widths, values);
      LittleEndianRoundTrip(values[0], widths[0]);
      assert bytes[..widths[0]] == LittleEndian(values[0], widths[0]);
      assert bytes[widths[0]..] == EncodeFields(widths[1..], values[1..]);
      FieldsRoundTrip(widths[1..], values[1..]);
    }
  }

  // ---------------------------------------------------------------- 24.8 fixed point

  /** An int32 as the unsigned word that stores it. */
  function Word(value: int): U32 { value % U32_LIMIT }

  function Signed(word: U32): int { if word < 0x8000_0000 then word else word - U32_LIMIT }

  /** Shifting an int32 left by 8 keeps the low 32 bits. */
  function ToQ8(value: int): U32 { Word(value * 256) }

  /** C++ division truncates toward zero. */
  function FromQ8(word: U32): int {
    var value := Signed(word);
    if value >= 0 then value / 256 else -(-value / 256)
  }

  /** A coordinate survives the packet exactly when it lies in [-2^23, 2^23). */
  lemma Q8Exact(value: int)
    ensures FromQ8(ToQ8(value)) == value <==> -0x80_0000 <= value < 0x80_0000
  {
  }

  // ---------------------------------------------------------------- packets

  datatype Epochs = Epochs(frameId: U64, modelEpoch: U64, sessionEpoch: U64, transformEpoch: U64,
                           topologyEpoch: U64, sourceId: U64)

  function Repeat(width: nat, count: nat): (widths: seq<nat>)
    ensures |widths| == count
  {
    seq(count, _ => width)
  }

  /** Six 32-bit fields, then ten 64-bit fields. */
  function HeaderWidths(): (widths: seq<nat>)
    ensures |widths| == 16
  {
    Repeat(4, 6) + Repeat(8, 10)
  }

  /** Four identities, seven 32-bit fields, role and source, three 32-bit fields, and the text reference. */
  function RecordWidths(): (widths: seq<nat>)
    ensures |widths| == 18
  {
    Repeat(8, 4) + Repeat(4, 7) + Repeat(2, 2) + Repeat(4, 3) + Repeat(2, 2)
  }

  function HeaderFields(e: Epochs, count: nat): (fields: seq<nat>)
    ensures |fields| == 16
  {
    [HEADER_SIZE, PACKET_VERSION, count, RECORD_SIZE, 0, SOURCE_Q8, 0, e.frameId, 0, e.modelEpoch, e.sessionEpoch,
     e.transformEpoch, e.topologyEpoch, e.sourceId, HEADER_SIZE, HEADER_SIZE + count * RECORD_SIZE]
  }

  function RecordFields(t: Target, order: nat): (fields: seq<nat>)
    ensures |fields| == 18
  {
    [t.stableId, 0, 0, 0, ToQ8(t.x), ToQ8(t.y), ToQ8(t.width), ToQ8(t.height), ToQ8(t.safeX), ToQ8(t.safeY),
     Word(t.confidence), 0, SOURCE_NEURAL, POINTER_MOVE_AND_BUTTON, ACTIONABLE, order, 0, 0]
  }

  lemma {:induction false} RepeatWidth(width: nat, count: nat)
    ensures TotalWidth(Repeat(width, count)) == width * count
  {
    if count > 0 {
      RepeatWidth(width, count - 1);
      assert Repeat(width, count)[1..] == Repeat(width, count - 1);
    }
  }

  lemma {:induction false} ConcatWidth(a: seq<nat>, b: seq<nat>)
    ensures TotalWidth(a + b) == TotalWidth(a) + TotalWidth(b)
  {
    if a == [] {
      assert a + b == b;
    } else {
      ConcatWidth(a[1..], b);
      assert (a + b)[1..] == a[1..] + b;
    }
  }

  lemma LayoutSizes()
    ensures TotalWidth(HeaderWidths()) == HEADER_SIZE
    ensures TotalWidth(RecordWidths()) == RECORD_SIZE
  {
    hide Repeat, TotalWidth;
    RepeatWidth(4, 6); RepeatWidth(8, 10);
    ConcatWidth(Repeat(4, 6), Repeat(8, 10));
    RepeatWidth(8, 4); RepeatWidth(4, 7); RepeatWidth(2, 2); RepeatWidth(4, 3);
    ConcatWidth(Repeat(8, 4), Repeat(4, 7));
    ConcatWidth(Repeat(8, 4) + Repeat(4, 7), Repeat(2, 2));
    ConcatWidth(Repeat(8, 4) + Repeat(4, 7) + Repeat(2, 2), Repeat(4, 3));
    ConcatWidth(Repeat(8, 4) + Repeat(4, 7) + Repeat(2, 2) + Repeat(4, 3), Repeat(2, 2));
  }

  lemma HeaderFits(e: Epochs, count: nat)
    requires count <= MAXIMUM_TARGETS
    ensures Fit(HeaderWidths(), HeaderFields(e, count))
  {
    hide Power256;
    Powers();
    var widths, fields := HeaderWidths(), HeaderFields(e, count);
    forall i | 0 <= i < 16 ensures fields[i] < Power256(widths[i]) {
      assert widths[i] == if i < 6 then 4 else 8;
    }
  }

  lemma RecordFits(t: Target, order: nat)
    requires order < MAXIMUM_TARGETS
    ensures Fit(RecordWidths(), RecordFields(t, order))
  {
    hide Power256, ToQ8;
    Powers();
    var widths, fields := RecordWidths(), RecordFields(t, order);
    forall i | 0 <= i < 18 ensures fields[i] < Power256(widths[i]) {
      assert widths[i] == if i < 4 then 8 else if i < 11 then 4 else if i < 13 then 2 else if i < 16 then 4 else 2;
    }
  }

  // ---------------------------------------------------------------- serialization

  function RecordBytes(t: Target, order: nat): (bytes: seq<Byte>)
    ensures |bytes| == RECORD_SIZE
  {
    LayoutSizes();
    EncodeFields(RecordWidths(), RecordFields(t, order))
  }

  function HeaderBytes(e: Epochs, count: nat): (bytes: seq<Byte>)
    ensures |bytes| == HEADER_SIZE
  {
    LayoutSizes();
    EncodeFields(HeaderWidths(), HeaderFields(e, count))
  }

  /** The records of the first n targets. */
  ghost function RecordsBytes(ts: seq<Target>, n: nat): (bytes: seq<Byte>)
    requires n <= |ts|
    ensures |bytes| == n * RECORD_SIZE
  {
    if n == 0 then [] else RecordsBytes(ts, n - 1) + RecordBytes(ts[n - 1], n - 1)
  }

  ghost function PacketBytes(e: Epochs, ts: seq<Target>): (bytes: seq<Byte>)
    ensures |bytes| == HEADER_SIZE + |ts| * RECORD_SIZE
  {
    HeaderBytes(e, |ts|) + RecordsBytes(ts, |ts|)
  }

  method CopyBytes(destination: array<Byte>, at: nat, bytes: seq<Byte>)
    requires at + |bytes| <= destination.Length
    modifies destination
    ensures destination[..at] == old(destination[..at])
    ensures destination[at..at + |bytes|] == bytes
  {
    forall i | 0 <= i < |bytes| {
      destination[at + i] := bytes[i];
    }
  }

  /** Write the packet into the destination, or answer 0 when it does not fit. */
  method SerializeOutput(destination: array<Byte>, e: Epochs, ts: seq<Target>) returns (size: nat)
    modifies destination
    ensures size == if destination.Length < HEADER_SIZE + |ts| * RECORD_SIZE then 0
                    else HEADER_SIZE + |ts| * RECORD_SIZE
    ensures size > 0 ==> destination[..size] == PacketBytes(e, ts)
    ensures size == 0 ==> destination[..] == old(destination[..])
  {
    hide HeaderBytes, RecordBytes;
    var required := HEADER_SIZE + |ts| * RECORD_SIZE;
    if destination.Length < required {
      return 0;
    }
    CopyBytes(destination, 0, HeaderBytes(e, |ts|));
    for index := 0 to |ts|
      invariant destination[..HEADER_SIZE + index * RECORD_SIZE] == HeaderBytes(e, |ts|) + RecordsBytes(ts, index)
    {
      var at := HEADER_SIZE + index * RECORD_SIZE;
      CopyBytes(destination, at, RecordBytes(ts[index], index));
      assert destination[..at + RECORD_SIZE] == destination[..at] + destination[at..at + RECORD_SIZE];
    }
    size := required;
  }

  // ---------------------------------------------------------------- reading a packet back

  /** `ReadsOutside`: the reader accepted the header and went on to read beyond the bytes it was given. */
  datatype Decoded = Rejected | Decoded(epochs: Epochs, targets: seq<Target>) | ReadsOutside

  /** The reader's checks on the header, field by field. */
  predicate HeaderAccepted(h: seq<nat>, size: nat)
    requires |h| == 16
  {
    && h[0] == HEADER_SIZE && h[1] == PACKET_VERSION && h[5] == SOURCE_Q8 && h[6] == 0
    && h[2] <= MAXIMUM_TARGETS && h[3] == RECORD_SIZE && h[14] == HEADER_SIZE && h[15] == size
  }

  function Low64(n: nat): U64 { n % U64_LIMIT }
  function Low32(n: nat): U32 { n % U32_LIMIT }

  function TargetOf(f: seq<nat>): Target
    requires |f| == 18
  {
    var width, height := FromQ8(Low32(f[6])), FromQ8(Low32(f[7]));
    Target(Low64(f[0]), FromQ8(Low32(f[4])), FromQ8(Low32(f[5])), width, height,
           FromQ8(Low32(f[8])), FromQ8(Low32(f[9])), Word(width * height), f[10])
  }

  function RecordAt(bytes: seq<Byte>, index: nat): (f: seq<nat>)
    requires HEADER_SIZE + (index + 1) * RECORD_SIZE <= |bytes|
    ensures |f| == 18
  {
    LayoutSizes();
    var at := HEADER_SIZE + index * RECORD_SIZE;
    DecodeFields(RecordWidths(), bytes[at..at + RECORD_SIZE])
  }

  function HeaderOf(bytes: seq<Byte>): (h: seq<nat>)
    requires |bytes| >= HEADER_SIZE
    ensures |h| == 16
  {
    LayoutSizes();
    DecodeFields(HeaderWidths(), bytes[..HEADER_SIZE])
  }

  /** The reader goes past the header. */
  predicate Accepts(bytes: seq<Byte>) { |bytes| >= HEADER_SIZE && HeaderAccepted(HeaderOf(bytes), |bytes|) }

  datatype Span = Span(start: nat, end: nat)

  function RecordSpan(index: nat): Span {
    Span(HEADER_SIZE + index * RECORD_SIZE, HEADER_SIZE + (index + 1) * RECORD_SIZE)
  }

  function RecordSpans(count: nat): seq<Span> { seq(count, i requires 0 <= i => RecordSpan(i)) }

  /** What the reader reads: the header, and the records the header announces. */
  function Reads(bytes: seq<Byte>): seq<Span> {
    if |bytes| < HEADER_SIZE then []
    else [Span(0, HEADER_SIZE)] + if Accepts(bytes) then RecordSpans(HeaderOf(bytes)[2]) else []
  }

  ghost predicate ReadsInside(bytes: seq<Byte>) { forall span | span in Reads(bytes) :: span.end <= |bytes| }

  /** Every read is inside the bytes exactly if the header is rejected or announces no more records than the bytes
      hold, which the header checks do not compare. */
  lemma ReadsInsideExactly(bytes: seq<Byte>)
    ensures ReadsInside(bytes)
       <==> !Accepts(bytes) || HEADER_SIZE + HeaderOf(bytes)[2] * RECORD_SIZE <= |bytes|
  {
    hide HeaderOf, HeaderAccepted;
    var spans := Reads(bytes);
    if Accepts(bytes) {
      var count := HeaderOf(bytes)[2];
      assert forall i | 0 <= i < count :: spans[i + 1] == RecordSpan(i);
      if count > 0 {
        assert spans[count] == RecordSpan(count - 1) && spans[count] in spans;
      }
      if HEADER_SIZE + count * RECORD_SIZE <= |bytes| {
        forall span | span in spans ensures span.end <= |bytes| {
          var k :| 0 <= k < |spans| && spans[k] == span;
          assert k > 0 ==> span == RecordSpan(k - 1);
        }
      }
    }
  }

  /** A header alone that announces one record is accepted, and the record is read outside. */
  lemma ReadsCanBeOutside() returns (bytes: seq<Byte>)
    ensures |bytes| == HEADER_SIZE && Accepts(bytes) && !ReadsInside(bytes) && Decoding(bytes) == ReadsOutside
  {
    hide EncodeFields, DecodeFields, HeaderWidths, TotalWidth, Power256;
    var fields := HeaderFields(Epochs(1, 1, 1, 1, 1, 1), 1)[15 := HEADER_SIZE];
    LayoutSizes();
    HeaderFits(Epochs(1, 1, 1, 1, 1, 1), 1);
    WithTotal(HeaderWidths(), HeaderFields(Epochs(1, 1, 1, 1, 1, 1), 1), HEADER_SIZE);
    bytes := EncodeFields(HeaderWidths(), fields);
    FieldsRoundTrip(HeaderWidths(), fields);
    assert bytes[..HEADER_SIZE] == bytes;
    ReadsInsideExactly(bytes);
  }

  lemma WithTotal(widths: seq<nat>, fields: seq<nat>, total: nat)
    requires |widths| == 16 && Fit(widths, fields) && total <= fields[15]
    ensures Fit(widths, fields[15 := total])
  {
  }

  /** Read a packet. */
  method DecodeOutput(bytes: seq<Byte>) returns (out: Decoded)
    ensures out == Decoding(bytes)
    ensures out == ReadsOutside <==> !ReadsInside(bytes)
  {
    hide HeaderOf, RecordAt, TargetOf, HeaderAccepted, Reads;
    ReadsInsideExactly(bytes);
    if |bytes| < HEADER_SIZE {
      return Rejected;
    }
    var h := HeaderOf(bytes);
    if !HeaderAccepted(h, |bytes|) {
      return Rejected;
    }
    var targets: seq<Target> := [];
    for index := 0 to h[2]
      invariant index > 0 ==> RecordSpan(index - 1).end <= |bytes|
      invariant targets == seq(index, i requires 0 <= i < index => TargetOf(RecordAt(bytes, i)))
    {
      if RecordSpan(index).end > |bytes| {
        return ReadsOutside;
      }
      targets := targets + [TargetOf(RecordAt(bytes, index))];
    }
    out := Decoded(EpochsOf(h), targets);
  }

  function EpochsOf(h: seq<nat>): Epochs
    requires |h| == 16
  {
    Epochs(Low64(h[7]), Low64(h[9]), Low64(h[10]), Low64(h[11]), Low64(h[12]), Low64(h[13]))
  }

  ghost function Decoding(bytes: seq<Byte>): Decoded {
    if !Accepts(bytes) then Rejected
    else if HEADER_SIZE + HeaderOf(bytes)[2] * RECORD_SIZE > |bytes| then ReadsOutside
    else
      var h := HeaderOf(bytes);
      Decoded(EpochsOf(h), seq(h[2], i requires 0 <= i < h[2] => TargetOf(RecordAt(bytes, i))))
  }

  /** The reader accepts the bytes and finds exactly these epochs and targets in them. */
  ghost predicate ReadsAs(bytes: seq<Byte>, e: Epochs, ts: seq<Target>) {
    ReadsInside(bytes) && Decoding(bytes) == Decoded(e, ts)
  }

  // ---------------------------------------------------------------- the round trip

  /** A target as a reader sees it: the area is replaced by that of the box. */
  function BoxArea(t: Target): Target { t.(area := Word(t.width * t.height)) }

  predicate InQ8Range(c: int) { -0x80_0000 <= c < 0x80_0000 }

  /** The coordinates and sizes of t survive the packet's fixed-point fields. */
  predicate Representable(t: Target) {
    && InQ8Range(t.x) && InQ8Range(t.y) && InQ8Range(t.width) && InQ8Range(t.height)
    && InQ8Range(t.safeX) && InQ8Range(t.safeY) && 0 <= t.confidence < U32_LIMIT
  }

  lemma {:induction false} RecordsSlice(ts: seq<Target>, n: nat, i: nat)
    requires i < n <= |ts|
    ensures RecordsBytes(ts, n)[i * RECORD_SIZE..(i + 1) * RECORD_SIZE] == RecordBytes(ts[i], i)
  {
    hide RecordBytes;
    if i < n - 1 {
      RecordsSlice(ts, n - 1, i);
      var front := RecordsBytes(ts, n - 1);
      assert RecordsBytes(ts, n)[i * RECORD_SIZE..(i + 1) * RECORD_SIZE]
          == front[i * RECORD_SIZE..(i + 1) * RECORD_SIZE];
    }
  }

  lemma FieldsOfTarget(t: Target, order: nat)
    ensures TargetOf(RecordFields(t, order)) == BoxArea(t) <==> Representable(t)
  {
    hide FromQ8, ToQ8;
    Q8Exact(t.x);
    Q8Exact(t.y);
    Q8Exact(t.width);
    Q8Exact(t.height);
    Q8Exact(t.safeX);
    Q8Exact(t.safeY);
  }

  lemma RecordRoundTrip(t: Target, order: nat)
    requires order < MAXIMUM_TARGETS
    ensures |RecordBytes(t, order)| == TotalWidth(RecordWidths())
    ensures TargetOf(DecodeFields(RecordWidths(), RecordBytes(t, order))) == BoxArea(t) <==> Representable(t)
  {
    hide TargetOf, DecodeFields, EncodeFields, RecordWidths, RecordFields, BoxArea, Fit, Representable;
    LayoutSizes();
    RecordFits(t, order);
    FieldsRoundTrip(RecordWidths(), RecordFields(t, order));
    FieldsOfTarget(t, order);
  }

  lemma HeaderComesBack(e: Epochs, ts: seq<Target>)
    requires |ts| <= MAXIMUM_TARGETS
    ensures HeaderOf(PacketBytes(e, ts)) == HeaderFields(e, |ts|)
  {
    hide DecodeFields, EncodeFields, HeaderWidths, RecordsBytes, HeaderFields, Fit;
    HeaderFits(e, |ts|);
    FieldsRoundTrip(HeaderWidths(), HeaderFields(e, |ts|));
    assert PacketBytes(e, ts)[..HEADER_SIZE] == HeaderBytes(e, |ts|);
  }

  lemma FieldsAccepted(e: Epochs, count: nat)
    requires count <= MAXIMUM_TARGETS
    ensures HeaderAccepted(HeaderFields(e, count), HEADER_SIZE + count * RECORD_SIZE)
  {
  }

  lemma PacketParts(e: Epochs, ts: seq<Target>)
    requires |ts| <= MAXIMUM_TARGETS
    ensures HeaderOf(PacketBytes(e, ts)) == HeaderFields(e, |ts|)
    ensures HeaderAccepted(HeaderOf(PacketBytes(e, ts)), |PacketBytes(e, ts)|)
  {
    hide HeaderOf, HeaderFields, HeaderBytes, RecordsBytes, HeaderAccepted;
    HeaderComesBack(e, ts);
    FieldsAccepted(e, |ts|);
  }

  lemma HeaderReads(e: Epochs, count: nat)
    ensures EpochsOf(HeaderFields(e, count)) == e && HeaderFields(e, count)[2] == count
  {
  }

  function BoxAreas(ts: seq<Target>): seq<Target> { seq(|ts|, i requires 0 <= i < |ts| => BoxArea(ts[i])) }

  lemma RecordOfPacket(e: Epochs, ts: seq<Target>, i: nat)
    requires i < |ts| <= MAXIMUM_TARGETS
    ensures var bytes := PacketBytes(e, ts);
            && HEADER_SIZE + (i + 1) * RECORD_SIZE <= |bytes|
            && (TargetOf(RecordAt(bytes, i)) == BoxArea(ts[i]) <==> Representable(ts[i]))
  {
    hide RecordBytes, HeaderBytes, Representable, BoxArea, DecodeFields, TargetOf, RecordWidths;
    LayoutSizes();
    RecordsSlice(ts, |ts|, i);
    RecordRoundTrip(ts[i], i);
    var bytes := PacketBytes(e, ts);
    var at := HEADER_SIZE + i * RECORD_SIZE;
    assert bytes[at..at + RECORD_SIZE] == RecordsBytes(ts, |ts|)[i * RECORD_SIZE..(i + 1) * RECORD_SIZE];
  }

  lemma PacketDecodes(e: Epochs, ts: seq<Target>)
    requires |ts| <= MAXIMUM_TARGETS
    ensures var bytes := PacketBytes(e, ts);
            && ReadsInside(bytes) && HEADER_SIZE + |ts| * RECORD_SIZE <= |bytes|
            && Decoding(bytes)
               == Decoded(e, seq(|ts|, i requires 0 <= i < |ts| => TargetOf(RecordAt(bytes, i))))
  {
    hide HeaderOf, HeaderAccepted, EpochsOf, HeaderFields, HeaderBytes, RecordsBytes, TargetOf, RecordAt, Reads,
         ReadsInside;
    PacketParts(e, ts);
    HeaderReads(e, |ts|);
    ReadsInsideExactly(PacketBytes(e, ts));
  }

  /** Reading a written packet gives back its epochs and its targets, in order, with box areas, exactly if the fields
      of all of them are representable. */
  lemma PacketRoundTrip(e: Epochs, ts: seq<Target>)
    requires |ts| <= MAXIMUM_TARGETS
    ensures ReadsAs(PacketBytes(e, ts), e, BoxAreas(ts)) <==> forall i | 0 <= i < |ts| :: Representable(ts[i])
  {
    hide PacketBytes, Representable, BoxArea, TargetOf, RecordAt, Decoding, ReadsInside;
    PacketDecodes(e, ts);
    var bytes := PacketBytes(e, ts);
    forall i | 0 <= i < |ts| ensures TargetOf(RecordAt(bytes, i)) == BoxArea(ts[i]) <==> Representable(ts[i]) {
      RecordOfPacket(e, ts, i);
    }
    var read := seq(|ts|, i requires 0 <= i < |ts| => TargetOf(RecordAt(bytes, i)));
    if read == BoxAreas(ts) {
      forall i | 0 <= i < |ts| ensures Representable(ts[i]) {
        assert read[i] == BoxAreas(ts)[i];
      }
    }
  }
}
