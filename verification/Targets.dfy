/** Targets: what is reported about one component, the report for a whole picture, and its order. */
module Targets {
  import opened Statuses
  import Sets
  import opened Words
  import opened Rasters
  import opened Labelling

  const MAXIMUM_COMPONENTS := 128
  const MAXIMUM_TARGETS := 32

  datatype Target = Target(
    stableId: U64, x: int, y: int, width: int, height: int, safeX: int, safeY: int, area: int, confidence: int)

  // ---------------------------------------------------------------- the target hash

  const FNV_OFFSET: U64 := 14695981039346656037
  const FNV_PRIME := 1099511628211

  function ByteXor(a: Byte, b: Byte): Byte {
    ((a as bv8) ^ (b as bv8)) as int
  }

  /** One round of the hash. */
  function Mixed(hash: U64, b: Byte): U64 {
    (hash - hash % 256 + ByteXor(hash % 256, b)) * FNV_PRIME % U64_LIMIT
  }

  /** Mix the low byte of `value` and the `count - 1` bytes above it into the hash. */
  function HashWord(hash: U64, value: nat, count: nat): U64
    decreases count
  {
    if count == 0 then hash
    else HashWord(Mixed(hash, value % 256), value / 256, count - 1)
  }

  function TargetId(frameId: U64, x: int, y: int, width: int, height: int): (id: U64)
    ensures id != 0
  {
    var h0 := HashWord(FNV_OFFSET, frameId, 8);
    var h1 := HashWord(h0, x % U32_LIMIT, 8);
    var h2 := HashWord(h1, y % U32_LIMIT, 8);
    var h3 := HashWord(h2, width % U32_LIMIT, 8);
    var h4 := HashWord(h3, height % U32_LIMIT, 8);
    if h4 == 0 then 1 else h4
  }

  /** The 64-bit FNV-1a hash: the bytes are mixed in one after the other. */
  ghost function Fnv1a(bytes: seq<Byte>): U64 {
    if bytes == [] then FNV_OFFSET else Mixed(Fnv1a(bytes[..|bytes| - 1]), bytes[|bytes| - 1])
  }

  lemma XorVectors()
    ensures ByteXor(0x25, 0x66) == 0x43
    ensures ByteXor(0xD9, 0x6F) == 0xB6
    ensures ByteXor(0x42, 0x6F) == 0x2D
    ensures ByteXor(0x77, 0x62) == 0x15
    ensures ByteXor(0xAF, 0x61) == 0xCE
    ensures ByteXor(0x0A, 0x72) == 0x78
    ensures ByteXor(0x25, 0x61) == 0x44
  {
  }

  lemma MixedVectors()
    ensures Mixed(FNV_OFFSET, 0x66) == 0xAF63_DB4C_8601_EAD9
    ensures Mixed(0xAF63_DB4C_8601_EAD9, 0x6F) == 0x0898_5907_B541_D342
    ensures Mixed(0x0898_5907_B541_D342, 0x6F) == 0xDCB2_7518_FED9_D577
    ensures Mixed(0xDCB2_7518_FED9_D577, 0x62) == 0xDD12_0E79_0C25_12AF
    ensures Mixed(0xDD12_0E79_0C25_12AF, 0x61) == 0xCAC1_65AF_A2FE_F40A
    ensures Mixed(0xCAC1_65AF_A2FE_F40A, 0x72) == 0x8594_4171_F739_67E8
    ensures Mixed(FNV_OFFSET, 0x61) == 0xAF63_DC4C_8601_EC8C
  {
    hide ByteXor;
    XorVectors();
  }

  /** What FNV-1a gives for the texts "a" and "foobar". */
  lemma Fnv1aVectors()
    ensures Fnv1a([0x61]) == 0xAF63_DC4C_8601_EC8C
    ensures Fnv1a([0x66, 0x6F, 0x6F, 0x62, 0x61, 0x72]) == 0x8594_4171_F739_67E8
  {
    hide Fnv1a;
    OneByteVector();
    SixByteVector();
  }

  lemma Fnv1aEmpty()
    ensures Fnv1a([]) == FNV_OFFSET
  {
  }

  lemma OneByteVector()
    ensures Fnv1a([0x61]) == 0xAF63_DC4C_8601_EC8C
  {
    hide Mixed, Fnv1a;
    Fnv1aEmpty();
    MixedVectors();
    var a := Fnv1aOf([], 0x61);
    assert a == [0x61];
  }

  lemma SixByteVector()
    ensures Fnv1a([0x66, 0x6F, 0x6F, 0x62, 0x61, 0x72]) == 0x8594_4171_F739_67E8
  {
    hide Mixed, Fnv1a;
    Fnv1aEmpty();
    MixedVectors();
    var f := Fnv1aOf([], 0x66);
    var fo := Fnv1aOf(f, 0x6F);
    var foo := Fnv1aOf(fo, 0x6F);
    var foob := Fnv1aOf(foo, 0x62);
    var fooba := Fnv1aOf(foob, 0x61);
    var foobar := Fnv1aOf(fooba, 0x72);
    assert foobar == [0x66, 0x6F, 0x6F, 0x62, 0x61, 0x72];
  }

  lemma Fnv1aOf(bytes: seq<Byte>, b: Byte) returns (more: seq<Byte>)
    ensures more == bytes + [b] && Fnv1a(more) == Mixed(Fnv1a(bytes), b)
  {
    more := bytes + [b];
    Fnv1aNext(bytes, b);
  }

  lemma Fnv1aNext(bytes: seq<Byte>, b: Byte)
    ensures Fnv1a(bytes + [b]) == Mixed(Fnv1a(bytes), b)
  {
    assert (bytes + [b])[..|bytes|] == bytes;
  }

  lemma {:induction false} HashWordMixes(bytes: seq<Byte>, value: nat, count: nat)
    ensures HashWord(Fnv1a(bytes), value, count) == Fnv1a(bytes + LittleEndian(value, count))
    decreases count
  {
    hide Mixed, Fnv1a, LittleEndian;
    FirstByteFirst(value, count);
    if count == 0 {
      assert bytes + [] == bytes;
    } else {
      var more := bytes + [value % 256];
      Fnv1aNext(bytes, value % 256);
      HashWordMixes(more, value / 256, count - 1);
      assert more + LittleEndian(value / 256, count - 1) == bytes + LittleEndian(value, count);
    }
  }

  lemma FirstByteFirst(value: nat, count: nat)
    ensures LittleEndian(value, count)
         == if count == 0 then [] else [value % 256] + LittleEndian(value / 256, count - 1)
  {
  }

  /** The frame id and the box as five 64-bit words. */
  ghost function IdBytes(frameId: U64, x: int, y: int, width: int, height: int): seq<Byte> {
    LittleEndian(frameId, 8) + LittleEndian(x % U32_LIMIT, 8) + LittleEndian(y % U32_LIMIT, 8)
    + LittleEndian(width % U32_LIMIT, 8) + LittleEndian(height % U32_LIMIT, 8)
  }

  /** A target's stable id is the FNV-1a hash of those words, except that it is never zero. */
  lemma TargetIdIsHash(frameId: U64, x: int, y: int, width: int, height: int)
    ensures var hash := Fnv1a(IdBytes(frameId, x, y, width, height));
            TargetId(frameId, x, y, width, height) == if hash == 0 then 1 else hash
  {
    hide HashWord, LittleEndian, Mixed;
    assert Fnv1a([]) == FNV_OFFSET;
    var b0 := LittleEndian(frameId, 8);
    var b1 := b0 + LittleEndian(x % U32_LIMIT, 8);
    var b2 := b1 + LittleEndian(y % U32_LIMIT, 8);
    var b3 := b2 + LittleEndian(width % U32_LIMIT, 8);
    HashWordMixes([], frameId, 8);
    assert [] + b0 == b0;
    HashWordMixes(b0, x % U32_LIMIT, 8);
    HashWordMixes(b1, y % U32_LIMIT, 8);
    HashWordMixes(b2, width % U32_LIMIT, 8);
    HashWordMixes(b3, height % U32_LIMIT, 8);
  }

  // ---------------------------------------------------------------- one component

  ghost function Left(C: set<Pixel>): int requires C != {} { NonemptyExtent(C); Least(Xs(C)) }
  ghost function Right(C: set<Pixel>): int requires C != {} { NonemptyExtent(C); Greatest(Xs(C)) }
  ghost function Top(C: set<Pixel>): int requires C != {} { NonemptyExtent(C); Least(Ys(C)) }
  ghost function Bottom(C: set<Pixel>): int requires C != {} { NonemptyExtent(C); Greatest(Ys(C)) }

  function Confidence(lumaSum: int, area: int): int
    requires area > 0
  {
    (lumaSum * 65535 + area * 127) / (area * 255)
  }

  function BoxTarget(frameId: U64, minX: int, minY: int, maxX: int, maxY: int, area: int, lumaSum: int): Target
    requires area > 0
  {
    var width, height := maxX - minX + 1, maxY - minY + 1;
    Target(TargetId(frameId, minX, minY, width, height), minX, minY, width, height,
           minX + width / 2, minY + height / 2, area, Confidence(lumaSum, area))
  }

  lemma NonemptyCard(C: set<Pixel>)
    requires C != {}
    ensures |C| > 0
  {
  }

  /** The report for one component: its bounding box, its size and its brightness. */
  ghost function Describe(r: Image, frameId: U64, C: set<Pixel>): Target
    requires C != {}
  {
    NonemptyCard(C);
    BoxTarget(frameId, Left(C), Top(C), Right(C), Bottom(C), |C|, LumaSum(r, C))
  }

  // ---------------------------------------------------------------- what a target says about its component

  /** Every pixel of C lies in the target's box, and some pixel of C in each of the box's outer columns and rows. */
  ghost predicate Bounds(t: Target, C: set<Pixel>) {
    && (forall p | p in C :: t.x <= p.x < t.x + t.width && t.y <= p.y < t.y + t.height)
    && (exists p :: p in C && p.x == t.x)
    && (exists p :: p in C && p.x == t.x + t.width - 1)
    && (exists p :: p in C && p.y == t.y)
    && (exists p :: p in C && p.y == t.y + t.height - 1)
  }

  /** Confidence is 65535 times the mean luma over 255, rounded to the nearest value but one part in 255. */
  ghost predicate Rates(r: Image, t: Target, C: set<Pixel>) {
    -127 * |C| <= LumaSum(r, C) * 65535 - t.confidence * (|C| * 255) < 128 * |C|
  }

  /** All that a target says is true of the component: its box, its area, the middle of the box as the safe point, its
      brightness, and the hash of frame and box as its name. */
  ghost predicate Portrays(r: Image, frameId: U64, t: Target, C: set<Pixel>) {
    && Bounds(t, C) && t.area == |C|
    && t.safeX == t.x + t.width / 2 && t.safeY == t.y + t.height / 2
    && Rates(r, t, C)
    && var hash := Fnv1a(IdBytes(frameId, t.x, t.y, t.width, t.height));
       t.stableId == if hash == 0 then 1 else hash
  }

  lemma BoundsOnce(t: Target, u: Target, C: set<Pixel>)
    requires Bounds(t, C) && Bounds(u, C)
    ensures t.x == u.x && t.y == u.y && t.width == u.width && t.height == u.height
  {
  }

  lemma RatesOnce(r: Image, t: Target, u: Target, C: set<Pixel>)
    requires C != {} && Rates(r, t, C) && Rates(r, u, C)
    ensures t.confidence == u.confidence
  {
    NonemptyCard(C);
    var d := |C| * 255;
    assert (t.confidence - u.confidence) * d == t.confidence * d - u.confidence * d;
    if t.confidence > u.confidence {
      ScaleLe(1, t.confidence - u.confidence, d);
    } else if t.confidence < u.confidence {
      ScaleLe(t.confidence - u.confidence, -1, d);
    }
  }

  /** It says all there is to say: a component has one such target. */
  lemma PortraysOnce(r: Image, frameId: U64, t: Target, u: Target, C: set<Pixel>)
    requires C != {} && Portrays(r, frameId, t, C) && Portrays(r, frameId, u, C)
    ensures t == u
  {
    hide Bounds, Rates;
    BoundsOnce(t, u, C);
    RatesOnce(r, t, u, C);
  }

  lemma DescribeBounds(r: Image, frameId: U64, C: set<Pixel>)
    requires C != {}
    ensures Bounds(Describe(r, frameId, C), C)
  {
    hide Left, Right, Top, Bottom, LumaSum, TargetId, Confidence;
    var left, right, top, bottom := BoxIsTight(C);
    forall p | p in C ensures Left(C) <= p.x <= Right(C) && Top(C) <= p.y <= Bottom(C) {
      InsideBox(C, p);
    }
  }

  lemma DescribeRates(r: Image, frameId: U64, C: set<Pixel>)
    requires C != {}
    ensures Rates(r, Describe(r, frameId, C), C)
  {
    hide Left, Right, Top, Bottom, LumaSum, TargetId;
    NonemptyCard(C);
    var n, d := LumaSum(r, C) * 65535 + |C| * 127, |C| * 255;
    assert n == n / d * d + n % d;
  }

  lemma DescribePortrays(r: Image, frameId: U64, C: set<Pixel>)
    requires C != {}
    ensures Portrays(r, frameId, Describe(r, frameId, C), C)
  {
    hide Left, Right, Top, Bottom, LumaSum, TargetId, Confidence, Bounds, Rates, Fnv1a, IdBytes;
    DescribeBounds(r, frameId, C);
    DescribeRates(r, frameId, C);
    var t := Describe(r, frameId, C);
    TargetIdIsHash(frameId, t.x, t.y, t.width, t.height);
  }

  // ---------------------------------------------------------------- the order of the report

  predicate InOrder(a: Target, b: Target) {
    a.y < b.y || (a.y == b.y && a.x <= b.x)
  }

  ghost predicate Sorted(ts: seq<Target>) {
    forall i, j | 0 <= i < j < |ts| :: InOrder(ts[i], ts[j])
  }

  /** Insert after every target that does not come later than t. */
  ghost function Insert(ts: seq<Target>, t: Target): seq<Target> {
    if ts == [] || InOrder(ts[|ts| - 1], t) then ts + [t]
    else Insert(ts[..|ts| - 1], t) + [ts[|ts| - 1]]
  }

  ghost function SortedTargets(ts: seq<Target>): seq<Target> {
    if ts == [] then [] else Insert(SortedTargets(ts[..|ts| - 1]), ts[|ts| - 1])
  }

  /** The targets of ts whose corner is (x, y), in the order they stand in. */
  ghost function AtCorner(ts: seq<Target>, x: int, y: int): seq<Target> {
    if ts == [] then []
    else
      var last := ts[|ts| - 1];
      AtCorner(ts[..|ts| - 1], x, y) + if last.x == x && last.y == y then [last] else []
  }

  lemma AtCornerAppend(ts: seq<Target>, t: Target, x: int, y: int)
    ensures AtCorner(ts + [t], x, y) == AtCorner(ts, x, y) + if t.x == x && t.y == y then [t] else []
  {
    assert (ts + [t])[..|ts|] == ts;
  }

  lemma {:induction false} InsertMultiset(ts: seq<Target>, t: Target)
    ensures multiset(Insert(ts, t)) == multiset(ts) + multiset{t}
  {
    if ts != [] {
      assert ts == ts[..|ts| - 1] + [ts[|ts| - 1]];
      InsertMultiset(ts[..|ts| - 1], t);
    }
  }

  lemma {:induction false} InsertSorted(ts: seq<Target>, t: Target)
    requires Sorted(ts)
    ensures Sorted(Insert(ts, t))
  {
    if ts != [] && !InOrder(ts[|ts| - 1], t) {
      var front, last := ts[..|ts| - 1], ts[|ts| - 1];
      InsertSorted(front, t);
      InsertMultiset(front, t);
      var rest := Insert(front, t);
      forall i | 0 <= i < |rest| ensures InOrder(rest[i], last) {
        assert rest[i] in multiset(rest);
        assert rest[i] == t || rest[i] in front;
      }
    }
  }

  lemma {:induction false} InsertStable(ts: seq<Target>, t: Target, x: int, y: int)
    requires Sorted(ts)
    ensures AtCorner(Insert(ts, t), x, y) == AtCorner(ts, x, y) + if t.x == x && t.y == y then [t] else []
  {
    if ts == [] || InOrder(ts[|ts| - 1], t) {
      AtCornerAppend(ts, t, x, y);
    } else {
      var front, last := ts[..|ts| - 1], ts[|ts| - 1];
      InsertStable(front, t, x, y);
      AtCornerAppend(Insert(front, t), last, x, y);
    }
  }

  /** The report is ordered by row then column, is a rearrangement of the targets found,
      and keeps targets with the same corner in the order they were found. */
  lemma {:induction false} SortedTargetsStable(ts: seq<Target>)
    ensures Sorted(SortedTargets(ts))
    ensures multiset(SortedTargets(ts)) == multiset(ts)
    ensures forall x, y :: AtCorner(SortedTargets(ts), x, y) == AtCorner(ts, x, y)
  {
    if ts != [] {
      var front, last := ts[..|ts| - 1], ts[|ts| - 1];
      assert ts == front + [last];
      SortedTargetsStable(front);
      InsertSorted(SortedTargets(front), last);
      InsertMultiset(SortedTargets(front), last);
      forall x, y ensures AtCorner(SortedTargets(ts), x, y) == AtCorner(ts, x, y) {
        InsertStable(SortedTargets(front), last, x, y);
      }
    }
  }

  /** Rows from top to bottom, and from left to right within a row. */
  ghost predicate TopDown(ts: seq<Target>) {
    forall i, j | 0 <= i < j < |ts| :: ts[i].y < ts[j].y || (ts[i].y == ts[j].y && ts[i].x <= ts[j].x)
  }

  // ---------------------------------------------------------------- the report for a picture

  ghost predicate Reported(C: set<Pixel>, minimumArea: nat) { C != {} && |C| >= minimumArea }

  /** The components large enough to report among the first n blobs, in blob order. */
  ghost function Chosen(blobs: seq<set<Pixel>>, n: nat, minimumArea: nat): (chosen: seq<set<Pixel>>)
    requires n <= |blobs|
    ensures |chosen| <= n
    ensures forall i | 0 <= i < |chosen| :: chosen[i] != {}
  {
    if n == 0 then []
    else Chosen(blobs, n - 1, minimumArea) + if Reported(blobs[n - 1], minimumArea) then [blobs[n - 1]] else []
  }

  ghost function DescribeAll(r: Image, frameId: U64, cs: seq<set<Pixel>>): (ts: seq<Target>)
    requires forall i | 0 <= i < |cs| :: cs[i] != {}
    ensures |ts| == |cs|
    ensures forall i | 0 <= i < |cs| :: ts[i] == Describe(r, frameId, cs[i])
  {
    seq(|cs|, i requires 0 <= i < |cs| => Describe(r, frameId, cs[i]))
  }

  /** The components themselves, in the order in which their targets are reported. */
  lemma {:induction false} Arranged(r: Image, frameId: U64, cs: seq<set<Pixel>>) returns (ordered: seq<set<Pixel>>)
    requires forall i | 0 <= i < |cs| :: cs[i] != {}
    ensures multiset(ordered) == multiset(cs) && forall i | 0 <= i < |ordered| :: ordered[i] != {}
    ensures DescribeAll(r, frameId, ordered) == SortedTargets(DescribeAll(r, frameId, cs))
  {
    hide Describe;
    ordered := [];
    if cs != [] {
      var front, last := cs[..|cs| - 1], cs[|cs| - 1];
      assert cs == front + [last];
      var before := Arranged(r, frameId, front);
      ordered := Placed(r, frameId, before, last);
      assert DescribeAll(r, frameId, cs)[..|cs| - 1] == DescribeAll(r, frameId, front);
    }
  }

  lemma {:induction false} Placed(r: Image, frameId: U64, cs: seq<set<Pixel>>, C: set<Pixel>)
    returns (ordered: seq<set<Pixel>>)
    requires C != {} && forall i | 0 <= i < |cs| :: cs[i] != {}
    ensures multiset(ordered) == multiset(cs) + multiset{C}
    ensures forall i | 0 <= i < |ordered| :: ordered[i] != {}
    ensures DescribeAll(r, frameId, ordered) == Insert(DescribeAll(r, frameId, cs), Describe(r, frameId, C))
  {
    hide Describe, InOrder;
    var ts, t := DescribeAll(r, frameId, cs), Describe(r, frameId, C);
    if ts == [] || InOrder(ts[|ts| - 1], t) {
      ordered := cs + [C];
    } else {
      var front, last := cs[..|cs| - 1], cs[|cs| - 1];
      assert cs == front + [last];
      assert ts[..|ts| - 1] == DescribeAll(r, frameId, front);
      var before := Placed(r, frameId, front, C);
      ordered := before + [last];
    }
  }

  /** Each target says what is true of its component. */
  lemma AllPortray(r: Image, frameId: U64, cs: seq<set<Pixel>>)
    requires forall i | 0 <= i < |cs| :: cs[i] != {}
    ensures forall i | 0 <= i < |cs| :: Portrays(r, frameId, DescribeAll(r, frameId, cs)[i], cs[i])
  {
    hide Describe, Portrays;
    forall i | 0 <= i < |cs| ensures Portrays(r, frameId, DescribeAll(r, frameId, cs)[i], cs[i]) {
      DescribePortrays(r, frameId, cs[i]);
    }
  }

  /** One target for each component, from top to bottom, and each says what is true of its component; `ordered` lists
      the components in the order of their targets. */
  ghost predicate PortraysAll(r: Image, frameId: U64, targets: seq<Target>, components: seq<set<Pixel>>,
                              ordered: seq<set<Pixel>>)
  {
    && |targets| == |ordered| && multiset(ordered) == multiset(components)
    && (forall i | 0 <= i < |ordered| :: Portrays(r, frameId, targets[i], ordered[i]))
    && TopDown(targets)
  }

  datatype Detection = Detection(status: Status, targets: seq<Target>)

  ghost function Found(r: Image, minimumArea: nat): (cs: seq<set<Pixel>>)
    ensures forall i | 0 <= i < |cs| :: cs[i] != {}
  {
    Chosen(Blobs(r), |Blobs(r)|, minimumArea)
  }

  /** What the detector answers for a picture. */
  ghost function Detected(r: Image, frameId: U64, minimumArea: nat): Detection {
    if |Blobs(r)| > MAXIMUM_COMPONENTS || |Found(r, minimumArea)| > MAXIMUM_TARGETS then Detection(Capacity, [])
    else Detection(Ok, SortedTargets(DescribeAll(r, frameId, Found(r, minimumArea))))
  }

  lemma {:induction false} ChosenOnce(blobs: seq<set<Pixel>>, n: nat, minimumArea: nat)
    requires n <= |blobs|
    requires forall i, j | 0 <= i < j < |blobs| && blobs[i] != {} :: blobs[i] != blobs[j]
    ensures forall C :: C in Chosen(blobs, n, minimumArea) <==> Reported(C, minimumArea) && C in blobs[..n]
    ensures forall i, j | 0 <= i < j < |Chosen(blobs, n, minimumArea)| ::
              Chosen(blobs, n, minimumArea)[i] != Chosen(blobs, n, minimumArea)[j]
  {
    if n > 0 {
      ChosenOnce(blobs, n - 1, minimumArea);
      assert blobs[..n] == blobs[..n - 1] + [blobs[n - 1]];
      var before := Chosen(blobs, n - 1, minimumArea);
      forall i | 0 <= i < |before| ensures before[i] != blobs[n - 1] {
        assert before[i] in blobs[..n - 1];
      }
    }
  }

  ghost function Components(r: Image): set<set<Pixel>> {
    set C | C in Blobs(r) && C != {}
  }

  lemma ComponentsAreComponents(r: Image)
    ensures forall C :: C in Components(r) <==> IsComponent(LitPixels(r), C)
  {
    BlobsAreComponents(r);
  }

  ghost function LargeComponents(r: Image, minimumArea: nat): set<set<Pixel>> {
    set C | C in Components(r) && |C| >= minimumArea
  }

  /** The blobs chosen for the report are the large components, each once. */
  lemma FoundIsLargeComponents(r: Image, minimumArea: nat)
    ensures forall C :: C in Found(r, minimumArea) <==> IsComponent(LitPixels(r), C) && |C| >= minimumArea
    ensures forall i, j | 0 <= i < j < |Found(r, minimumArea)| :: Found(r, minimumArea)[i] != Found(r, minimumArea)[j]
    ensures forall C :: C in LargeComponents(r, minimumArea) <==> IsComponent(LitPixels(r), C) && |C| >= minimumArea
    ensures |Found(r, minimumArea)| == |LargeComponents(r, minimumArea)|
  {
    BlobsAreComponents(r);
    ComponentsAreComponents(r);
    var blobs, found := Blobs(r), Found(r, minimumArea);
    ChosenOnce(blobs, |blobs|, minimumArea);
    assert blobs[..|blobs|] == blobs;
    Sets.DistinctCount(found);
    assert (set C | C in found) == LargeComponents(r, minimumArea);
  }

  /** The targets are in one-to-one correspondence with the components of at least the minimum
      area: `components` lists each of them once and in order of discovery, the report is the stable
      (y, x) ordering of their descriptions, and `ordered` lists the components in the order of their targets, each
      of which says what is true of its component. Otherwise the answer is CAPACITY with no targets, exactly when
      more than 128 runs open a component or more than 32 components are large enough. */
  lemma DetectionIsComponents(r: Image, frameId: U64, minimumArea: nat)
    returns (components: seq<set<Pixel>>, ordered: seq<set<Pixel>>)
    ensures forall C :: C in components <==> IsComponent(LitPixels(r), C) && |C| >= minimumArea
    ensures forall i, j | 0 <= i < j < |components| :: components[i] != components[j]
    ensures forall i | 0 <= i < |components| :: components[i] != {}
    ensures |components| == |LargeComponents(r, minimumArea)|
    ensures var d, found := Detected(r, frameId, minimumArea), DescribeAll(r, frameId, components);
            && (d.status == Ok ==>
                  && PortraysAll(r, frameId, d.targets, components, ordered)
                  && multiset(d.targets) == multiset(found)
                  && (forall x, y :: AtCorner(d.targets, x, y) == AtCorner(found, x, y)))
            && (d.status != Ok ==> d == Detection(Capacity, []))
            && (d.status == Capacity
                <==> |OpeningRuns(r)| > 128 || |components| > 32)
  {
    hide IsComponent, LitPixels, Found, LargeComponents, SortedTargets, AtCorner, OpeningRuns, Blobs, Portrays,
         Describe;
    components := Found(r, minimumArea);
    ordered := Arranged(r, frameId, components);
    AllPortray(r, frameId, ordered);
    FoundIsLargeComponents(r, minimumArea);
    BlobsCountOpeningRuns(r);
    SortedTargetsStable(DescribeAll(r, frameId, components));
  }

  // ---------------------------------------------------------------- confidence

  lemma ScaleLe(a: int, b: int, d: nat)
    ensures a <= b ==> a * d <= b * d
  {
    if a <= b {
      assert b * d == a * d + (b - a) * d;
    }
  }

  lemma QuotientBounds(n: int, d: nat, low: int, high: int)
    requires d > 0 && low * d <= n < (high + 1) * d
    ensures low <= n / d <= high
    ensures (n / d) * d <= n < (n / d) * d + d
  {
    var q := n / d;
    assert n == d * q + n % d;
    assert (q + 1) * d == q * d + d;
    ScaleLe(q + 1, low, d);
    ScaleLe(high + 1, q, d);
  }

  lemma ConfidenceRounds(n: nat, sum: nat, threshold: nat)
    requires n > 0 && n * threshold <= sum <= n * 255
    ensures 257 * threshold <= Confidence(sum, n) <= 65535
    ensures -127 * n <= sum * 65535 - Confidence(sum, n) * (n * 255) < 128 * n
  {
    ThresholdScales(n, threshold);
    QuotientBounds(sum * 65535 + n * 127, n * 255, 257 * threshold, 65535);
  }

  /** Confidence is 65535 times the component's mean luma over 255, rounded to within 128/255;
      it is never below 257 times the threshold and never above 65535. The sums that the
      accumulators and the division form stay within 32 and 64 bits. */
  lemma ConfidenceBounds(r: Image, frameId: U64, C: set<Pixel>)
    requires C != {} && C <= LitPixels(r) && r.width <= 1024 && r.height <= 1024
    ensures var t, sum := Describe(r, frameId, C), LumaSum(r, C);
            && 257 * r.threshold <= t.confidence <= 65535
            && -127 * t.area <= sum * 65535 - t.confidence * (t.area * 255) < 128 * t.area
            && 0 < t.area <= 0x10_0000 && sum < U32_LIMIT && sum * 65535 + t.area * 127 < U64_LIMIT
  {
    NonemptyCard(C);
    LumaSumBounds(r, C);
    AreaBound(r, C);
    LumaNonnegative(r, C);
    ConfidenceRounds(|C|, LumaSum(r, C), r.threshold);
  }

  lemma LumaNonnegative(r: Image, C: set<Pixel>)
    requires C <= LitPixels(r)
    ensures LumaSum(r, C) >= 0
  {
    LumaSumBounds(r, C);
    ScaleLe(0, r.threshold, |C|);
  }

  lemma ThresholdScales(n: nat, threshold: int)
    ensures (257 * threshold) * (n * 255) == 65535 * (n * threshold)
  {
  }

  /** The pixels of a w by h box with corner (x, y). */
  ghost function Box(x: int, y: int, w: nat, h: nat): set<Pixel> {
    set a, b | x <= a < x + w && y <= b < y + h :: Pixel(a, b)
  }

  lemma {:induction false} BoxCount(x: int, y: int, w: nat, h: nat)
    ensures |Box(x, y, w, h)| == w * h
  {
    if h == 0 {
      assert Box(x, y, w, h) == {};
    } else {
      BoxCount(x, y, w, h - 1);
      RunCount(x, x + w, y + h - 1);
      BoxRow(x, y, w, h);
      assert w * h == w * (h - 1) + w;
    }
  }

  lemma BoxRow(x: int, y: int, w: nat, h: nat)
    requires h > 0
    ensures Box(x, y, w, h) == Box(x, y, w, h - 1) + Run(x, x + w, y + h - 1)
    ensures Box(x, y, w, h - 1) !! Run(x, x + w, y + h - 1)
  {
  }

  lemma {:induction false} RunCount(x: int, e: int, y: int)
    requires x <= e
    ensures |Run(x, e, y)| == e - x
    decreases e - x
  {
    if x == e {
      assert Run(x, e, y) == {};
    } else {
      RunCount(x, e - 1, y);
      assert Run(x, e, y) == Run(x, e - 1, y) + {Pixel(e - 1, y)};
    }
  }

  lemma AreaBound(r: Image, C: set<Pixel>)
    requires C <= LitPixels(r) && r.width <= 1024 && r.height <= 1024
    ensures |C| <= 0x10_0000
  {
    var all := Box(0, 0, r.width, r.height);
    forall p | p in C ensures p in all {
      assert Lit(r, p.x, p.y);
    }
    Sets.SubsetCount(C, all);
    BoxCount(0, 0, r.width, r.height);
    ScaleLe(r.width, 1024, r.height);
  }

  lemma InsideBox(C: set<Pixel>, p: Pixel)
    requires p in C
    ensures Left(C) <= p.x <= Right(C) && Top(C) <= p.y <= Bottom(C)
  {
    NonemptyExtent(C);
    assert p.x in Xs(C) && p.y in Ys(C);
  }

  /** The box is tight: some pixel of C lies on each of its sides. */
  lemma BoxIsTight(C: set<Pixel>) returns (left: Pixel, right: Pixel, top: Pixel, bottom: Pixel)
    requires C != {}
    ensures left in C && right in C && top in C && bottom in C
    ensures left.x == Left(C) && right.x == Right(C) && top.y == Top(C) && bottom.y == Bottom(C)
  {
    NonemptyExtent(C);
    assert Left(C) in Xs(C) && Right(C) in Xs(C) && Top(C) in Ys(C) && Bottom(C) in Ys(C);
    left :| left in C && left.x == Left(C);
    right :| right in C && right.x == Right(C);
    top :| top in C && top.y == Top(C);
    bottom :| bottom in C && bottom.y == Bottom(C);
  }

  /** A component lies inside its box, so the box is never smaller than the component. */
  lemma BoxCoversComponent(r: Image, frameId: U64, C: set<Pixel>)
    requires C != {}
    ensures var t := Describe(r, frameId, C);
            t.width > 0 && t.height > 0 && t.area <= t.width * t.height
  {
    hide Left, Right, Top, Bottom, LumaSum, TargetId, Confidence;
    var p :| p in C;
    InsideBox(C, p);
    var box := Box(Left(C), Top(C), Right(C) - Left(C) + 1, Bottom(C) - Top(C) + 1);
    forall q | q in C ensures q in box {
      InsideBox(C, q);
    }
    Sets.SubsetCount(C, box);
    BoxCount(Left(C), Top(C), Right(C) - Left(C) + 1, Bottom(C) - Top(C) + 1);
  }
}
