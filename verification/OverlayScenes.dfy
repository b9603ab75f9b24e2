/** Overlay packets and the instances they are expanded into: the sequential expansion, and the two GPU kernels
    whose threads each write their own part of the instance buffer, in whatever order they run. */
module OverlayScenes {
  import opened Statuses

  const INSTANCES_PER_TARGET := 5
  const THREADS_PER_GROUP := 64
  const MAX_TARGETS := 10000
  const MAX_STYLES := 16
  const INSTANCE_CAPACITY := MAX_TARGETS * INSTANCES_PER_TARGET + 1

  datatype Target = Target(x: nat, y: nat, width: nat, height: nat, labelX: nat, labelY: nat, style: nat, glyphs: nat)
  datatype Style = Style(stroke: nat, labelHeight: nat, padding: nat, advance: nat)
  datatype Kind = Blank | Outline | Label | Active
  datatype Instance = Instance(x: nat, y: nat, width: nat, height: nat, target: nat, style: nat, kind: Kind)

  datatype Packet = Packet(scene: U64, transform: U64, targets: seq<Target>, styles: seq<Style>) {
    predicate Valid() {
      && |targets| <= MAX_TARGETS && |styles| <= MAX_STYLES && (|targets| == 0 <==> |styles| == 0)
      && forall i | 0 <= i < |targets| :: targets[i].style < |styles|
    }
  }

  // ---------------------------------------------------------------- the sequential expansion

  function Low16(n: int): nat { n % 0x1_0000 }

  function StyleAt(styles: seq<Style>, i: nat): Style {
    if i < |styles| then styles[i] else Style(0, 0, 0, 0)
  }

  function Least3(a: nat, b: nat, c: nat): nat { if a <= b && a <= c then a else if b <= c then b else c }

  /** Part number `part` of target number `index`: four strips of its outline, then its label. */
  function PartOf(index: nat, t: Target, s: Style, part: nat): Instance {
    var stroke := Least3(s.stroke, t.width / 2, t.height / 2);
    var x, y, width, height := Low16(t.x), Low16(t.y), Low16(t.width), Low16(t.height);
    match part
    case 0 => Instance(x, y, width, Low16(stroke), index, t.style, Outline)
    case 1 => Instance(x, Low16(t.y + t.height - stroke), width, Low16(stroke), index, t.style, Outline)
    case 2 => Instance(x, y, Low16(stroke), height, index, t.style, Outline)
    case 3 => Instance(Low16(t.x + t.width - stroke), y, Low16(stroke), height, index, t.style, Outline)
    case _ => Instance(Low16(t.labelX), Low16(t.labelY), Low16(s.padding * 2 + s.advance * t.glyphs),
                       Low16(s.labelHeight), index, t.style, Label)
  }

  function ActiveOf(index: nat, t: Target): Instance {
    Instance(Low16(t.x), Low16(t.y), Low16(t.width), Low16(t.height), index, t.style, Active)
  }

  function PartsOf(index: nat, t: Target, s: Style): (parts: seq<Instance>)
    ensures |parts| == INSTANCES_PER_TARGET
  {
    [PartOf(index, t, s, 0), PartOf(index, t, s, 1), PartOf(index, t, s, 2), PartOf(index, t, s, 3),
     PartOf(index, t, s, 4)]
  }

  /** The first n targets, one after the other. */
  function ExpandedUpTo(targets: seq<Target>, styles: seq<Style>, n: nat): (s: seq<Instance>)
    requires n <= |targets|
    ensures |s| == INSTANCES_PER_TARGET * n
  {
    if n == 0 then []
    else
      var t := targets[n - 1];
      ExpandedUpTo(targets, styles, n - 1) + PartsOf(n - 1, t, StyleAt(styles, t.style))
  }

  function StaticScene(p: Packet): (s: seq<Instance>)
    ensures |s| == INSTANCES_PER_TARGET * |p.targets|
  {
    ExpandedUpTo(p.targets, p.styles, |p.targets|)
  }

  /** What expanding a packet afresh gives: five instances for each target, then the active one. */
  function Scene(p: Packet, active: Option<nat>): (s: seq<Instance>)
    requires active.Some? ==> active.value < |p.targets|
    ensures |s| == SceneSize(p, active)
  {
    StaticScene(p) + if active.Some? then [ActiveOf(active.value, p.targets[active.value])] else []
  }

  function SceneSize(p: Packet, active: Option<nat>): nat {
    INSTANCES_PER_TARGET * |p.targets| + if active.Some? then 1 else 0
  }

  lemma {:induction false} ExpandedAt(targets: seq<Target>, styles: seq<Style>, n: nat, i: nat, part: nat)
    requires i < n <= |targets| && part < INSTANCES_PER_TARGET
    ensures ExpandedUpTo(targets, styles, n)[INSTANCES_PER_TARGET * i + part]
         == PartOf(i, targets[i], StyleAt(styles, targets[i].style), part)
  {
    if i < n - 1 {
      ExpandedAt(targets, styles, n - 1, i, part);
    }
  }

  // ---------------------------------------------------------------- what the instances draw

  /** Whether the instance's rectangle contains the point. */
  predicate Covers(r: Instance, px: int, py: int) {
    r.x <= px < r.x + r.width && r.y <= py < r.y + r.height
  }

  /** Rectangle and label of the target stay within 16-bit coordinates. */
  predicate Fits16(t: Target, s: Style) {
    && t.x + t.width < 0x1_0000 && t.y + t.height < 0x1_0000
    && t.labelX < 0x1_0000 && t.labelY < 0x1_0000 && s.labelHeight < 0x1_0000
    && 2 * s.padding + t.glyphs * s.advance < 0x1_0000
  }

  /** The point lies in the target's rectangle. */
  predicate InTarget(t: Target, px: int, py: int) {
    t.x <= px < t.x + t.width && t.y <= py < t.y + t.height
  }

  /** The point is less than d from one of the four sides. */
  predicate NearSide(t: Target, d: nat, px: int, py: int) {
    px < t.x + d || px >= t.x + t.width - d || py < t.y + d || py >= t.y + t.height - d
  }

  /** The stroke is the style's, but at most half the width and half the height. */
  ghost predicate IsStroke(t: Target, s: Style, d: nat) {
    && d <= s.stroke && 2 * d <= t.width && 2 * d <= t.height
    && (d == s.stroke || 2 * d + 1 >= t.width || 2 * d + 1 >= t.height)
  }

  /** The four instances cover exactly the points of the target's rectangle within a stroke of one of its sides. */
  ghost predicate DrawsOutline(t: Target, s: Style, parts: seq<Instance>)
    requires |parts| == INSTANCES_PER_TARGET
  {
    exists d: nat :: IsStroke(t, s, d) && forall px, py ::
      (Covers(parts[0], px, py) || Covers(parts[1], px, py) || Covers(parts[2], px, py) || Covers(parts[3], px, py))
      <==> InTarget(t, px, py) && NearSide(t, d, px, py)
  }

  /** The last instance is the label: at the label's place, two paddings and one advance for each glyph wide, and as
      high as the style says. */
  predicate DrawsLabel(t: Target, s: Style, r: Instance) {
    && r.x == t.labelX && r.y == t.labelY
    && r.width == s.padding + t.glyphs * s.advance + s.padding && r.height == s.labelHeight
  }

  /** The instances name the target they belong to, its style and what they are. */
  predicate Named(index: nat, t: Target, parts: seq<Instance>)
    requires |parts| == INSTANCES_PER_TARGET
  {
    && (forall k | 0 <= k < 5 :: parts[k].target == index && parts[k].style == t.style)
    && (forall k | 0 <= k < 4 :: parts[k].kind == Outline) && parts[4].kind == Label
  }

  lemma StrokeIs(t: Target, s: Style)
    ensures IsStroke(t, s, Least3(s.stroke, t.width / 2, t.height / 2))
  {
  }

  lemma AdvanceCommutes(s: Style, t: Target)
    ensures s.padding * 2 + s.advance * t.glyphs == s.padding + t.glyphs * s.advance + s.padding
  {
  }

  lemma Low16Keeps(n: int)
    requires 0 <= n < 0x1_0000
    ensures Low16(n) == n
  {
  }

  lemma StripsFit(index: nat, t: Target, s: Style)
    requires Fits16(t, s)
    ensures var d := Least3(s.stroke, t.width / 2, t.height / 2);
            && d <= t.width && d <= t.height
            && PartOf(index, t, s, 0) == Instance(t.x, t.y, t.width, d, index, t.style, Outline)
            && PartOf(index, t, s, 1) == Instance(t.x, t.y + t.height - d, t.width, d, index, t.style, Outline)
            && PartOf(index, t, s, 2) == Instance(t.x, t.y, d, t.height, index, t.style, Outline)
            && PartOf(index, t, s, 3) == Instance(t.x + t.width - d, t.y, d, t.height, index, t.style, Outline)
  {
    StrokeIs(t, s);
    hide Low16, Least3;
    var d := Least3(s.stroke, t.width / 2, t.height / 2);
    Low16Keeps(t.x);
    Low16Keeps(t.y);
    Low16Keeps(t.width);
    Low16Keeps(t.height);
    Low16Keeps(d);
    Low16Keeps(t.y + t.height - d);
    Low16Keeps(t.x + t.width - d);
  }

  lemma LabelFits(index: nat, t: Target, s: Style)
    requires Fits16(t, s)
    ensures PartOf(index, t, s, 4)
         == Instance(t.labelX, t.labelY, s.padding + t.glyphs * s.advance + s.padding, s.labelHeight,
                     index, t.style, Label)
  {
    hide Low16, Least3;
    AdvanceCommutes(s, t);
    Low16Keeps(t.labelX);
    Low16Keeps(t.labelY);
    Low16Keeps(s.padding * 2 + s.advance * t.glyphs);
    Low16Keeps(s.labelHeight);
  }

  /** A target's five instances draw its outline and its label, under its own number and style. */
  lemma PartsDraw(index: nat, t: Target, s: Style)
    requires Fits16(t, s)
    ensures var parts := PartsOf(index, t, s);
            DrawsOutline(t, s, parts) && DrawsLabel(t, s, parts[4]) && Named(index, t, parts)
  {
    hide PartOf, Least3;
    var d := Least3(s.stroke, t.width / 2, t.height / 2);
    StrokeIs(t, s);
    StripsFit(index, t, s);
    LabelFits(index, t, s);
    StripsCover(index, t, d, PartsOf(index, t, s));
  }

  lemma StripsCover(index: nat, t: Target, d: nat, parts: seq<Instance>)
    requires 2 * d <= t.width && 2 * d <= t.height && |parts| == INSTANCES_PER_TARGET
    requires parts[0] == Instance(t.x, t.y, t.width, d, index, t.style, Outline)
    requires parts[1] == Instance(t.x, t.y + t.height - d, t.width, d, index, t.style, Outline)
    requires parts[2] == Instance(t.x, t.y, d, t.height, index, t.style, Outline)
    requires parts[3] == Instance(t.x + t.width - d, t.y, d, t.height, index, t.style, Outline)
    ensures forall px, py ::
              (Covers(parts[0], px, py) || Covers(parts[1], px, py) || Covers(parts[2], px, py)
               || Covers(parts[3], px, py))
              <==> InTarget(t, px, py) && NearSide(t, d, px, py)
  {
  }

  /** The fresh expansion of a packet draws each target's outline and label and, behind them all, the active target's
      rectangle. */
  lemma SceneDraws(p: Packet, active: Option<nat>, i: nat)
    requires i < |p.targets| && (active.Some? ==> active.value < |p.targets|)
    ensures var scene, t, n := Scene(p, active), p.targets[i], |p.targets|;
            && 5 * (i + 1) <= 5 * n <= |scene| && (p.Valid() ==> t.style < |p.styles|)
            && var s := StyleAt(p.styles, t.style);
               var parts := scene[5 * i..5 * (i + 1)];
               && (Fits16(t, s) ==>
                     DrawsOutline(t, s, parts) && DrawsLabel(t, s, parts[4]) && Named(i, t, parts))
               && (active == Some(i) ==> |scene| == 5 * n + 1 && DrawsActive(i, t, scene[5 * n]))
               && (active == None ==> |scene| == 5 * n)
  {
    hide PartsOf, DrawsOutline, DrawsLabel, Named;
    var t := p.targets[i];
    var s := StyleAt(p.styles, t.style);
    var parts := Scene(p, active)[5 * i..5 * (i + 1)];
    PartsExpanded(p, i);
    assert parts == StaticScene(p)[5 * i..5 * (i + 1)];
    if Fits16(t, s) {
      PartsDraw(i, t, s);
    }
  }

  lemma {:induction false} ExpandedParts(targets: seq<Target>, styles: seq<Style>, n: nat, i: nat)
    requires i < n <= |targets|
    ensures ExpandedUpTo(targets, styles, n)[5 * i..5 * (i + 1)]
         == PartsOf(i, targets[i], StyleAt(styles, targets[i].style))
  {
    hide PartsOf;
    if i < n - 1 {
      ExpandedParts(targets, styles, n - 1, i);
    }
  }

  lemma PartsExpanded(p: Packet, i: nat)
    requires i < |p.targets|
    ensures StaticScene(p)[5 * i..5 * (i + 1)] == PartsOf(i, p.targets[i], StyleAt(p.styles, p.targets[i].style))
  {
    ExpandedParts(p.targets, p.styles, |p.targets|, i);
  }

  /** The active instance covers the target's whole rectangle, as far as that has 16-bit coordinates. */
  ghost predicate DrawsActive(index: nat, t: Target, r: Instance) {
    && r.target == index && r.style == t.style && r.kind == Active
    && (t.x + t.width < 0x1_0000 && t.y + t.height < 0x1_0000 ==>
          forall px, py :: Covers(r, px, py) <==> InTarget(t, px, py))
  }

  // ---------------------------------------------------------------- the kernels

  /** The buffers that a kernel is bound to: the uploads it reads and the instances it writes. */
  datatype Buffers = Buffers(targets: seq<Target>, styles: seq<Style>, instances: seq<Instance>) {
    predicate Sized() { |targets| == MAX_TARGETS && |styles| == MAX_STYLES && |instances| == INSTANCE_CAPACITY }
  }

  /** One thread of the static kernel: thread numbers from n on have nothing to do. */
  function Thread(b: Buffers, index: nat, n: nat): (after: Buffers)
    requires b.Sized() && n <= MAX_TARGETS
    ensures after.Sized() && after.targets == b.targets && after.styles == b.styles
  {
    if index >= n then b
    else
      var t := b.targets[index];
      var s, d := StyleAt(b.styles, t.style), INSTANCES_PER_TARGET * index;
      b.(instances := b.instances[d := PartOf(index, t, s, 0)][d + 1 := PartOf(index, t, s, 1)]
                                 [d + 2 := PartOf(index, t, s, 2)][d + 3 := PartOf(index, t, s, 3)]
                                 [d + 4 := PartOf(index, t, s, 4)])
  }

  /** The static kernel: its threads in the order in which they happen to run. */
  function Threads(b: Buffers, order: seq<nat>, n: nat): (after: Buffers)
    requires b.Sized() && n <= MAX_TARGETS
    ensures after.Sized() && after.targets == b.targets && after.styles == b.styles
  {
    if order == [] then b else Thread(Threads(b, order[..|order| - 1], n), order[|order| - 1], n)
  }

  /** A dispatch of whole groups for n targets runs every thread of those groups. */
  ghost predicate Dispatched(order: seq<nat>, n: nat) {
    forall i | 0 <= i < (n + THREADS_PER_GROUP - 1) / THREADS_PER_GROUP * THREADS_PER_GROUP :: i in order
  }

  lemma ThreadWrites(b: Buffers, index: nat, n: nat, i: nat, part: nat)
    requires b.Sized() && n <= MAX_TARGETS && part < INSTANCES_PER_TARGET && i < MAX_TARGETS
    ensures Thread(b, index, n).instances[INSTANCES_PER_TARGET * i + part]
         == if i == index && index < n then PartOf(i, b.targets[i], StyleAt(b.styles, b.targets[i].style), part)
            else b.instances[INSTANCES_PER_TARGET * i + part]
  {
  }

  lemma {:induction false} ThreadsWrite(b: Buffers, order: seq<nat>, n: nat, i: nat, part: nat)
    requires b.Sized() && n <= MAX_TARGETS && part < INSTANCES_PER_TARGET && i < MAX_TARGETS
    ensures Threads(b, order, n).instances[INSTANCES_PER_TARGET * i + part]
         == if i in order && i < n then PartOf(i, b.targets[i], StyleAt(b.styles, b.targets[i].style), part)
            else b.instances[INSTANCES_PER_TARGET * i + part]
  {
    hide PartOf, Thread;
    if order != [] {
      var front, last := order[..|order| - 1], order[|order| - 1];
      ThreadsWrite(b, front, n, i, part);
      ThreadWrites(Threads(b, front, n), last, n, i, part);
      assert order == front + [last];
    }
  }

  /** The static kernel gives what the sequential expansion gives, whatever the order in which its threads run and
      whatever lies behind the packet in the buffers. */
  lemma KernelExpands(b: Buffers, p: Packet, order: seq<nat>)
    requires b.Sized() && p.Valid() && Dispatched(order, |p.targets|)
    requires b.targets[..|p.targets|] == p.targets && b.styles[..|p.styles|] == p.styles
    ensures Threads(b, order, |p.targets|).instances[..INSTANCES_PER_TARGET * |p.targets|] == StaticScene(p)
  {
    hide Threads, PartOf, ExpandedUpTo;
    var n := |p.targets|;
    var out := Threads(b, order, n).instances;
    forall k | 0 <= k < INSTANCES_PER_TARGET * n ensures out[k] == StaticScene(p)[k] {
      var i, part := k / INSTANCES_PER_TARGET, k % INSTANCES_PER_TARGET;
      assert b.targets[i] == b.targets[..n][i];
      assert b.styles[p.targets[i].style] == b.styles[..|p.styles|][p.targets[i].style];
      ThreadsWrite(b, order, n, i, part);
      ExpandedAt(p.targets, p.styles, n, i, part);
    }
  }

  /** The active kernel: one thread, writing after the static instances. */
  function ActiveThread(b: Buffers, n: nat, active: Option<nat>): (after: Buffers)
    requires b.Sized() && n <= MAX_TARGETS && (active.Some? ==> active.value < MAX_TARGETS)
    ensures after.Sized() && after.targets == b.targets && after.styles == b.styles
  {
    if active.None? then b
    else b.(instances := b.instances[INSTANCES_PER_TARGET * n := ActiveOf(active.value, b.targets[active.value])])
  }
}
