/** Detection through a scope rectangle: the provider detects on the shifted view and then
    moves every target back by the scope's origin. The outcome is a report about the
    components of the lit pixels inside the scope, in the frame's own coordinates. */
module Scopes {
  import opened Statuses
  import opened Rasters
  import opened Labelling
  import opened Frames
  import opened Targets
  import opened Detector

  ghost function Moved(p: Pixel, dx: int, dy: int): Pixel { Pixel(p.x + dx, p.y + dy) }

  ghost function Translate(C: set<Pixel>, dx: int, dy: int): set<Pixel> {
    set p | p in C :: Moved(p, dx, dy)
  }

  lemma TranslateHas(C: set<Pixel>, q: Pixel, dx: int, dy: int)
    ensures q in Translate(C, dx, dy) <==> Moved(q, -dx, -dy) in C
  {
    assert Moved(Moved(q, -dx, -dy), dx, dy) == q;
  }

  function Shifted(t: Target, frameId: U64, dx: int, dy: int): Target {
    t.(x := t.x + dx, y := t.y + dy, safeX := t.safeX + dx, safeY := t.safeY + dy,
       stableId := TargetId(frameId, t.x + dx, t.y + dy, t.width, t.height))
  }

  function ShiftAll(ts: seq<Target>, frameId: U64, dx: int, dy: int): (out: seq<Target>)
    ensures |out| == |ts| && forall i | 0 <= i < |ts| :: out[i] == Shifted(ts[i], frameId, dx, dy)
  {
    seq(|ts|, i requires 0 <= i < |ts| => Shifted(ts[i], frameId, dx, dy))
  }

  /** What one ticket computes: detect on the shifted view, then shift the targets back. */
  ghost function ScopedReport(f: FrameView, scope: Rect, parameters: ModelParameters): Detection
    requires InsideFrame(scope, f) && f.PixelOffset(scope.x, scope.y) <= |f.data|
  {
    var d := DetectSpec(ScopedView(f, scope), parameters);
    Detection(d.status, ShiftAll(d.targets, f.frameId, scope.x, scope.y))
  }

  ghost function LitInside(r: Image, scope: Rect): set<Pixel> {
    set p | p in LitPixels(r) && scope.x <= p.x < scope.x + scope.width && scope.y <= p.y < scope.y + scope.height
  }

  // ---------------------------------------------------------------- translation keeps components

  lemma TranslateBack(C: set<Pixel>, dx: int, dy: int)
    ensures Translate(Translate(C, dx, dy), -dx, -dy) == C
  {
    hide Translate;
    forall p ensures p in Translate(Translate(C, dx, dy), -dx, -dy) <==> p in C {
      var q := Moved(p, dx, dy);
      TranslateHas(Translate(C, dx, dy), p, -dx, -dy);
      TranslateHas(C, q, dx, dy);
      assert Moved(q, -dx, -dy) == p;
    }
  }

  lemma TranslateMember(C: set<Pixel>, p: Pixel, dx: int, dy: int)
    ensures Moved(p, dx, dy) in Translate(C, dx, dy) <==> p in C
  {
    hide Translate;
    TranslateHas(C, Moved(p, dx, dy), dx, dy);
    assert Moved(Moved(p, dx, dy), -dx, -dy) == p;
  }

  lemma ReachMoves(S: set<Pixel>, p: Pixel, q: Pixel, dx: int, dy: int)
    requires Reach(S, p, q)
    ensures Reach(Translate(S, dx, dy), Moved(p, dx, dy), Moved(q, dx, dy))
  {
    hide Translate;
    var a :| IsPath(S, a) && a[0] == p && a[|a| - 1] == q;
    var T := Translate(S, dx, dy);
    var b := seq(|a|, i requires 0 <= i < |a| => Moved(a[i], dx, dy));
    forall i | 0 <= i < |b| ensures b[i] in T {
      TranslateMember(S, a[i], dx, dy);
    }
    forall i | 0 < i < |b| ensures Adjacent(b[i - 1], b[i]) {
      assert Adjacent(a[i - 1], a[i]);
    }
    assert IsPath(T, b);
  }

  lemma ReachMovesBack(S: set<Pixel>, p: Pixel, q: Pixel, dx: int, dy: int)
    requires Reach(Translate(S, dx, dy), Moved(p, dx, dy), Moved(q, dx, dy))
    ensures Reach(S, p, q)
  {
    hide Translate, Reach;
    var T, p', q' := Translate(S, dx, dy), Moved(p, dx, dy), Moved(q, dx, dy);
    ReachMoves(T, p', q', -dx, -dy);
    TranslateBack(S, dx, dy);
  }

  lemma ComponentMoves(S: set<Pixel>, C: set<Pixel>, dx: int, dy: int)
    requires IsComponent(S, C)
    ensures IsComponent(Translate(S, dx, dy), Translate(C, dx, dy))
  {
    hide Translate, Reach;
    var T, D := Translate(S, dx, dy), Translate(C, dx, dy);
    var c :| c in C;
    TranslateMember(C, c, dx, dy);
    forall p | p in D ensures p in T {
      TranslateHas(C, p, dx, dy);
      TranslateHas(S, p, dx, dy);
    }
    forall p, q | p in D && q in T ensures q in D <==> Reach(T, p, q) {
      var p', q' := Moved(p, -dx, -dy), Moved(q, -dx, -dy);
      assert Moved(p', dx, dy) == p && Moved(q', dx, dy) == q;
      TranslateHas(C, p, dx, dy);
      TranslateHas(C, q, dx, dy);
      TranslateHas(S, q, dx, dy);
      if q in D {
        ReachMoves(S, p', q', dx, dy);
      }
      if Reach(T, p, q) {
        ReachMovesBack(S, p', q', dx, dy);
      }
    }
  }

  lemma TranslateAdd(D: set<Pixel>, p: Pixel, dx: int, dy: int)
    ensures Translate(D + {p}, dx, dy) == Translate(D, dx, dy) + {Moved(p, dx, dy)}
  {
    hide Translate;
    forall q ensures q in Translate(D + {p}, dx, dy) <==> q in Translate(D, dx, dy) + {Moved(p, dx, dy)} {
      TranslateHas(D + {p}, q, dx, dy);
      TranslateHas(D, q, dx, dy);
      assert Moved(q, -dx, -dy) == p <==> q == Moved(p, dx, dy);
    }
  }

  lemma NothingMoves(dx: int, dy: int)
    ensures Translate({}, dx, dy) == {}
  {
  }

  lemma {:induction false} TranslateCount(C: set<Pixel>, dx: int, dy: int)
    ensures |Translate(C, dx, dy)| == |C|
    decreases C
  {
    hide Translate;
    if C == {} {
      NothingMoves(dx, dy);
    } else {
      var p :| p in C;
      var D := C - {p};
      TranslateCount(D, dx, dy);
      TranslateMember(D, p, dx, dy);
      TranslateAdd(D, p, dx, dy);
      assert D + {p} == C;
    }
  }

  lemma ComponentMovesBack(S: set<Pixel>, D: set<Pixel>, dx: int, dy: int) returns (C: set<Pixel>)
    requires IsComponent(Translate(S, dx, dy), D)
    ensures IsComponent(S, C) && Translate(C, dx, dy) == D && |C| == |D|
  {
    hide Translate, IsComponent;
    C := Translate(D, -dx, -dy);
    ComponentMoves(Translate(S, dx, dy), D, -dx, -dy);
    TranslateBack(S, dx, dy);
    TranslateBack(D, -dx, -dy);
    TranslateCount(D, -dx, -dy);
  }

  lemma CropLit(r: Image, scope: Rect)
    requires InsideImage(scope, r)
    ensures Translate(LitPixels(Crop(r, scope)), scope.x, scope.y) == LitInside(r, scope)
  {
    hide Translate;
    var c := Crop(r, scope);
    forall p ensures p in Translate(LitPixels(c), scope.x, scope.y) <==> p in LitInside(r, scope) {
      var q := Moved(p, -scope.x, -scope.y);
      TranslateHas(LitPixels(c), p, scope.x, scope.y);
      assert Lit(c, q.x, q.y) <==> 0 <= q.x < scope.width && 0 <= q.y < scope.height && Lit(r, p.x, p.y);
    }
  }

  // ---------------------------------------------------------------- translation moves the description

  lemma NoLuma(r: Image)
    ensures LumaSum(r, {}) == 0
  {
  }

  lemma LumaMoves(r: Image, scope: Rect, p: Pixel)
    requires InsideImage(scope, r) && p in LitPixels(Crop(r, scope))
    ensures LumaAt(r, Moved(p, scope.x, scope.y)) == LumaAt(Crop(r, scope), p)
  {
    var c := Crop(r, scope);
    assert Lit(c, p.x, p.y) && c.luma[p.y] == CropRow(r, scope, p.y);
  }

  lemma {:induction false} LumaSumMoves(r: Image, scope: Rect, C: set<Pixel>)
    requires InsideImage(scope, r) && C <= LitPixels(Crop(r, scope))
    ensures LumaSum(r, Translate(C, scope.x, scope.y)) == LumaSum(Crop(r, scope), C)
    decreases C
  {
    hide Translate, LumaAt;
    var c := Crop(r, scope);
    if C == {} {
      NothingMoves(scope.x, scope.y);
      NoLuma(r);
      NoLuma(c);
    } else {
      hide LumaSum;
      var p :| p in C;
      var D, q := C - {p}, Moved(p, scope.x, scope.y);
      var E := Translate(D, scope.x, scope.y);
      LumaSumMoves(r, scope, D);
      TranslateMember(D, p, scope.x, scope.y);
      TranslateAdd(D, p, scope.x, scope.y);
      LumaSumAdd(r, E, q);
      LumaSumAdd(c, D, p);
      assert D + {p} == C;
      LumaMoves(r, scope, p);
    }
  }

  lemma ExtentShifts(C: set<Pixel>, dx: int, dy: int)
    ensures forall k :: k in Xs(Translate(C, dx, dy)) <==> k - dx in Xs(C)
    ensures forall k :: k in Ys(Translate(C, dx, dy)) <==> k - dy in Ys(C)
  {
    hide Translate;
    var D := Translate(C, dx, dy);
    forall k ensures k in Xs(D) <==> k - dx in Xs(C) {
      if p :| p in D && p.x == k {
        TranslateHas(C, p, dx, dy);
      }
      if p :| p in C && p.x == k - dx {
        TranslateMember(C, p, dx, dy);
      }
    }
    forall k ensures k in Ys(D) <==> k - dy in Ys(C) {
      if p :| p in D && p.y == k {
        TranslateHas(C, p, dx, dy);
      }
      if p :| p in C && p.y == k - dy {
        TranslateMember(C, p, dx, dy);
      }
    }
  }

  lemma LeastShifts(s: set<int>, t: set<int>, d: int)
    requires (exists a :: a in s) && (exists a :: a in t)
    requires forall k :: k in t <==> k - d in s
    ensures Least(t) == Least(s) + d && Greatest(t) == Greatest(s) + d
  {
    hide Least, Greatest;
    assert Least(s) + d in t;
    assert Greatest(s) + d in t;
  }

  lemma ExtentMoves(C: set<Pixel>, dx: int, dy: int)
    requires C != {}
    ensures var D := Translate(C, dx, dy);
            && D != {}
            && Left(D) == Left(C) + dx && Right(D) == Right(C) + dx
            && Top(D) == Top(C) + dy && Bottom(D) == Bottom(C) + dy
  {
    hide Translate, Xs, Ys;
    var D := Translate(C, dx, dy);
    var c :| c in C;
    TranslateMember(C, c, dx, dy);
    NonemptyExtent(C);
    NonemptyExtent(D);
    ExtentShifts(C, dx, dy);
    LeastShifts(Xs(C), Xs(D), dx);
    LeastShifts(Ys(C), Ys(D), dy);
  }

  lemma DescribeMoves(r: Image, frameId: U64, scope: Rect, C: set<Pixel>)
    requires InsideImage(scope, r) && C != {} && C <= LitPixels(Crop(r, scope))
    ensures Translate(C, scope.x, scope.y) != {}
    ensures Shifted(Describe(Crop(r, scope), frameId, C), frameId, scope.x, scope.y)
         == Describe(r, frameId, Translate(C, scope.x, scope.y))
  {
    hide Translate, TargetId, HashWord, LumaSum, Left, Right, Top, Bottom, Crop, LitPixels, Confidence;
    ExtentMoves(C, scope.x, scope.y);
    LumaSumMoves(r, scope, C);
    TranslateCount(C, scope.x, scope.y);
  }

  lemma ShiftAppend(ts: seq<Target>, t: Target, frameId: U64, dx: int, dy: int)
    ensures ShiftAll(ts + [t], frameId, dx, dy) == ShiftAll(ts, frameId, dx, dy) + [Shifted(t, frameId, dx, dy)]
  {
    hide Translate, TargetId, HashWord, LumaSum;
  }

  lemma {:induction false} InsertShifts(ts: seq<Target>, t: Target, frameId: U64, dx: int, dy: int)
    ensures ShiftAll(Insert(ts, t), frameId, dx, dy)
         == Insert(ShiftAll(ts, frameId, dx, dy), Shifted(t, frameId, dx, dy))
  {
    hide Translate, TargetId, HashWord, LumaSum;
    ShiftAppend(ts, t, frameId, dx, dy);
    if ts != [] && !InOrder(ts[|ts| - 1], t) {
      var front, last := ts[..|ts| - 1], ts[|ts| - 1];
      InsertShifts(front, t, frameId, dx, dy);
      ShiftAppend(Insert(front, t), last, frameId, dx, dy);
      ShiftAppend(front, last, frameId, dx, dy);
      assert ts == front + [last];
      assert ShiftAll(ts, frameId, dx, dy)[..|ts| - 1] == ShiftAll(front, frameId, dx, dy);
    }
  }

  /** Sorting and shifting commute. */
  lemma {:induction false} SortShifts(ts: seq<Target>, frameId: U64, dx: int, dy: int)
    ensures ShiftAll(SortedTargets(ts), frameId, dx, dy) == SortedTargets(ShiftAll(ts, frameId, dx, dy))
  {
    hide Translate, TargetId, HashWord, LumaSum;
    if ts != [] {
      var front, last := ts[..|ts| - 1], ts[|ts| - 1];
      SortShifts(front, frameId, dx, dy);
      InsertShifts(SortedTargets(front), last, frameId, dx, dy);
      assert ShiftAll(ts, frameId, dx, dy)[..|ts| - 1] == ShiftAll(front, frameId, dx, dy);
    }
  }

  // ---------------------------------------------------------------- the scoped report

  /** Detecting through a scope gives what detecting on any frame that shows the cropped picture
      gives, moved by the scope's origin. */
  lemma ScopeEqualsCroppedCopy(f: FrameView, scope: Rect, parameters: ModelParameters, copy: FrameView)
    requires f.Fits() && BytesPerPixel(f.format) > 0 && InsideFrame(scope, f)
    requires f.PixelOffset(scope.x, scope.y) <= |f.data|
    requires ValidateFrame(ScopedView(f, scope)) == Ok && ValidateFrame(copy) == Ok && copy.frameId == f.frameId
    requires copy.Fits() && BytesPerPixel(copy.format) > 0
    requires ImageOf(copy, parameters.lumaThreshold) == Crop(ImageOf(f, parameters.lumaThreshold), scope)
    ensures ScopedReport(f, scope, parameters)
         == Detection(DetectSpec(copy, parameters).status,
                      ShiftAll(DetectSpec(copy, parameters).targets, f.frameId, scope.x, scope.y))
  {
    hide Translate, TargetId, HashWord, LumaSum;
    ScopeIsCrop(f, scope, parameters.lumaThreshold);
  }

  lemma ScopedReportFromCrop(f: FrameView, scope: Rect, parameters: ModelParameters)
    requires f.Fits() && BytesPerPixel(f.format) > 0 && InsideFrame(scope, f)
    requires f.PixelOffset(scope.x, scope.y) <= |f.data|
    ensures var d := Detected(Crop(ImageOf(f, parameters.lumaThreshold), scope), f.frameId, parameters.minimumArea);
            var report := ScopedReport(f, scope, parameters);
            report == if parameters.minimumArea == 0 || ValidateFrame(ScopedView(f, scope)) != Ok
                      then Detection(InvalidArgument, [])
                      else Detection(d.status, ShiftAll(d.targets, f.frameId, scope.x, scope.y))
  {
    hide Detected, Crop, ImageOf;
    ScopeIsCrop(f, scope, parameters.lumaThreshold);
  }

  /** The report for a cropped picture, moved back, is about the components inside the scope. */
  lemma CropComponents(r: Image, id: U64, scope: Rect, min: nat) returns (components: seq<set<Pixel>>)
    requires InsideImage(scope, r)
    ensures forall C :: C in components <==> IsComponent(LitInside(r, scope), C) && |C| >= min
    ensures forall i, j | 0 <= i < j < |components| :: components[i] != components[j]
    ensures forall i | 0 <= i < |components| :: components[i] != {}
    ensures var d := Detected(Crop(r, scope), id, min);
            && (if d.status == Ok
                then ShiftAll(d.targets, id, scope.x, scope.y) == SortedTargets(DescribeAll(r, id, components))
                else d.status == Capacity && d.targets == [])
            && (d.status == Capacity
                <==> |OpeningRuns(Crop(r, scope))| > MAXIMUM_COMPONENTS || |components| > MAXIMUM_TARGETS)
  {
    hide IsComponent, Translate, LitPixels, LitInside, Crop, Describe, Shifted, Found, SortedTargets, OpeningRuns,
         Blobs;
    BlobsCountOpeningRuns(Crop(r, scope));
    var c, dx, dy := Crop(r, scope), scope.x, scope.y;
    var found := Found(c, min);
    FoundIsLargeComponents(c, min);
    components := seq(|found|, i requires 0 <= i < |found| => Translate(found[i], dx, dy));
    CropLit(r, scope);
    forall i | 0 <= i < |found|
      ensures components[i] != {}
      ensures Shifted(Describe(c, id, found[i]), id, dx, dy) == Describe(r, id, components[i])
    {
      assert found[i] in found;
      ComponentLit(LitPixels(c), found[i]);
      DescribeMoves(r, id, scope, found[i]);
    }
    TranslatedComponents(LitPixels(c), found, components, dx, dy, min);
    SortShifts(DescribeAll(c, id, found), id, dx, dy);
    assert ShiftAll(DescribeAll(c, id, found), id, dx, dy) == DescribeAll(r, id, components);
  }

  lemma ComponentLit(S: set<Pixel>, C: set<Pixel>)
    requires IsComponent(S, C)
    ensures C <= S
  {
  }

  /** A ticket's targets are the descriptions, in frame coordinates, of the components of the lit pixels inside the
      scope, in stable (y, x) order; otherwise there are none, and it is exactly settled which failure is reported.
      `ordered` lists the components in the order of their targets, each of which says what is true of its
      component. */
  lemma ScopedReportIsComponents(f: FrameView, scope: Rect, parameters: ModelParameters)
    returns (components: seq<set<Pixel>>, ordered: seq<set<Pixel>>)
    requires f.Fits() && BytesPerPixel(f.format) > 0 && InsideFrame(scope, f)
    requires f.PixelOffset(scope.x, scope.y) <= |f.data|
    ensures var r, report := ImageOf(f, parameters.lumaThreshold), ScopedReport(f, scope, parameters);
            && (forall C :: C in components
                  <==> IsComponent(LitInside(r, scope), C) && |C| >= parameters.minimumArea)
            && (forall i, j | 0 <= i < j < |components| :: components[i] != components[j])
            && (forall i | 0 <= i < |components| :: components[i] != {})
            && (report.status == Ok ==>
                  && report.targets == SortedTargets(DescribeAll(r, f.frameId, components))
                  && PortraysAll(r, f.frameId, report.targets, components, ordered))
            && (report.status != Ok ==> report.targets == [])
            && report.status in {Ok, InvalidArgument, Capacity}
            && (report.status == InvalidArgument
                <==> parameters.minimumArea == 0 || ValidateFrame(ScopedView(f, scope)) != Ok)
            && (report.status == Capacity
                <==> parameters.minimumArea > 0 && ValidateFrame(ScopedView(f, scope)) == Ok
                     && (|OpeningRuns(Crop(r, scope))| > 128 || |components| > 32))
  {
    hide ImageOf, Crop, LitInside, SortedTargets, DescribeAll, PortraysAll, ScopedReport, Detected, IsComponent,
         OpeningRuns, ValidateFrame;
    var r, id := ImageOf(f, parameters.lumaThreshold), f.frameId;
    var min := parameters.minimumArea;
    ScopeIsCrop(f, scope, parameters.lumaThreshold);
    ScopedReportFromCrop(f, scope, parameters);
    components := CropComponents(r, id, scope, min);
    ordered := SortedPortray(r, id, components);
  }

  /** Sorted descriptions portray the components described. */
  lemma SortedPortray(r: Image, id: U64, components: seq<set<Pixel>>) returns (ordered: seq<set<Pixel>>)
    requires forall i | 0 <= i < |components| :: components[i] != {}
    ensures PortraysAll(r, id, SortedTargets(DescribeAll(r, id, components)), components, ordered)
  {
    hide Describe, Portrays, SortedTargets;
    ordered := Arranged(r, id, components);
    AllPortray(r, id, ordered);
    SortedTargetsStable(DescribeAll(r, id, components));
  }

  lemma MovedComponent(S: set<Pixel>, C: set<Pixel>, dx: int, dy: int, min: nat)
    requires IsComponent(S, C) && |C| >= min
    ensures IsComponent(Translate(S, dx, dy), Translate(C, dx, dy)) && |Translate(C, dx, dy)| >= min
  {
    ComponentMoves(S, C, dx, dy);
    TranslateCount(C, dx, dy);
  }

  lemma FromMovedComponent(S: set<Pixel>, found: seq<set<Pixel>>, dx: int, dy: int, min: nat, C: set<Pixel>)
    returns (i: nat)
    requires forall C :: C in found <==> IsComponent(S, C) && |C| >= min
    requires IsComponent(Translate(S, dx, dy), C) && |C| >= min
    ensures i < |found| && C == Translate(found[i], dx, dy)
  {
    hide IsComponent, Translate;
    var D := ComponentMovesBack(S, C, dx, dy);
    assert D in found;
    i :| 0 <= i < |found| && found[i] == D;
  }

  lemma TranslateDistinct(C: set<Pixel>, D: set<Pixel>, dx: int, dy: int)
    requires C != D
    ensures Translate(C, dx, dy) != Translate(D, dx, dy)
  {
    hide Translate;
    TranslateBack(C, dx, dy);
    TranslateBack(D, dx, dy);
  }

  lemma TranslatedComponents(S: set<Pixel>, found: seq<set<Pixel>>, moved: seq<set<Pixel>>, dx: int, dy: int, min: nat)
    requires forall C :: C in found <==> IsComponent(S, C) && |C| >= min
    requires forall i, j | 0 <= i < j < |found| :: found[i] != found[j]
    requires |moved| == |found| && forall i | 0 <= i < |found| :: moved[i] == Translate(found[i], dx, dy)
    ensures forall C :: C in moved <==> IsComponent(Translate(S, dx, dy), C) && |C| >= min
    ensures forall i, j | 0 <= i < j < |moved| :: moved[i] != moved[j]
  {
    hide IsComponent, Translate;
    forall C ensures C in moved <==> IsComponent(Translate(S, dx, dy), C) && |C| >= min {
      if C in moved {
        var i :| 0 <= i < |moved| && moved[i] == C;
        assert found[i] in found;
        MovedComponent(S, found[i], dx, dy, min);
      }
      if IsComponent(Translate(S, dx, dy), C) && |C| >= min {
        var i := FromMovedComponent(S, found, dx, dy, min, C);
        assert moved[i] == C;
      }
    }
    forall i, j | 0 <= i < j < |moved| ensures moved[i] != moved[j] {
      TranslateDistinct(found[i], found[j], dx, dy);
    }
  }
}
