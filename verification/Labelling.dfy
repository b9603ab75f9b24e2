/** What the one-pass labeller computes, with pixel sets in place of labels.

    The scan visits maximal horizontal runs in raster order. Each run gathers the
    blobs that touch it from the row above into the blob of its leftmost
    neighbour, or opens a new blob when it has none. `Blobs` is the state after
    the last run; a blob that was gathered into another one is left empty. */
module Labelling {
  import opened Rasters

  /** The first blob holding p, or |blobs| when none does. */
  ghost function Holder(blobs: seq<set<Pixel>>, p: Pixel): (h: nat)
    ensures h <= |blobs|
    ensures h < |blobs| ==> p in blobs[h]
    ensures forall i | 0 <= i < h :: p !in blobs[i]
  {
    if blobs == [] then 0 else if p in blobs[0] then 0 else 1 + Holder(blobs[1..], p)
  }

  /** The blobs while a run is gathering; `leader` is the blob it gathers into, -1 before the first. */
  datatype Gathering = Gathering(blobs: seq<set<Pixel>>, leader: int) {
    ghost predicate Valid() { -1 <= leader < |blobs| }
  }

  ghost function Gather(g: Gathering, i: nat): (h: Gathering)
    requires g.Valid() && i < |g.blobs|
    ensures h.Valid() && |h.blobs| == |g.blobs|
  {
    if g.leader == -1 then g.(leader := i)
    else if g.leader == i then g
    else g.(blobs := g.blobs[g.leader := g.blobs[g.leader] + g.blobs[i]][i := {}])
  }

  ghost function Touch(g: Gathering, p: Pixel): (h: Gathering)
    requires g.Valid()
    ensures h.Valid() && |h.blobs| == |g.blobs|
  {
    var i := Holder(g.blobs, p);
    if i == |g.blobs| then g else Gather(g, i)
  }

  ghost function Above(c: int, y: int): Pixel { Pixel(c, y - 1) }

  /** Touch every pixel of the row above, left to right from column c to the end of the run. */
  ghost function Absorb(g: Gathering, c: int, e: int, y: int): (h: Gathering)
    requires g.Valid() && c <= e
    ensures h.Valid() && |h.blobs| == |g.blobs|
    decreases e - c
  {
    if c == e then g else Absorb(Touch(g, Above(c, y)), c + 1, e, y)
  }

  ghost function Place(g: Gathering, run: set<Pixel>): seq<set<Pixel>>
    requires g.Valid()
  {
    if g.leader == -1 then g.blobs + [run] else g.blobs[g.leader := g.blobs[g.leader] + run]
  }

  ghost function AddRun(blobs: seq<set<Pixel>>, x: int, e: int, y: int): seq<set<Pixel>>
    requires x <= e
  {
    Place(Absorb(Gathering(blobs, -1), x, e, y), Run(x, e, y))
  }

  ghost function ScanFrom(r: Image, blobs: seq<set<Pixel>>, x: int, y: int): seq<set<Pixel>>
    requires 0 <= x <= r.width && 0 <= y <= r.height
    decreases r.height - y, r.width - x
  {
    if y == r.height then blobs
    else if x == r.width then ScanFrom(r, blobs, 0, y + 1)
    else if !Lit(r, x, y) then ScanFrom(r, blobs, x + 1, y)
    else ScanFrom(r, AddRun(blobs, x, RunEnd(r, x, y), y), RunEnd(r, x, y), y)
  }

  ghost function Blobs(r: Image): seq<set<Pixel>> {
    ScanFrom(r, [], 0, 0)
  }

  // ---------------------------------------------------------------- the invariant of the scan

  /** The blobs cut S into disjoint pieces, and no two neighbours lie in different pieces. */
  ghost predicate Tiles(S: set<Pixel>, blobs: seq<set<Pixel>>) {
    && (forall i, p | 0 <= i < |blobs| && p in blobs[i] :: p in S)
    && (forall p | p in S :: exists i :: 0 <= i < |blobs| && p in blobs[i])
    && (forall i, j, p | 0 <= i < |blobs| && 0 <= j < |blobs| && p in blobs[i] && p in blobs[j] :: i == j)
    && (forall i, p, q | 0 <= i < |blobs| && p in blobs[i] && q in S && Adjacent(p, q) :: q in blobs[i])
  }

  ghost predicate Linked(T: set<Pixel>, C: set<Pixel>) {
    forall p, q | p in C && q in C :: Reach(T, p, q)
  }

  ghost predicate AllLinked(T: set<Pixel>, blobs: seq<set<Pixel>>) {
    forall i | 0 <= i < |blobs| :: Linked(T, blobs[i])
  }

  ghost predicate Partition(S: set<Pixel>, blobs: seq<set<Pixel>>) {
    Tiles(S, blobs) && AllLinked(S, blobs)
  }

  lemma HolderIs(S: set<Pixel>, blobs: seq<set<Pixel>>, p: Pixel, i: nat)
    requires Tiles(S, blobs) && i < |blobs| && p in blobs[i]
    ensures Holder(blobs, p) == i
  {
    var h := Holder(blobs, p);
    assert h <= i;
  }

  lemma HolderMisses(S: set<Pixel>, blobs: seq<set<Pixel>>, p: Pixel)
    requires Tiles(S, blobs)
    ensures Holder(blobs, p) == |blobs| <==> p !in S
  {
    var h := Holder(blobs, p);
    if p in S {
      var i :| 0 <= i < |blobs| && p in blobs[i];
    }
  }

  lemma LinkedUnion(T: set<Pixel>, C: set<Pixel>, D: set<Pixel>, a: Pixel, b: Pixel)
    requires Linked(T, C) && Linked(T, D) && a in C && b in D && Reach(T, a, b)
    ensures Linked(T, C + D)
  {
    ReachSym(T, a, b);
    forall p, q | p in C + D && q in C + D ensures Reach(T, p, q) {
      var p' := if p in C then a else b;
      var q' := if q in C then a else b;
      ReachTrans(T, p, p', q');
      ReachTrans(T, p, q', q);
    }
  }

  lemma GatherTiles(S: set<Pixel>, g: Gathering, i: nat)
    requires g.Valid() && i < |g.blobs| && Tiles(S, g.blobs)
    ensures Tiles(S, Gather(g, i).blobs)
  {
    var blobs, out := g.blobs, Gather(g, i).blobs;
    if g.leader != -1 && g.leader != i {
      assert out[i] == {} && out[g.leader] == blobs[g.leader] + blobs[i];
      assert forall k | 0 <= k < |blobs| && k != i && k != g.leader :: out[k] == blobs[k];
      forall p | p in S ensures exists k :: 0 <= k < |out| && p in out[k] {
        var k :| 0 <= k < |blobs| && p in blobs[k];
        var k' := if k == i then g.leader else k;
        assert p in out[k'];
      }
    }
  }

  lemma GatherLinked(T: set<Pixel>, g: Gathering, i: nat, a: Pixel, b: Pixel)
    requires g.Valid() && i < |g.blobs| && AllLinked(T, g.blobs)
    requires g.leader != -1 ==> a in g.blobs[g.leader] && b in g.blobs[i] && Reach(T, a, b)
    ensures AllLinked(T, Gather(g, i).blobs)
  {
    var blobs, out := g.blobs, Gather(g, i).blobs;
    if g.leader != -1 && g.leader != i {
      LinkedUnion(T, blobs[g.leader], blobs[i], a, b);
      forall k | 0 <= k < |out| ensures Linked(T, out[k]) {
        assert out[k] == if k == i then {} else if k == g.leader then blobs[k] + blobs[i] else blobs[k];
      }
    }
  }

  /** While the run [x, e) of row y gathers and has looked at the columns before c:
      the leader holds every scanned pixel above those columns. */
  ghost predicate Gathered(S: set<Pixel>, g: Gathering, x: int, c: int, y: int) {
    && g.Valid()
    && (g.leader == -1 <==> forall k | x <= k < c :: Above(k, y) !in S)
    && (g.leader != -1 ==> forall k | x <= k < c && Above(k, y) in S :: Above(k, y) in g.blobs[g.leader])
  }

  lemma TouchStep(S: set<Pixel>, T: set<Pixel>, g: Gathering, x: int, c: int, e: int, y: int)
    requires x <= c < e
    requires T == S + Run(x, e, y)
    requires Tiles(S, g.blobs) && AllLinked(T, g.blobs) && Gathered(S, g, x, c, y)
    ensures var h := Touch(g, Above(c, y));
            Tiles(S, h.blobs) && AllLinked(T, h.blobs) && Gathered(S, h, x, c + 1, y)
  {
    hide Tiles, AllLinked, Holder, Run;
    var p := Above(c, y);
    var i := Holder(g.blobs, p);
    HolderMisses(S, g.blobs, p);
    if i < |g.blobs| {
      GatherTiles(S, g, i);
      var a := p;
      if g.leader != -1 {
        var k :| x <= k < c && Above(k, y) in S;
        a := Above(k, y);
        AcrossRun(S, T, k, c, x, e, y);
      }
      GatherLinked(T, g, i, a, p);
    }
  }

  /** Two scanned pixels above a run reach each other through it. */
  lemma AcrossRun(S: set<Pixel>, T: set<Pixel>, k: int, c: int, x: int, e: int, y: int)
    requires x <= k <= c < e && T == S + Run(x, e, y)
    requires Above(k, y) in S && Above(c, y) in S
    ensures Reach(T, Above(k, y), Above(c, y))
  {
    assert forall j | x <= j < e :: Pixel(j, y) in Run(x, e, y);
    ReachStep(T, Above(k, y), Pixel(k, y));
    ReachAlong(T, k, c, y);
    ReachStep(T, Pixel(c, y), Above(c, y));
    ReachTrans(T, Above(k, y), Pixel(k, y), Pixel(c, y));
    ReachTrans(T, Above(k, y), Pixel(c, y), Above(c, y));
  }

  lemma {:induction false} AbsorbStep(S: set<Pixel>, T: set<Pixel>, g: Gathering, x: int, c: int, e: int, y: int)
    requires x <= c <= e
    requires T == S + Run(x, e, y)
    requires Tiles(S, g.blobs) && AllLinked(T, g.blobs) && Gathered(S, g, x, c, y)
    ensures var h := Absorb(g, c, e, y);
            Tiles(S, h.blobs) && AllLinked(T, h.blobs) && Gathered(S, h, x, e, y)
    decreases e - c
  {
    if c < e {
      TouchStep(S, T, g, x, c, e, y);
      AbsorbStep(S, T, Touch(g, Above(c, y)), x, c + 1, e, y);
    }
  }

  lemma RunLinked(T: set<Pixel>, x: int, e: int, y: int)
    requires Run(x, e, y) <= T
    ensures Linked(T, Run(x, e, y))
  {
    assert forall j | x <= j < e :: Pixel(j, y) in Run(x, e, y);
    forall p, q | p in Run(x, e, y) && q in Run(x, e, y) ensures Reach(T, p, q) {
      if p.x <= q.x {
        ReachAlong(T, p.x, q.x, y);
      } else {
        ReachAlong(T, q.x, p.x, y);
      }
    }
  }

  /** The only scanned neighbours of a maximal run are the pixels directly above it. */
  ghost predicate Maximal(S: set<Pixel>, x: int, e: int, y: int) {
    && x < e
    && S !! Run(x, e, y)
    && (forall p, q | p in Run(x, e, y) && q in S && Adjacent(p, q) :: q == Above(p.x, y))
  }

  lemma PlaceTiles(S: set<Pixel>, g: Gathering, x: int, e: int, y: int)
    requires Tiles(S, g.blobs) && Gathered(S, g, x, e, y) && Maximal(S, x, e, y)
    ensures Tiles(S + Run(x, e, y), Place(g, Run(x, e, y)))
  {
    var run := Run(x, e, y);
    var T, out := S + run, Place(g, run);
    var l := if g.leader == -1 then |g.blobs| else g.leader;
    assert out[l] == run + if g.leader == -1 then {} else g.blobs[l];
    assert forall k | 0 <= k < |g.blobs| && k != l :: out[k] == g.blobs[k];
    forall p | p in T ensures exists k :: 0 <= k < |out| && p in out[k] {
      if p in run {
        assert p in out[l];
      } else {
        var k :| 0 <= k < |g.blobs| && p in g.blobs[k];
        assert p in out[k];
      }
    }
    forall i, p, q | 0 <= i < |out| && p in out[i] && q in T && Adjacent(p, q) ensures q in out[i] {
      if p in run {
        assert i == l;
        if q !in run {
          assert q == Above(p.x, y);
        }
      } else if q in run {
        assert Adjacent(q, p) && p == Above(q.x, y);
      }
    }
  }

  lemma PlaceLinked(S: set<Pixel>, g: Gathering, x: int, e: int, y: int)
    requires AllLinked(S + Run(x, e, y), g.blobs) && Gathered(S, g, x, e, y) && x < e
    ensures AllLinked(S + Run(x, e, y), Place(g, Run(x, e, y)))
  {
    var run := Run(x, e, y);
    var T, out := S + run, Place(g, run);
    RunLinked(T, x, e, y);
    if g.leader != -1 {
      var k :| x <= k < e && Above(k, y) in S;
      assert Pixel(k, y) in run;
      ReachStep(T, Above(k, y), Pixel(k, y));
      LinkedUnion(T, g.blobs[g.leader], run, Above(k, y), Pixel(k, y));
    }
  }

  lemma LinkedGrows(S: set<Pixel>, T: set<Pixel>, blobs: seq<set<Pixel>>)
    requires AllLinked(S, blobs) && S <= T
    ensures AllLinked(T, blobs)
  {
    forall i | 0 <= i < |blobs| ensures Linked(T, blobs[i]) {
      forall p, q | p in blobs[i] && q in blobs[i] ensures Reach(T, p, q) {
        assert Linked(S, blobs[i]);
        ReachMono(S, T, p, q);
      }
    }
  }

  lemma AddRunPartition(S: set<Pixel>, blobs: seq<set<Pixel>>, x: int, e: int, y: int)
    requires Partition(S, blobs) && Maximal(S, x, e, y)
    ensures Partition(S + Run(x, e, y), AddRun(blobs, x, e, y))
  {
    var T := S + Run(x, e, y);
    LinkedGrows(S, T, blobs);
    var g := Gathering(blobs, -1);
    AbsorbStep(S, T, g, x, x, e, y);
    var h := Absorb(g, x, e, y);
    PlaceTiles(S, h, x, e, y);
    PlaceLinked(S, h, x, e, y);
  }

  /** Where a scan may stand: at a row start, or just past a pixel that is not lit, or at the end of a run. */
  ghost predicate AtBoundary(r: Image, x: int, y: int) {
    0 <= x <= r.width && 0 <= y <= r.height && (x > 0 && x < r.width ==> !Lit(r, x, y) || !Lit(r, x - 1, y))
  }

  lemma RunIsMaximal(r: Image, x: int, y: int)
    requires AtBoundary(r, x, y) && x < r.width && y < r.height && Lit(r, x, y)
    ensures Maximal(Before(r, x, y), x, RunEnd(r, x, y), y)
  {
    hide RunEnd;
    var e := RunEnd(r, x, y);
    assert Lit(r, x, y) && !Lit(r, e, y);
    assert forall c | x <= c < e :: Lit(r, c, y);
  }

  lemma BeforeGrows(r: Image, x: int, y: int, e: int)
    requires 0 <= x <= e <= r.width && 0 <= y < r.height
    requires forall c | x <= c < e :: Lit(r, c, y)
    ensures Before(r, e, y) == Before(r, x, y) + Run(x, e, y)
  {
    var S, T := Before(r, x, y), Before(r, e, y);
    forall p ensures p in T <==> p in S + Run(x, e, y) {
      if p in T && p !in S {
        assert p == Pixel(p.x, y);
      }
    }
  }

  lemma BeforeRun(r: Image, x: int, y: int)
    requires AtBoundary(r, x, y) && x < r.width && y < r.height && Lit(r, x, y)
    ensures Maximal(Before(r, x, y), x, RunEnd(r, x, y), y)
    ensures Before(r, RunEnd(r, x, y), y) == Before(r, x, y) + Run(x, RunEnd(r, x, y), y)
  {
    hide Before, Maximal, Run;
    RunIsMaximal(r, x, y);
    BeforeGrows(r, x, y, RunEnd(r, x, y));
  }

  lemma BeforeSkip(r: Image, x: int, y: int)
    requires 0 <= x < r.width && 0 <= y < r.height && !Lit(r, x, y)
    ensures Before(r, x + 1, y) == Before(r, x, y)
  {
    forall p ensures p in Before(r, x + 1, y) <==> p in Before(r, x, y) {
    }
  }

  lemma BeforeRow(r: Image, y: int)
    requires 0 <= y < r.height
    ensures Before(r, r.width, y) == Before(r, 0, y + 1)
  {
    forall p ensures p in Before(r, r.width, y) <==> p in Before(r, 0, y + 1) {
    }
  }

  /** From any point of the scan on, the partition of the pixels seen so far grows into one of all lit pixels. */
  lemma {:induction false} ScanPartition(r: Image, blobs: seq<set<Pixel>>, x: int, y: int)
    requires AtBoundary(r, x, y) && Partition(Before(r, x, y), blobs)
    ensures Partition(LitPixels(r), ScanFrom(r, blobs, x, y))
    decreases r.height - y, r.width - x
  {
    if y == r.height {
      assert Before(r, x, y) == LitPixels(r);
    } else if x == r.width {
      BeforeRow(r, y);
      ScanPartition(r, blobs, 0, y + 1);
    } else if !Lit(r, x, y) {
      BeforeSkip(r, x, y);
      ScanPartition(r, blobs, x + 1, y);
    } else {
      var e := RunEnd(r, x, y);
      BeforeRun(r, x, y);
      AddRunPartition(Before(r, x, y), blobs, x, e, y);
      ScanPartition(r, AddRun(blobs, x, e, y), e, y);
    }
  }

  // ---------------------------------------------------------------- what the blobs are

  lemma PartitionComponent(S: set<Pixel>, blobs: seq<set<Pixel>>, i: nat)
    requires Partition(S, blobs) && i < |blobs| && blobs[i] != {}
    ensures IsComponent(S, blobs[i])
  {
    var C := blobs[i];
    assert Linked(S, C);
    forall p, q | p in C && q in S && Reach(S, p, q) ensures q in C {
      var path :| IsPath(S, path) && path[0] == p && path[|path| - 1] == q;
      ClosedUnderReach(S, C, path);
    }
  }

  /** The nonempty blobs are exactly the 4-connected components of the lit pixels, each once. */
  lemma BlobsAreComponents(r: Image)
    ensures forall i | 0 <= i < |Blobs(r)| && Blobs(r)[i] != {} :: IsComponent(LitPixels(r), Blobs(r)[i])
    ensures forall C | IsComponent(LitPixels(r), C) :: C in Blobs(r)
    ensures forall i, j | 0 <= i < j < |Blobs(r)| && Blobs(r)[i] != {} :: Blobs(r)[i] != Blobs(r)[j]
    ensures Partition(LitPixels(r), Blobs(r))
  {
    assert Before(r, 0, 0) == {};
    ScanPartition(r, [], 0, 0);
    var S, blobs := LitPixels(r), Blobs(r);
    forall i | 0 <= i < |blobs| && blobs[i] != {} ensures IsComponent(S, blobs[i]) {
      PartitionComponent(S, blobs, i);
    }
    forall C | IsComponent(S, C) ensures C in blobs {
      var p :| p in C;
      var i :| 0 <= i < |blobs| && p in blobs[i];
      PartitionComponent(S, blobs, i);
      ComponentsOverlapOnlyWhenEqual(S, C, blobs[i], p);
    }
    forall i, j | 0 <= i < j < |blobs| && blobs[i] != {} ensures blobs[i] != blobs[j] {
      var p :| p in blobs[i];
    }
  }

  // ---------------------------------------------------------------- how many blobs are ever opened

  /** p starts a maximal lit run that has no lit pixel directly above it. */
  ghost predicate OpensRun(r: Image, p: Pixel) {
    && Lit(r, p.x, p.y)
    && !Lit(r, p.x - 1, p.y)
    && (forall c | p.x <= c < RunEnd(r, p.x, p.y) :: !LitAbove(r, c, p.y))
  }

  ghost predicate LitAbove(r: Image, c: int, y: int) { Lit(r, c, y - 1) }

  ghost function OpeningRuns(r: Image): set<Pixel> {
    set p | p in LitPixels(r) && OpensRun(r, p)
  }

  ghost function OpeningRunsFrom(r: Image, x: int, y: int): set<Pixel> {
    set p | p in OpeningRuns(r) && (p.y > y || (p.y == y && p.x >= x))
  }

  lemma AddRunOpens(r: Image, blobs: seq<set<Pixel>>, x: int, y: int)
    requires AtBoundary(r, x, y) && x < r.width && y < r.height && Lit(r, x, y)
    requires Partition(Before(r, x, y), blobs)
    ensures x == 0 || !Lit(r, x - 1, y)
            ==> |AddRun(blobs, x, RunEnd(r, x, y), y)| == |blobs| + if OpensRun(r, Pixel(x, y)) then 1 else 0
  {
    hide Tiles, AllLinked, Absorb, Run;
    var e, S := RunEnd(r, x, y), Before(r, x, y);
    LinkedGrows(S, S + Run(x, e, y), blobs);
    assert e > x;
    AbsorbStep(S, S + Run(x, e, y), Gathering(blobs, -1), x, x, e, y);
    forall k | x <= k < e ensures Above(k, y) in S <==> LitAbove(r, k, y) {
      assert Above(k, y) in LitPixels(r) <==> Lit(r, k, y - 1);
    }
  }

  lemma OpeningRunsSkip(r: Image, x: int, y: int, e: int)
    requires 0 <= x < e <= r.width && 0 <= y < r.height
    requires forall c | x <= c < e - 1 :: Lit(r, c, y)
    ensures OpeningRunsFrom(r, x, y)
         == OpeningRunsFrom(r, e, y) + if Pixel(x, y) in OpeningRuns(r) then {Pixel(x, y)} else {}
  {
    forall p ensures p in OpeningRunsFrom(r, x, y)
                <==> p in OpeningRunsFrom(r, e, y) + if Pixel(x, y) in OpeningRuns(r) then {Pixel(x, y)} else {}
    {
      assert x <= p.x - 1 < e - 1 ==> Lit(r, p.x - 1, y);
    }
  }

  lemma {:induction false} ScanCount(r: Image, blobs: seq<set<Pixel>>, x: int, y: int)
    requires AtBoundary(r, x, y) && Partition(Before(r, x, y), blobs)
    requires x < r.width && Lit(r, x, y) ==> !Lit(r, x - 1, y)
    ensures |ScanFrom(r, blobs, x, y)| == |blobs| + |OpeningRunsFrom(r, x, y)|
    decreases r.height - y, r.width - x
  {
    hide Before, Partition, AddRun, OpensRun, RunEnd;
    if y == r.height {
      assert OpeningRunsFrom(r, x, y) == {};
    } else if x == r.width {
      assert OpeningRunsFrom(r, x, y) == OpeningRunsFrom(r, 0, y + 1);
      BeforeRow(r, y);
      ScanCount(r, blobs, 0, y + 1);
    } else if !Lit(r, x, y) {
      OpeningRunsSkip(r, x, y, x + 1);
      BeforeSkip(r, x, y);
      ScanCount(r, blobs, x + 1, y);
    } else {
      var e := RunEnd(r, x, y);
      OpeningRunsSkip(r, x, y, e);
      AddRunOpens(r, blobs, x, y);
      BeforeRun(r, x, y);
      AddRunPartition(Before(r, x, y), blobs, x, e, y);
      ScanCount(r, AddRun(blobs, x, e, y), e, y);
      assert Pixel(x, y) in LitPixels(r);
      assert Pixel(x, y) !in OpeningRunsFrom(r, e, y);
    }
  }

  /** A label is spent for every maximal run without a lit pixel above it, and for nothing else. */
  lemma BlobsCountOpeningRuns(r: Image)
    ensures |Blobs(r)| == |OpeningRuns(r)|
  {
    assert Before(r, 0, 0) == {};
    ScanCount(r, [], 0, 0);
    assert OpeningRunsFrom(r, 0, 0) == OpeningRuns(r);
  }
}
