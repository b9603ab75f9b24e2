/** The one-pass component labeller: runs, a union-find forest over at most 128 labels,
    two rows of labels, accumulators merged on union, and an in-place sort of the report. */
module Detector {
  import opened Statuses
  import opened Rasters
  import opened Labelling
  import opened Frames
  import opened Targets

  /** `parent` is a label, counted from 1; a component is a root when it is its own parent. */
  datatype Component = Component(
    parent: nat, minX: int, minY: int, maxX: int, maxY: int, area: int, lumaSum: int, used: bool)

  datatype ModelParameters = ModelParameters(lumaThreshold: Byte, minimumArea: U32)

  // ---------------------------------------------------------------- the forest behind the labels

  /** What the parent links mean. `find[i]` is the root of component i; the ranks grow along
      every link and stay within `height`, which is why following links ends. */
  datatype Forest = Forest(find: seq<nat>, rank: seq<nat>, height: nat)

  ghost predicate Link(cs: seq<Component>, n: nat, f: Forest, i: nat)
    requires i < n <= |cs| && |f.find| == n && |f.rank| == n
  {
    && 1 <= cs[i].parent <= n && f.find[i] < n && f.rank[i] <= f.height
    && f.find[f.find[i]] == f.find[i]
    && (cs[i].parent == i + 1 <==> f.find[i] == i)
    && f.find[cs[i].parent - 1] == f.find[i]
    && (cs[i].parent != i + 1 ==> f.rank[i] < f.rank[cs[i].parent - 1])
  }

  ghost predicate Links(cs: seq<Component>, n: nat, f: Forest) {
    n <= |cs| && |f.find| == n && |f.rank| == n && forall i | 0 <= i < n :: Link(cs, n, f, i)
  }

  /** The accumulators of c are those of the pixel set C. */
  ghost predicate Measures(r: Image, c: Component, C: set<Pixel>) {
    && C != {}
    && c.minX == Left(C) && c.maxX == Right(C) && c.minY == Top(C) && c.maxY == Bottom(C)
    && c.area == |C| && c.lumaSum == LumaSum(r, C)
  }

  /** A root carries the measures of its blob, any other label has been emptied. */
  ghost predicate Book(r: Image, c: Component, root: bool, blob: set<Pixel>) {
    c.used == root && if root then Measures(r, c, blob) else blob == {}
  }

  ghost predicate Books(r: Image, cs: seq<Component>, n: nat, f: Forest, blobs: seq<set<Pixel>>)
    requires n <= |cs| && |f.find| == n
  {
    |blobs| == n && forall i | 0 <= i < n :: Book(r, cs[i], f.find[i] == i, blobs[i])
  }

  ghost predicate Represents(r: Image, cs: seq<Component>, n: nat, f: Forest, blobs: seq<set<Pixel>>) {
    Links(cs, n, f) && Books(r, cs, n, f, blobs)
  }

  /** A row of labels: 0 on pixels outside S, otherwise a label whose root's blob holds the pixel. */
  ghost predicate Labels(labels: seq<nat>, S: set<Pixel>, f: Forest, blobs: seq<set<Pixel>>, y: int, width: nat) {
    && width <= |labels| && |f.find| == |blobs|
    && (forall i | 0 <= i < |f.find| :: f.find[i] < |blobs|)
    && (forall c | 0 <= c < width ::
          if labels[c] == 0 then Pixel(c, y) !in S
          else labels[c] <= |f.find| && Pixel(c, y) in blobs[f.find[labels[c] - 1]])
  }

  // ---------------------------------------------------------------- accumulators

  function Min(a: int, b: int): int { if a < b then a else b }
  function Max(a: int, b: int): int { if a > b then a else b }

  function Merged(a: Component, minX: int, minY: int, maxX: int, maxY: int, area: int, lumaSum: int): Component {
    a.(minX := Min(a.minX, minX), minY := Min(a.minY, minY), maxX := Max(a.maxX, maxX), maxY := Max(a.maxY, maxY),
       area := a.area + area, lumaSum := a.lumaSum + lumaSum)
  }

  lemma ExtentUnion(A: set<Pixel>, B: set<Pixel>)
    requires A != {} && B != {}
    ensures A + B != {}
    ensures Left(A + B) == Min(Left(A), Left(B)) && Top(A + B) == Min(Top(A), Top(B))
    ensures Right(A + B) == Max(Right(A), Right(B)) && Bottom(A + B) == Max(Bottom(A), Bottom(B))
  {
    NonemptyExtent(A);
    NonemptyExtent(B);
    NonemptyExtent(A + B);
    assert Xs(A + B) == Xs(A) + Xs(B);
    assert Ys(A + B) == Ys(A) + Ys(B);
  }

  lemma MeasuresUnion(r: Image, a: Component, A: set<Pixel>, b: Component, B: set<Pixel>)
    requires Measures(r, a, A) && Measures(r, b, B) && A !! B
    ensures Measures(r, Merged(a, b.minX, b.minY, b.maxX, b.maxY, b.area, b.lumaSum), A + B)
  {
    ExtentUnion(A, B);
    LumaSumUnion(r, A, B);
    assert |A + B| == |A| + |B|;
  }

  lemma RunMeasures(r: Image, c: Component, x: int, e: int, y: int)
    requires x < e
    requires c.minX == x && c.maxX == e - 1 && c.minY == y && c.maxY == y
    requires c.area == e - x && c.lumaSum == LumaSum(r, Run(x, e, y))
    ensures Measures(r, c, Run(x, e, y))
  {
    var run := Run(x, e, y);
    assert Pixel(x, y) in run && Pixel(e - 1, y) in run;
    NonemptyExtent(run);
    assert x in Xs(run) && e - 1 in Xs(run) && y in Ys(run);
    RunCount(x, e, y);
  }

  // ---------------------------------------------------------------- the union-find steps

  method RootOf(components: array<Component>, tag: nat, ghost n: nat, ghost f: Forest) returns (root: nat)
    requires Links(components[..], n, f) && 1 <= tag <= n
    ensures root == f.find[tag - 1] + 1 && root <= n && f.find[root - 1] == root - 1
  {
    root := tag;
    while components[root - 1].parent != root
      invariant 1 <= root <= n && f.find[root - 1] == f.find[tag - 1]
      decreases f.height - f.rank[root - 1]
    {
      assert Link(components[..], n, f, root - 1);
      root := components[root - 1].parent;
      assert Link(components[..], n, f, root - 1);
    }
    assert Link(components[..], n, f, root - 1);
  }

  /** Hang root j under root i. */
  ghost function Hang(f: Forest, i: nat, j: nat): Forest
    requires i < |f.find| && j < |f.find| && |f.rank| == |f.find|
  {
    Forest(seq(|f.find|, k requires 0 <= k < |f.find| => if f.find[k] == j then i else f.find[k]),
           f.rank[i := if f.rank[i] > f.rank[j] then f.rank[i] else f.rank[j] + 1],
           f.height + 1)
  }

  ghost function Hung(cs: seq<Component>, i: nat, j: nat): seq<Component>
    requires i < |cs| && j < |cs|
  {
    var s := cs[j];
    cs[i := Merged(cs[i], s.minX, s.minY, s.maxX, s.maxY, s.area, s.lumaSum)][j := s.(parent := i + 1, used := false)]
  }

  lemma HangLinks(cs: seq<Component>, n: nat, f: Forest, i: nat, j: nat)
    requires Links(cs, n, f) && i < n && j < n && i != j && f.find[i] == i && f.find[j] == j
    ensures Links(Hung(cs, i, j), n, Hang(f, i, j))
  {
    var ds, g := Hung(cs, i, j), Hang(f, i, j);
    forall k | 0 <= k < n ensures Link(ds, n, g, k) {
      assert Link(cs, n, f, k);
      assert Link(cs, n, f, i);
      assert Link(cs, n, f, j);
      assert Link(cs, n, f, cs[k].parent - 1);
      assert ds[k].parent == if k == j then i + 1 else cs[k].parent;
    }
  }

  lemma HangRepresents(r: Image, S: set<Pixel>, cs: seq<Component>, n: nat, f: Forest, g: Gathering, i: nat)
    requires Represents(r, cs, n, f, g.blobs) && Tiles(S, g.blobs) && g.Valid()
    requires i < n && f.find[i] == i && 0 <= g.leader != i && f.find[g.leader] == g.leader
    ensures Represents(r, Hung(cs, g.leader, i), n, Hang(f, g.leader, i), Gather(g, i).blobs)
  {
    var l, ds, h, out := g.leader, Hung(cs, g.leader, i), Hang(f, g.leader, i), Gather(g, i).blobs;
    HangLinks(cs, n, f, l, i);
    forall k | 0 <= k < n ensures Book(r, ds[k], h.find[k] == k, out[k]) {
      assert Book(r, cs[k], f.find[k] == k, g.blobs[k]);
      if k == l {
        assert Book(r, cs[i], f.find[i] == i, g.blobs[i]);
        assert g.blobs[l] !! g.blobs[i];
        MeasuresUnion(r, cs[l], g.blobs[l], cs[i], g.blobs[i]);
      }
    }
  }

  lemma HangLabels(labels: seq<nat>, S: set<Pixel>, f: Forest, g: Gathering, i: nat, y: int, width: nat)
    requires Labels(labels, S, f, g.blobs, y, width) && g.Valid() && |f.rank| == |f.find|
    requires i < |g.blobs| && 0 <= g.leader != i && f.find[i] == i && f.find[g.leader] == g.leader
    ensures Labels(labels, S, Hang(f, g.leader, i), Gather(g, i).blobs, y, width)
  {
  }

  /** The labelling half way down a picture: labels, books, and the two rows of labels on either side of row y. */
  ghost predicate Scanning(r: Image, S: set<Pixel>, cs: seq<Component>, n: nat, f: Forest, blobs: seq<set<Pixel>>,
                           previous: seq<nat>, current: seq<nat>, y: int)
  {
    && Represents(r, cs, n, f, blobs) && Tiles(S, blobs)
    && Labels(previous, S, f, blobs, y - 1, r.width) && Labels(current, S, f, blobs, y, r.width)
  }

  /** Union: pour the accumulators of one root into another and hang it there. */
  method Unite(components: array<Component>, root: nat, candidate: nat,
               ghost r: Image, ghost S: set<Pixel>, ghost n: nat, ghost f: Forest, ghost g: Gathering,
               ghost previous: seq<nat>, ghost current: seq<nat>, ghost y: int)
    requires Scanning(r, S, components[..], n, f, g.blobs, previous, current, y) && g.Valid()
    requires 1 <= root <= n && 1 <= candidate <= n && root != candidate && g.leader == root - 1
    requires f.find[root - 1] == root - 1 && f.find[candidate - 1] == candidate - 1
    modifies components
    ensures Scanning(r, S, components[..], n, Hang(f, root - 1, candidate - 1), Gather(g, candidate - 1).blobs,
                     previous, current, y)
  {
    ghost var before := components[..];
    HangRepresents(r, S, before, n, f, g, candidate - 1);
    HangLabels(previous, S, f, g, candidate - 1, y - 1, r.width);
    HangLabels(current, S, f, g, candidate - 1, y, r.width);
    GatherTiles(S, g, candidate - 1);
    var source := components[candidate - 1];
    components[root - 1] := Merged(components[root - 1], source.minX, source.minY, source.maxX, source.maxY,
                                   source.area, source.lumaSum);
    components[candidate - 1] := source.(parent := root, used := false);
    assert components[..] == Hung(before, root - 1, candidate - 1);
  }

  /** The label a gathering run has found so far: 0 before the first, then one of the leader's labels. */
  ghost predicate Follows(tag: nat, n: nat, f: Forest, g: Gathering) {
    && (tag == 0 <==> g.leader == -1)
    && (tag > 0 ==> tag <= n && tag <= |f.find| && f.find[tag - 1] == g.leader)
  }

  /** Look at one label of the row above. */
  method GatherColumn(components: array<Component>, above: nat, found: nat,
                      ghost r: Image, ghost S: set<Pixel>, ghost n: nat, ghost f0: Forest, ghost g0: Gathering,
                      ghost previous: seq<nat>, ghost current: seq<nat>, ghost column: nat, ghost y: int)
    returns (tag: nat, ghost f: Forest)
    requires Scanning(r, S, components[..], n, f0, g0.blobs, previous, current, y)
    requires g0.Valid() && Follows(found, n, f0, g0)
    requires column < r.width && above == previous[column]
    modifies components
    ensures Scanning(r, S, components[..], n, f, Touch(g0, Above(column, y)).blobs, previous, current, y)
    ensures Follows(tag, n, f, Touch(g0, Above(column, y)))
  {
    tag, f := found, f0;
    ghost var p := Above(column, y);
    if above == 0 {
      HolderMisses(S, g0.blobs, p);
    } else {
      var candidate := RootOf(components, above, n, f);
      HolderIs(S, g0.blobs, p, candidate - 1);
      if tag == 0 {
        tag := candidate;
      } else {
        var root := RootOf(components, tag, n, f);
        if candidate != root {
          Unite(components, root, candidate, r, S, n, f, g0, previous, current, y);
          f := Hang(f, root - 1, candidate - 1);
        }
        tag := root;
      }
    }
  }

  lemma AbsorbUnfolds(g: Gathering, c: int, e: int, y: int)
    requires g.Valid() && c < e
    ensures Absorb(g, c, e, y) == Absorb(Touch(g, Above(c, y)), c + 1, e, y)
  {
  }

  /** Look at the row above a run: union everything it touches into the first root met. */
  method GatherRun(components: array<Component>, previous: array<nat>, x: nat, e: nat,
                   ghost r: Image, ghost S: set<Pixel>, ghost n: nat, ghost f0: Forest, ghost blobs: seq<set<Pixel>>,
                   ghost current: seq<nat>, ghost y: int)
    returns (tag: nat, ghost f: Forest, ghost g: Gathering)
    requires x <= e <= r.width <= previous.Length
    requires Scanning(r, S, components[..], n, f0, blobs, previous[..], current, y)
    modifies components
    ensures g == Absorb(Gathering(blobs, -1), x, e, y) && g.Valid()
    ensures Scanning(r, S, components[..], n, f, g.blobs, previous[..], current, y)
    ensures Follows(tag, n, f, g)
  {
    hide Scanning, Touch, Gather, Above;
    tag := 0;
    f, g := f0, Gathering(blobs, -1);
    ghost var row, total := previous[..], Absorb(g, x, e, y);
    for column := x to e
      invariant g.Valid() && Absorb(g, column, e, y) == total
      invariant Scanning(r, S, components[..], n, f, g.blobs, row, current, y)
      invariant Follows(tag, n, f, g)
    {
      assert row[column] == previous[column];
      AbsorbUnfolds(g, column, e, y);
      tag, f := GatherColumn(components, previous[column], tag, r, S, n, f, g, row, current, column, y);
      g := Touch(g, Above(column, y));
    }
  }

  // ---------------------------------------------------------------- one run

  lemma NoRun(r: Image, x: int, y: int)
    ensures LumaSum(r, Run(x, x, y)) == 0
  {
    assert Run(x, x, y) == {};
  }

  lemma RunGrows(r: Image, x: int, e: int, y: int)
    requires x <= e
    ensures LumaSum(r, Run(x, e + 1, y)) == LumaSum(r, Run(x, e, y)) + LumaAt(r, Pixel(e, y))
  {
    hide LumaSum;
    LumaSumAdd(r, Run(x, e, y), Pixel(e, y));
    assert Run(x, e + 1, y) == Run(x, e, y) + {Pixel(e, y)};
  }

  /** Follow the lit pixels from x: where they end, and the sum of their luma. */
  method FollowRun(frame: FrameView, threshold: Byte, x: nat, y: nat, ghost r: Image)
    returns (e: nat, luma: int)
    requires frame.Fits() && BytesPerPixel(frame.format) > 0 && r == ImageOf(frame, threshold)
    requires x < frame.width && y < frame.height && Lit(r, x, y)
    ensures e == RunEnd(r, x, y) && x < e && luma == LumaSum(r, Run(x, e, y))
  {
    hide LumaSum, Run;
    e, luma := x, 0;
    NoRun(r, x, y);
    while e < frame.width
      invariant x <= e <= frame.width
      invariant RunEnd(r, e, y) == RunEnd(r, x, y) && (e == x ==> Lit(r, e, y))
      invariant luma == LumaSum(r, Run(x, e, y))
    {
      var value := PixelLuma(frame, e, y);
      if value < threshold {
        break;
      }
      RunGrows(r, x, e, y);
      luma := luma + value;
      e := e + 1;
    }
  }

  ghost function Open(f: Forest): Forest {
    Forest(f.find + [|f.find|], f.rank + [0], f.height)
  }

  lemma OpenLinks(cs: seq<Component>, n: nat, f: Forest, c: Component)
    requires Links(cs, n, f) && n < |cs| && c.parent == n + 1
    ensures Links(cs[n := c], n + 1, Open(f))
  {
    var ds, g, m := cs[n := c], Open(f), n + 1;
    forall i | 0 <= i < m ensures Link(ds, m, g, i) {
      assert i < n ==> Link(cs, n, f, i);
    }
  }

  lemma OpenRepresents(r: Image, cs: seq<Component>, n: nat, f: Forest, blobs: seq<set<Pixel>>, c: Component,
                       run: set<Pixel>)
    requires Represents(r, cs, n, f, blobs) && n < |cs|
    requires c.parent == n + 1 && c.used && Measures(r, c, run)
    ensures Represents(r, cs[n := c], n + 1, Open(f), blobs + [run])
  {
    OpenLinks(cs, n, f, c);
    forall i | 0 <= i < n + 1 ensures Book(r, cs[n := c][i], Open(f).find[i] == i, (blobs + [run])[i]) {
      assert i < n ==> Book(r, cs[i], f.find[i] == i, blobs[i]);
    }
  }

  lemma ExtendRepresents(r: Image, cs: seq<Component>, n: nat, f: Forest, blobs: seq<set<Pixel>>, i: nat,
                         c: Component, run: set<Pixel>)
    requires Represents(r, cs, n, f, blobs) && i < n && f.find[i] == i
    requires c.parent == cs[i].parent && c.used == cs[i].used && Measures(r, c, blobs[i] + run)
    ensures Represents(r, cs[i := c], n, f, blobs[i := blobs[i] + run])
  {
    var ds, out := cs[i := c], blobs[i := blobs[i] + run];
    forall k | 0 <= k < n ensures Link(ds, n, f, k) {
      assert Link(cs, n, f, k);
    }
    assert Book(r, cs[i], true, blobs[i]);
    forall k | 0 <= k < n ensures Book(r, ds[k], f.find[k] == k, out[k]) {
      if k != i {
        assert Book(r, cs[k], f.find[k] == k, blobs[k]);
      }
    }
  }

  ghost function Placed(f: Forest, g: Gathering): Forest {
    if g.leader == -1 then Open(f) else f
  }

  lemma PlaceLabels(labels: seq<nat>, S: set<Pixel>, f: Forest, g: Gathering, run: set<Pixel>, y: int, width: nat)
    requires Labels(labels, S, f, g.blobs, y, width) && g.Valid()
    requires forall c | 0 <= c < width :: Pixel(c, y) !in run
    ensures Labels(labels, S + run, Placed(f, g), Place(g, run), y, width)
  {
  }

  lemma BlobApart(S: set<Pixel>, blobs: seq<set<Pixel>>, i: nat, run: set<Pixel>)
    requires Tiles(S, blobs) && i < |blobs| && S !! run
    ensures blobs[i] !! run
  {
  }

  /** Books are kept when the run of a gathering is added, to its leader or as a new label. */
  method PlaceRun(components: array<Component>, count: nat, found: nat, x: nat, e: nat, y: nat, luma: int,
                  ghost r: Image, ghost S: set<Pixel>, ghost f: Forest, ghost g: Gathering)
    returns (ok: bool, tag: nat, count': nat)
    requires count <= components.Length == MAXIMUM_COMPONENTS
    requires Represents(r, components[..], count, f, g.blobs) && g.Valid() && Tiles(S, g.blobs)
    requires x < e && S !! Run(x, e, y) && luma == LumaSum(r, Run(x, e, y))
    requires Follows(found, count, f, g)
    modifies components
    ensures !ok <==> |Place(g, Run(x, e, y))| > MAXIMUM_COMPONENTS
    ensures ok ==> count' <= MAXIMUM_COMPONENTS
    ensures ok ==> Represents(r, components[..], count', Placed(f, g), Place(g, Run(x, e, y)))
    ensures ok ==> tag - 1 == if g.leader == -1 then |g.blobs| else g.leader
    ensures ok ==> 1 <= tag <= count' == |Placed(f, g).find| && Placed(f, g).find[tag - 1] == tag - 1
  {
    hide Tiles, Measures, Run;
    ok, tag, count' := true, found, count;
    ghost var run := Run(x, e, y);
    ghost var before := components[..];
    if tag == 0 {
      if count == MAXIMUM_COMPONENTS {
        ok := false;
        return;
      }
      tag := count + 1;
      components[count] := Component(tag, x, y, e - 1, y, 0, 0, true);
      count' := count + 1;
      OpenLinks(before, count, f, components[count]);
      assert components[..] == before[count := components[count]];
    }
    tag := RootOf(components, tag, count', Placed(f, g));
    var c := components[tag - 1];
    components[tag - 1] := Merged(c, x, y, e - 1, y, e - x, luma);
    ghost var placed := components[tag - 1];
    if found == 0 {
      RunMeasures(r, placed, x, e, y);
      OpenRepresents(r, before, count, f, g.blobs, placed, run);
      assert components[..] == before[count := placed];
    } else {
      ghost var runOnly := Component(1, x, y, e - 1, y, e - x, luma, true);
      RunMeasures(r, runOnly, x, e, y);
      assert c == before[g.leader];
      assert Book(r, c, f.find[g.leader] == g.leader, g.blobs[g.leader]);
      BlobApart(S, g.blobs, g.leader, run);
      MeasuresUnion(r, c, g.blobs[g.leader], runOnly, run);
      ExtendRepresents(r, before, count, f, g.blobs, g.leader, placed, run);
      assert components[..] == before[g.leader := placed];
    }
  }

  // ---------------------------------------------------------------- one row

  /** The scan stands at (x, y): the blobs partition the lit pixels seen so far, the arrays represent
      them, and finishing the scan from here gives the blobs of the whole picture. */
  ghost predicate RowState(r: Image, x: nat, y: nat, cs: seq<Component>, n: nat, f: Forest, blobs: seq<set<Pixel>>,
                           previous: seq<nat>, current: seq<nat>)
  {
    && AtBoundary(r, x, y) && n <= |cs| && n <= MAXIMUM_COMPONENTS
    && Partition(Before(r, x, y), blobs)
    && Scanning(r, Before(r, x, y), cs, n, f, blobs, previous, current, y)
    && ScanFrom(r, blobs, x, y) == Blobs(r)
  }

  lemma {:induction false} ScanGrows(r: Image, blobs: seq<set<Pixel>>, x: int, y: int)
    requires 0 <= x <= r.width && 0 <= y <= r.height
    ensures |ScanFrom(r, blobs, x, y)| >= |blobs|
    decreases r.height - y, r.width - x
  {
    if y == r.height {
    } else if x == r.width {
      ScanGrows(r, blobs, 0, y + 1);
    } else if !Lit(r, x, y) {
      ScanGrows(r, blobs, x + 1, y);
    } else {
      ScanGrows(r, AddRun(blobs, x, RunEnd(r, x, y), y), RunEnd(r, x, y), y);
    }
  }

  lemma RunLabels(current: seq<nat>, after: seq<nat>, S: set<Pixel>, f: Forest, g: Gathering, x: int, e: int, y: int,
                  width: nat, tag: nat)
    requires Labels(current, S, f, g.blobs, y, width) && g.Valid() && |after| == |current|
    requires 1 <= tag <= |Placed(f, g).find| && Placed(f, g).find[tag - 1] == tag - 1
    requires tag - 1 == if g.leader == -1 then |g.blobs| else g.leader
    requires forall c | 0 <= c < width :: after[c] == if x <= c < e then tag else current[c]
    ensures Labels(after, S + Run(x, e, y), Placed(f, g), Place(g, Run(x, e, y)), y, width)
  {
    var out, h := Place(g, Run(x, e, y)), Placed(f, g);
    forall c | 0 <= c < width && after[c] != 0
      ensures after[c] <= |h.find| && Pixel(c, y) in out[h.find[after[c] - 1]]
    {
    }
  }

  lemma StateParts(r: Image, x: nat, y: nat, cs: seq<Component>, n: nat, f: Forest, blobs: seq<set<Pixel>>,
                   previous: seq<nat>, current: seq<nat>)
    requires RowState(r, x, y, cs, n, f, blobs, previous, current)
    ensures AtBoundary(r, x, y) && n <= |cs| && n <= MAXIMUM_COMPONENTS
    ensures Partition(Before(r, x, y), blobs) && ScanFrom(r, blobs, x, y) == Blobs(r)
    ensures Scanning(r, Before(r, x, y), cs, n, f, blobs, previous, current, y)
  {
  }

  lemma ScanningParts(r: Image, S: set<Pixel>, cs: seq<Component>, n: nat, f: Forest, blobs: seq<set<Pixel>>,
                      previous: seq<nat>, current: seq<nat>, y: int)
    requires Scanning(r, S, cs, n, f, blobs, previous, current, y)
    ensures Represents(r, cs, n, f, blobs) && Tiles(S, blobs)
    ensures Labels(previous, S, f, blobs, y - 1, r.width) && Labels(current, S, f, blobs, y, r.width)
  {
  }

  lemma RunPlaced(r: Image, x: nat, y: nat, cs: seq<Component>, n: nat, f: Forest, g: Gathering, e: nat,
                  blobs: seq<set<Pixel>>, previous: seq<nat>, current: seq<nat>, after: seq<nat>, tag: nat)
    requires AtBoundary(r, x, y) && x < r.width && y < r.height && Lit(r, x, y) && e == RunEnd(r, x, y)
    requires Partition(Before(r, x, y), blobs) && ScanFrom(r, blobs, x, y) == Blobs(r)
    requires g == Absorb(Gathering(blobs, -1), x, e, y) && g.Valid()
    requires Labels(previous, Before(r, x, y), f, g.blobs, y - 1, r.width)
    requires Labels(current, Before(r, x, y), f, g.blobs, y, r.width)
    requires n <= |cs| && n <= MAXIMUM_COMPONENTS && Represents(r, cs, n, Placed(f, g), Place(g, Run(x, e, y)))
    requires tag - 1 == if g.leader == -1 then |g.blobs| else g.leader
    requires 1 <= tag <= |Placed(f, g).find| && Placed(f, g).find[tag - 1] == tag - 1
    requires |after| == |current|
    requires forall c | 0 <= c < r.width :: after[c] == if x <= c < e then tag else current[c]
    ensures RowState(r, e, y, cs, n, Placed(f, g), Place(g, Run(x, e, y)), previous, after)
  {
    var S := Before(r, x, y);
    BeforeRun(r, x, y);
    PlaceLabels(previous, S, f, g, Run(x, e, y), y - 1, r.width);
    RunLabels(current, after, S, f, g, x, e, y, r.width, tag);
    AddRunPartition(S, blobs, x, e, y);
    assert Place(g, Run(x, e, y)) == AddRun(blobs, x, e, y);
  }

  lemma RunOverflows(r: Image, x: nat, y: nat, g: Gathering, blobs: seq<set<Pixel>>)
    requires AtBoundary(r, x, y) && x < r.width && y < r.height && Lit(r, x, y) && g.Valid()
    requires ScanFrom(r, blobs, x, y) == Blobs(r)
    requires g == Absorb(Gathering(blobs, -1), x, RunEnd(r, x, y), y)
    ensures |Blobs(r)| >= |Place(g, Run(x, RunEnd(r, x, y), y))|
  {
    var e := RunEnd(r, x, y);
    ScanGrows(r, AddRun(blobs, x, e, y), e, y);
  }

  method PaintRun(current: array<nat>, x: nat, e: nat, tag: nat, ghost width: nat)
    requires x <= e <= width <= current.Length
    modifies current
    ensures forall c | 0 <= c < width :: current[..][c] == if x <= c < e then tag else old(current[..])[c]
  {
    for column := x to e
      invariant forall c | 0 <= c < width :: current[c] == if x <= c < column then tag else old(current[c])
    {
      current[column] := tag;
    }
  }

  /** Label one run and move past it, or report that the labels are used up. */
  method LabelRun(frame: FrameView, threshold: Byte, components: array<Component>, previous: array<nat>,
                  current: array<nat>, count: nat, x: nat, y: nat,
                  ghost r: Image, ghost f0: Forest, ghost blobs0: seq<set<Pixel>>)
    returns (ok: bool, e: nat, count': nat, ghost f: Forest, ghost blobs: seq<set<Pixel>>)
    requires frame.Fits() && BytesPerPixel(frame.format) > 0 && r == ImageOf(frame, threshold)
    requires x < r.width && y < r.height && Lit(r, x, y)
    requires components.Length == MAXIMUM_COMPONENTS && previous != current
    requires r.width <= previous.Length && r.width <= current.Length
    requires RowState(r, x, y, components[..], count, f0, blobs0, previous[..], current[..])
    modifies components, current
    ensures ok ==> x < e && RowState(r, e, y, components[..], count', f, blobs, previous[..], current[..])
    ensures !ok ==> |Blobs(r)| > MAXIMUM_COMPONENTS
  {
    hide RowState, Scanning, Represents, Labels, Tiles, Partition, Placed, Place, ScanFrom, Absorb, Blobs, Run, Before;
    ghost var S, rowAbove, row := Before(r, x, y), previous[..], current[..];
    StateParts(r, x, y, components[..], count, f0, blobs0, rowAbove, row);
    BeforeRun(r, x, y);
    var luma;
    e, luma := FollowRun(frame, threshold, x, y, r);
    var found; ghost var g;
    found, f, g := GatherRun(components, previous, x, e, r, S, count, f0, blobs0, row, y);
    ScanningParts(r, S, components[..], count, f, g.blobs, rowAbove, row, y);
    var tag;
    ok, tag, count' := PlaceRun(components, count, found, x, e, y, luma, r, S, f, g);
    blobs := Place(g, Run(x, e, y));
    if !ok {
      RunOverflows(r, x, y, g, blobs0);
      return;
    }
    PaintRun(current, x, e, tag, r.width);
    RunPlaced(r, x, y, components[..], count', f, g, e, blobs0, rowAbove, row, current[..], tag);
    f := Placed(f, g);
  }

  /** Scan one row from the left. */
  method LabelRow(frame: FrameView, threshold: Byte, components: array<Component>, previous: array<nat>,
                  current: array<nat>, count0: nat, y: nat,
                  ghost r: Image, ghost f0: Forest, ghost blobs0: seq<set<Pixel>>)
    returns (ok: bool, count: nat, ghost f: Forest, ghost blobs: seq<set<Pixel>>)
    requires frame.Fits() && BytesPerPixel(frame.format) > 0 && r == ImageOf(frame, threshold)
    requires y < r.height
    requires components.Length == MAXIMUM_COMPONENTS && previous != current
    requires r.width <= previous.Length && r.width <= current.Length
    requires RowState(r, 0, y, components[..], count0, f0, blobs0, previous[..], current[..])
    modifies components, current
    ensures ok ==> RowState(r, r.width, y, components[..], count, f, blobs, previous[..], current[..])
    ensures !ok ==> |Blobs(r)| > MAXIMUM_COMPONENTS
  {
    hide RowState, Blobs;
    ok, count, f, blobs := true, count0, f0, blobs0;
    var x := 0;
    while x < frame.width
      invariant 0 <= x <= frame.width
      invariant RowState(r, x, y, components[..], count, f, blobs, previous[..], current[..])
      decreases frame.width - x
    {
      if PixelLuma(frame, x, y) < threshold {
        SkipPixel(r, x, y, components[..], count, f, blobs, previous[..], current[..]);
        x := x + 1;
        continue;
      }
      ok, x, count, f, blobs := LabelRun(frame, threshold, components, previous, current, count, x, y, r, f, blobs);
      if !ok {
        return;
      }
      StateInside(r, x, y, components[..], count, f, blobs, previous[..], current[..]);
    }
  }

  lemma StateInside(r: Image, x: nat, y: nat, cs: seq<Component>, n: nat, f: Forest, blobs: seq<set<Pixel>>,
                    previous: seq<nat>, current: seq<nat>)
    requires RowState(r, x, y, cs, n, f, blobs, previous, current)
    ensures x <= r.width
  {
  }

  lemma SkipPixel(r: Image, x: nat, y: nat, cs: seq<Component>, n: nat, f: Forest, blobs: seq<set<Pixel>>,
                  previous: seq<nat>, current: seq<nat>)
    requires RowState(r, x, y, cs, n, f, blobs, previous, current)
    requires x < r.width && y < r.height && !Lit(r, x, y)
    ensures RowState(r, x + 1, y, cs, n, f, blobs, previous, current)
  {
    BeforeSkip(r, x, y);
  }

  // ---------------------------------------------------------------- nothing is lost or counted twice

  /** The areas, and the luma sums, of the used roots among the first n labels. */
  ghost function UsedArea(cs: seq<Component>, n: nat): int
    requires n <= |cs|
  {
    if n == 0 then 0 else UsedArea(cs, n - 1) + if cs[n - 1].used then cs[n - 1].area else 0
  }

  ghost function UsedLuma(cs: seq<Component>, n: nat): int
    requires n <= |cs|
  {
    if n == 0 then 0 else UsedLuma(cs, n - 1) + if cs[n - 1].used then cs[n - 1].lumaSum else 0
  }

  ghost function UnionOf(blobs: seq<set<Pixel>>, n: nat): set<Pixel>
    requires n <= |blobs|
  {
    if n == 0 then {} else UnionOf(blobs, n - 1) + blobs[n - 1]
  }

  lemma {:induction false} UnionHas(blobs: seq<set<Pixel>>, n: nat, p: Pixel)
    requires n <= |blobs|
    ensures p in UnionOf(blobs, n) <==> exists i :: 0 <= i < n && p in blobs[i]
  {
    if n > 0 {
      UnionHas(blobs, n - 1, p);
    }
  }

  lemma {:induction false} UsedAddsUp(r: Image, S: set<Pixel>, cs: seq<Component>, n: nat, f: Forest,
                                      blobs: seq<set<Pixel>>, k: nat)
    requires Represents(r, cs, n, f, blobs) && Tiles(S, blobs) && k <= n
    ensures UsedArea(cs, k) == |UnionOf(blobs, k)| && UsedLuma(cs, k) == LumaSum(r, UnionOf(blobs, k))
  {
    hide Represents, Tiles, LumaSum;
    BlobCount(r, cs, n, f, blobs);
    if k > 0 {
      hide UnionOf;
      UsedAddsUp(r, S, cs, n, f, blobs, k - 1);
      BookOf(r, cs, n, f, blobs, k - 1);
      FrontIsApart(S, blobs, k - 1);
      var front, last := UnionOf(blobs, k - 1), blobs[k - 1];
      assert |front + last| == |front| + |last|;
      LumaSumUnion(r, front, last);
    } else {
      NoRun(r, 0, 0);
      assert UnionOf(blobs, 0) == Run(0, 0, 0);
    }
  }

  lemma BookOf(r: Image, cs: seq<Component>, n: nat, f: Forest, blobs: seq<set<Pixel>>, i: nat)
    requires Represents(r, cs, n, f, blobs) && i < n
    ensures |blobs| == n && n <= |cs|
    ensures if cs[i].used then cs[i].area == |blobs[i]| && cs[i].lumaSum == LumaSum(r, blobs[i]) else blobs[i] == {}
  {
    assert Book(r, cs[i], f.find[i] == i, blobs[i]);
  }

  lemma FrontIsApart(S: set<Pixel>, blobs: seq<set<Pixel>>, k: nat)
    requires Tiles(S, blobs) && k < |blobs|
    ensures UnionOf(blobs, k) !! blobs[k] && UnionOf(blobs, k + 1) == UnionOf(blobs, k) + blobs[k]
  {
    forall p | p in UnionOf(blobs, k) ensures p !in blobs[k] {
      UnionHas(blobs, k, p);
    }
  }

  /** At every point of the scan the used roots' areas add up to the lit pixels scanned so far and their luma sums to
      those pixels' luma: no union loses a pixel or counts one twice. */
  lemma AccumulatorsConserve(r: Image, x: nat, y: nat, cs: seq<Component>, n: nat, f: Forest, blobs: seq<set<Pixel>>,
                             previous: seq<nat>, current: seq<nat>)
    requires RowState(r, x, y, cs, n, f, blobs, previous, current)
    ensures n <= |cs|
    ensures UsedArea(cs, n) == |Before(r, x, y)| && UsedLuma(cs, n) == LumaSum(r, Before(r, x, y))
  {
    hide RowState, Scanning, Represents, Books, Links, Tiles, Before;
    var S := Before(r, x, y);
    StateParts(r, x, y, cs, n, f, blobs, previous, current);
    ScanningParts(r, S, cs, n, f, blobs, previous, current, y);
    UsedAddsUp(r, S, cs, n, f, blobs, n);
    BlobCount(r, cs, n, f, blobs);
    TilesUnion(S, blobs);
  }

  lemma BlobCount(r: Image, cs: seq<Component>, n: nat, f: Forest, blobs: seq<set<Pixel>>)
    requires Represents(r, cs, n, f, blobs)
    ensures |blobs| == n <= |cs|
  {
  }

  lemma TilesUnion(S: set<Pixel>, blobs: seq<set<Pixel>>)
    requires Tiles(S, blobs)
    ensures UnionOf(blobs, |blobs|) == S
  {
    forall p ensures p in UnionOf(blobs, |blobs|) <==> p in S {
      UnionHas(blobs, |blobs|, p);
    }
  }

  // ---------------------------------------------------------------- between rows

  /** The state between two rows; the row of labels below is not in use yet. */
  ghost predicate TableState(r: Image, y: nat, cs: seq<Component>, n: nat, f: Forest, blobs: seq<set<Pixel>>,
                             previous: seq<nat>)
  {
    && y <= r.height && n <= |cs| && n <= MAXIMUM_COMPONENTS
    && Partition(Before(r, 0, y), blobs)
    && Represents(r, cs, n, f, blobs)
    && Labels(previous, Before(r, 0, y), f, blobs, y - 1, r.width)
    && ScanFrom(r, blobs, 0, y) == Blobs(r)
  }

  lemma StartRow(r: Image, y: nat, cs: seq<Component>, n: nat, f: Forest, blobs: seq<set<Pixel>>,
                 previous: seq<nat>, current: seq<nat>)
    requires TableState(r, y, cs, n, f, blobs, previous) && y < r.height
    requires r.width <= |current| && forall c | 0 <= c < r.width :: current[c] == 0
    ensures RowState(r, 0, y, cs, n, f, blobs, previous, current)
  {
    assert forall i | 0 <= i < n :: Link(cs, n, f, i);
  }

  lemma FinishRow(r: Image, y: nat, cs: seq<Component>, n: nat, f: Forest, blobs: seq<set<Pixel>>,
                  previous: seq<nat>, current: seq<nat>, settled: seq<nat>)
    requires RowState(r, r.width, y, cs, n, f, blobs, previous, current) && y < r.height
    requires |settled| == |current|
    requires forall c | 0 <= c < r.width ::
               if current[c] == 0 then settled[c] == 0
               else 1 <= current[c] <= n && settled[c] == f.find[current[c] - 1] + 1
    ensures TableState(r, y + 1, cs, n, f, blobs, settled)
  {
    BeforeRow(r, y);
    forall c | 0 <= c < r.width && settled[c] != 0 ensures f.find[settled[c] - 1] == f.find[current[c] - 1] {
      assert Link(cs, n, f, current[c] - 1);
    }
  }

  /** Replace every label of the finished row by its root. */
  method SettleRow(components: array<Component>, current: array<nat>, count: nat, width: nat, ghost f: Forest)
    requires Links(components[..], count, f) && width <= current.Length
    requires forall c | 0 <= c < width :: current[c] <= count
    modifies current
    ensures forall c | 0 <= c < width ::
              current[c] == if old(current[c]) == 0 then 0 else f.find[old(current[c]) - 1] + 1
  {
    for column := 0 to width
      invariant forall c | column <= c < width :: current[c] == old(current[c])
      invariant forall c | 0 <= c < column ::
                  current[c] == if old(current[c]) == 0 then 0 else f.find[old(current[c]) - 1] + 1
    {
      if current[column] != 0 {
        current[column] := RootOf(components, current[column], count, f);
      }
    }
  }

  lemma TableCount(r: Image, y: nat, cs: seq<Component>, n: nat, f: Forest, blobs: seq<set<Pixel>>, previous: seq<nat>)
    requires TableState(r, y, cs, n, f, blobs, previous)
    ensures n <= |cs|
  {
  }

  /** Scan, settle and hand one row of labels down. */
  method NextRow(frame: FrameView, threshold: Byte, components: array<Component>, previous: array<nat>,
                 current: array<nat>, count0: nat, y: nat,
                 ghost r: Image, ghost f0: Forest, ghost blobs0: seq<set<Pixel>>)
    returns (ok: bool, count: nat, ghost f: Forest, ghost blobs: seq<set<Pixel>>)
    requires frame.Fits() && BytesPerPixel(frame.format) > 0 && r == ImageOf(frame, threshold)
    requires y < r.height
    requires components.Length == MAXIMUM_COMPONENTS && previous != current
    requires r.width <= previous.Length == current.Length
    requires TableState(r, y, components[..], count0, f0, blobs0, previous[..])
    modifies components, current, previous
    ensures ok ==> TableState(r, y + 1, components[..], count, f, blobs, previous[..])
    ensures !ok ==> |Blobs(r)| > MAXIMUM_COMPONENTS
  {
    hide RowState, TableState, Blobs, Links;
    ghost var cs, above := components[..], previous[..];
    forall c | 0 <= c < current.Length {
      current[c] := 0;
    }
    assert components[..] == cs && previous[..] == above;
    TableCount(r, y, cs, count0, f0, blobs0, above);
    StartRow(r, y, cs, count0, f0, blobs0, above, current[..]);
    ok, count, f, blobs := LabelRow(frame, threshold, components, previous, current, count0, y, r, f0, blobs0);
    if !ok {
      return;
    }
    ghost var row := current[..];
    cs := components[..];
    RowLabelsInRange(r, y, cs, count, f, blobs, above, row);
    SettleRow(components, current, count, frame.width, f);
    ghost var settled := current[..];
    FinishRow(r, y, cs, count, f, blobs, above, row, settled);
    forall c | 0 <= c < current.Length {
      previous[c] := current[c];
    }
    assert previous[..] == settled;
    assert components[..] == cs;
  }

  lemma RowLabelsInRange(r: Image, y: nat, cs: seq<Component>, n: nat, f: Forest, blobs: seq<set<Pixel>>,
                         previous: seq<nat>, current: seq<nat>)
    requires RowState(r, r.width, y, cs, n, f, blobs, previous, current)
    ensures Links(cs, n, f) && r.width <= |current| && forall c | 0 <= c < r.width :: current[c] <= n
  {
  }

  // ---------------------------------------------------------------- the report

  lemma ComponentTarget(r: Image, frameId: U64, cs: seq<Component>, n: nat, f: Forest, blobs: seq<set<Pixel>>, i: nat,
                        minimumArea: nat)
    requires Represents(r, cs, n, f, blobs) && i < n && minimumArea > 0
    ensures Reported(blobs[i], minimumArea) <==> cs[i].used && cs[i].parent == i + 1 && cs[i].area >= minimumArea
    ensures Reported(blobs[i], minimumArea)
            ==> cs[i].area > 0
                && Describe(r, frameId, blobs[i])
                   == BoxTarget(frameId, cs[i].minX, cs[i].minY, cs[i].maxX, cs[i].maxY, cs[i].area, cs[i].lumaSum)
  {
    assert Link(cs, n, f, i) && Book(r, cs[i], f.find[i] == i, blobs[i]);
  }

  lemma {:induction false} ChosenGrows(blobs: seq<set<Pixel>>, m: nat, n: nat, minimumArea: nat)
    requires m <= n <= |blobs|
    ensures |Chosen(blobs, m, minimumArea)| <= |Chosen(blobs, n, minimumArea)|
    decreases n - m
  {
    if m < n {
      ChosenGrows(blobs, m, n - 1, minimumArea);
    }
  }

  lemma ChosenNext(r: Image, frameId: U64, blobs: seq<set<Pixel>>, i: nat, minimumArea: nat)
    requires i < |blobs|
    ensures DescribeAll(r, frameId, Chosen(blobs, i + 1, minimumArea))
         == DescribeAll(r, frameId, Chosen(blobs, i, minimumArea))
          + if Reported(blobs[i], minimumArea) then [Describe(r, frameId, blobs[i])] else []
  {
  }

  /** Write one target for every root that is large enough, in label order. */
  method CollectTargets(frameId: U64, minimumArea: U32, components: array<Component>, count: nat,
                        ghost r: Image, ghost f: Forest, ghost blobs: seq<set<Pixel>>)
    returns (ok: bool, targets: array<Target>, targetCount: nat)
    requires count <= components.Length && minimumArea > 0 && |blobs| == count
    requires Represents(r, components[..], count, f, blobs)
    ensures fresh(targets) && targets.Length == MAXIMUM_TARGETS
    ensures ok <==> |Chosen(blobs, count, minimumArea)| <= MAXIMUM_TARGETS
    ensures ok ==> targetCount <= MAXIMUM_TARGETS
                   && targets[..targetCount] == DescribeAll(r, frameId, Chosen(blobs, count, minimumArea))
  {
    hide Represents, Describe, BoxTarget, Reported, Chosen;
    targets := new Target[MAXIMUM_TARGETS](_ => Target(0, 0, 0, 0, 0, 0, 0, 0, 0));
    ok, targetCount := true, 0;
    NoneChosen(blobs, minimumArea);
    ghost var cs := components[..];
    for index := 0 to count
      invariant targetCount <= MAXIMUM_TARGETS
      invariant components[..] == cs
      invariant targets[..targetCount] == DescribeAll(r, frameId, Chosen(blobs, index, minimumArea))
    {
      var component := components[index];
      assert component == cs[index];
      ComponentTarget(r, frameId, cs, count, f, blobs, index, minimumArea);
      ChosenNext(r, frameId, blobs, index, minimumArea);
      if !component.used || component.parent != index + 1 || component.area < minimumArea {
        continue;
      }
      if targetCount == MAXIMUM_TARGETS {
        ChosenGrows(blobs, index + 1, count, minimumArea);
        ok := false;
        return;
      }
      ghost var before := targets[..targetCount];
      targets[targetCount] := BoxTarget(frameId, component.minX, component.minY, component.maxX, component.maxY,
                                        component.area, component.lumaSum);
      assert targets[..targetCount] == before;
      targetCount := targetCount + 1;
    }
  }

  lemma NoneChosen(blobs: seq<set<Pixel>>, minimumArea: nat)
    ensures Chosen(blobs, 0, minimumArea) == []
  {
  }

  lemma InsertShift(sorted: seq<Target>, position: nat, candidate: Target)
    requires 0 < position <= |sorted| && !InOrder(sorted[position - 1], candidate)
    ensures Insert(sorted[..position], candidate) + sorted[position..]
         == Insert(sorted[..position - 1], candidate) + sorted[position - 1..]
  {
    var front := sorted[..position];
    assert front[..position - 1] == sorted[..position - 1];
    assert [front[position - 1]] + sorted[position..] == sorted[position - 1..];
  }

  lemma InsertHere(sorted: seq<Target>, position: nat, candidate: Target)
    requires position <= |sorted| && (position == 0 || InOrder(sorted[position - 1], candidate))
    ensures Insert(sorted[..position], candidate) == sorted[..position] + [candidate]
  {
  }

  lemma Rebuilt(after: seq<Target>, sorted: seq<Target>, position: nat, candidate: Target)
    requires position <= |sorted| && |after| == |sorted| + 1 && after[position] == candidate
    requires forall k | 0 <= k < position :: after[k] == sorted[k]
    requires forall k | position < k < |after| :: after[k] == sorted[k - 1]
    ensures after == sorted[..position] + [candidate] + sorted[position..]
  {
  }

  /** Move targets[index] left to its place among the sorted targets before it. */
  method InsertInPlace(targets: array<Target>, index: nat)
    requires index < targets.Length
    modifies targets
    ensures targets[..index + 1] == Insert(old(targets[..index]), old(targets[index]))
    ensures targets[index + 1..] == old(targets[index + 1..])
  {
    hide Insert;
    var candidate := targets[index];
    ghost var sorted := targets[..index];
    var position := index;
    assert sorted[..index] == sorted && sorted[index..] == [];
    while position > 0
      invariant 0 <= position <= index
      invariant forall k | 0 <= k < position :: targets[k] == sorted[k]
      invariant forall k | position < k <= index :: targets[k] == sorted[k - 1]
      invariant targets[index + 1..] == old(targets[index + 1..])
      invariant Insert(sorted, candidate) == Insert(sorted[..position], candidate) + sorted[position..]
      invariant candidate == old(targets[index])
    {
      var earlier := targets[position - 1];
      if earlier.y < candidate.y || (earlier.y == candidate.y && earlier.x <= candidate.x) {
        break;
      }
      InsertShift(sorted, position, candidate);
      targets[position] := earlier;
      position := position - 1;
    }
    InsertHere(sorted, position, candidate);
    targets[position] := candidate;
    Rebuilt(targets[..index + 1], sorted, position, candidate);
  }

  lemma SortedNext(was: seq<Target>, index: nat)
    requires index < |was|
    ensures SortedTargets(was[..index + 1]) == Insert(SortedTargets(was[..index]), was[index])
  {
    assert was[..index + 1][..index] == was[..index];
  }

  lemma SortedOne(was: seq<Target>)
    requires |was| >= 1
    ensures SortedTargets(was[..1]) == was[..1]
  {
    SortedNext(was, 0);
  }

  /** Insertion sort by row, then column, in place. */
  method SortTargets(targets: array<Target>, count: nat)
    requires count <= targets.Length
    modifies targets
    ensures targets[..count] == SortedTargets(old(targets[..count]))
  {
    hide Insert, SortedTargets;
    ghost var was := targets[..count];
    if count == 0 {
      NoneSorted();
      return;
    }
    SortedOne(was);
    for index := 1 to count
      invariant targets[..index] == SortedTargets(was[..index])
      invariant forall k | index <= k < count :: targets[k] == was[k]
    {
      SortedNext(was, index);
      ghost var rest := targets[index + 1..];
      InsertInPlace(targets, index);
      forall k | index + 1 <= k < count ensures targets[k] == was[k] {
        assert targets[index + 1..][k - index - 1] == rest[k - index - 1];
      }
    }
    assert was[..count] == was;
  }

  lemma NoneSorted()
    ensures SortedTargets([]) == []
  {
  }

  // ---------------------------------------------------------------- the detector

  /** What the detector answers for a frame, in the order of the code's checks. */
  ghost function DetectSpec(frame: FrameView, parameters: ModelParameters): Detection {
    if parameters.minimumArea == 0 || ValidateFrame(frame) != Ok then Detection(InvalidArgument, [])
    else
      ValidateFrameExact(frame);
      Detected(ImageOf(frame, parameters.lumaThreshold), frame.frameId, parameters.minimumArea)
  }

  lemma StartTable(r: Image, cs: seq<Component>, previous: seq<nat>)
    requires r.width <= |previous| && forall c | 0 <= c < r.width :: previous[c] == 0
    ensures TableState(r, 0, cs, 0, Forest([], [], 0), [], previous)
  {
    assert Before(r, 0, 0) == {};
  }

  lemma FinishTable(r: Image, cs: seq<Component>, n: nat, f: Forest, blobs: seq<set<Pixel>>, previous: seq<nat>)
    requires TableState(r, r.height, cs, n, f, blobs, previous)
    ensures blobs == Blobs(r) && |blobs| == n <= MAXIMUM_COMPONENTS && n <= |cs| && Represents(r, cs, n, f, blobs)
  {
  }

  method Detect(frame: FrameView, parameters: ModelParameters) returns (status: Status, report: seq<Target>)
    ensures Detection(status, report) == DetectSpec(frame, parameters)
  {
    hide TableState, Represents, Blobs, ImageOf, DescribeAll, SortedTargets, Chosen;
    report := [];
    if parameters.minimumArea == 0 {
      return InvalidArgument, [];
    }
    status := ValidateFrame(frame);
    ValidateFrameExact(frame);
    if status != Ok {
      return;
    }
    ghost var r := ImageOf(frame, parameters.lumaThreshold);
    var components := new Component[MAXIMUM_COMPONENTS](_ => Component(0, 0, 0, 0, 0, 0, 0, false));
    var previous := new nat[MAXIMUM_WIDTH](_ => 0);
    var current := new nat[MAXIMUM_WIDTH](_ => 0);
    var count := 0;
    ghost var f, blobs := Forest([], [], 0), [];
    StartTable(r, components[..], previous[..]);
    var y := 0;
    while y < frame.height
      invariant 0 <= y <= frame.height
      invariant TableState(r, y, components[..], count, f, blobs, previous[..])
    {
      var ok;
      ok, count, f, blobs :=
        NextRow(frame, parameters.lumaThreshold, components, previous, current, count, y, r, f, blobs);
      if !ok {
        return Capacity, [];
      }
      y := y + 1;
    }
    FinishTable(r, components[..], count, f, blobs, previous[..]);
    var ok, targets, targetCount :=
      CollectTargets(frame.frameId, parameters.minimumArea, components, count, r, f, blobs);
    if !ok {
      return Capacity, [];
    }
    SortTargets(targets, targetCount);
    report := targets[..targetCount];
  }
}
