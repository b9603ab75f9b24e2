/** Thresholded images, the pixels they light, and 4-connectivity between pixels.

    Everything here is specification: the detector reads bytes out of a strided
    frame, and `Raster` is the picture those bytes mean. */
module Rasters {

  datatype Pixel = Pixel(x: int, y: int)

  /** `luma[y][x]` is the brightness of a pixel; a pixel is lit when it reaches `threshold`. */
  datatype Raster = Raster(width: nat, height: nat, luma: seq<seq<int>>, threshold: int) {
    ghost predicate Valid() {
      && |luma| == height
      && (forall y | 0 <= y < height :: |luma[y]| == width)
      && (forall y, x | 0 <= y < height && 0 <= x < width :: 0 <= luma[y][x] <= 255)
      && 0 <= threshold <= 255
    }
  }

  type Image = r: Raster | r.Valid() witness Raster(0, 0, [], 0)

  ghost predicate Lit(r: Image, x: int, y: int) {
    0 <= x < r.width && 0 <= y < r.height && r.luma[y][x] >= r.threshold
  }

  ghost function LitPixels(r: Image): set<Pixel> {
    set x, y | 0 <= x < r.width && 0 <= y < r.height && Lit(r, x, y) :: Pixel(x, y)
  }

  /** The lit pixels that precede (x, y) in raster order. */
  ghost function Before(r: Image, x: int, y: int): set<Pixel> {
    set p | p in LitPixels(r) && (p.y < y || (p.y == y && p.x < x))
  }

  /** Horizontal run of pixels [x, e) on row y. */
  ghost function Run(x: int, e: int, y: int): set<Pixel> {
    set c | x <= c < e :: Pixel(c, y)
  }

  /** The first column at or after x that is not lit on row y. */
  ghost function RunEnd(r: Image, x: int, y: int): (e: int)
    requires 0 <= x <= r.width
    ensures x <= e <= r.width
    ensures forall c | x <= c < e :: Lit(r, c, y)
    ensures !Lit(r, e, y)
    decreases r.width - x
  {
    if Lit(r, x, y) then RunEnd(r, x + 1, y) else x
  }

  // ---------------------------------------------------------------- connectivity

  ghost predicate Adjacent(p: Pixel, q: Pixel) {
    || (p.x == q.x && (p.y == q.y + 1 || q.y == p.y + 1))
    || (p.y == q.y && (p.x == q.x + 1 || q.x == p.x + 1))
  }

  ghost predicate IsPath(S: set<Pixel>, path: seq<Pixel>) {
    && path != []
    && (forall i | 0 <= i < |path| :: path[i] in S)
    && (forall i | 0 < i < |path| :: Adjacent(path[i - 1], path[i]))
  }

  ghost predicate Reach(S: set<Pixel>, p: Pixel, q: Pixel) {
    exists path :: IsPath(S, path) && path[0] == p && path[|path| - 1] == q
  }

  lemma ReachStep(S: set<Pixel>, p: Pixel, q: Pixel)
    requires p in S && q in S && (p == q || Adjacent(p, q))
    ensures Reach(S, p, q)
  {
    var path := if p == q then [p] else [p, q];
    assert IsPath(S, path);
  }

  lemma ReachTrans(S: set<Pixel>, p: Pixel, q: Pixel, s: Pixel)
    requires Reach(S, p, q) && Reach(S, q, s)
    ensures Reach(S, p, s)
  {
    var a :| IsPath(S, a) && a[0] == p && a[|a| - 1] == q;
    var b :| IsPath(S, b) && b[0] == q && b[|b| - 1] == s;
    var path := a + b[1..];
    forall i | 0 < i < |path| ensures Adjacent(path[i - 1], path[i]) {
      if i >= |a| {
        assert path[i - 1] == b[i - |a|] && path[i] == b[i - |a| + 1];
      }
    }
    assert IsPath(S, path);
  }

  lemma ReachSym(S: set<Pixel>, p: Pixel, q: Pixel)
    requires Reach(S, p, q)
    ensures Reach(S, q, p)
  {
    var a :| IsPath(S, a) && a[0] == p && a[|a| - 1] == q;
    var path := seq(|a|, i requires 0 <= i < |a| => a[|a| - 1 - i]);
    assert IsPath(S, path);
  }

  lemma ReachMono(S: set<Pixel>, T: set<Pixel>, p: Pixel, q: Pixel)
    requires S <= T && Reach(S, p, q)
    ensures Reach(T, p, q)
  {
    var a :| IsPath(S, a) && a[0] == p && a[|a| - 1] == q;
    assert IsPath(T, a);
  }

  /** A horizontal run inside S is connected. */
  lemma {:induction false} ReachAlong(S: set<Pixel>, a: int, b: int, y: int)
    requires a <= b
    requires forall c | a <= c <= b :: Pixel(c, y) in S
    ensures Reach(S, Pixel(a, y), Pixel(b, y)) && Reach(S, Pixel(b, y), Pixel(a, y))
    decreases b - a
  {
    if a == b {
      ReachStep(S, Pixel(a, y), Pixel(a, y));
    } else {
      ReachAlong(S, a, b - 1, y);
      ReachStep(S, Pixel(b - 1, y), Pixel(b, y));
      ReachTrans(S, Pixel(a, y), Pixel(b - 1, y), Pixel(b, y));
      ReachSym(S, Pixel(a, y), Pixel(b, y));
    }
  }

  /** A set that contains every neighbour (within S) of its pixels contains everything they reach. */
  lemma {:induction false} ClosedUnderReach(S: set<Pixel>, C: set<Pixel>, path: seq<Pixel>)
    requires forall p, q | p in C && q in S && Adjacent(p, q) :: q in C
    requires IsPath(S, path) && path[0] in C
    ensures path[|path| - 1] in C
    decreases |path|
  {
    if |path| > 1 {
      assert Adjacent(path[0], path[1]);
      var rest := path[1..];
      assert forall i | 0 < i < |rest| :: rest[i - 1] == path[i] && rest[i] == path[i + 1];
      ClosedUnderReach(S, C, rest);
    }
  }

  /** C is one 4-connected component of S: any two of its pixels are joined by a
      path of lit neighbours, and nothing outside C can be reached from it. */
  ghost predicate IsComponent(S: set<Pixel>, C: set<Pixel>) {
    && C != {}
    && C <= S
    && (forall p, q | p in C && q in C :: Reach(S, p, q))
    && (forall p, q | p in C && q in S && Reach(S, p, q) :: q in C)
  }

  lemma ComponentsOverlapOnlyWhenEqual(S: set<Pixel>, C: set<Pixel>, D: set<Pixel>, p: Pixel)
    requires IsComponent(S, C) && IsComponent(S, D) && p in C && p in D
    ensures C == D
  {
    assert forall q | q in C :: Reach(S, p, q);
    assert forall q | q in D :: Reach(S, p, q);
  }

  // ---------------------------------------------------------------- measures of a pixel set

  lemma {:induction false} HasLeast(s: set<int>, a: int)
    requires a in s
    ensures exists m :: m in s && forall k | k in s :: m <= k
    decreases s
  {
    var t := s - {a};
    if b :| b in t {
      HasLeast(t, b);
      var m :| m in t && forall k | k in t :: m <= k;
      var least := if a < m then a else m;
      assert forall k | k in s :: k in t || k == a;
      assert least in s && forall k | k in s :: least <= k;
    } else {
      assert forall k | k in s :: k in t || k == a;
    }
  }

  ghost function Least(s: set<int>): (m: int)
    requires exists a :: a in s
    ensures m in s && forall k | k in s :: m <= k
  {
    var a :| a in s;
    HasLeast(s, a);
    var m :| m in s && forall k | k in s :: m <= k;
    m
  }

  ghost function Greatest(s: set<int>): (m: int)
    requires exists a :: a in s
    ensures m in s && forall k | k in s :: k <= m
  {
    var negated := set k | k in s :: -k;
    var a :| a in s;
    assert -a in negated;
    var m := -Least(negated);
    assert forall k | k in s :: -k in negated;
    m
  }

  ghost function Xs(C: set<Pixel>): set<int> { set p | p in C :: p.x }
  ghost function Ys(C: set<Pixel>): set<int> { set p | p in C :: p.y }

  lemma NonemptyExtent(C: set<Pixel>)
    requires C != {}
    ensures (exists a :: a in Xs(C)) && (exists a :: a in Ys(C))
  {
    var p :| p in C;
    assert p.x in Xs(C) && p.y in Ys(C);
  }

  ghost function LumaAt(r: Image, p: Pixel): int {
    if 0 <= p.x < r.width && 0 <= p.y < r.height then r.luma[p.y][p.x] else 0
  }

  ghost function LumaSum(r: Image, C: set<Pixel>): int {
    if C == {} then 0 else var p :| p in C; LumaAt(r, p) + LumaSum(r, C - {p})
  }

  lemma {:induction false} LumaSumAdd(r: Image, C: set<Pixel>, p: Pixel)
    requires p !in C
    ensures LumaSum(r, C + {p}) == LumaSum(r, C) + LumaAt(r, p)
    decreases C
  {
    var D := C + {p};
    var q :| q in D && LumaSum(r, D) == LumaAt(r, q) + LumaSum(r, D - {q});
    if q == p {
      assert D - {q} == C;
    } else {
      LumaSumAdd(r, C - {q}, p);
      LumaSumAdd(r, C - {q}, q);
      assert C - {q} + {p} == D - {q};
      assert C - {q} + {q} == C;
    }
  }

  lemma {:induction false} LumaSumUnion(r: Image, C: set<Pixel>, D: set<Pixel>)
    requires C !! D
    ensures LumaSum(r, C + D) == LumaSum(r, C) + LumaSum(r, D)
    decreases D
  {
    if D == {} {
      assert C + D == C;
    } else {
      var p :| p in D;
      var E := D - {p};
      LumaSumUnion(r, C, E);
      LumaSumAdd(r, C + E, p);
      LumaSumAdd(r, E, p);
      assert C + E + {p} == C + D && E + {p} == D;
    }
  }

  lemma LitLuma(r: Image, p: Pixel)
    requires p in LitPixels(r)
    ensures r.threshold <= LumaAt(r, p) <= 255
  {
    assert Lit(r, p.x, p.y);
  }

  lemma AddToBounds(n: nat, low: int, sum: int, value: int)
    requires n * low <= sum <= n * 255 && low <= value <= 255
    ensures (n + 1) * low <= sum + value <= (n + 1) * 255
  {
    assert (n + 1) * low == n * low + low;
  }

  lemma {:induction false} LumaSumBounds(r: Image, C: set<Pixel>)
    requires C <= LitPixels(r)
    ensures |C| * r.threshold <= LumaSum(r, C) <= |C| * 255
    decreases C
  {
    if C != {} {
      var p :| p in C && LumaSum(r, C) == LumaAt(r, p) + LumaSum(r, C - {p});
      var D := C - {p};
      assert |C| == |D| + 1;
      LumaSumBounds(r, D);
      LitLuma(r, p);
      AddToBounds(|D|, r.threshold, LumaSum(r, D), LumaAt(r, p));
    }
  }
}
