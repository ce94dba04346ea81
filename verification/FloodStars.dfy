/** What the listed stars are, by the pixels recorded for them: which blobs are listed, where, and how bright. */
module FloodStars {
  import opened Words
  import opened FloodModel
  import opened FloodScan
  import Reals

  // ------------------------------------------------------------- measurements

  /** How far a pixel stands above its background. */
  function Light(img: Image, p: nat): real
    requires Proper(img)
  {
    if p >= |img.gray| || img.gray[p] <= img.bg[p] then 0.0 else img.gray[p] - img.bg[p]
  }

  function Weighed(x: int, v: real): real {
    x as real * v
  }

  function Flux(img: Image, seen: seq<nat>): real
    requires Proper(img)
  {
    if seen == [] then 0.0 else Flux(img, seen[..|seen| - 1]) + Light(img, seen[|seen| - 1])
  }

  /** Light times column, summed. */
  function ColumnMoment(img: Image, seen: seq<nat>): real
    requires Proper(img)
  {
    if seen == [] then 0.0
    else
      var p := seen[|seen| - 1];
      ColumnMoment(img, seen[..|seen| - 1]) + Weighed(X(img, p), Light(img, p))
  }

  /** Light times row, summed. */
  function RowMoment(img: Image, seen: seq<nat>): real
    requires Proper(img)
  {
    if seen == [] then 0.0
    else
      var p := seen[|seen| - 1];
      RowMoment(img, seen[..|seen| - 1]) + Weighed(Y(img, p), Light(img, p))
  }

  // Leftmost and rightmost column, top and bottom row.
  datatype Box = Box(left: int, right: int, top: int, bottom: int)

  predicate Holds(img: Image, b: Box, p: nat)
    requires Proper(img)
  {
    b.left <= X(img, p) <= b.right && b.top <= Y(img, p) <= b.bottom
  }

  /** Every pixel is in the box and each side of it has one. */
  ghost predicate Bounds(img: Image, b: Box, seen: seq<nat>)
    requires Proper(img)
  {
    && (forall p <- seen :: Holds(img, b, p))
    && (exists p <- seen :: X(img, p) == b.left) && (exists p <- seen :: X(img, p) == b.right)
    && (exists p <- seen :: Y(img, p) == b.top) && (exists p <- seen :: Y(img, p) == b.bottom)
  }

  /** Neither side of the box is more than three times the other. */
  predicate Compact(b: Box) {
    && b.right - b.left + 1 <= 3 * (b.bottom - b.top + 1)
    && b.bottom - b.top + 1 <= 3 * (b.right - b.left + 1)
  }

  /** The centroid stays clear of the frame's edges, every bound scaled by the flux. */
  predicate Clear(img: Image, r: Rules, seen: seq<nat>)
    requires Proper(img)
  {
    var f, x, y := Flux(img, seen), r.ds * ColumnMoment(img, seen), r.ds * RowMoment(img, seen);
    r.margin * f <= x <= (r.fullW - r.margin) * f && r.margin * f <= y <= (r.fullH - r.margin) * f
  }

  /** The pixels make a star: neither too few nor too many, some light, not drawn out, and clear of the edges. */
  ghost predicate Worthy(img: Image, r: Rules, seen: seq<nat>)
    requires Proper(img)
  {
    && r.minpix <= |seen| <= r.maxpix && Flux(img, seen) > 0.0
    && (exists b: Box :: Bounds(img, b, seen) && Compact(b))
    && Clear(img, r, seen)
  }

  /** The star is at the pixels' centre of light, on each axis, in full-resolution pixels. */
  predicate Measures(img: Image, ds: real, seen: seq<nat>, s: Star)
    requires Proper(img)
  {
    && s.npix == |seen| && s.flux == Flux(img, seen)
    && s.x * s.flux == ds * ColumnMoment(img, seen)
    && s.y * s.flux == ds * RowMoment(img, seen)
  }

  // ----------------------------------------------------- the sums are the sums

  lemma {:induction false} CountAdds(img: Image, t: Sums, p: nat)
    requires Proper(img)
    ensures
      var u, v := Count(img, t, p), Light(img, p);
      && v >= 0.0 && u.n == t.n + 1 && u.sf == t.sf + v
      && u.sx == t.sx + Weighed(X(img, p), v) && u.sy == t.sy + Weighed(Y(img, p), v)
  {
    assert Value(img, p) == Light(img, p);
    hide X, Y, Min, Max, Light, Value;
  }

  lemma {:induction false} TallyMeasures(img: Image, seed: nat, seen: seq<nat>)
    requires Proper(img)
    ensures
      var t := Tally(img, seed, seen);
      && t.n == |seen| && t.sf == Flux(img, seen)
      && t.sx == ColumnMoment(img, seen) && t.sy == RowMoment(img, seen)
  {
    hide X, Y, Count, Light, Weighed;
    if seen != [] {
      TallyMeasures(img, seed, seen[..|seen| - 1]);
      CountAdds(img, Tally(img, seed, seen[..|seen| - 1]), seen[|seen| - 1]);
    }
  }

  function BoxOf(t: Sums): Box {
    Box(t.minx, t.maxx, t.miny, t.maxy)
  }

  lemma {:induction false} TallyBounds(img: Image, seed: nat, seen: seq<nat>)
    requires Proper(img) && seed in seen
    ensures
      var t := Tally(img, seed, seen);
      Bounds(img, BoxOf(t), seen) && t.minx <= t.maxx && t.miny <= t.maxy
  {
    hide X, Y, Tally;
    TallyBoxed(img, seed, seen);
    var t := Tally(img, seed, seen);
    assert forall p :: Of(p, seed, seen) <==> p in seen;
    assert Of(seed, seed, seen);
  }

  /** A set of pixels has one box. */
  lemma {:induction false} OneBox(img: Image, a: Box, b: Box, seen: seq<nat>)
    requires Proper(img) && Bounds(img, a, seen) && Bounds(img, b, seen)
    ensures a == b
  {
  }

  lemma RoundIff(t: Sums)
    requires t.minx <= t.maxx && t.miny <= t.maxy
    ensures Round(t) <==> Compact(BoxOf(t))
  {
    RatioIff(t.maxx - t.minx + 1, t.maxy - t.miny + 1);
    RatioIff(t.maxy - t.miny + 1, t.maxx - t.minx + 1);
  }

  lemma RatioIff(a: int, b: int)
    requires b > 0
    ensures a as real / b as real <= 3.0 <==> a <= 3 * b
  {
    var q := a as real / b as real;
    assert q * b as real == a as real;
    if q <= 3.0 {
      Reals.MulLe(q, 3.0, b as real);
    }
    if a <= 3 * b {
      Reals.MulCancel(q, 3.0, b as real);
    }
  }

  lemma ScaledQuotient(sum: real, weight: real, ds: real)
    requires weight > 0.0
    ensures sum / weight * ds * weight == ds * sum
  {
    var q := sum / weight;
    assert q * weight == sum;
    assert q * ds * weight == ds * (q * weight);
  }

  lemma OrderScaled(a: real, b: real, f: real)
    requires f > 0.0
    ensures a <= b <==> a * f <= b * f
  {
    if a <= b {
      Reals.MulLe(a, b, f);
    }
    if a * f <= b * f {
      Reals.MulCancel(a, b, f);
    }
  }

  lemma {:induction false} StarMeasures(img: Image, ds: real, seed: nat, seen: seq<nat>)
    requires Proper(img) && Flux(img, seen) > 0.0
    ensures Tally(img, seed, seen).sf > 0.0 && Measures(img, ds, seen, StarOf(Tally(img, seed, seen), ds))
  {
    hide Tally, Flux, ColumnMoment, RowMoment;
    TallyMeasures(img, seed, seen);
    var t := Tally(img, seed, seen);
    ScaledQuotient(t.sx, t.sf, ds);
    ScaledQuotient(t.sy, t.sf, ds);
  }

  lemma {:induction false} AcceptedIff(img: Image, r: Rules, seed: nat, seen: seq<nat>)
    requires Proper(img) && seed in seen
    ensures Accepted(Tally(img, seed, seen), r) <==> Worthy(img, r, seen)
  {
    hide X, Y, Tally, Flux, ColumnMoment, RowMoment, Round, Compact, Bounds;
    var t := Tally(img, seed, seen);
    TallyMeasures(img, seed, seen);
    TallyBounds(img, seed, seen);
    RoundIff(t);
    if b: Box :| Bounds(img, b, seen) && Compact(b) {
      OneBox(img, b, BoxOf(t), seen);
    }
    if t.sf > 0.0 {
      StarMeasures(img, r.ds, seed, seen);
      var s := StarOf(t, r.ds);
      OrderScaled(r.margin, s.x, t.sf);
      OrderScaled(s.x, r.fullW - r.margin, t.sf);
      OrderScaled(r.margin, s.y, t.sf);
      OrderScaled(s.y, r.fullH - r.margin, t.sf);
    }
  }

  // ------------------------------------------------------------ recorded pixels

  predicate Inside(img: Image, seen: seq<nat>) {
    forall p <- seen :: p < |img.gray|
  }

  /** Every recorded pixel is in the picture, and the seed is one of them. */
  predicate Recorded(img: Image, b: Blob) {
    Inside(img, b.fill.seen) && b.seed in b.fill.seen
  }

  predicate AllRecorded(img: Image, blobs: seq<Blob>) {
    forall b <- blobs :: Recorded(img, b)
  }

  lemma {:induction false} SeenStays(img: Image, maxpix: nat, marked: set<nat>, stack: seq<nat>, seen: seq<nat>)
    requires Proper(img)
    ensures forall p <- seen :: p in Flood(img, maxpix, marked, stack, seen).seen
    ensures stack != [] ==> stack[|stack| - 1] in Flood(img, maxpix, marked, stack, seen).seen
    decreases Unmarked(img, marked), |stack|
  {
    hide Fresh, Elems;
    if stack != [] {
      var rest, p := stack[..|stack| - 1], stack[|stack| - 1];
      assert p in seen + [p];
      if |seen| + 1 <= maxpix {
        var a := Fresh(img, marked, p, 9);
        FreshShrinks(img, marked, a);
        SeenStays(img, maxpix, marked + Elems(a), rest + a, seen + [p]);
      }
    }
  }

  lemma {:induction false} SeedsSeen(img: Image, maxpix: nat, n: nat)
    requires Proper(img) && n <= |img.gray|
    ensures forall b <- Scan(img, maxpix, n).blobs :: b.seed in b.fill.seen
  {
    if n > 0 {
      hide Flood, Bright;
      SeedsSeen(img, maxpix, n - 1);
      SeenStays(img, maxpix, Scan(img, maxpix, n - 1).marked + {n - 1}, [n - 1], []);
    }
  }

  /** So it is of every blob the scan makes. */
  lemma {:induction false} ScanRecords(img: Image, maxpix: nat)
    requires Proper(img)
    ensures AllRecorded(img, Blobs(img, maxpix))
  {
    hide Scan;
    SeedsSeen(img, maxpix, |img.gray|);
    ScanKeeps(img, maxpix, |img.gray|);
    forall b <- Blobs(img, maxpix)
      ensures Inside(img, b.fill.seen)
    {
      var k :| 0 <= k < |Blobs(img, maxpix)| && Blobs(img, maxpix)[k] == b;
      SeenInside(img, b);
    }
  }

  lemma {:induction false} SeenInside(img: Image, b: Blob)
    requires Proper(img) && Pushed(b) <= Component(img, b.seed)
    ensures Inside(img, b.fill.seen)
  {
    hide Connected;
    forall p <- b.fill.seen
      ensures p < |img.gray|
    {
      assert p in Pushed(b);
    }
  }

  /** The pixels the blobs push are exactly those brighter than the background by ksigma times the noise. */
  lemma {:induction false} ScanMarksBright(img: Image, maxpix: nat, p: nat)
    requires Proper(img) && p < |img.gray|
    ensures img.gray[p] - img.bg[p] > img.ksigma * img.noise[p]
            <==> exists k :: 0 <= k < |Blobs(img, maxpix)| && p in Pushed(Blobs(img, maxpix)[k])
  {
    hide Pushed, Scan, WholeOrUntouched, OfOneComponent, PushedOnce;
    ScanKeeps(img, maxpix, |img.gray|);
    var s := Scan(img, maxpix, |img.gray|);
    assert Bright(img, p) <==> p in s.marked;
    if p in s.marked {
      var i :| 0 <= i < |s.blobs| && p in Pushed(s.blobs[i]);
      assert p in Pushed(Blobs(img, maxpix)[i]);
    }
    if k :| 0 <= k < |s.blobs| && p in Pushed(s.blobs[k]) {
      assert Pushed(s.blobs[k]) <= s.marked;
    }
  }

  // ---------------------------------------------------------------- theorems

  /** The blob at each index makes the star next to it, and no other blob is worthy while the list has room. */
  ghost predicate Lists(img: Image, r: Rules, blobs: seq<Blob>, from: seq<nat>, stars: seq<Star>)
    requires Proper(img)
  {
    && |from| == |stars| <= r.cap
    && (forall k :: 0 <= k < |from| ==> from[k] < |blobs|)
    && (forall j, k :: 0 <= j < k < |from| ==> from[j] < from[k])
    && (forall k :: 0 <= k < |from| ==> Worthy(img, r, blobs[from[k]].fill.seen))
    && (forall k :: 0 <= k < |from| ==> Measures(img, r.ds, blobs[from[k]].fill.seen, stars[k]))
    && (forall i :: 0 <= i < |blobs| && Worthy(img, r, blobs[i].fill.seen) && i !in from ==>
          |stars| == r.cap && forall k <- from :: k < i)
  }

  /** The stars are the first worthy blobs, in scan order, as many as fit. */
  lemma {:induction false} StarsListed(img: Image, r: Rules, blobs: seq<Blob>) returns (from: seq<nat>)
    requires Proper(img) && AllRecorded(img, blobs)
    ensures Lists(img, r, blobs, from, Stars(img, r, blobs))
    decreases |blobs|
  {
    hide Tally, Accepted, StarOf, Worthy, Measures, Lists, Recorded;
    if blobs == [] {
      from := [];
      ListsNothing(img, r);
    } else {
      var rest, b := blobs[..|blobs| - 1], blobs[|blobs| - 1];
      assert blobs == rest + [b] && Recorded(img, b);
      from := StarsListed(img, r, rest);
      var before := Stars(img, r, rest);
      SeedRecorded(img, b);
      AcceptedIff(img, r, b.seed, b.fill.seen);
      if |before| < r.cap && Worthy(img, r, b.fill.seen) {
        WorthyMeasures(img, r, b.seed, b.fill.seen);
        ListsTake(img, r, rest, b, from, before, StarOf(Tally(img, b.seed, b.fill.seen), r.ds));
        from := from + [|rest|];
      } else {
        ListsPass(img, r, rest, b, from, before);
      }
    }
  }

  lemma {:induction false} SeedRecorded(img: Image, b: Blob)
    requires Recorded(img, b)
    ensures b.seed in b.fill.seen
  {
  }

  lemma {:induction false} ListsNothing(img: Image, r: Rules)
    requires Proper(img)
    ensures Lists(img, r, [], [], [])
  {
  }

  lemma {:induction false} ListsPass(img: Image, r: Rules, rest: seq<Blob>, b: Blob, from: seq<nat>, stars: seq<Star>)
    requires Proper(img) && Lists(img, r, rest, from, stars)
    requires |stars| >= r.cap || !Worthy(img, r, b.fill.seen)
    ensures Lists(img, r, rest + [b], from, stars)
  {
    hide Worthy, Measures;
  }

  lemma {:induction false} ListsTake(img: Image, r: Rules, rest: seq<Blob>, b: Blob, from: seq<nat>, stars: seq<Star>,
                                     s: Star)
    requires Proper(img) && Lists(img, r, rest, from, stars)
    requires |stars| < r.cap && Worthy(img, r, b.fill.seen) && Measures(img, r.ds, b.fill.seen, s)
    ensures Lists(img, r, rest + [b], from + [|rest|], stars + [s])
  {
    hide Worthy, Measures;
  }

  lemma {:induction false} WorthyMeasures(img: Image, r: Rules, seed: nat, seen: seq<nat>)
    requires Proper(img) && Worthy(img, r, seen)
    ensures Tally(img, seed, seen).sf > 0.0 && Measures(img, r.ds, seen, StarOf(Tally(img, seed, seen), r.ds))
  {
    StarMeasures(img, r.ds, seed, seen);
  }

  /** What `FindStars` lists. */
  lemma {:induction false} FoundStars(img: Image, r: Rules) returns (from: seq<nat>)
    requires Proper(img)
    ensures AllRecorded(img, Blobs(img, r.maxpix))
    ensures Lists(img, r, Blobs(img, r.maxpix), from, Stars(img, r, Blobs(img, r.maxpix)))
  {
    hide AllRecorded, Lists, Blobs, Stars;
    ScanRecords(img, r.maxpix);
    from := StarsListed(img, r, Blobs(img, r.maxpix));
  }

  /** With light in it a star lies within its pixels' box, each coordinate between two of theirs. */
  lemma {:induction false} StarInBox(img: Image, ds: real, seen: seq<nat>, b: Box, s: Star)
    requires Proper(img) && Bounds(img, b, seen) && Flux(img, seen) > 0.0 && ds >= 0.0
    requires Measures(img, ds, seen, s)
    ensures ds * b.left as real <= s.x <= ds * b.right as real
    ensures ds * b.top as real <= s.y <= ds * b.bottom as real
  {
    hide X, Y, Flux, ColumnMoment, RowMoment, Holds, Between;
    MomentsBetween(img, seen, b);
    hide Bounds;
    ScaledBetween(b.left, ColumnMoment(img, seen), b.right, Flux(img, seen), ds, s.x);
    ScaledBetween(b.top, RowMoment(img, seen), b.bottom, Flux(img, seen), ds, s.y);
  }

  lemma ScaledBetween(lo: int, sum: real, hi: int, f: real, ds: real, x: real)
    requires f > 0.0 && ds >= 0.0 && Between(lo, sum, f, hi) && x * f == ds * sum
    ensures ds * lo as real <= x <= ds * hi as real
  {
    ScaledLe(lo as real * f, sum, ds, lo as real, f);
    ScaledLe(sum, hi as real * f, ds, hi as real, f);
    OrderScaled(ds * lo as real, x, f);
    OrderScaled(x, ds * hi as real, f);
  }

  lemma ScaledLe(a: real, b: real, ds: real, n: real, f: real)
    requires a <= b && ds >= 0.0
    ensures ds * a <= ds * b && ds * (n * f) == ds * n * f
  {
    Reals.MulLe(a, b, ds);
  }

  lemma {:induction false} MomentsBetween(img: Image, seen: seq<nat>, b: Box)
    requires Proper(img) && forall p <- seen :: Holds(img, b, p)
    ensures Between(b.left, ColumnMoment(img, seen), Flux(img, seen), b.right)
    ensures Between(b.top, RowMoment(img, seen), Flux(img, seen), b.bottom)
  {
    hide X, Y, Light, Between, Weighed;
    if seen == [] {
      BetweenNone(b.left, b.right);
      BetweenNone(b.top, b.bottom);
    } else {
      var rest, p := seen[..|seen| - 1], seen[|seen| - 1];
      assert p in seen;
      MomentsBetween(img, rest, b);
      LightIsPositive(img, p);
      BetweenMore(b.left, ColumnMoment(img, rest), Flux(img, rest), b.right, X(img, p), Light(img, p));
      BetweenMore(b.top, RowMoment(img, rest), Flux(img, rest), b.bottom, Y(img, p), Light(img, p));
    }
  }

  lemma LightIsPositive(img: Image, p: nat)
    requires Proper(img)
    ensures Light(img, p) >= 0.0
  {
  }

  lemma BetweenNone(lo: int, hi: int)
    ensures Between(lo, 0.0, 0.0, hi)
  {
  }

  lemma BetweenMore(lo: int, sum: real, f: real, hi: int, x: int, v: real)
    requires Between(lo, sum, f, hi) && lo <= x <= hi && v >= 0.0
    ensures Between(lo, sum + Weighed(x, v), f + v, hi)
  {
    Reals.MulLe(lo as real, x as real, v);
    Reals.MulLe(x as real, hi as real, v);
    assert lo as real * (f + v) == lo as real * f + lo as real * v;
    assert hi as real * (f + v) == hi as real * f + hi as real * v;
  }
}
