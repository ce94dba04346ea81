/** The scan over all pixels: which fills it makes, and the centroid and star each yields. */
module FloodScan {
  import opened Words
  import opened FloodModel
  import Reals

  datatype Blob = Blob(seed: nat, fill: Fill)

  datatype Scanned = Scanned(marked: set<nat>, blobs: seq<Blob>)

  /** The scan over the first n pixels. */
  function Scan(img: Image, maxpix: nat, n: nat): Scanned
    requires Proper(img) && n <= |img.gray|
  {
    if n == 0 then Scanned({}, [])
    else
      var s := Scan(img, maxpix, n - 1);
      if n - 1 in s.marked || !Bright(img, n - 1) then s
      else
        var f := FillOf(img, maxpix, s.marked, n - 1);
        Scanned(f.marked, s.blobs + [Blob(n - 1, f)])
  }

  function Pushed(b: Blob): set<nat> {
    Elems(b.fill.seen) + Elems(b.fill.drained)
  }

  /** The blob is exactly this set of pixels, each recorded once. */
  predicate Records(b: Blob, c: set<nat>) {
    Elems(b.fill.seen) == c && |b.fill.seen| == |c| && b.fill.drained == []
  }

  /** No pixel is pushed twice, by one fill or by two. */
  ghost predicate PushedOnce(blobs: seq<Blob>) {
    && (forall i :: 0 <= i < |blobs| ==> Once(blobs[i].fill.seen, blobs[i].fill.drained))
    && (forall i, j :: 0 <= i < j < |blobs| ==> Pushed(blobs[i]) !! Pushed(blobs[j]))
  }

  ghost predicate MarkedByBlobs(s: Scanned) {
    && (forall i :: 0 <= i < |s.blobs| ==> Pushed(s.blobs[i]) <= s.marked)
    && (forall p <- s.marked :: exists i :: 0 <= i < |s.blobs| && p in Pushed(s.blobs[i]))
  }

  ghost predicate MarksBright(img: Image, s: Scanned, n: nat)
    requires Proper(img)
  {
    && (forall p <- s.marked :: Bright(img, p))
    && (forall p: nat :: p < n && Bright(img, p) ==> p in s.marked)
  }

  /** A component small enough is either untouched or wholly recorded by one blob. */
  ghost predicate WholeOrUntouched(img: Image, maxpix: nat, s: Scanned)
    requires Proper(img)
  {
    forall a <- s.marked :: |Component(img, a)| <= maxpix ==>
      Component(img, a) <= s.marked && exists i :: 0 <= i < |s.blobs| && Records(s.blobs[i], Component(img, a))
  }

  /** Every blob is made of pixels of its seed's component. */
  ghost predicate OfOneComponent(img: Image, blobs: seq<Blob>)
    requires Proper(img)
  {
    forall i :: 0 <= i < |blobs| ==> Bright(img, blobs[i].seed) && blobs[i].seed in Pushed(blobs[i])
                                     && Pushed(blobs[i]) <= Component(img, blobs[i].seed)
  }

  ghost predicate Scanning(img: Image, maxpix: nat, n: nat, s: Scanned)
    requires Proper(img)
  {
    && PushedOnce(s.blobs) && MarkedByBlobs(s) && MarksBright(img, s, n) && WholeOrUntouched(img, maxpix, s)
    && OfOneComponent(img, s.blobs)
  }

  lemma {:induction false} FillApart(img: Image, maxpix: nat, s: Scanned, b: Blob)
    requires Proper(img) && PushedOnce(s.blobs) && MarkedByBlobs(s)
    requires FilledFrom(img, maxpix, s.marked, b.seed, b.fill)
    ensures PushedOnce(s.blobs + [b])
  {
    hide Once, Connected, Bright, Closed, Elems;
    assert forall i :: 0 <= i < |s.blobs| ==> Pushed(s.blobs[i]) <= s.marked;
    assert Pushed(b) !! s.marked;
  }

  lemma {:induction false} FillMarked(img: Image, maxpix: nat, s: Scanned, b: Blob)
    requires Proper(img) && MarkedByBlobs(s) && FilledFrom(img, maxpix, s.marked, b.seed, b.fill)
    ensures MarkedByBlobs(Scanned(b.fill.marked, s.blobs + [b]))
  {
    hide Once, Connected, Bright, Closed, Elems, Belong;
    var all := s.blobs + [b];
    forall p <- b.fill.marked
      ensures exists i :: 0 <= i < |all| && p in Pushed(all[i])
    {
      if p in s.marked {
        var i :| 0 <= i < |s.blobs| && p in Pushed(s.blobs[i]);
        assert p in Pushed(all[i]);
      } else {
        assert p in Pushed(all[|s.blobs|]);
      }
    }
    forall i | 0 <= i < |all|
      ensures Pushed(all[i]) <= b.fill.marked
    {
      if i < |s.blobs| {
        assert Pushed(s.blobs[i]) <= s.marked;
      }
    }
  }

  lemma {:induction false} FillOneComponent(img: Image, maxpix: nat, s: Scanned, b: Blob)
    requires Proper(img) && OfOneComponent(img, s.blobs)
    requires Bright(img, b.seed) && FilledFrom(img, maxpix, s.marked, b.seed, b.fill)
    ensures OfOneComponent(img, s.blobs + [b])
  {
    hide Once, Connected, Closed, Elems;
    forall p <- Pushed(b)
      ensures p in Component(img, b.seed)
    {
      BrightInside(img, p);
    }
  }

  /** No pixel of an unmarked pixel's small component is marked. */
  lemma {:induction false} StillUntouched(img: Image, maxpix: nat, s: Scanned, seed: nat)
    requires Proper(img) && Bright(img, seed) && seed !in s.marked && WholeOrUntouched(img, maxpix, s)
    requires |Component(img, seed)| <= maxpix
    ensures Component(img, seed) !! s.marked
  {
    hide Connected;
    ConnectedSelf(img, seed);
    forall b <- Component(img, seed)
      ensures b !in s.marked
    {
      SameComponent(img, seed, b);
    }
  }

  lemma {:induction false} FillKeepsWhole(img: Image, maxpix: nat, s: Scanned, seed: nat)
    requires Proper(img) && Bright(img, seed) && seed !in s.marked && WholeOrUntouched(img, maxpix, s)
    ensures
      var f := FillOf(img, maxpix, s.marked, seed);
      WholeOrUntouched(img, maxpix, Scanned(f.marked, s.blobs + [Blob(seed, f)]))
  {
    hide Connected, FillOf, Bright;
    var f := FillOf(img, maxpix, s.marked, seed);
    var t := Scanned(f.marked, s.blobs + [Blob(seed, f)]);
    FillFacts(img, maxpix, s.marked, seed);
    forall a <- t.marked | |Component(img, a)| <= maxpix
      ensures Component(img, a) <= t.marked && exists i :: 0 <= i < |t.blobs| && Records(t.blobs[i], Component(img, a))
    {
      if a in s.marked {
        var i :| 0 <= i < |s.blobs| && Records(s.blobs[i], Component(img, a));
        assert Records(t.blobs[i], Component(img, a));
      } else {
        BrightInside(img, a);
        SameComponent(img, seed, a);
        StillUntouched(img, maxpix, s, seed);
        FillIsComponent(img, maxpix, s.marked, seed);
        assert Records(t.blobs[|s.blobs|], Component(img, a));
      }
    }
  }

  lemma {:induction false} ScanKeeps(img: Image, maxpix: nat, n: nat)
    requires Proper(img) && n <= |img.gray|
    ensures Scanning(img, maxpix, n, Scan(img, maxpix, n))
    decreases n
  {
    hide PushedOnce, MarkedByBlobs, WholeOrUntouched, OfOneComponent, FillOf, Bright, FilledFrom;
    if n == 0 {
      NothingScanned(img, maxpix);
    } else {
      ScanKeeps(img, maxpix, n - 1);
      var s := Scan(img, maxpix, n - 1);
      if !(n - 1 in s.marked || !Bright(img, n - 1)) {
        FillFacts(img, maxpix, s.marked, n - 1);
        var b := Blob(n - 1, FillOf(img, maxpix, s.marked, n - 1));
        FillApart(img, maxpix, s, b);
        FillMarked(img, maxpix, s, b);
        FillOneComponent(img, maxpix, s, b);
        FillKeepsWhole(img, maxpix, s, n - 1);
        NewlyBright(img, maxpix, s, n - 1, b.fill);
      }
    }
  }

  lemma {:induction false} NewlyBright(img: Image, maxpix: nat, s: Scanned, seed: nat, f: Fill)
    requires Proper(img) && MarksBright(img, s, seed) && FilledFrom(img, maxpix, s.marked, seed, f)
    ensures MarksBright(img, Scanned(f.marked, s.blobs + [Blob(seed, f)]), seed + 1)
  {
    hide Once, Connected, Closed;
  }

  lemma {:induction false} NothingScanned(img: Image, maxpix: nat)
    requires Proper(img)
    ensures Scanning(img, maxpix, 0, Scanned({}, []))
  {
  }

  function Blobs(img: Image, maxpix: nat): seq<Blob>
    requires Proper(img)
  {
    Scan(img, maxpix, |img.gray|).blobs
  }

  /** The only blob with any pixel of the component, and it has them all. */
  ghost predicate OnlyBlob(blobs: seq<Blob>, i: nat, c: set<nat>) {
    i < |blobs| && Records(blobs[i], c) && forall j :: 0 <= j < |blobs| && j != i ==> Pushed(blobs[j]) !! c
  }

  lemma {:induction false} RecordsIsOnly(blobs: seq<Blob>, i: nat, c: set<nat>)
    requires PushedOnce(blobs) && i < |blobs| && Records(blobs[i], c)
    ensures OnlyBlob(blobs, i, c)
  {
    hide Once, Elems;
    assert c <= Pushed(blobs[i]);
    forall j | 0 <= j < |blobs| && j != i
      ensures Pushed(blobs[j]) !! c
    {
      assert Pushed(blobs[if i < j then i else j]) !! Pushed(blobs[if i < j then j else i]);
    }
  }

  /**
   Flood fill equals connectivity: every 8-connected component of at most maxpix pixels is recorded by
   exactly one fill, whole, each pixel once, and no pixel of the image is pushed twice.
   */
  lemma {:induction false} EachComponentOnce(img: Image, maxpix: nat, a: nat)
    requires Proper(img) && Bright(img, a) && |Component(img, a)| <= maxpix
    ensures PushedOnce(Blobs(img, maxpix))
    ensures exists i: nat :: OnlyBlob(Blobs(img, maxpix), i, Component(img, a))
  {
    hide Component, FillOf, Scan, PushedOnce, MarkedByBlobs, OfOneComponent, OnlyBlob, Records;
    ScanKeeps(img, maxpix, |img.gray|);
    BrightInside(img, a);
    var s := Scan(img, maxpix, |img.gray|);
    assert a in s.marked;
    var i :| 0 <= i < |s.blobs| && Records(s.blobs[i], Component(img, a));
    RecordsIsOnly(s.blobs, i, Component(img, a));
  }

  /** Conversely a measured blob is its seed's whole component exactly when that component has at most maxpix pixels. */
  lemma {:induction false} BlobIsComponent(img: Image, maxpix: nat, k: nat)
    requires Proper(img) && k < |Blobs(img, maxpix)|
    ensures
      var b := Blobs(img, maxpix)[k];
      var c := Component(img, b.seed);
      && Pushed(b) <= c && b.seed in c
      && (|c| <= maxpix ==> Records(b, c))
      && (|b.fill.seen| <= maxpix ==> (Records(b, c) <==> |c| <= maxpix))
  {
    hide Connected, Once, FillOf, Scan;
    ScanKeeps(img, maxpix, |img.gray|);
    var s := Scan(img, maxpix, |img.gray|);
    var b := s.blobs[k];
    if |Component(img, b.seed)| <= maxpix {
      EachComponentOnce(img, maxpix, b.seed);
      var i: nat :| OnlyBlob(s.blobs, i, Component(img, b.seed));
      assert i == k;
    }
  }

  // Three bright pixels in a row.
  const ROW := Image(3, 1, [9.0, 9.0, 9.0], [1.0, 1.0, 1.0], [1.0, 1.0, 1.0], 3.0)

  lemma RowNear(p: nat, k: nat)
    requires p < 3 && k < 9
    ensures Near(ROW, p, k) == if k == 3 && p > 0 then Some(p - 1) else if k == 5 && p < 2 then Some(p + 1) else None
    ensures Bright(ROW, p)
  {
  }

  /** Visiting the first k cells round a pixel of the row. */
  lemma {:induction false} RowFresh(marked: set<nat>, p: nat, k: nat)
    requires p < 3 && k <= 9
    ensures
      var left := if p > 0 && p - 1 !in marked then [p - 1] else [];
      var right := if p < 2 && p + 1 !in marked then [p + 1] else [];
      Fresh(ROW, marked, p, k) == (if k <= 3 then [] else left) + (if k <= 5 then [] else right)
    decreases k
  {
    hide Near, Bright;
    if k > 0 {
      RowFresh(marked, p, k - 1);
      RowNear(p, k - 1);
      if p > 0 {
        RowNear(p - 1, 0);
      }
      if p < 2 {
        RowNear(p + 1, 0);
      }
    }
  }

  lemma RowFills()
    ensures FillOf(ROW, 1, {}, 0) == Fill({0, 1}, [0, 1], [])
    ensures FillOf(ROW, 1, {0, 1}, 2) == Fill({0, 1, 2}, [2], [])
  {
    hide Fresh, Bright;
    RowFresh({0}, 0, 9);
    RowFresh({0, 1, 2}, 2, 9);
    assert {} + {0} == {0} && {0} + Elems([1]) == {0, 1};
    assert [0][..0] + [1] == [1] && [1][..0] == [] && [] + [0] == [0];
    assert FillOf(ROW, 1, {}, 0) == Flood(ROW, 1, {0, 1}, [1], [0]);
    assert {0, 1} + {2} == {0, 1, 2} && {0, 1, 2} + Elems([]) == {0, 1, 2};
    assert FillOf(ROW, 1, {0, 1}, 2) == Flood(ROW, 1, {0, 1, 2}, [], [2]);
  }

  /** A component past maxpix is cut short and its rest found again: a remnant passes for a blob of its own. */
  lemma OversizeRemnant()
    ensures |Blobs(ROW, 1)| == 2 && Blobs(ROW, 1)[1].fill.seen == [2] && {0, 1, 2} <= Component(ROW, 2)
  {
    hide FillOf, Bright;
    RowFills();
    RowNear(0, 0);
    RowNear(1, 0);
    RowNear(2, 0);
    assert Scan(ROW, 1, 1) == Scanned({0, 1}, [Blob(0, Fill({0, 1}, [0, 1], []))]);
    assert Scan(ROW, 1, 2) == Scan(ROW, 1, 1);
    assert Joins(ROW, [2, 1, 0], 2, 0) && Joins(ROW, [2, 1], 2, 1) && Joins(ROW, [2], 2, 2);
  }

  // --------------------------------------------------------------- centroids

  // Pixel count, weighted sums and bounding box.
  datatype Sums = Sums(n: nat, sx: real, sy: real, sf: real, minx: int, maxx: int, miny: int, maxy: int)

  function Value(img: Image, p: nat): real
    requires Proper(img)
  {
    if p < |img.gray| && img.gray[p] - img.bg[p] > 0.0 then img.gray[p] - img.bg[p] else 0.0
  }

  function Min(a: int, b: int): int {
    if a < b then a else b
  }

  function Max(a: int, b: int): int {
    if a > b then a else b
  }

  function Count(img: Image, t: Sums, p: nat): Sums
    requires Proper(img)
  {
    var x, y, v := X(img, p), Y(img, p), Value(img, p);
    Sums(t.n + 1, t.sx + x as real * v, t.sy + y as real * v, t.sf + v,
         Min(x, t.minx), Max(x, t.maxx), Min(y, t.miny), Max(y, t.maxy))
  }

  function Tally(img: Image, seed: nat, seen: seq<nat>): Sums
    requires Proper(img)
    decreases |seen|
  {
    if seen == [] then Sums(0, 0.0, 0.0, 0.0, X(img, seed), X(img, seed), Y(img, seed), Y(img, seed))
    else Count(img, Tally(img, seed, seen[..|seen| - 1]), seen[|seen| - 1])
  }

  /** sum is a weighted sum of numbers in [lo, hi] with total weight. */
  predicate Between(lo: int, sum: real, weight: real, hi: int) {
    lo as real * weight <= sum <= hi as real * weight
  }

  lemma BetweenAdd(lo: int, sum: real, weight: real, hi: int, x: int, v: real)
    requires Between(lo, sum, weight, hi) && weight >= 0.0 && v >= 0.0
    ensures Between(Min(x, lo), sum + x as real * v, weight + v, Max(x, hi))
  {
    var l, h := Min(x, lo) as real, Max(x, hi) as real;
    Reals.MulLe(l, lo as real, weight);
    Reals.MulLe(hi as real, h, weight);
    Reals.MulLe(l, x as real, v);
    Reals.MulLe(x as real, h, v);
    assert l * (weight + v) == l * weight + l * v;
    assert h * (weight + v) == h * weight + h * v;
  }

  predicate Of(p: nat, seed: nat, seen: seq<nat>) {
    p == seed || p in seen
  }

  /** The sums are weighted sums of coordinates inside the box. */
  predicate Weighted(t: Sums) {
    t.sf >= 0.0 && Between(t.minx, t.sx, t.sf, t.maxx) && Between(t.miny, t.sy, t.sf, t.maxy)
  }

  /** The box is the tightest round the pixels. */
  ghost predicate Boxed(img: Image, seed: nat, seen: seq<nat>, t: Sums)
    requires Proper(img)
  {
    && (forall p :: Of(p, seed, seen) ==> t.minx <= X(img, p) <= t.maxx && t.miny <= Y(img, p) <= t.maxy)
    && (exists p :: Of(p, seed, seen) && X(img, p) == t.minx)
    && (exists p :: Of(p, seed, seen) && X(img, p) == t.maxx)
    && (exists p :: Of(p, seed, seen) && Y(img, p) == t.miny)
    && (exists p :: Of(p, seed, seen) && Y(img, p) == t.maxy)
  }

  lemma ValueNonNegative(img: Image, p: nat)
    requires Proper(img)
    ensures Value(img, p) >= 0.0
  {
  }

  lemma CountWeighted(img: Image, t: Sums, p: nat)
    requires Proper(img) && Weighted(t)
    ensures Weighted(Count(img, t, p)) && Count(img, t, p).n == t.n + 1
  {
    hide X, Y, Value, Min, Max, Between;
    ValueNonNegative(img, p);
    var x, y, v := X(img, p), Y(img, p), Value(img, p);
    BetweenAdd(t.minx, t.sx, t.sf, t.maxx, x, v);
    BetweenAdd(t.miny, t.sy, t.sf, t.maxy, y, v);
    assert Count(img, t, p) == Sums(t.n + 1, t.sx + x as real * v, t.sy + y as real * v, t.sf + v,
                                    Min(x, t.minx), Max(x, t.maxx), Min(y, t.miny), Max(y, t.maxy));
  }

  lemma {:induction false} TallyWeighted(img: Image, seed: nat, seen: seq<nat>)
    requires Proper(img)
    ensures Weighted(Tally(img, seed, seen)) && Tally(img, seed, seen).n == |seen|
    decreases |seen|
  {
    hide X, Y, Count;
    if seen != [] {
      hide Weighted;
      TallyWeighted(img, seed, seen[..|seen| - 1]);
      CountWeighted(img, Tally(img, seed, seen[..|seen| - 1]), seen[|seen| - 1]);
    }
  }

  lemma {:induction false} CountBoxed(img: Image, seed: nat, rest: seq<nat>, p: nat, t: Sums)
    requires Proper(img) && Boxed(img, seed, rest, t)
    ensures Boxed(img, seed, rest + [p], Count(img, t, p))
  {
    hide X, Y, Value;
    var u := Count(img, t, p);
    assert Of(p, seed, rest + [p]);
    assert forall q :: Of(q, seed, rest) ==> Of(q, seed, rest + [p]);
    assert u.minx == X(img, p) || u.minx == t.minx;
    assert u.maxx == X(img, p) || u.maxx == t.maxx;
    assert u.miny == Y(img, p) || u.miny == t.miny;
    assert u.maxy == Y(img, p) || u.maxy == t.maxy;
  }

  lemma {:induction false} TallyBoxed(img: Image, seed: nat, seen: seq<nat>)
    requires Proper(img)
    ensures Boxed(img, seed, seen, Tally(img, seed, seen))
    decreases |seen|
  {
    if seen == [] {
      assert Of(seed, seed, seen);
    } else {
      hide Boxed, Count;
      TallyBoxed(img, seed, seen[..|seen| - 1]);
      CountBoxed(img, seed, seen[..|seen| - 1], seen[|seen| - 1], Tally(img, seed, seen[..|seen| - 1]));
      assert seen == seen[..|seen| - 1] + [seen[|seen| - 1]];
    }
  }

  /** With any flux at all the weighted centroid lies in the box, and the box is the tightest round the pixels. */
  lemma {:induction false} CentroidInBox(img: Image, seed: nat, seen: seq<nat>)
    requires Proper(img) && Tally(img, seed, seen).sf > 0.0
    ensures
      var t := Tally(img, seed, seen);
      && t.minx as real <= t.sx / t.sf <= t.maxx as real
      && t.miny as real <= t.sy / t.sf <= t.maxy as real
      && Boxed(img, seed, seen, t)
  {
    hide Boxed, Tally;
    TallyWeighted(img, seed, seen);
    TallyBoxed(img, seed, seen);
    var t := Tally(img, seed, seen);
    Reals.DivideBetween(t.minx as real, t.sx, t.sf, t.maxx as real);
    Reals.DivideBetween(t.miny as real, t.sy, t.sf, t.maxy as real);
  }

  // ------------------------------------------------------------------- stars

  datatype Rules = Rules(minpix: nat, maxpix: nat, cap: nat, ds: real, margin: real, fullW: real, fullH: real)

  datatype Star = Star(x: real, y: real, flux: real, npix: nat)

  function StarOf(t: Sums, ds: real): Star
    requires t.sf != 0.0
  {
    Star(t.sx / t.sf * ds, t.sy / t.sf * ds, t.sf, t.n)
  }

  /** The longer side of the box is at most three times the shorter. */
  predicate Round(t: Sums) {
    var w, h := t.maxx - t.minx + 1, t.maxy - t.miny + 1;
    if w > h then h != 0 && w as real / h as real <= 3.0 else w != 0 && h as real / w as real <= 3.0
  }

  predicate Accepted(t: Sums, r: Rules) {
    && r.minpix <= t.n <= r.maxpix && t.sf > 0.0 && Round(t)
    && var s := StarOf(t, r.ds);
    r.margin <= s.x <= r.fullW - r.margin && r.margin <= s.y <= r.fullH - r.margin
  }

  function Stars(img: Image, r: Rules, blobs: seq<Blob>): seq<Star>
    requires Proper(img)
    decreases |blobs|
  {
    if blobs == [] then []
    else
      var before := Stars(img, r, blobs[..|blobs| - 1]);
      var b := blobs[|blobs| - 1];
      var t := Tally(img, b.seed, b.fill.seen);
      if |before| < r.cap && Accepted(t, r) then before + [StarOf(t, r.ds)] else before
  }

  ghost predicate StarFrom(img: Image, r: Rules, blobs: seq<Blob>, s: Star, i: nat)
    requires Proper(img)
  {
    && i < |blobs|
    && var t := Tally(img, blobs[i].seed, blobs[i].fill.seen);
    Accepted(t, r) && s == StarOf(t, r.ds)
  }

  /** Every listed star is an accepted blob's, and until the list is full every accepted blob is listed. */
  lemma {:induction false} StarsAreBlobs(img: Image, r: Rules, blobs: seq<Blob>)
    requires Proper(img)
    ensures |Stars(img, r, blobs)| <= r.cap
    ensures forall s <- Stars(img, r, blobs) :: exists i: nat :: StarFrom(img, r, blobs, s, i)
    ensures |Stars(img, r, blobs)| < r.cap ==>
              forall b <- blobs :: Accepted(Tally(img, b.seed, b.fill.seen), r) ==>
                StarOf(Tally(img, b.seed, b.fill.seen), r.ds) in Stars(img, r, blobs)
    decreases |blobs|
  {
    hide Accepted, StarOf;
    if blobs != [] {
      var rest, b := blobs[..|blobs| - 1], blobs[|blobs| - 1];
      StarsAreBlobs(img, r, rest);
      forall s <- Stars(img, r, blobs)
        ensures exists i: nat :: StarFrom(img, r, blobs, s, i)
      {
        if s in Stars(img, r, rest) {
          var i: nat :| StarFrom(img, r, rest, s, i);
          assert StarFrom(img, r, blobs, s, i);
        } else {
          assert StarFrom(img, r, blobs, s, |rest|);
        }
      }
    }
  }
}
