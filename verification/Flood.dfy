/** The blob finder as it runs: the labels plane, the growing stack and the pixel record, updated in place. */
module Flood {
  import opened Words
  import opened FloodModel
  import opened FloodScan

  ghost function Marked(labels: array<bool>): set<nat>
    reads labels
  {
    set p: nat | p < labels.Length && labels[p]
  }

  /** One of the nine cells round p: mark it and push it, or skip it. */
  method VisitCell(img: Image, labels: array<bool>, p: nat, dx: int, dy: int, stack: seq<nat>, ghost k: nat)
      returns (grown: seq<nat>)
    requires Proper(img) && labels.Length == |img.gray| && p < |img.gray|
    requires -1 <= dx <= 1 && -1 <= dy <= 1 && k == (dy + 1) * 3 + dx + 1
    modifies labels
    ensures var wanted := Wanted(img, old(Marked(labels)), Near(img, p, k));
            && grown == (if wanted then stack + [Near(img, p, k).value] else stack)
            && Marked(labels) == if wanted then old(Marked(labels)) + {Near(img, p, k).value} else old(Marked(labels))
  {
    grown := stack;
    assert k % 3 == dx + 1 && k / 3 == dy + 1;
    if dx == 0 && dy == 0 {
      return;
    }
    var nx, ny := X(img, p) + dx, Y(img, p) + dy;
    if nx < 0 || ny < 0 || nx >= img.w || ny >= img.h {
      return;
    }
    AtXY(img, nx, ny);
    var n := ny * img.w + nx;
    if labels[n] || img.gray[n] <= img.bg[n] + img.ksigma * img.noise[n] {
      return;
    }
    labels[n] := true;
    grown := stack + [n];
  }

  method VisitCells(img: Image, labels: array<bool>, p: nat, stack: seq<nat>) returns (grown: seq<nat>)
    requires Proper(img) && labels.Length == |img.gray| && p < |img.gray|
    modifies labels
    ensures grown == stack + Fresh(img, old(Marked(labels)), p, 9)
    ensures Marked(labels) == old(Marked(labels)) + Elems(Fresh(img, old(Marked(labels)), p, 9))
  {
    hide Fresh, Elems, Near, Wanted;
    ghost var was := Marked(labels);
    FreshNone(img, was, p, stack);
    grown := stack;
    var dy := -1;
    while dy <= 1
      invariant -1 <= dy <= 2
      invariant grown == stack + Fresh(img, was, p, (dy + 1) * 3)
      invariant Marked(labels) == was + Elems(Fresh(img, was, p, (dy + 1) * 3))
      decreases 2 - dy
    {
      var dx := -1;
      while dx <= 1
        invariant -1 <= dx <= 2
        invariant grown == stack + Fresh(img, was, p, (dy + 1) * 3 + dx + 1)
        invariant Marked(labels) == was + Elems(Fresh(img, was, p, (dy + 1) * 3 + dx + 1))
        decreases 2 - dx
      {
        ghost var k := (dy + 1) * 3 + dx + 1;
        grown := VisitCell(img, labels, p, dx, dy, grown, k);
        FreshNext(img, was, p, k, stack);
        dx := dx + 1;
      }
      dy := dy + 1;
    }
  }

  lemma FreshNone(img: Image, was: set<nat>, p: nat, stack: seq<nat>)
    requires Proper(img)
    ensures stack + Fresh(img, was, p, 0) == stack && was + Elems(Fresh(img, was, p, 0)) == was
  {
  }

  lemma {:induction false} FreshNext(img: Image, was: set<nat>, p: nat, k: nat, stack: seq<nat>)
    requires Proper(img) && k < 9
    ensures
      var a := Fresh(img, was, p, k);
      if Wanted(img, was + Elems(a), Near(img, p, k))
      then Fresh(img, was, p, k + 1) == a + [Near(img, p, k).value]
           && was + Elems(Fresh(img, was, p, k + 1)) == was + Elems(a) + {Near(img, p, k).value}
           && stack + Fresh(img, was, p, k + 1) == stack + a + [Near(img, p, k).value]
      else Fresh(img, was, p, k + 1) == a
  {
  }

  /** One fill: pixels popped are counted and recorded until the stack is empty or the blob is too big. */
  method FillBlob(img: Image, maxpix: nat, labels: array<bool>, bpx: array<nat>, seed: nat)
      returns (t: Sums, ghost f: Fill)
    requires Proper(img) && labels.Length == |img.gray| && bpx.Length == maxpix + 2
    requires Bright(img, seed) && !labels[seed]
    modifies labels, bpx
    ensures f == FillOf(img, maxpix, old(Marked(labels)), seed) && Marked(labels) == f.marked
    ensures t == Tally(img, seed, f.seen) && |f.seen| <= maxpix + 1 && bpx[..|f.seen|] == f.seen
  {
    hide Flood, FillOf, Tally, Count, Fresh, X, Y;
    FillStart(img, maxpix, Marked(labels), seed);
    f := FillOf(img, maxpix, Marked(labels), seed);
    ghost var seen: seq<nat> := [];
    labels[seed] := true;
    var stack := [seed];
    t := Sums(0, 0.0, 0.0, 0.0, X(img, seed), X(img, seed), Y(img, seed), Y(img, seed));
    assert Marked(labels) == old(Marked(labels)) + {seed};
    assert bpx[..0] == [];
    while stack != []
      invariant f == Flood(img, maxpix, Marked(labels), stack, seen)
      invariant t == Tally(img, seed, seen) && t.n == |seen| <= maxpix && bpx[..|seen|] == seen
      invariant forall p <- stack :: Bright(img, p) && p in Marked(labels)
      decreases Unmarked(img, Marked(labels)), |stack|
    {
      var p := stack[|stack| - 1];
      assert stack == stack[..|stack| - 1] + [p];
      stack := stack[..|stack| - 1];
      BrightInside(img, p);
      TallyNext(img, seed, seen, p);
      FloodNext(img, maxpix, Marked(labels), stack, p, seen);
      t := CountPixel(img, t, p);
      if t.n <= maxpix + 1 {
        bpx[t.n - 1] := p;
      }
      seen := seen + [p];
      if t.n > maxpix {
        Drain(labels, stack);
        break;
      }
      ghost var was := Marked(labels);
      FreshShrinks(img, was, Fresh(img, was, p, 9));
      stack := VisitCells(img, labels, p, stack);
    }
  }

  lemma FillStart(img: Image, maxpix: nat, before: set<nat>, seed: nat)
    requires Proper(img)
    ensures FillOf(img, maxpix, before, seed) == Flood(img, maxpix, before + {seed}, [seed], [])
    ensures Tally(img, seed, []) == Sums(0, 0.0, 0.0, 0.0, X(img, seed), X(img, seed), Y(img, seed), Y(img, seed))
    ensures forall marked, seen :: Flood(img, maxpix, marked, [], seen) == Fill(marked, seen, [])
  {
  }

  lemma {:induction false} TallyNext(img: Image, seed: nat, seen: seq<nat>, p: nat)
    requires Proper(img)
    ensures Tally(img, seed, seen + [p]) == Count(img, Tally(img, seed, seen), p)
    ensures Count(img, Tally(img, seed, seen), p).n == Tally(img, seed, seen).n + 1
  {
    assert (seen + [p])[..|seen|] == seen;
  }

  lemma {:induction false} FloodNext(img: Image, maxpix: nat, marked: set<nat>, rest: seq<nat>, p: nat, seen: seq<nat>)
    requires Proper(img)
    ensures
      var a := Fresh(img, marked, p, 9);
      Flood(img, maxpix, marked, rest + [p], seen)
      == if |seen| + 1 > maxpix then Fill(marked, seen + [p], rest)
         else Flood(img, maxpix, marked + Elems(a), rest + a, seen + [p])
  {
    assert (rest + [p])[..|rest|] == rest;
  }

  method CountPixel(img: Image, t: Sums, p: nat) returns (u: Sums)
    requires Proper(img) && p < |img.gray|
    ensures u == Count(img, t, p)
  {
    var cx, cy := p % img.w, p / img.w;
    var v := img.gray[p] - img.bg[p];
    if v < 0.0 {
      v := 0.0;
    }
    u := t.(n := t.n + 1, sx := t.sx + cx as real * v, sy := t.sy + cy as real * v, sf := t.sf + v);
    if cx < t.minx {
      u := u.(minx := cx);
    }
    if cx > t.maxx {
      u := u.(maxx := cx);
    }
    if cy < t.miny {
      u := u.(miny := cy);
    }
    if cy > t.maxy {
      u := u.(maxy := cy);
    }
  }

  /** Emptying the stack re-labels pixels that are labelled already. */
  method Drain(labels: array<bool>, stack: seq<nat>)
    requires forall p <- stack :: p in Marked(labels)
    modifies labels
    ensures Marked(labels) == old(Marked(labels))
  {
    var left := stack;
    while left != []
      invariant Marked(labels) == old(Marked(labels)) && forall p <- left :: p in stack
      decreases |left|
    {
      assert left[|left| - 1] in stack;
      labels[left[|left| - 1]] := true;
      left := left[..|left| - 1];
    }
  }

  /** The whole scan, row by row, with the list of accepted stars. */
  method FindStars(img: Image, r: Rules) returns (stars: seq<Star>)
    requires Proper(img)
    ensures stars == Stars(img, r, Blobs(img, r.maxpix))
  {
    hide Scan, Stars;
    ScanNone(img, r);
    var labels := new bool[|img.gray|](_ => false);
    var bpx := new nat[r.maxpix + 2](_ => 0);
    stars := [];
    ghost var s := Scan(img, r.maxpix, 0);
    var y := 0;
    while y < img.h
      invariant 0 <= y <= img.h && 0 <= y * img.w <= |img.gray|
      invariant s == Scan(img, r.maxpix, y * img.w) && Marked(labels) == s.marked && stars == Stars(img, r, s.blobs)
    {
      var x := 0;
      RowInside(img, y);
      while x < img.w
        invariant 0 <= x <= img.w && y * img.w + img.w <= |img.gray|
        invariant s == Scan(img, r.maxpix, y * img.w + x) && Marked(labels) == s.marked
        invariant stars == Stars(img, r, s.blobs)
      {
        stars, s := ScanPixel(img, r, labels, bpx, y * img.w + x, stars, s);
        x := x + 1;
      }
      y := y + 1;
    }
  }

  lemma ScanNone(img: Image, r: Rules)
    requires Proper(img)
    ensures Scan(img, r.maxpix, 0) == Scanned({}, []) && Stars(img, r, []) == []
  {
  }

  lemma RowInside(img: Image, y: nat)
    requires Proper(img) && y < img.h
    ensures (y + 1) * img.w == y * img.w + img.w <= |img.gray| && y * img.w >= 0
  {
    MulLe(y + 1, img.h, img.w);
    MulLe(0, y, img.w);
  }

  method ScanPixel(img: Image, r: Rules, labels: array<bool>, bpx: array<nat>, idx: nat, stars: seq<Star>,
                   ghost s: Scanned)
      returns (more: seq<Star>, ghost after: Scanned)
    requires Proper(img) && labels.Length == |img.gray| && bpx.Length == r.maxpix + 2 && idx < |img.gray|
    requires s == Scan(img, r.maxpix, idx) && Marked(labels) == s.marked && stars == Stars(img, r, s.blobs)
    modifies labels, bpx
    ensures after == Scan(img, r.maxpix, idx + 1) && Marked(labels) == after.marked
    ensures more == Stars(img, r, after.blobs)
  {
    hide Flood, FillOf, Tally, Accepted;
    more, after := stars, s;
    if labels[idx] || img.gray[idx] <= img.bg[idx] + img.ksigma * img.noise[idx] {
      return;
    }
    var t, f := FillBlob(img, r.maxpix, labels, bpx, idx);
    after := Scanned(f.marked, s.blobs + [Blob(idx, f)]);
    assert after.blobs[..|s.blobs|] == s.blobs;
    more := Offer(r, t, stars);
  }

  /** The acceptance tests a measured blob passes through, in the source's order. */
  method Offer(r: Rules, t: Sums, stars: seq<Star>) returns (more: seq<Star>)
    ensures more == if |stars| < r.cap && Accepted(t, r) then stars + [StarOf(t, r.ds)] else stars
  {
    hide StarOf, Round;
    more := stars;
    if t.n < r.minpix || t.n > r.maxpix || t.sf <= 0.0 {
      return;
    }
    if !Round(t) {
      return;
    }
    if |stars| < r.cap {
      var star := StarOf(t, r.ds);
      if star.x < r.margin || star.y < r.margin || star.x > r.fullW - r.margin || star.y > r.fullH - r.margin {
        return;
      }
      more := stars + [star];
    }
  }
}
