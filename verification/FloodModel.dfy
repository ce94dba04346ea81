/**
 The worklist flood fill of polaris-extract.c against 8-connected components. A pixel is its index
 y * w + x; background and noise are given per pixel.
 */
module FloodModel {
  import opened Words
  import Sets

  datatype Image = Image(w: nat, h: nat, gray: seq<real>, bg: seq<real>, noise: seq<real>, ksigma: real)

  predicate Proper(img: Image) {
    img.w > 0 && img.h > 0 && |img.gray| == |img.bg| == |img.noise| == img.w * img.h
  }

  /** Above the local threshold. */
  predicate Bright(img: Image, p: nat)
    requires Proper(img)
  {
    p < |img.gray| && img.gray[p] > img.bg[p] + img.ksigma * img.noise[p]
  }

  function X(img: Image, p: nat): int
    requires img.w > 0
  {
    p % img.w
  }

  function Y(img: Image, p: nat): int
    requires img.w > 0
  {
    p / img.w
  }

  // ------------------------------------------------------------ connectivity

  predicate Adjacent(img: Image, p: nat, q: nat)
    requires Proper(img)
  {
    p != q && -1 <= X(img, p) - X(img, q) <= 1 && -1 <= Y(img, p) - Y(img, q) <= 1
  }

  predicate Path(img: Image, path: seq<nat>)
    requires Proper(img)
  {
    && (forall i :: 0 <= i < |path| ==> Bright(img, path[i]))
    && (forall i :: 0 < i < |path| ==> Adjacent(img, path[i - 1], path[i]))
  }

  predicate Joins(img: Image, path: seq<nat>, a: nat, b: nat)
    requires Proper(img)
  {
    Path(img, path) && |path| > 0 && path[0] == a && path[|path| - 1] == b
  }

  ghost predicate Connected(img: Image, a: nat, b: nat)
    requires Proper(img)
  {
    exists path :: Joins(img, path, a, b)
  }

  ghost function Component(img: Image, a: nat): set<nat>
    requires Proper(img)
  {
    set q: nat | q < |img.gray| && Connected(img, a, q)
  }

  lemma {:induction false} ConnectedSelf(img: Image, a: nat)
    requires Proper(img) && Bright(img, a)
    ensures Connected(img, a, a) && a in Component(img, a)
  {
    assert Joins(img, [a], a, a);
  }

  lemma {:induction false} ConnectedStep(img: Image, a: nat, b: nat, c: nat)
    requires Proper(img) && Connected(img, a, b) && Adjacent(img, b, c) && Bright(img, c)
    ensures Connected(img, a, c)
  {
    var path :| Joins(img, path, a, b);
    assert Joins(img, path + [c], a, c);
  }

  function Reversed(s: seq<nat>): (r: seq<nat>)
    ensures |r| == |s| && forall i :: 0 <= i < |s| ==> r[i] == s[|s| - 1 - i]
  {
    if s == [] then [] else Reversed(s[1..]) + [s[0]]
  }

  lemma {:induction false} ConnectedSymmetric(img: Image, a: nat, b: nat)
    requires Proper(img) && Connected(img, a, b)
    ensures Connected(img, b, a)
  {
    var path :| Joins(img, path, a, b);
    var back := Reversed(path);
    forall i | 0 < i < |back|
      ensures Adjacent(img, back[i - 1], back[i])
    {
      assert Adjacent(img, path[|path| - 1 - i], path[|path| - i]);
    }
    assert Joins(img, back, b, a);
  }

  lemma {:induction false} ConnectedTransitive(img: Image, a: nat, b: nat, c: nat)
    requires Proper(img) && Connected(img, a, b) && Connected(img, b, c)
    ensures Connected(img, a, c)
  {
    var one :| Joins(img, one, a, b);
    var two :| Joins(img, two, b, c);
    assert Joins(img, one + two[1..], a, c);
  }

  /** Pixels of one component have that component. */
  lemma {:induction false} SameComponent(img: Image, a: nat, b: nat)
    requires Proper(img) && b in Component(img, a)
    ensures Component(img, b) == Component(img, a)
  {
    ConnectedSymmetric(img, a, b);
    forall q: nat | q < |img.gray|
      ensures Connected(img, a, q) <==> Connected(img, b, q)
    {
      if Connected(img, a, q) {
        ConnectedTransitive(img, b, a, q);
      }
      if Connected(img, b, q) {
        ConnectedTransitive(img, a, b, q);
      }
    }
  }

  /** A set that holds `a` and is closed under bright neighbours holds all of its component. */
  lemma {:induction false} ClosedHoldsPath(img: Image, s: set<nat>, path: seq<nat>)
    requires Proper(img) && Path(img, path) && |path| > 0 && path[0] in s
    requires forall p: nat, q: nat :: p in s && Bright(img, q) && Adjacent(img, p, q) ==> q in s
    ensures path[|path| - 1] in s
    decreases |path|
  {
    if |path| > 1 {
      assert Adjacent(img, path[0], path[1]);
      ClosedHoldsPath(img, s, path[1..]);
    }
  }

  lemma {:induction false} ClosedHoldsComponent(img: Image, s: set<nat>, a: nat)
    requires Proper(img) && a in s
    requires forall p: nat, q: nat :: p in s && Bright(img, q) && Adjacent(img, p, q) ==> q in s
    ensures Component(img, a) <= s
  {
    forall q | q in Component(img, a)
      ensures q in s
    {
      var path :| Joins(img, path, a, q);
      ClosedHoldsPath(img, s, path);
    }
  }

  // --------------------------------------------------------------- neighbours

  function At(img: Image, x: nat, y: nat): nat {
    y * img.w + x
  }

  lemma DivModUnique(w: nat, x: nat, y: nat)
    requires x < w
    ensures (y * w + x) % w == x && (y * w + x) / w == y
  {
    var p := y * w + x;
    assert p == w * (p / w) + p % w;
    if p / w < y {
      MulLe(p / w + 1, y, w);
      assert false;
    } else if p / w > y {
      MulLe(y + 1, p / w, w);
      assert false;
    }
  }

  lemma {:induction false} AtXY(img: Image, x: nat, y: nat)
    requires Proper(img) && x < img.w && y < img.h
    ensures At(img, x, y) < |img.gray| && X(img, At(img, x, y)) == x && Y(img, At(img, x, y)) == y
  {
    DivModUnique(img.w, x, y);
    MulLe(y + 1, img.h, img.w);
  }

  lemma {:induction false} XYAt(img: Image, p: nat)
    requires Proper(img) && p < |img.gray|
    ensures 0 <= X(img, p) < img.w && 0 <= Y(img, p) < img.h && At(img, X(img, p), Y(img, p)) == p
  {
    assert p == img.w * (p / img.w) + p % img.w;
    if p / img.w >= img.h {
      MulLe(img.h, p / img.w, img.w);
      assert false;
    }
  }

  /** The k-th of the nine cells round p in scan order, if it is another pixel of the image. */
  function Near(img: Image, p: nat, k: nat): Option<nat>
    requires Proper(img) && k < 9
  {
    var nx := X(img, p) + k % 3 - 1;
    var ny := Y(img, p) + k / 3 - 1;
    if k == 4 || nx < 0 || ny < 0 || nx >= img.w || ny >= img.h then None else Some(At(img, nx, ny))
  }

  lemma {:induction false} NearIsAdjacent(img: Image, p: nat, k: nat)
    requires Proper(img) && p < |img.gray| && k < 9 && Near(img, p, k).Some?
    ensures Near(img, p, k).value < |img.gray| && Adjacent(img, p, Near(img, p, k).value)
  {
    AtXY(img, X(img, p) + k % 3 - 1, Y(img, p) + k / 3 - 1);
    XYAt(img, p);
  }

  lemma {:induction false} AdjacentIsNear(img: Image, p: nat, q: nat)
    requires Proper(img) && p < |img.gray| && q < |img.gray| && Adjacent(img, p, q)
    ensures exists k: nat :: k < 9 && Near(img, p, k) == Some(q)
  {
    XYAt(img, p);
    XYAt(img, q);
    var k := (Y(img, q) - Y(img, p) + 1) * 3 + X(img, q) - X(img, p) + 1;
    assert k % 3 == X(img, q) - X(img, p) + 1 && k / 3 == Y(img, q) - Y(img, p) + 1;
    if k == 4 {
      assert false;
    }
    assert Near(img, p, k) == Some(q);
  }

  // -------------------------------------------------------------------- fill

  function Elems(s: seq<nat>): set<nat> {
    set p | p in s
  }

  /** Not marked and above threshold: the pixels a visit pushes. */
  predicate Wanted(img: Image, marked: set<nat>, n: Option<nat>)
    requires Proper(img)
  {
    n.Some? && n.value !in marked && Bright(img, n.value)
  }

  /** What visiting the first k cells round `p` pushes, in order. */
  function Fresh(img: Image, marked: set<nat>, p: nat, k: nat): (a: seq<nat>)
    requires Proper(img) && k <= 9
    ensures forall q <- a :: q !in marked && Bright(img, q)
  {
    if k == 0 then []
    else
      var a := Fresh(img, marked, p, k - 1);
      if Wanted(img, marked + Elems(a), Near(img, p, k - 1)) then a + [Near(img, p, k - 1).value] else a
  }

  lemma {:induction false} FreshFacts(img: Image, marked: set<nat>, p: nat, k: nat)
    requires Proper(img) && k <= 9 && p < |img.gray|
    ensures forall q :: multiset(Fresh(img, marked, p, k))[q] <= 1
    ensures forall q <- Fresh(img, marked, p, k) :: Adjacent(img, p, q)
    ensures forall j: nat :: j < k && Near(img, p, j).Some? && Bright(img, Near(img, p, j).value)
                             ==> Near(img, p, j).value in marked + Elems(Fresh(img, marked, p, k))
    decreases k
  {
    if k > 0 {
      FreshFacts(img, marked, p, k - 1);
      if Near(img, p, k - 1).Some? {
        NearIsAdjacent(img, p, k - 1);
      }
    }
  }

  /** After a visit every bright neighbour is marked. */
  lemma {:induction false} VisitCloses(img: Image, marked: set<nat>, p: nat, q: nat)
    requires Proper(img) && p < |img.gray| && Bright(img, q) && Adjacent(img, p, q)
    ensures q in marked + Elems(Fresh(img, marked, p, 9))
  {
    FreshFacts(img, marked, p, 9);
    AdjacentIsNear(img, p, q);
  }

  function Unmarked(img: Image, marked: set<nat>): set<nat> {
    set p: nat | p < |img.gray| && p !in marked
  }

  // `seen`: the pixels popped and recorded, in order; `drained`: those popped unmeasured by a blob too big.
  datatype Fill = Fill(marked: set<nat>, seen: seq<nat>, drained: seq<nat>)

  function Flood(img: Image, maxpix: nat, marked: set<nat>, stack: seq<nat>, seen: seq<nat>): Fill
    requires Proper(img)
    decreases Unmarked(img, marked), |stack|
  {
    if stack == [] then Fill(marked, seen, [])
    else
      var rest, p := stack[..|stack| - 1], stack[|stack| - 1];
      if |seen| + 1 > maxpix then Fill(marked, seen + [p], rest)
      else
        var a := Fresh(img, marked, p, 9);
        assert a != [] ==> a[0] in Unmarked(img, marked);
        assert a == [] ==> marked + Elems(a) == marked;
        Flood(img, maxpix, marked + Elems(a), rest + a, seen + [p])
  }

  predicate AtMostOnce(p: nat, seen: seq<nat>, stack: seq<nat>) {
    multiset(seen)[p] + multiset(stack)[p] <= 1
  }

  /** No pixel twice in the two sequences together. */
  ghost predicate Once(seen: seq<nat>, stack: seq<nat>) {
    forall p :: AtMostOnce(p, seen, stack)
  }

  /** New pixels of the seed's component only. */
  ghost predicate Belong(img: Image, before: set<nat>, seed: nat, some: set<nat>)
    requires Proper(img)
  {
    forall p <- some :: p !in before && Bright(img, p) && Connected(img, seed, p)
  }

  /** Every bright neighbour of `some` is marked. */
  ghost predicate Closed(img: Image, marked: set<nat>, some: set<nat>)
    requires Proper(img)
  {
    forall p, q: nat :: p in some && Bright(img, q) && Adjacent(img, p, q) ==> q in marked
  }

  /** What the loop keeps. */
  ghost predicate Filling(img: Image, before: set<nat>, seed: nat, marked: set<nat>, stack: seq<nat>, seen: seq<nat>)
    requires Proper(img)
  {
    && Once(seen, stack)
    && marked == before + Elems(seen) + Elems(stack)
    && Belong(img, before, seed, Elems(seen) + Elems(stack))
    && Closed(img, marked, Elems(seen))
    && seed in Elems(seen) + Elems(stack)
  }

  /** The same, once the fill is over: closed unless it was cut short past maxpix. */
  ghost predicate FilledFrom(img: Image, maxpix: nat, before: set<nat>, seed: nat, f: Fill)
    requires Proper(img)
  {
    && Once(f.seen, f.drained)
    && f.marked == before + Elems(f.seen) + Elems(f.drained)
    && Belong(img, before, seed, Elems(f.seen) + Elems(f.drained))
    && seed in Elems(f.seen) + Elems(f.drained)
    && (|f.seen| > maxpix || (f.drained == [] && Closed(img, f.marked, Elems(f.seen))))
  }

  lemma {:induction false} MultisetSplit(s: seq<nat>)
    requires s != []
    ensures multiset(s) == multiset(s[..|s| - 1]) + multiset{s[|s| - 1]}
    ensures Elems(s) == Elems(s[..|s| - 1]) + {s[|s| - 1]}
  {
    assert s == s[..|s| - 1] + [s[|s| - 1]];
  }

  lemma {:induction false} ElemsAppend(a: seq<nat>, b: seq<nat>)
    ensures Elems(a + b) == Elems(a) + Elems(b)
  {
  }

  lemma {:induction false} VisitBelongs(img: Image, before: set<nat>, seed: nat, some: set<nat>, marked: set<nat>,
                                        p: nat)
    requires Proper(img) && Belong(img, before, seed, some) && p in some && before <= marked
    ensures Belong(img, before, seed, some + Elems(Fresh(img, marked, p, 9)))
  {
    hide Connected, Adjacent;
    BrightInside(img, p);
    FreshFacts(img, marked, p, 9);
    forall q <- Fresh(img, marked, p, 9)
      ensures Connected(img, seed, q)
    {
      ConnectedStep(img, seed, p, q);
    }
  }

  lemma {:induction false} VisitedClosed(img: Image, marked: set<nat>, some: set<nat>, p: nat)
    requires Proper(img) && Bright(img, p) && Closed(img, marked, some)
    ensures Closed(img, marked + Elems(Fresh(img, marked, p, 9)), some + {p})
  {
    hide Adjacent, Fresh;
    forall q: nat | Bright(img, q) && Adjacent(img, p, q)
      ensures q in marked + Elems(Fresh(img, marked, p, 9))
    {
      VisitCloses(img, marked, p, q);
    }
  }

  lemma {:induction false} FillingStep(img: Image, before: set<nat>, seed: nat, marked: set<nat>, stack: seq<nat>,
                                       seen: seq<nat>)
    requires Proper(img) && Filling(img, before, seed, marked, stack, seen) && stack != []
    ensures
      var p, a := stack[|stack| - 1], Fresh(img, marked, stack[|stack| - 1], 9);
      Filling(img, before, seed, marked + Elems(a), stack[..|stack| - 1] + a, seen + [p])
  {
    hide Connected, Adjacent, Fresh, Closed, Once;
    var rest, p := stack[..|stack| - 1], stack[|stack| - 1];
    var a := Fresh(img, marked, p, 9);
    MultisetSplit(stack);
    ElemsAppend(rest, a);
    ElemsAppend(seen, [p]);
    assert Elems([p]) == {p};
    VisitBelongs(img, before, seed, Elems(seen) + Elems(stack), marked, p);
    VisitedClosed(img, marked, Elems(seen), p);
    FreshOnce(img, marked, p);
    OnceMore(seen, stack, a);
  }

  lemma {:induction false} FreshOnce(img: Image, marked: set<nat>, p: nat)
    requires Proper(img) && Bright(img, p)
    ensures forall q :: multiset(Fresh(img, marked, p, 9))[q] <= 1
  {
    FreshFacts(img, marked, p, 9);
  }

  lemma {:induction false} BrightInside(img: Image, p: nat)
    requires Proper(img) && Bright(img, p)
    ensures p < |img.gray|
  {
  }

  lemma {:induction false} OnceMore(seen: seq<nat>, stack: seq<nat>, a: seq<nat>)
    requires stack != [] && Once(seen, stack)
    requires forall p :: multiset(a)[p] <= 1
    requires forall p <- a :: p !in Elems(seen) + Elems(stack)
    ensures Once(seen + [stack[|stack| - 1]], stack[..|stack| - 1] + a)
  {
    MultisetSplit(stack);
    var more, left := seen + [stack[|stack| - 1]], stack[..|stack| - 1] + a;
    forall p
      ensures AtMostOnce(p, more, left)
    {
      assert AtMostOnce(p, seen, stack);
      assert p in a ==> p in multiset(a) && p !in multiset(seen) && p !in multiset(stack);
    }
  }

  /** The pixel that takes the count past maxpix is recorded, and the rest of the stack drained. */
  lemma {:induction false} CutShort(img: Image, before: set<nat>, seed: nat, marked: set<nat>, stack: seq<nat>,
                                    seen: seq<nat>)
    requires Proper(img) && Filling(img, before, seed, marked, stack, seen) && stack != []
    ensures FilledFrom(img, |seen|, before, seed, Fill(marked, seen + [stack[|stack| - 1]], stack[..|stack| - 1]))
  {
    hide Connected, Adjacent, Closed, Once;
    var rest, p := stack[..|stack| - 1], stack[|stack| - 1];
    MultisetSplit(stack);
    ElemsAppend(seen, [p]);
    assert Elems([p]) == {p};
    OnceMore(seen, stack, []);
    assert rest + [] == rest;
  }

  lemma {:induction false} FreshShrinks(img: Image, marked: set<nat>, a: seq<nat>)
    requires Proper(img) && forall q <- a :: q !in marked && Bright(img, q)
    ensures a != [] ==> Unmarked(img, marked + Elems(a)) < Unmarked(img, marked)
    ensures a == [] ==> marked + Elems(a) == marked
  {
    if a != [] {
      assert a[0] in Unmarked(img, marked) && a[0] !in Unmarked(img, marked + Elems(a));
    }
  }

  lemma {:induction false} FloodKeeps(img: Image, maxpix: nat, before: set<nat>, seed: nat, marked: set<nat>,
                                      stack: seq<nat>, seen: seq<nat>)
    requires Proper(img) && Filling(img, before, seed, marked, stack, seen) && |seen| <= maxpix
    ensures FilledFrom(img, maxpix, before, seed, Flood(img, maxpix, marked, stack, seen))
    decreases Unmarked(img, marked), |stack|
  {
    hide Bright, Fresh, Closed, Once, Belong, Filling, FilledFrom, Unmarked;
    if stack == [] {
      FillDone(img, maxpix, before, seed, marked, seen);
    } else if |seen| + 1 > maxpix {
      CutShort(img, before, seed, marked, stack, seen);
    } else {
      var rest, p := stack[..|stack| - 1], stack[|stack| - 1];
      var a := Fresh(img, marked, p, 9);
      FillingStep(img, before, seed, marked, stack, seen);
      FreshShrinks(img, marked, a);
      FloodKeeps(img, maxpix, before, seed, marked + Elems(a), rest + a, seen + [p]);
    }
  }

  lemma {:induction false} FillDone(img: Image, maxpix: nat, before: set<nat>, seed: nat, marked: set<nat>,
                                    seen: seq<nat>)
    requires Proper(img) && Filling(img, before, seed, marked, [], seen)
    ensures FilledFrom(img, maxpix, before, seed, Fill(marked, seen, []))
  {
  }

  function FillOf(img: Image, maxpix: nat, before: set<nat>, seed: nat): Fill
    requires Proper(img)
  {
    Flood(img, maxpix, before + {seed}, [seed], [])
  }

  lemma {:induction false} FillFacts(img: Image, maxpix: nat, before: set<nat>, seed: nat)
    requires Proper(img) && Bright(img, seed) && seed !in before
    ensures FilledFrom(img, maxpix, before, seed, FillOf(img, maxpix, before, seed))
  {
    ConnectedSelf(img, seed);
    assert Elems([seed]) == {seed} && Elems([]) == {};
    assert Filling(img, before, seed, before + {seed}, [seed], []);
    FloodKeeps(img, maxpix, before, seed, before + {seed}, [seed], []);
  }

  lemma {:induction false} OnceLeft(seen: seq<nat>, stack: seq<nat>)
    requires Once(seen, stack)
    ensures Once(seen, [])
  {
    forall p
      ensures AtMostOnce(p, seen, [])
    {
      assert AtMostOnce(p, seen, stack);
    }
  }

  /** Without repeats a sequence is as long as its set of elements. */
  lemma {:induction false} OnceLength(s: seq<nat>)
    requires Once(s, [])
    ensures |Elems(s)| == |s|
    decreases |s|
  {
    if s != [] {
      var rest, p := s[..|s| - 1], s[|s| - 1];
      MultisetSplit(s);
      forall q
        ensures AtMostOnce(q, rest, [])
      {
        assert AtMostOnce(q, s, []);
      }
      OnceLength(rest);
      assert AtMostOnce(p, s, []);
      assert p !in multiset(rest);
    }
  }

  /**
   One fill, one component: from a seed whose component holds no marked pixel yet, a component of at
   most maxpix pixels is recorded whole and each pixel once.
   */
  lemma {:induction false} FillIsComponent(img: Image, maxpix: nat, before: set<nat>, seed: nat)
    requires Proper(img) && Bright(img, seed) && Component(img, seed) !! before
    requires |Component(img, seed)| <= maxpix
    ensures
      var f := FillOf(img, maxpix, before, seed);
      && Elems(f.seen) == Component(img, seed) && |f.seen| == |Component(img, seed)| && f.drained == []
      && f.marked == before + Component(img, seed)
  {
    hide Connected, Adjacent, Flood;
    ConnectedSelf(img, seed);
    FillFacts(img, maxpix, before, seed);
    var f := FillOf(img, maxpix, before, seed);
    var all := Component(img, seed);
    assert Elems(f.seen) <= all;
    OnceLeft(f.seen, f.drained);
    OnceLength(f.seen);
    Sets.SubsetSize(Elems(f.seen), all);
    forall p: nat, q: nat | p in Elems(f.seen) && Bright(img, q) && Adjacent(img, p, q)
      ensures q in Elems(f.seen)
    {
      ConnectedStep(img, seed, p, q);
    }
    ClosedHoldsComponent(img, Elems(f.seen), seed);
  }
}
