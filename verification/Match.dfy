/** polaris-match.c: the vote on translations between two star lists and its refinement, over the reals. */
module Match {
  import Reals

  datatype Star = Star(x: real, y: real, flux: real)

  datatype Outcome = Unmatched(best: nat) | Matched(dx: real, dy: real, votes: nat, refinedFrom: nat)

  const MIN_VOTES := 4

  predicate Within(d: real, tol: real) {
    -tol <= d <= tol
  }

  /** The pair agrees with the translation (dx, dy) on both axes. */
  predicate Agrees(r: Star, c: Star, dx: real, dy: real, tol: real) {
    Within(c.x - r.x - dx, tol) && Within(c.y - r.y - dy, tol)
  }

  predicate Agreed(r: Star, cur: seq<Star>, dx: real, dy: real, tol: real) {
    exists c <- cur :: Agrees(r, c, dx, dy, tol)
  }

  /** How many of the first n reference stars have a partner under (dx, dy). */
  function Votes(refs: seq<Star>, cur: seq<Star>, dx: real, dy: real, tol: real, n: nat): (v: nat)
    requires n <= |refs|
    ensures v <= n
  {
    if n == 0 then 0
    else Votes(refs, cur, dx, dy, tol, n - 1) + (if Agreed(refs[n - 1], cur, dx, dy, tol) then 1 else 0)
  }

  // The running maximum of the vote: the first translation to reach it.
  datatype Leader = Leader(best: nat, dx: real, dy: real)

  function Consider(refs: seq<Star>, cur: seq<Star>, tol: real, i: nat, j: nat, l: Leader): Leader
    requires i < |refs| && j < |cur|
  {
    var dx, dy := cur[j].x - refs[i].x, cur[j].y - refs[i].y;
    var v := Votes(refs, cur, dx, dy, tol, |refs|);
    if v > l.best then Leader(v, dx, dy) else l
  }

  /** The leader once every pair before (i, j) in row order has been considered. */
  function Lead(refs: seq<Star>, cur: seq<Star>, tol: real, i: nat, j: nat): Leader
    requires i <= |refs| && j <= |cur| && (j > 0 ==> i < |refs|)
    decreases i, j
  {
    if j > 0 then Consider(refs, cur, tol, i, j - 1, Lead(refs, cur, tol, i, j - 1))
    else if i > 0 then Lead(refs, cur, tol, i - 1, |cur|)
    else Leader(0, 0.0, 0.0)
  }

  function Winner(refs: seq<Star>, cur: seq<Star>, tol: real): Leader {
    Lead(refs, cur, tol, |refs|, 0)
  }

  /** Index of the first current star that agrees, or |cur|. */
  function Partner(r: Star, cur: seq<Star>, dx: real, dy: real, tol: real): (j: nat)
    ensures j <= |cur| && (j < |cur| ==> Agrees(r, cur[j], dx, dy, tol))
    ensures forall k :: 0 <= k < j ==> !Agrees(r, cur[k], dx, dy, tol)
  {
    if cur == [] then 0
    else if Agrees(r, cur[0], dx, dy, tol) then 0
    else 1 + Partner(r, cur[1..], dx, dy, tol)
  }

  datatype Total = Total(sx: real, sy: real, n: nat)

  /** Offsets of the first n reference stars to their partners, summed. */
  function Refined(refs: seq<Star>, cur: seq<Star>, dx: real, dy: real, tol: real, n: nat): Total
    requires n <= |refs|
  {
    if n == 0 then Total(0.0, 0.0, 0)
    else
      var t := Refined(refs, cur, dx, dy, tol, n - 1);
      var j := Partner(refs[n - 1], cur, dx, dy, tol);
      if j < |cur| then Total(t.sx + (cur[j].x - refs[n - 1].x), t.sy + (cur[j].y - refs[n - 1].y), t.n + 1) else t
  }

  function Drift(refs: seq<Star>, cur: seq<Star>, tol: real): Outcome {
    var w := Winner(refs, cur, tol);
    if w.best < MIN_VOTES then Unmatched(w.best)
    else
      var t := Refined(refs, cur, w.dx, w.dy, tol, |refs|);
      if t.n > 0 then Matched(t.sx / t.n as real, t.sy / t.n as real, w.best, t.n)
      else Matched(w.dx, w.dy, w.best, t.n)
  }

  // ------------------------------------------------------------ the vote

  predicate Before(i: nat, j: nat, a: nat, b: nat) {
    i < a || (i == a && j < b)
  }

  /** The leader's vote is the most any considered pair gets, and a considered pair's. */
  lemma {:induction false} LeadIsBest(refs: seq<Star>, cur: seq<Star>, tol: real, i: nat, j: nat, a: nat, b: nat)
    requires i <= |refs| && j <= |cur| && (j > 0 ==> i < |refs|)
    requires Before(a, b, i, j) && a < |refs| && b < |cur|
    ensures Lead(refs, cur, tol, i, j).best
            >= Votes(refs, cur, cur[b].x - refs[a].x, cur[b].y - refs[a].y, tol, |refs|)
    decreases i, j
  {
    if j > 0 {
      if a != i || b != j - 1 {
        LeadIsBest(refs, cur, tol, i, j - 1, a, b);
      }
    } else {
      LeadIsBest(refs, cur, tol, i - 1, |cur|, a, b);
    }
  }

  lemma {:induction false} LeadIsVoted(refs: seq<Star>, cur: seq<Star>, tol: real, i: nat, j: nat)
    requires i <= |refs| && j <= |cur| && (j > 0 ==> i < |refs|)
    ensures
      var l := Lead(refs, cur, tol, i, j);
      l.best <= |refs| && (l.best > 0 ==> l.best == Votes(refs, cur, l.dx, l.dy, tol, |refs|))
    decreases i, j
  {
    if j > 0 {
      LeadIsVoted(refs, cur, tol, i, j - 1);
    } else if i > 0 {
      LeadIsVoted(refs, cur, tol, i - 1, |cur|);
    }
  }

  // --------------------------------------------------------- the refinement

  lemma {:induction false} PartnerIffAgreed(r: Star, cur: seq<Star>, dx: real, dy: real, tol: real)
    ensures Partner(r, cur, dx, dy, tol) < |cur| <==> Agreed(r, cur, dx, dy, tol)
  {
  }

  predicate Near(s: real, d: real, tol: real, n: nat) {
    (d - tol) * n as real <= s <= (d + tol) * n as real
  }

  lemma NearAdd(s: real, e: real, d: real, tol: real, n: nat)
    requires Near(s, d, tol, n) && Within(e - d, tol)
    ensures Near(s + e, d, tol, n + 1)
  {
    assert (n + 1) as real == n as real + 1.0;
    assert (d - tol) * (n as real + 1.0) == (d - tol) * n as real + (d - tol);
    assert (d + tol) * (n as real + 1.0) == (d + tol) * n as real + (d + tol);
  }

  /** The refinement finds a partner for exactly the stars that voted, each offset within tol of the winner. */
  lemma {:induction false} RefinedCountsVotes(refs: seq<Star>, cur: seq<Star>, dx: real, dy: real, tol: real, n: nat)
    requires n <= |refs|
    ensures
      var t := Refined(refs, cur, dx, dy, tol, n);
      t.n == Votes(refs, cur, dx, dy, tol, n) && Near(t.sx, dx, tol, t.n) && Near(t.sy, dy, tol, t.n)
    decreases n
  {
    if n > 0 {
      hide Near, Agreed, Partner;
      RefinedCountsVotes(refs, cur, dx, dy, tol, n - 1);
      var r, t := refs[n - 1], Refined(refs, cur, dx, dy, tol, n - 1);
      PartnerIffAgreed(r, cur, dx, dy, tol);
      var j := Partner(r, cur, dx, dy, tol);
      if j < |cur| {
        NearAdd(t.sx, cur[j].x - r.x, dx, tol, t.n);
        NearAdd(t.sy, cur[j].y - r.y, dy, tol, t.n);
      }
    }
  }

  lemma MeanWithin(s: real, d: real, tol: real, n: nat)
    requires n > 0 && Near(s, d, tol, n)
    ensures Within(s / n as real - d, tol)
  {
    Reals.DivideBetween(d - tol, s, n as real, d + tol);
  }

  /**
   On any two lists: a match reports as many refining pairs as votes, the vote is the largest any pair
   proposes, and the reported shift is within tol of a translation that won that vote.
   */
  lemma {:induction false} MatchedMeans(refs: seq<Star>, cur: seq<Star>, tol: real)
    ensures
      var o := Drift(refs, cur, tol);
      var w := Winner(refs, cur, tol);
      && (o.Matched? <==> exists i: nat, j: nat :: Proposes(refs, cur, tol, i, j, MIN_VOTES))
      && (o.Matched? ==>
            && o.refinedFrom == o.votes == Votes(refs, cur, w.dx, w.dy, tol, |refs|) <= |refs|
            && Within(o.dx - w.dx, tol) && Within(o.dy - w.dy, tol)
            && forall i: nat, j: nat, v: nat :: Proposes(refs, cur, tol, i, j, v) ==> v <= o.votes)
  {
    hide Near, Agreed, Lead, Refined, Votes;
    var w := Winner(refs, cur, tol);
    LeadIsVoted(refs, cur, tol, |refs|, 0);
    LeadBoundsProposals(refs, cur, tol);
    LeadIsProposed(refs, cur, tol, |refs|, 0);
    if w.best >= MIN_VOTES {
      var i: nat, j: nat :| Proposes(refs, cur, tol, i, j, w.best);
      assert Proposes(refs, cur, tol, i, j, MIN_VOTES);
    }
    var t := Refined(refs, cur, w.dx, w.dy, tol, |refs|);
    RefinedCountsVotes(refs, cur, w.dx, w.dy, tol, |refs|);
    if w.best >= MIN_VOTES {
      MeanWithin(t.sx, w.dx, tol, t.n);
      MeanWithin(t.sy, w.dy, tol, t.n);
    }
  }

  /** The pair (i, j) proposes a translation with at least `votes` votes. */
  predicate Proposes(refs: seq<Star>, cur: seq<Star>, tol: real, i: nat, j: nat, votes: nat) {
    i < |refs| && j < |cur|
    && Votes(refs, cur, cur[j].x - refs[i].x, cur[j].y - refs[i].y, tol, |refs|) >= votes
  }

  lemma {:induction false} LeadBoundsProposals(refs: seq<Star>, cur: seq<Star>, tol: real)
    ensures forall i: nat, j: nat, v: nat :: Proposes(refs, cur, tol, i, j, v) ==> v <= Winner(refs, cur, tol).best
  {
    forall i: nat, j: nat, v: nat | Proposes(refs, cur, tol, i, j, v)
      ensures v <= Winner(refs, cur, tol).best
    {
      LeadIsBest(refs, cur, tol, |refs|, 0, i, j);
    }
  }

  lemma {:induction false} LeadIsProposed(refs: seq<Star>, cur: seq<Star>, tol: real, i: nat, j: nat)
    requires i <= |refs| && j <= |cur| && (j > 0 ==> i < |refs|)
    ensures
      var l := Lead(refs, cur, tol, i, j);
      l.best > 0 ==> exists a: nat, b: nat :: Proposes(refs, cur, tol, a, b, l.best)
    decreases i, j
  {
    if j > 0 {
      LeadIsProposed(refs, cur, tol, i, j - 1);
      assert Proposes(refs, cur, tol, i, j - 1, 0);
      if Lead(refs, cur, tol, i, j) != Lead(refs, cur, tol, i, j - 1) {
        assert Proposes(refs, cur, tol, i, j - 1, Lead(refs, cur, tol, i, j).best);
      }
    } else if i > 0 {
      LeadIsProposed(refs, cur, tol, i - 1, |cur|);
    }
  }

  // ----------------------------------------------------- the report, by index

  function VoteOf(refs: seq<Star>, cur: seq<Star>, tol: real, i: nat, j: nat): nat
    requires i < |refs| && j < |cur|
  {
    Votes(refs, cur, cur[j].x - refs[i].x, cur[j].y - refs[i].y, tol, |refs|)
  }

  /** The vote counts reference stars, each once however many partners it has. */
  lemma {:induction false} VotesAreStars(refs: seq<Star>, cur: seq<Star>, dx: real, dy: real, tol: real, n: nat)
    requires n <= |refs|
    ensures Votes(refs, cur, dx, dy, tol, n) == |set k: nat | k < n && Agreed(refs[k], cur, dx, dy, tol)|
    decreases n
  {
    hide Agreed;
    var voters := set k: nat | k < n && Agreed(refs[k], cur, dx, dy, tol);
    if n > 0 {
      VotesAreStars(refs, cur, dx, dy, tol, n - 1);
      var rest := set k: nat | k < n - 1 && Agreed(refs[k], cur, dx, dy, tol);
      if Agreed(refs[n - 1], cur, dx, dy, tol) {
        assert voters == rest + {n - 1};
      } else {
        assert voters == rest;
      }
    }
  }

  /** No pair gets more votes, and every pair before it in row order gets fewer. */
  ghost predicate Wins(refs: seq<Star>, cur: seq<Star>, tol: real, a: nat, b: nat) {
    && a < |refs| && b < |cur|
    && (forall i: nat, j: nat :: i < |refs| && j < |cur| ==>
          VoteOf(refs, cur, tol, i, j) <= VoteOf(refs, cur, tol, a, b))
    && (forall i: nat, j: nat :: i < |refs| && j < |cur| && Before(i, j, a, b) ==>
          VoteOf(refs, cur, tol, i, j) < VoteOf(refs, cur, tol, a, b))
  }

  lemma {:induction false} LeadIsFirst(refs: seq<Star>, cur: seq<Star>, tol: real, i: nat, j: nat)
      returns (a: nat, b: nat)
    requires i <= |refs| && j <= |cur| && (j > 0 ==> i < |refs|)
    requires Lead(refs, cur, tol, i, j).best > 0
    ensures a < |refs| && b < |cur| && Before(a, b, i, j)
    ensures Lead(refs, cur, tol, i, j)
            == Leader(VoteOf(refs, cur, tol, a, b), cur[b].x - refs[a].x, cur[b].y - refs[a].y)
    ensures forall c: nat, d: nat :: c < |refs| && d < |cur| && Before(c, d, a, b) ==>
              VoteOf(refs, cur, tol, c, d) < VoteOf(refs, cur, tol, a, b)
    decreases i, j
  {
    hide Votes;
    if j > 0 {
      if VoteOf(refs, cur, tol, i, j - 1) > Lead(refs, cur, tol, i, j - 1).best {
        a, b := i, j - 1;
        forall c: nat, d: nat | c < |refs| && d < |cur| && Before(c, d, a, b)
          ensures VoteOf(refs, cur, tol, c, d) < VoteOf(refs, cur, tol, a, b)
        {
          LeadIsBest(refs, cur, tol, i, j - 1, c, d);
        }
      } else {
        a, b := LeadIsFirst(refs, cur, tol, i, j - 1);
      }
    } else {
      a, b := LeadIsFirst(refs, cur, tol, i - 1, |cur|);
    }
  }

  /** Star j of the current list is the first to agree with r, or none does and j is past the end. */
  predicate FirstPartner(r: Star, cur: seq<Star>, dx: real, dy: real, tol: real, j: nat) {
    && j <= |cur| && (j < |cur| ==> Within(cur[j].x - r.x - dx, tol) && Within(cur[j].y - r.y - dy, tol))
    && forall m :: 0 <= m < j ==> !(Within(cur[m].x - r.x - dx, tol) && Within(cur[m].y - r.y - dy, tol))
  }

  /** Each of the reference stars with its first partner under (dx, dy). */
  predicate FirstPartners(refs: seq<Star>, cur: seq<Star>, dx: real, dy: real, tol: real, first: seq<nat>) {
    |first| == |refs| && forall k :: 0 <= k < |refs| ==> FirstPartner(refs[k], cur, dx, dy, tol, first[k])
  }

  /** Over the first n reference stars with a partner: how far the partner lies along x, summed. */
  function SumX(refs: seq<Star>, cur: seq<Star>, first: seq<nat>, n: nat): real
    requires n <= |refs| == |first|
  {
    if n == 0 then 0.0
    else SumX(refs, cur, first, n - 1)
         + if first[n - 1] < |cur| then cur[first[n - 1]].x - refs[n - 1].x else 0.0
  }

  /** The same along y. */
  function SumY(refs: seq<Star>, cur: seq<Star>, first: seq<nat>, n: nat): real
    requires n <= |refs| == |first|
  {
    if n == 0 then 0.0
    else SumY(refs, cur, first, n - 1)
         + if first[n - 1] < |cur| then cur[first[n - 1]].y - refs[n - 1].y else 0.0
  }

  function Partners(refs: seq<Star>, cur: seq<Star>, dx: real, dy: real, tol: real): (first: seq<nat>)
    ensures FirstPartners(refs, cur, dx, dy, tol, first)
    ensures forall k :: 0 <= k < |refs| ==> first[k] == Partner(refs[k], cur, dx, dy, tol)
  {
    seq(|refs|, k requires 0 <= k < |refs| => Partner(refs[k], cur, dx, dy, tol))
  }

  lemma {:induction false} RefinedSums(refs: seq<Star>, cur: seq<Star>, dx: real, dy: real, tol: real, n: nat)
    requires n <= |refs|
    ensures
      var first := Partners(refs, cur, dx, dy, tol);
      && Refined(refs, cur, dx, dy, tol, n).sx == SumX(refs, cur, first, n)
      && Refined(refs, cur, dx, dy, tol, n).sy == SumY(refs, cur, first, n)
    decreases n
  {
    hide Partner, Partners;
    if n > 0 {
      RefinedSums(refs, cur, dx, dy, tol, n - 1);
    }
  }

  /**
   A match is the mean: the winning pair (a, b) is the first of those with the most votes, and the shift reported,
   times the number of stars it is refined from, is the sum of the offsets of the stars to their first partners
   under that pair's translation.
   */
  lemma {:induction false} ReportIsMean(refs: seq<Star>, cur: seq<Star>, tol: real)
      returns (a: nat, b: nat, first: seq<nat>)
    requires Drift(refs, cur, tol).Matched?
    ensures Wins(refs, cur, tol, a, b)
    ensures FirstPartners(refs, cur, cur[b].x - refs[a].x, cur[b].y - refs[a].y, tol, first)
    ensures
      var o := Drift(refs, cur, tol);
      && o.votes == VoteOf(refs, cur, tol, a, b)
      && o.refinedFrom == |set k: nat | k < |refs| && |cur| > first[k]|
      && o.dx * o.refinedFrom as real == SumX(refs, cur, first, |refs|)
      && o.dy * o.refinedFrom as real == SumY(refs, cur, first, |refs|)
  {
    hide Votes, Lead, Partner, Partners, Agreed, SumX, SumY, Refined, Near, FirstPartner;
    a, b := LeadIsFirst(refs, cur, tol, |refs|, 0);
    var dx, dy := cur[b].x - refs[a].x, cur[b].y - refs[a].y;
    forall i: nat, j: nat | i < |refs| && j < |cur|
      ensures VoteOf(refs, cur, tol, i, j) <= VoteOf(refs, cur, tol, a, b)
    {
      LeadIsBest(refs, cur, tol, |refs|, 0, i, j);
    }
    first := Partners(refs, cur, dx, dy, tol);
    RefinedSums(refs, cur, dx, dy, tol, |refs|);
    RefinedCountsVotes(refs, cur, dx, dy, tol, |refs|);
    PartneredAreVoters(refs, cur, dx, dy, tol, first);
    var t := Refined(refs, cur, dx, dy, tol, |refs|);
    TimesItsCount(t.sx, t.n);
    TimesItsCount(t.sy, t.n);
  }

  lemma {:induction false} PartneredAreVoters(refs: seq<Star>, cur: seq<Star>, dx: real, dy: real, tol: real,
                                              first: seq<nat>)
    requires first == Partners(refs, cur, dx, dy, tol)
    ensures Votes(refs, cur, dx, dy, tol, |refs|) == |set k: nat | k < |refs| && |cur| > first[k]|
  {
    hide Partner, Partners, Agreed, Votes;
    VotesAreStars(refs, cur, dx, dy, tol, |refs|);
    forall k: nat | k < |refs|
      ensures Agreed(refs[k], cur, dx, dy, tol) <==> first[k] < |cur|
    {
      PartnerIffAgreed(refs[k], cur, dx, dy, tol);
    }
    assert (set k: nat | k < |refs| && Agreed(refs[k], cur, dx, dy, tol))
        == (set k: nat | k < |refs| && |cur| > first[k]);
  }

  /** Otherwise the report is the most votes any pair got, which is too few. */
  lemma {:induction false} UnmatchedVotes(refs: seq<Star>, cur: seq<Star>, tol: real)
    requires Drift(refs, cur, tol).Unmatched?
    ensures
      var best := Drift(refs, cur, tol).best;
      && best < MIN_VOTES
      && (forall i: nat, j: nat :: i < |refs| && j < |cur| ==> VoteOf(refs, cur, tol, i, j) <= best)
      && (best > 0 ==> exists i: nat, j: nat :: i < |refs| && j < |cur| && VoteOf(refs, cur, tol, i, j) == best)
  {
    hide Votes, Lead;
    var best := Drift(refs, cur, tol).best;
    forall i: nat, j: nat | i < |refs| && j < |cur|
      ensures VoteOf(refs, cur, tol, i, j) <= best
    {
      LeadIsBest(refs, cur, tol, |refs|, 0, i, j);
    }
    if best > 0 {
      var a, b := LeadIsFirst(refs, cur, tol, |refs|, 0);
    }
  }

  lemma TimesItsCount(s: real, n: nat)
    requires n > 0
    ensures s / n as real * n as real == s
  {
  }

  // ------------------------------------------------------- exact translation

  predicate ShiftOf(r: Star, c: Star, tx: real, ty: real) {
    c.x == r.x + tx && c.y == r.y + ty
  }

  predicate HasImage(r: Star, cur: seq<Star>, tx: real, ty: real) {
    exists c <- cur :: ShiftOf(r, c, tx, ty)
  }

  predicate HasSource(c: Star, refs: seq<Star>, tx: real, ty: real) {
    exists r <- refs :: ShiftOf(r, c, tx, ty)
  }

  /** The current field is the reference field moved by (tx, ty), in any order and at any brightness. */
  ghost predicate Shifted(refs: seq<Star>, cur: seq<Star>, tx: real, ty: real) {
    && |refs| == |cur|
    && (forall r <- refs :: HasImage(r, cur, tx, ty))
    && (forall c <- cur :: HasSource(c, refs, tx, ty))
  }

  lemma {:induction false} ImageAgrees(r: Star, cur: seq<Star>, tx: real, ty: real, tol: real)
    requires HasImage(r, cur, tx, ty) && tol >= 0.0
    ensures Agreed(r, cur, tx, ty, tol)
  {
    var c :| c in cur && ShiftOf(r, c, tx, ty);
    assert Agrees(r, c, tx, ty, tol);
  }

  lemma {:induction false} TrueShiftVotes(refs: seq<Star>, cur: seq<Star>, tx: real, ty: real, tol: real, n: nat)
    requires n <= |refs| && tol >= 0.0 && forall r <- refs :: HasImage(r, cur, tx, ty)
    ensures Votes(refs, cur, tx, ty, tol, n) == n
    decreases n
  {
    hide HasImage, Agreed;
    if n > 0 {
      TrueShiftVotes(refs, cur, tx, ty, tol, n - 1);
      ImageAgrees(refs[n - 1], cur, tx, ty, tol);
    }
  }

  lemma {:induction false} AllVoted(refs: seq<Star>, cur: seq<Star>, dx: real, dy: real, tol: real, n: nat)
    requires n <= |refs| && Votes(refs, cur, dx, dy, tol, n) == n
    ensures forall k :: 0 <= k < n ==> Agreed(refs[k], cur, dx, dy, tol)
    decreases n
  {
    hide Agreed;
    if n > 0 {
      AllVoted(refs, cur, dx, dy, tol, n - 1);
    }
  }

  /** With a negative tolerance nobody can agree. */
  lemma {:induction false} NoVotes(refs: seq<Star>, cur: seq<Star>, dx: real, dy: real, tol: real, n: nat)
    requires n <= |refs| && tol < 0.0
    ensures Votes(refs, cur, dx, dy, tol, n) == 0
    decreases n
  {
    if n > 0 {
      NoVotes(refs, cur, dx, dy, tol, n - 1);
    }
  }

  // The four directions an extreme star can lie in.
  datatype Side = West | East | South | North

  function Along(x: real, y: real, side: Side): real {
    match side
    case West => x
    case East => -x
    case South => y
    case North => -y
  }

  function Extreme(s: seq<Star>, side: Side): (r: Star)
    requires s != []
    ensures r in s && forall t <- s :: Along(r.x, r.y, side) <= Along(t.x, t.y, side)
  {
    if |s| == 1 then s[0]
    else
      var m := Extreme(s[1..], side);
      if Along(s[0].x, s[0].y, side) <= Along(m.x, m.y, side) then s[0] else m
  }

  /** An extreme star cannot vote for a translation that carries it past every current star on its side. */
  lemma {:induction false} NotPast(refs: seq<Star>, cur: seq<Star>, tx: real, ty: real, dx: real, dy: real, tol: real,
                                   side: Side)
    requires refs != [] && forall c <- cur :: HasSource(c, refs, tx, ty)
    requires Agreed(Extreme(refs, side), cur, dx, dy, tol)
    ensures Along(dx, dy, side) >= Along(tx, ty, side) - tol
  {
    var r := Extreme(refs, side);
    var c :| c in cur && Agrees(r, c, dx, dy, tol);
    var q :| q in refs && ShiftOf(q, c, tx, ty);
    assert Along(r.x, r.y, side) <= Along(q.x, q.y, side);
  }

  /** A translation every reference star votes for is within tol of the true one on both axes. */
  lemma {:induction false} FullVoteIsClose(refs: seq<Star>, cur: seq<Star>, tx: real, ty: real, dx: real, dy: real,
                                           tol: real)
    requires refs != [] && Shifted(refs, cur, tx, ty) && Votes(refs, cur, dx, dy, tol, |refs|) == |refs|
    ensures Within(dx - tx, tol) && Within(dy - ty, tol)
  {
    hide HasSource, HasImage, Agreed, Extreme;
    AllVoted(refs, cur, dx, dy, tol, |refs|);
    NotPast(refs, cur, tx, ty, dx, dy, tol, West);
    NotPast(refs, cur, tx, ty, dx, dy, tol, East);
    NotPast(refs, cur, tx, ty, dx, dy, tol, South);
    NotPast(refs, cur, tx, ty, dx, dy, tol, North);
  }

  /**
   Exact-translation recovery: if the current field is the reference field moved by (tx, ty), it is
   matched exactly when there are at least four stars and the tolerance is not negative; then every
   star votes, every star refines, and the report is within 2 tol of the truth on each axis.
   */
  lemma {:induction false} ShiftRecovered(refs: seq<Star>, cur: seq<Star>, tx: real, ty: real, tol: real)
    requires Shifted(refs, cur, tx, ty)
    ensures
      var o := Drift(refs, cur, tol);
      && (o.Matched? <==> |refs| >= MIN_VOTES && tol >= 0.0)
      && (o.Matched? ==> o.votes == o.refinedFrom == |refs|
                         && Within(o.dx - tx, 2.0 * tol) && Within(o.dy - ty, 2.0 * tol))
  {
    hide HasSource, HasImage, Agreed, Lead, Refined;
    var w := Winner(refs, cur, tol);
    LeadIsVoted(refs, cur, tol, |refs|, 0);
    MatchedMeans(refs, cur, tol);
    if tol < 0.0 {
      NoVotes(refs, cur, w.dx, w.dy, tol, |refs|);
    } else if refs != [] {
      TruePairWins(refs, cur, tx, ty, tol);
      FullVoteIsClose(refs, cur, tx, ty, w.dx, w.dy, tol);
    }
  }

  lemma {:induction false} TruePairWins(refs: seq<Star>, cur: seq<Star>, tx: real, ty: real, tol: real)
    requires refs != [] && Shifted(refs, cur, tx, ty) && tol >= 0.0
    ensures Winner(refs, cur, tol).best == |refs|
  {
    hide HasSource, Agreed, Lead;
    assert HasImage(refs[0], cur, tx, ty);
    var c :| c in cur && ShiftOf(refs[0], c, tx, ty);
    var j :| 0 <= j < |cur| && cur[j] == c;
    TrueShiftVotes(refs, cur, tx, ty, tol, |refs|);
    assert c.x - refs[0].x == tx && c.y - refs[0].y == ty;
    LeadIsBest(refs, cur, tol, |refs|, 0, 0, j);
    LeadIsVoted(refs, cur, tol, |refs|, 0);
  }

  // --------------------------------------------------------- sorting and cut

  /** What qsort by falling flux and the cut to `top` may leave of a list. */
  ghost predicate Brightest(all: seq<Star>, top: nat, kept: seq<Star>) {
    exists s: seq<Star> :: SortedBy(all, s) && kept == if |s| > top then s[..top] else s
  }

  ghost predicate SortedBy(all: seq<Star>, s: seq<Star>) {
    multiset(s) == multiset(all) && forall i, j :: 0 <= i < j < |s| ==> s[i].flux >= s[j].flux
  }

  lemma {:induction false} KeptAll(all: seq<Star>, top: nat, kept: seq<Star>)
    requires Brightest(all, top, kept) && |all| <= top
    ensures |kept| == |all| && forall s :: s in kept <==> s in all
  {
    var s: seq<Star> :| SortedBy(all, s) && kept == if |s| > top then s[..top] else s;
    assert |multiset(s)| == |s| && |multiset(all)| == |all|;
    forall t
      ensures t in s <==> t in all
    {
      assert t in multiset(s) <==> t in multiset(all);
    }
  }

  /** The same from the files as read, whatever their order, as long as `--top` keeps every star. */
  lemma {:induction false} FilesRecovered(refAll: seq<Star>, curAll: seq<Star>, top: nat,
                                          refs: seq<Star>, cur: seq<Star>, tx: real, ty: real, tol: real)
    requires |refAll| == |curAll| <= top && forall i :: 0 <= i < |refAll| ==> ShiftOf(refAll[i], curAll[i], tx, ty)
    requires Brightest(refAll, top, refs) && Brightest(curAll, top, cur)
    requires |refAll| >= MIN_VOTES && tol >= 0.0
    ensures
      var o := Drift(refs, cur, tol);
      o.Matched? && o.votes == o.refinedFrom == |refAll|
      && Within(o.dx - tx, 2.0 * tol) && Within(o.dy - ty, 2.0 * tol)
  {
    hide Drift;
    KeptAll(refAll, top, refs);
    KeptAll(curAll, top, cur);
    forall r <- refs
      ensures HasImage(r, cur, tx, ty)
    {
      var i :| 0 <= i < |refAll| && refAll[i] == r;
      assert curAll[i] in cur && ShiftOf(r, curAll[i], tx, ty);
    }
    forall c <- cur
      ensures HasSource(c, refs, tx, ty)
    {
      var i :| 0 <= i < |curAll| && curAll[i] == c;
      assert refAll[i] in refs && ShiftOf(refAll[i], c, tx, ty);
    }
    ShiftRecovered(refs, cur, tx, ty, tol);
  }

  // -------------------------------------------------------------- as it runs

  method HasPartner(r: Star, cur: seq<Star>, dx: real, dy: real, tol: real) returns (found: bool)
    ensures found == Agreed(r, cur, dx, dy, tol)
  {
    for m := 0 to |cur|
      invariant forall c :: 0 <= c < m ==> !Agrees(r, cur[c], dx, dy, tol)
    {
      if Agrees(r, cur[m], dx, dy, tol) {
        return true;
      }
    }
    found := false;
  }

  method CountVotes(refs: seq<Star>, cur: seq<Star>, dx: real, dy: real, tol: real) returns (votes: nat)
    ensures votes == Votes(refs, cur, dx, dy, tol, |refs|)
  {
    votes := 0;
    for k := 0 to |refs|
      invariant votes == Votes(refs, cur, dx, dy, tol, k)
    {
      var found := HasPartner(refs[k], cur, dx, dy, tol);
      if found {
        votes := votes + 1;
      }
    }
  }

  method Vote(refs: seq<Star>, cur: seq<Star>, tol: real) returns (best: nat, bdx: real, bdy: real)
    ensures Leader(best, bdx, bdy) == Winner(refs, cur, tol)
  {
    hide Votes;
    best, bdx, bdy := 0, 0.0, 0.0;
    for i := 0 to |refs|
      invariant Leader(best, bdx, bdy) == Lead(refs, cur, tol, i, 0)
    {
      for j := 0 to |cur|
        invariant Leader(best, bdx, bdy) == Lead(refs, cur, tol, i, j)
      {
        var dx, dy := cur[j].x - refs[i].x, cur[j].y - refs[i].y;
        var votes := CountVotes(refs, cur, dx, dy, tol);
        if votes > best {
          best, bdx, bdy := votes, dx, dy;
        }
      }
    }
  }

  method FindPartner(r: Star, cur: seq<Star>, dx: real, dy: real, tol: real) returns (j: nat)
    ensures j == Partner(r, cur, dx, dy, tol)
  {
    j := 0;
    while j < |cur| && !(Within(cur[j].x - r.x - dx, tol) && Within(cur[j].y - r.y - dy, tol))
      invariant j <= |cur| && forall k :: 0 <= k < j ==> !Agrees(r, cur[k], dx, dy, tol)
    {
      j := j + 1;
    }
  }

  /** The whole comparison of two sorted and cut lists. */
  method Compare(refs: seq<Star>, cur: seq<Star>, tol: real) returns (o: Outcome)
    ensures o == Drift(refs, cur, tol)
  {
    hide Partner, Votes;
    if refs == [] || cur == [] {
      EmptyLead(refs, cur, tol, |refs|);
      return Unmatched(0);
    }
    var best, bdx, bdy := Vote(refs, cur, tol);
    if best < MIN_VOTES {
      return Unmatched(best);
    }
    var sx, sy, n := 0.0, 0.0, 0;
    for i := 0 to |refs|
      invariant n >= 0 && Total(sx, sy, n) == Refined(refs, cur, bdx, bdy, tol, i)
    {
      var j := FindPartner(refs[i], cur, bdx, bdy, tol);
      if j < |cur| {
        sx, sy, n := sx + (cur[j].x - refs[i].x), sy + (cur[j].y - refs[i].y), n + 1;
      }
    }
    if n > 0 {
      bdx, bdy := sx / n as real, sy / n as real;
    }
    o := Matched(bdx, bdy, best, n);
  }

  lemma {:induction false} EmptyLead(refs: seq<Star>, cur: seq<Star>, tol: real, i: nat)
    requires (refs == [] || cur == []) && i <= |refs|
    ensures Lead(refs, cur, tol, i, 0).best == 0
    decreases i
  {
    if i > 0 {
      EmptyLead(refs, cur, tol, i - 1);
    }
  }
}
