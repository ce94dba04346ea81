/** Raising the post-release file-poll budget inside capture_image_with_Bulb. */
module PollBudget {
  import opened Words
  import opened Arm
  import opened Buffers
  import opened ImmediateCodec

  const STOCK_WAIT_BUDGET: word := 0xE3A0_3F96
  const STOCK_WAIT_ITERATIONS := 600
  const BUDGET_REGISTER := 3
  const STOCK_SKIP_BRANCH: word := 0xEA00_0000
  const STOCK_BUDGET_STORE: word := 0xE50B_3014
  const NEW_WAIT_ITERATIONS := 10000
  const RAISED: word := 0xE302_3710

  lemma RaisedWord()
    ensures EncodeMovw(BUDGET_REGISTER, NEW_WAIT_ITERATIONS) == Some(RAISED)
    ensures DecodeMovw(RAISED) == Some((BUDGET_REGISTER, NEW_WAIT_ITERATIONS))
  {
    hide DecodeMovw;
    assert 10000 / 0x1000 == 2 && 10000 % 0x1000 == 0x710;
    DecodeEncodedMovw(BUDGET_REGISTER, NEW_WAIT_ITERATIONS);
  }

  /** The stock word is what the patch takes it for, to the source's decoder and to the processor. */
  lemma StockWord()
    ensures DecodeMovImmediate(STOCK_WAIT_BUDGET) == Some((BUDGET_REGISTER, STOCK_WAIT_ITERATIONS))
    ensures Decode(STOCK_WAIT_BUDGET) == Op32(AL, DpImm(MOV, R3, R0, STOCK_WAIT_ITERATIONS))
  {
    hide RotatedImm, RotateRight, DecodeTransfer, DecodeBlock, DecodeShifted, DecodeBranch;
    var w: word := STOCK_WAIT_BUDGET;
    Rotated600();
    assert w / 0x1000_0000 == 14 && w / 0x200_0000 % 8 == 1 && w / 0x10_0000 % 2 == 0;
    assert w % 256 == 0x96 && w / 0x100 % 16 == 15 && w / 0x1000 % 16 == 3;
    assert DecodeImmediate(w) == Some(DpImm(MOV, R3, R0, 600));
  }

  lemma Rotated600()
    ensures RotatedImm(0x96, 15) == 600
  {
    hide Pow2;
    PowersUsed();
    assert RotateRight(0x96, 30) == 0x96 / 0x4000_0000 + 0x96 % 0x4000_0000 * 4;
  }

  lemma PowersUsed()
    ensures Pow2(30) == 0x4000_0000 && Pow2(2) == 4
  {
  }

  // A function's bytes inside the image.
  datatype Target = Target(offset: nat, size: nat)

  /** The function lies inside the image. */
  predicate Inside(data: seq<byte>, t: Target) {
    t.offset + t.size <= |data|
  }

  /** A position whose neighbours in the function exist. */
  predicate Position(t: Target, p: nat) {
    p % 4 == 0 && 4 <= p && p + 8 <= t.size
  }

  /** The words before and after are the branch that skips the budget and the store that consumes it. */
  predicate Context(data: seq<byte>, t: Target, p: nat)
    requires Inside(data, t) && Position(t, p)
  {
    Load(data, t.offset + p - 4) == STOCK_SKIP_BRANCH && Load(data, t.offset + p + 4) == STOCK_BUDGET_STORE
  }

  /** Some(raised) if the position holds the budget, stock or raised. */
  function Kind(data: seq<byte>, t: Target, p: nat): Option<bool>
    requires Inside(data, t) && Position(t, p)
  {
    if !Context(data, t, p) then None
    else
      var w := Load(data, t.offset + p);
      if w == STOCK_WAIT_BUDGET then Some(false)
      else if DecodeMovw(w) == Some((BUDGET_REGISTER, NEW_WAIT_ITERATIONS)) then Some(true)
      else None
  }

  predicate IsSite(data: seq<byte>, t: Target, p: nat) {
    Inside(data, t) && Position(t, p) && Kind(data, t, p).Some?
  }

  /** A site in the words themselves: the stock or the raised budget, and no other word, between its two neighbours. */
  lemma {:induction false} SiteIs(data: seq<byte>, t: Target, p: nat)
    ensures IsSite(data, t, p)
            <==>
            && t.offset + t.size <= |data| && 4 <= p <= t.size - 8 && p % 4 == 0
            && Load(data, t.offset + p - 4) == 0xEA00_0000
            && Load(data, t.offset + p) in {0xE3A0_3F96, 0xE302_3710}
            && Load(data, t.offset + p + 4) == 0xE50B_3014
    ensures IsSite(data, t, p) ==> (Kind(data, t, p) == Some(true) <==> Load(data, t.offset + p) == 0xE302_3710)
  {
    hide Load, DecodeMovw;
    RaisedWord();
    if t.offset + p + 4 <= |data| {
      var w := Load(data, t.offset + p);
      if DecodeMovw(w) == Some((BUDGET_REGISTER, NEW_WAIT_ITERATIONS)) {
        EncodeDecodedMovw(w);
      }
    }
  }

  /** The one position of the function that holds the budget. */
  ghost predicate OnlySite(data: seq<byte>, t: Target, p: nat) {
    IsSite(data, t, p) && forall q: nat :: IsSite(data, t, q) ==> q == p
  }

  /** What the search answers: the site and whether it is raised already, if there is exactly one. */
  ghost predicate Finds(data: seq<byte>, t: Target, found: Option<(nat, bool)>)
    requires Inside(data, t)
  {
    match found
    case Some((p, raised)) => OnlySite(data, t, p) && Kind(data, t, p) == Some(raised)
    case None => forall p: nat :: !OnlySite(data, t, p)
  }

  /** The candidates below p, in order. */
  ghost predicate Listed(data: seq<byte>, t: Target, p: nat, candidates: seq<(nat, bool)>)
    requires Inside(data, t)
  {
    && (forall i :: 0 <= i < |candidates| ==> candidates[i].0 < p && IsSite(data, t, candidates[i].0)
                                              && Kind(data, t, candidates[i].0) == Some(candidates[i].1))
    && (forall q: nat :: q < p && IsSite(data, t, q) ==> exists i :: 0 <= i < |candidates| && candidates[i].0 == q)
    && (forall i, j :: 0 <= i < j < |candidates| ==> candidates[i].0 < candidates[j].0)
  }

  lemma {:induction false} ListNext(data: seq<byte>, t: Target, p: nat, candidates: seq<(nat, bool)>)
    requires Inside(data, t) && Position(t, p) && Listed(data, t, p, candidates)
    ensures Listed(data, t, p + 4, match Kind(data, t, p) case None => candidates case Some(k) => candidates + [(p, k)])
  {
    hide Kind;
    var more := match Kind(data, t, p) case None => candidates case Some(k) => candidates + [(p, k)];
    forall q: nat | q < p + 4 && IsSite(data, t, q)
      ensures exists i :: 0 <= i < |more| && more[i].0 == q
    {
      assert q % 4 == 0;
      if q < p {
        var i :| 0 <= i < |candidates| && candidates[i].0 == q;
        assert more[i].0 == q;
      } else {
        assert more[|candidates|].0 == q;
      }
    }
  }

  /** The search: every aligned position in turn, the candidates listed. */
  method FindWaitBudget(data: seq<byte>, t: Target) returns (found: Option<(nat, bool)>)
    requires Inside(data, t)
    ensures Finds(data, t, found)
  {
    hide Listed, Kind, Finds;
    var candidates: seq<(nat, bool)> := [];
    ListNone(data, t);
    var p := 4;
    while p + 8 <= t.size
      invariant p % 4 == 0 && p >= 4 && Listed(data, t, p, candidates)
    {
      var kind := Candidate(data, t, p);
      ListNext(data, t, p, candidates);
      if kind.Some? {
        candidates := candidates + [(p, kind.value)];
      }
      p := p + 4;
    }
    ListSettles(data, t, p, candidates);
    found := if |candidates| == 1 then Some(candidates[0]) else None;
  }

  lemma ListNone(data: seq<byte>, t: Target)
    requires Inside(data, t)
    ensures Listed(data, t, 4, [])
  {
  }

  lemma {:induction false} ListSettles(data: seq<byte>, t: Target, p: nat, candidates: seq<(nat, bool)>)
    requires Inside(data, t) && Listed(data, t, p, candidates) && p + 8 > t.size
    ensures Finds(data, t, if |candidates| == 1 then Some(candidates[0]) else None)
  {
    hide Kind;
    if |candidates| > 1 {
      assert IsSite(data, t, candidates[0].0) && IsSite(data, t, candidates[1].0);
    }
  }

  method Candidate(data: seq<byte>, t: Target, p: nat) returns (kind: Option<bool>)
    requires Inside(data, t) && Position(t, p)
    ensures kind == Kind(data, t, p)
  {
    var preceding := Load(data, t.offset + p - 4);
    var following := Load(data, t.offset + p + 4);
    if preceding != STOCK_SKIP_BRANCH || following != STOCK_BUDGET_STORE {
      return None;
    }
    var w := Load(data, t.offset + p);
    if w == STOCK_WAIT_BUDGET {
      return Some(false);
    } else if DecodeMovw(w) == Some((BUDGET_REGISTER, NEW_WAIT_ITERATIONS)) {
      return Some(true);
    }
    kind := None;
  }

  /** What `patch_data` answers: None is the ValueError; otherwise the new image and whether it changed. */
  ghost predicate Raises(data: seq<byte>, t: Target, r: Option<(seq<byte>, bool)>)
    requires Inside(data, t)
  {
    match r
    case None => forall p: nat :: !OnlySite(data, t, p)
    case Some((after, changed)) =>
      exists p: nat :: OnlySite(data, t, p) && changed == (Kind(data, t, p) == Some(false))
                       && after == if changed then Store(data, t.offset + p, RAISED) else data
  }

  lemma SiteInside(data: seq<byte>, t: Target, p: nat)
    requires Inside(data, t) && OnlySite(data, t, p)
    ensures Position(t, p) && t.offset + p + 4 <= |data|
  {
    hide Kind;
  }

  lemma StockDiffers(data: seq<byte>, t: Target, p: nat)
    requires Inside(data, t) && Position(t, p) && Kind(data, t, p) == Some(false)
    ensures Store(data, t.offset + p, RAISED) != data
  {
    hide Load, Store;
    LoadStore(data, t.offset + p, RAISED, t.offset + p);
  }

  method PatchData(data: seq<byte>, t: Target) returns (r: Option<(seq<byte>, bool)>)
    requires Inside(data, t)
    ensures Raises(data, t, r)
  {
    hide DecodeMovImmediate, EncodeMovw, DecodeMovw, Decode, Store, Load, OnlySite, Kind, IsSite;
    var site := FindWaitBudget(data, t);
    if site.None? {
      return None;
    }
    var (p, alreadyPatched) := site.value;
    SiteInside(data, t, p);
    if alreadyPatched {
      return Some((data, false));
    }
    StockWord();
    RaisedWord();
    var stock := DecodeMovImmediate(STOCK_WAIT_BUDGET);
    if stock != Some((BUDGET_REGISTER, STOCK_WAIT_ITERATIONS)) {
      return None;
    }
    var replacement := EncodeMovw(stock.value.0, NEW_WAIT_ITERATIONS);
    if DecodeMovw(replacement.value) != Some((stock.value.0, NEW_WAIT_ITERATIONS)) {
      return None;
    }
    var patched := CopyOf(data);
    PackInto(patched, t.offset + p, replacement.value);
    StockDiffers(data, t, p);
    r := Some((patched[..], patched[..] != data));
  }

  // ------------------------------------------------------------------- laws

  /** Raising the budget leaves every other site's kind alone and turns this one's to raised. */
  lemma {:induction false} KindAfter(data: seq<byte>, t: Target, p: nat, q: nat)
    requires Inside(data, t) && Position(t, p) && Position(t, q) && Kind(data, t, p) == Some(false)
    ensures
      var after := Store(data, t.offset + p, RAISED);
      Kind(after, t, q) == if q == p then Some(true) else Kind(data, t, q)
  {
    hide DecodeMovw, Load, Store;
    RaisedWord();
    LoadStore(data, t.offset + p, RAISED, t.offset + q - 4);
    LoadStore(data, t.offset + p, RAISED, t.offset + q);
    LoadStore(data, t.offset + p, RAISED, t.offset + q + 4);
  }

  /**
   One word changes and nothing else; the same position is then found again, alone and raised; and a
   second patch returns the same bytes and reports no change.
   */
  lemma {:induction false} PatchOnce(data: seq<byte>, t: Target, after: seq<byte>, changed: bool,
                                     again: Option<(seq<byte>, bool)>)
    requires Inside(data, t) && Raises(data, t, Some((after, changed))) && |after| == |data|
    requires Raises(after, t, again)
    ensures changed <==> after != data
    ensures exists p: nat :: OneWordRaised(data, t, p, after, changed)
    ensures again == Some((after, false))
  {
    hide Kind, Store, Load;
    var p: nat :| OnlySite(data, t, p) && changed == (Kind(data, t, p) == Some(false))
                  && after == if changed then Store(data, t.offset + p, RAISED) else data;
    RaisedHere(data, t, p, after, changed);
  }

  /** The site's word is raised, every other byte as it was, and the position is now the only site, raised. */
  ghost predicate OneWordRaised(data: seq<byte>, t: Target, p: nat, after: seq<byte>, changed: bool) {
    && |after| == |data| && Inside(data, t) && OnlySite(data, t, p)
    && (changed <==> Load(data, t.offset + p) == STOCK_WAIT_BUDGET)
    && Load(after, t.offset + p) == RAISED
    && (forall i :: 0 <= i < |data| && !(t.offset + p <= i < t.offset + p + 4) ==> after[i] == data[i])
    && OnlySite(after, t, p) && Kind(after, t, p) == Some(true)
  }

  lemma {:induction false} RaisedHere(data: seq<byte>, t: Target, p: nat, after: seq<byte>, changed: bool)
    requires Inside(data, t) && OnlySite(data, t, p) && changed == (Kind(data, t, p) == Some(false))
    requires after == if changed then Store(data, t.offset + p, RAISED) else data
    ensures OneWordRaised(data, t, p, after, changed) && (changed <==> after != data)
  {
    hide DecodeMovw, Load, Context;
    RaisedWord();
    if changed {
      LoadStore(data, t.offset + p, RAISED, t.offset + p);
      forall q: nat | Position(t, q)
        ensures Kind(after, t, q) == if q == p then Some(true) else Kind(data, t, q)
      {
        KindAfter(data, t, p, q);
      }
      assert forall q: nat :: IsSite(after, t, q) <==> IsSite(data, t, q);
    } else {
      RaisedOnly(Load(data, t.offset + p));
    }
  }

  /** Only one word reads as the raised budget. */
  lemma RaisedOnly(w: word)
    requires DecodeMovw(w) == Some((BUDGET_REGISTER, NEW_WAIT_ITERATIONS))
    ensures w == RAISED
  {
    EncodeDecodedMovw(w);
    RaisedWord();
  }
}
