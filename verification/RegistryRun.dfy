/** Runs of recordings, each of which may crash between its writes. */
module RegistryRun {
  import opened Words
  import opened RegistryText
  import opened RegistryModel

  // One `--record`; the machine goes down once `wrote` of its writes have reached the file.
  datatype Try = Try(candidate: string, commits: Commits, wrote: nat)

  ghost function Done(f: File, t: Try): (k: nat)
    ensures k <= 3 && k <= |Writes(f, t.candidate, t.commits)|
  {
    var w := |Writes(f, t.candidate, t.commits)|;
    if t.wrote < w then t.wrote else w
  }

  ghost function After(f: File, t: Try): File {
    if Done(f, t) == 0 then f else Writes(f, t.candidate, t.commits)[Done(f, t) - 1]
  }

  /** The version is out as soon as the first write has landed. */
  ghost function Issue(f: File, t: Try): Option<Version> {
    if Done(f, t) == 0 then None else Parse(t.candidate)
  }

  ghost function Run(f: File, tries: seq<Try>): File
    decreases |tries|
  {
    if tries == [] then f else Run(After(f, tries[0]), tries[1..])
  }

  ghost function Issued(f: File, tries: seq<Try>): seq<Version>
    decreases |tries|
  {
    if tries == [] then []
    else (if Issue(f, tries[0]).Some? then [Issue(f, tries[0]).value] else [])
         + Issued(After(f, tries[0]), tries[1..])
  }

  predicate Named(c: Commits) {
    Hex(c.libg) && Hex(c.patcher)
  }

  // --------------------------------------------------------------- one try

  lemma {:induction false} FirstWrite(f: File, v: Version, c: Commits)
    requires Permitted(f, v, c)
    ensures
      var g := SetLast(f, v);
      && LastOf(g) == Some(v) && ConsumedReadable(g) && BindingsReadable(g) && CommitsAccepted(g, v, c)
      && (HasConsumed(g) <==> HasConsumed(f))
      && (forall w :: IsConsumed(g, w) <==> IsConsumed(f, w))
      && (forall w, d :: Bound(g, w, d) <==> Bound(f, w, d))
  {
    SetLastIsLast(f, v);
    SetLastMembers(f, v);
    SameReading(f, SetLast(f, v));
  }

  lemma {:induction false} SecondWrite(f: File, v: Version, c: Commits)
    requires LastOf(f) == Some(v) && ConsumedReadable(f) && BindingsReadable(f) && CommitsAccepted(f, v, c)
    requires !IsConsumed(f, v) && HasConsumed(f)
    ensures Claim(f, v).Some?
    ensures
      var g := Claim(f, v).value;
      && LastOf(g) == Some(v) && ConsumedReadable(g) && BindingsReadable(g) && CommitsAccepted(g, v, c)
      && HasConsumed(g)
      && (forall w :: IsConsumed(g, w) <==> IsConsumed(f, w) || w == v)
      && (forall w, d :: Bound(g, w, d) <==> Bound(f, w, d))
  {
    var g := Claim(f, v).value;
    InsertMembers(f, PastFirstConsumed(f), Consumed(Print(v)));
    InsertKeepsLast(f, PastFirstConsumed(f), Consumed(Print(v)));
    AddedConsumed(f, g, v);
  }

  lemma {:induction false} ThirdWrite(f: File, v: Version, c: Commits)
    requires LastOf(f) == Some(v) && ConsumedReadable(f) && BindingsReadable(f) && CommitsAccepted(f, v, c)
    requires HasConsumed(f)
    ensures Bind(f, v, c).Some?
    ensures
      var g := Bind(f, v, c).value;
      && LastOf(g) == Some(v) && ConsumedReadable(g)
      && (forall w :: IsConsumed(g, w) <==> IsConsumed(f, w))
      && (forall w, d :: Bound(g, w, d) <==> Bound(f, w, d) || (Named(c) && w == v && d == c))
      && (BindingsReadable(g) <==> Named(c))
  {
    var l :| l in f && l.Consumed?;
    var i :| 0 <= i < |f| && f[i] == l;
    assert PastLast(f, false) > 0;
    var g := Bind(f, v, c).value;
    var line := BindingLine(v, c);
    assert !line.Last?;
    if line !in f {
      var at := if PastLast(f, true) > 0 then PastLast(f, true) else PastLast(f, false);
      InsertMembers(f, at, line);
      InsertKeepsLast(f, at, line);
    }
    AddedBinding(f, g, v, c);
    if Named(c) {
      StillOneBuild(f, g, v, c);
    }
  }

  lemma {:induction false} StillOneBuild(f: File, g: File, v: Version, c: Commits)
    requires BindingsReadable(f) && CommitsAccepted(f, v, c)
    requires forall w, d :: Bound(g, w, d) <==> Bound(f, w, d) || (w == v && d == c)
    ensures OneBuildEach(g)
  {
    hide Bound;
  }

  /** What a try that wrote anything leaves, wherever it stopped. */
  lemma {:induction false} TryEffect(f: File, t: Try)
    requires Done(f, t) > 0
    ensures Parse(t.candidate).Some? && Permitted(f, Parse(t.candidate).value, t.commits)
    ensures
      var v, g := Parse(t.candidate).value, After(f, t);
      && LastOf(g) == Some(v) && ConsumedReadable(g)
      && (forall w :: IsConsumed(g, w) <==> IsConsumed(f, w) || (Done(f, t) >= 2 && w == v))
      && (forall w, d ::
            Bound(g, w, d) <==> Bound(f, w, d) || (Done(f, t) == 3 && Named(t.commits) && w == v && d == t.commits))
      && (BindingsReadable(g) <==> Done(f, t) < 3 || Named(t.commits))
    ensures |Writes(f, t.candidate, t.commits)| == if HasConsumed(f) then 3 else 1
  {
    hide SetLast, Claim, Bind, LastOf, ConsumedReadable, BindingsReadable, IsConsumed, Bound;
    hide HasConsumed, CommitsAccepted;
    var v, c := Parse(t.candidate).value, t.commits;
    FirstWrite(f, v, c);
    var one := SetLast(f, v);
    if HasConsumed(f) {
      SecondWrite(one, v, c);
      ThirdWrite(Claim(one, v).value, v, c);
    } else {
      NothingToClaim(one, v);
    }
  }

  lemma {:induction false} NothingToClaim(f: File, v: Version)
    requires !HasConsumed(f)
    ensures Claim(f, v).None?
  {
  }

  // -------------------------------------------------------------- one to one

  lemma {:induction false} StillOneVersion(f: File, g: File, v: Version, c: Commits)
    requires OneVersionEach(f) && CommitsAccepted(f, v, c)
    requires forall w, d :: Bound(g, w, d) ==> Bound(f, w, d) || (w == v && d == c)
    ensures OneVersionEach(g)
  {
    hide Bound;
  }

  /** The bindings stay one-to-one over every run, crashes included. */
  lemma {:induction false} OneToOneKept(f: File, tries: seq<Try>)
    requires OneVersionEach(f) && OneBuildEach(f)
    ensures OneVersionEach(Run(f, tries)) && OneBuildEach(Run(f, tries))
    decreases |tries|
  {
    hide Writes, CommitsAccepted, OneVersionEach, OneBuildEach, Bound;
    if tries != [] {
      OneTryOneToOne(f, tries[0]);
      OneToOneKept(After(f, tries[0]), tries[1..]);
    }
  }

  lemma {:induction false} OneTryOneToOne(f: File, t: Try)
    requires OneVersionEach(f) && OneBuildEach(f)
    ensures OneVersionEach(After(f, t)) && OneBuildEach(After(f, t))
  {
    hide Writes, Bound;
    if Done(f, t) > 0 {
      TryEffect(f, t);
      StillOneVersion(f, After(f, t), Parse(t.candidate).value, t.commits);
    }
  }

  // ------------------------------------------------------------- append only

  /** Nothing issued or bound is ever forgotten. */
  lemma {:induction false} AppendOnly(f: File, tries: seq<Try>, v: Version, c: Commits)
    ensures IsConsumed(f, v) ==> IsConsumed(Run(f, tries), v)
    ensures Bound(f, v, c) ==> Bound(Run(f, tries), v, c)
    decreases |tries|
  {
    hide Writes, CommitsAccepted, IsConsumed, Bound;
    if tries != [] {
      if Done(f, tries[0]) > 0 {
        TryEffect(f, tries[0]);
      }
      AppendOnly(After(f, tries[0]), tries[1..], v, c);
    }
  }

  // ------------------------------------------------------------ never again

  predicate Later(a: Version, b: Version) {
    SameFamily(a, b) && Less(a, b)
  }

  lemma {:induction false} LaterTransitive(a: Version, b: Version, c: Version)
    requires Later(a, b) && Later(b, c)
    ensures Later(a, c)
  {
    FamilyOrder(a, b);
    FamilyOrder(b, c);
    FamilyOrder(a, c);
  }

  /**
   Every version a run issues is above the baseline it started from and above every version issued
   before it, and none had been issued already: so no version goes out twice, even if each recording
   crashed after its first write.
   */
  lemma {:induction false} NeverReissued(f: File, tries: seq<Try>)
    ensures
      var out := Issued(f, tries);
      && (forall i, j :: 0 <= i < j < |out| ==> Later(out[i], out[j]))
      && (forall v <- out :: LastOf(f).Some? && Later(LastOf(f).value, v) && !IsConsumed(f, v))
    decreases |tries|
  {
    hide Writes, CommitsAccepted, IsConsumed, Bound, Later, LastOf;
    if tries != [] {
      var g := After(f, tries[0]);
      NeverReissued(g, tries[1..]);
      if Done(f, tries[0]) > 0 {
        TryEffect(f, tries[0]);
        var v, rest := Parse(tries[0].candidate).value, Issued(g, tries[1..]);
        IssueLater(f, v);
        forall w <- rest
          ensures Later(LastOf(f).value, w) && !IsConsumed(f, w)
        {
          LaterTransitive(LastOf(f).value, v, w);
        }
      }
    }
  }

  lemma {:induction false} IssueLater(f: File, v: Version)
    requires Monotonic(f, v)
    ensures Later(LastOf(f).value, v)
  {
  }

  /** The baseline is always the last version issued. */
  lemma {:induction false} BaselineIsLastIssued(f: File, tries: seq<Try>)
    ensures
      var out := Issued(f, tries);
      LastOf(Run(f, tries)) == if out == [] then LastOf(f) else Some(out[|out| - 1])
    decreases |tries|
  {
    hide Writes, LastOf;
    if tries != [] {
      if Done(f, tries[0]) > 0 {
        TryEffect(f, tries[0]);
      }
      BaselineIsLastIssued(After(f, tries[0]), tries[1..]);
    }
  }

  // -------------------------------------------------------------------- next

  function ConsumedList(f: File): (vs: seq<Version>)
    requires ConsumedReadable(f)
    ensures forall v :: v in vs <==> IsConsumed(f, v)
  {
    if f == [] then []
    else
      assert forall v :: IsConsumed(f, v) <==> IsConsumed([f[0]], v) || IsConsumed(f[1..], v);
      (if f[0].Consumed? then [Parse(f[0].raw).value] else []) + ConsumedList(f[1..])
  }

  /** The highest last component among the baseline and the registry. */
  function Top(last: Version, known: seq<Version>): (n: nat)
    ensures n >= last[4] && forall v <- known :: v[4] <= n
    ensures n == last[4] || exists v <- known :: v[4] == n
  {
    if known == [] then last[4]
    else var n := Top(last, known[..|known| - 1]); var x := known[|known| - 1][4]; if x > n then x else n
  }

  /** None when the registry holds another family. */
  function Next(last: Version, known: seq<Version>): Option<Version> {
    if forall v <- known :: SameFamily(v, last) then Some(last[..4] + [Top(last, known) + 1]) else None
  }

  /** What `--next` prints is accepted, and is one past a version already out: the least that exceeds them all. */
  lemma {:induction false} NextAccepted(f: File)
    requires Readable(f) && Next(LastOf(f).value, ConsumedList(f)).Some?
    ensures
      var v := Next(LastOf(f).value, ConsumedList(f)).value;
      && Parse(Print(v)) == Some(v) && Monotonic(f, v)
      && (forall w :: IsConsumed(f, w) || w == LastOf(f).value ==> Later(w, v))
      && (exists w :: (IsConsumed(f, w) || w == LastOf(f).value) && w[4] + 1 == v[4])
  {
    hide IsConsumed, LastOf, BindingsReadable, ConsumedReadable;
    var last, known := LastOf(f).value, ConsumedList(f);
    var v := Next(last, known).value;
    ParsePrint(v);
    assert v[..4] == last[..4] && v[4] == Top(last, known) + 1;
    forall w | IsConsumed(f, w) || w == last
      ensures Later(w, v)
    {
      assert w in known || w == last;
      FamilyOrder(w, v);
    }
    assert Later(last, v) && !IsConsumed(f, v) by {
      FamilyOrder(last, v);
      assert v !in known;
    }
    TopIsKnown(last, known, v);
  }

  lemma {:induction false} TopIsKnown(last: Version, known: seq<Version>, v: Version)
    requires v[4] == Top(last, known) + 1
    ensures exists w: Version :: (w in known || w == last) && w[4] + 1 == v[4]
  {
    if Top(last, known) != last[4] {
      var w :| w in known && w[4] == Top(last, known);
      assert w[4] + 1 == v[4];
    }
  }

  /**
   Recording what `--next` prints, with commits not yet issued, goes through to the last write; and
   the file it leaves can be read again exactly when both commits are hexadecimal, which nothing checks.
   */
  lemma {:induction false} NextRecorded(f: File, c: Commits)
    requires Readable(f) && HasConsumed(f) && Next(LastOf(f).value, ConsumedList(f)).Some?
    requires c.libg != "" && c.patcher != "" && c.libg != UNKNOWN && c.patcher != UNKNOWN
    requires (forall w :: !Bound(f, w, c))
    requires forall d :: !Bound(f, Next(LastOf(f).value, ConsumedList(f)).value, d)
    ensures
      var v := Next(LastOf(f).value, ConsumedList(f)).value;
      var t := Try(Print(v), c, 3);
      var g := After(f, t);
      && Done(f, t) == 3 && LastOf(g) == Some(v) && IsConsumed(g, v)
      && (Readable(g) <==> Named(c))
      && (Named(c) ==> Bound(g, v, c))
  {
    hide Bind, Claim, IsConsumed, Bound, HasConsumed, LastOf, Next, Monotonic, Writes, Named, BindingsReadable,
      ConsumedReadable;
    NextAccepted(f);
    var v := Next(LastOf(f).value, ConsumedList(f)).value;
    assert Permitted(f, v, c);
    SomeWrites(f, v, c);
    hide Permitted, CommitsAccepted;
    TryEffect(f, Try(Print(v), c, 3));
  }

  /** Branch names for commits are taken: recording the next version over a two-line file leaves it unreadable. */
  lemma {:induction false} BranchNamesRecorded(v: Version)
    ensures
      var f := [Last(Print(v)), Consumed(Print(v))];
      var next: Version := v[..4] + [v[4] + 1];
      var t := Try(Print(next), Commits("main", "main"), 3);
      Readable(f) && Done(f, t) == 3 && LastOf(After(f, t)) == Some(next) && !Readable(After(f, t))
  {
    hide Writes, Parse, Print;
    var f := [Last(Print(v)), Consumed(Print(v))];
    var next: Version := v[..4] + [v[4] + 1];
    ParsePrint(v);
    ParsePrint(next);
    FamilyOrder(v, next);
    FamilyOrder(next, v);
    assert f[1] in f;
    assert Permitted(f, next, Commits("main", "main"));
    assert |Writes(f, Print(next), Commits("main", "main"))| > 0 by {
      SomeWrites(f, next, Commits("main", "main"));
    }
    TryEffect(f, Try(Print(next), Commits("main", "main"), 3));
    assert "main"[0] == 'm';
  }

  lemma SomeWrites(f: File, v: Version, c: Commits)
    requires Permitted(f, v, c)
    ensures Writes(f, Print(v), c) != []
  {
    hide Permitted, SetLast, Claim, Bind;
    ParsePrint(v);
  }

  // ------------------------------------------- what is taken, and where it goes

  /** Every entry a reader looks at reads back, and no version has two builds. */
  ghost predicate Sound(f: File) {
    && (exists l <- f :: l.Last?) && LastOf(f).Some?
    && (forall l <- f :: !l.Malformed? && (l.Consumed? || l.Binding? ==> Parse(l.raw).Some?))
    && OneBuildEach(f)
  }

  predicate Known(commit: string) {
    commit != "" && commit != "unknown"
  }

  /** Version and commits belong together already, or neither has been bound. */
  ghost predicate Unclaimed(f: File, v: Version, c: Commits) {
    || (exists l <- f :: l.Binding? && Parse(l.raw) == Some(v) && l.commits == c)
    || (forall l <- f :: l.Binding? ==> Parse(l.raw) != Some(v) && l.commits != c)
  }

  lemma {:induction false} LastIsThere(f: File)
    requires LastOf(f).Some?
    ensures HasLast(f)
  {
    if f[0].Last? {
      assert f[0] in f;
    } else {
      LastIsThere(f[1..]);
    }
  }

  lemma {:induction false} UnclaimedIff(f: File, v: Version, c: Commits)
    requires forall l <- f :: l.Binding? ==> Parse(l.raw).Some?
    ensures Unclaimed(f, v, c) <==> Bound(f, v, c) || ((forall d :: !Bound(f, v, d)) && (forall w :: !Bound(f, w, c)))
  {
    hide Parse;
    forall l <- f | l.Binding?
      ensures Bound(f, Parse(l.raw).value, l.commits)
    {
      assert Binds(l, Parse(l.raw).value, l.commits);
    }
  }

  /**
   A recording writes anything exactly if the candidate is a version of the baseline's family with a higher last
   component, not issued before, both commits are known, and neither it nor they are bound otherwise, in a file
   whose every entry reads back.
   */
  lemma {:induction false} RecordedIff(f: File, candidate: string, c: Commits)
    ensures Writes(f, candidate, c) != []
            <==>
            && Parse(candidate).Some? && Sound(f)
            && var v, last := Parse(candidate).value, LastOf(f).value;
            && v[..4] == last[..4] && v[4] > last[4]
            && (forall l <- f :: l.Consumed? ==> Parse(l.raw) != Some(v))
            && Known(c.libg) && Known(c.patcher) && Unclaimed(f, v, c)
  {
    hide Parse, Less, Claim, Bind, SetLast, LastOf, Bound, OneBuildEach;
    if Parse(candidate).Some? && LastOf(f).Some? {
      if SameFamily(LastOf(f).value, Parse(candidate).value) {
        FamilyOrder(LastOf(f).value, Parse(candidate).value);
      }
      LastIsThere(f);
      if BindingsParse(f) {
        UnclaimedIff(f, Parse(candidate).value, c);
      }
    }
  }

  /** The claim goes in second, behind the registry's first entry, and nothing else moves. */
  lemma {:induction false} ClaimGoes(f: File, v: Version)
    requires Claim(f, v).Some?
    ensures exists i :: 0 < i <= |f| && Claim(f, v).value == f[..i] + [Consumed(Print(v))] + f[i..]
                        && f[i - 1].Consumed? && forall j :: 0 <= j < i - 1 ==> !f[j].Consumed?
  {
    hide Print, IsConsumed, ConsumedReadable;
    var i := PastFirstConsumed(f);
    assert Claim(f, v).value == f[..i] + [Consumed(Print(v))] + f[i..];
  }

  /** A line of the kind the binding follows: a binding, or if the file has none a registry entry. */
  predicate Leads(f: File, l: Line) {
    if exists m <- f :: m.Binding? then l.Binding? else l.Consumed?
  }

  /** The binding goes in behind the last binding, or if there is none the last registry entry, unless it is there. */
  lemma {:induction false} BindingGoes(f: File, v: Version, c: Commits)
    requires Bind(f, v, c).Some?
    ensures
      var g, l := Bind(f, v, c).value, BindingLine(v, c);
      if l in f then g == f
      else exists i :: 0 < i <= |f| && g == f[..i] + [l] + f[i..] && Leads(f, f[i - 1])
                       && forall j :: i <= j < |f| ==> !Leads(f, f[j])
  {
    hide BindingLine, BindingsReadable, CommitsAccepted;
    var g, l := Bind(f, v, c).value, BindingLine(v, c);
    if l !in f {
      var i := if PastLast(f, true) > 0 then PastLast(f, true) else PastLast(f, false);
      assert g == f[..i] + [l] + f[i..];
      if PastLast(f, true) > 0 {
        assert f[i - 1] in f;
      }
    }
  }

  /** What reads back as a commit is four to forty lower-case hexadecimal digits. */
  lemma {:induction false} HexIs(s: string)
    ensures Hex(s) <==> 4 <= |s| <= 40 && forall c <- s :: c in "0123456789abcdef"
  {
    forall c: char
      ensures HexDigit(c) <==> c in "0123456789abcdef"
    {
      HexDigitIs(c);
    }
    hide HexDigit;
  }

  lemma {:induction false} HexDigitIs(c: char)
    ensures HexDigit(c) <==> c in "0123456789abcdef"
  {
    var all := "0123456789abcdef";
    assert |all| == 16;
    if '0' <= c <= '9' {
      assert all[c as int - '0' as int] == c;
    } else if 'a' <= c <= 'f' {
      assert all[10 + (c as int - 'a' as int)] == c;
    }
  }
}
