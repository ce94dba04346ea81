/**
 The release-state file as a list of lines, and what `--next` and `--record` do to it. A crash may end a
 recording after any of its three writes.
 */
module RegistryModel {
  import opened Words
  import opened RegistryText

  datatype Commits = Commits(libg: string, patcher: string)

  // A line by the pattern it matches; a binding line that fits no pattern is Malformed.
  datatype Line =
    | Last(raw: string)
    | Consumed(raw: string)
    | Binding(raw: string, commits: Commits)
    | Malformed(text: string)
    | Other(text: string)

  type File = seq<Line>

  const UNKNOWN := "unknown"

  // ----------------------------------------------------------------- reading

  predicate HasLast(f: File) {
    exists l <- f :: l.Last?
  }

  predicate HasConsumed(f: File) {
    exists l <- f :: l.Consumed?
  }

  /** The first baseline entry. */
  function LastOf(f: File): Option<Version> {
    if f == [] then None else if f[0].Last? then Parse(f[0].raw) else LastOf(f[1..])
  }

  predicate ConsumedReadable(f: File) {
    forall l <- f :: l.Consumed? ==> Parse(l.raw).Some?
  }

  predicate IsConsumed(f: File, v: Version) {
    exists l <- f :: l.Consumed? && Parse(l.raw) == Some(v)
  }

  predicate Binds(l: Line, v: Version, c: Commits) {
    l.Binding? && Parse(l.raw) == Some(v) && l.commits == c
  }

  predicate Bound(f: File, v: Version, c: Commits) {
    exists l <- f :: Binds(l, v, c)
  }

  /** One version describes one commit set. */
  ghost predicate OneBuildEach(f: File) {
    forall v, c, d :: Bound(f, v, c) && Bound(f, v, d) ==> c == d
  }

  /** One commit set has one version. */
  ghost predicate OneVersionEach(f: File) {
    forall v, w, c :: Bound(f, v, c) && Bound(f, w, c) ==> v == w
  }

  predicate BindingsParse(f: File) {
    forall l <- f :: !l.Malformed? && (l.Binding? ==> Parse(l.raw).Some?)
  }

  ghost predicate BindingsReadable(f: File) {
    BindingsParse(f) && OneBuildEach(f)
  }

  ghost predicate Readable(f: File) {
    LastOf(f).Some? && ConsumedReadable(f) && BindingsReadable(f)
  }

  // -------------------------------------------------------------- validation

  predicate Monotonic(f: File, v: Version) {
    LastOf(f).Some? && SameFamily(v, LastOf(f).value) && Less(LastOf(f).value, v) && !IsConsumed(f, v)
  }

  /** `validate_commit_set`: the same pair again, or a version and a commit set both new. */
  ghost predicate CommitsAccepted(f: File, v: Version, c: Commits) {
    && c.libg != UNKNOWN && c.patcher != UNKNOWN
    && (Bound(f, v, c) || ((forall d :: !Bound(f, v, d)) && (forall w :: !Bound(f, w, c))))
  }

  // ------------------------------------------------------------------ writes

  predicate HexDigit(c: char) {
    '0' <= c <= '9' || 'a' <= c <= 'f'
  }

  predicate Hex(s: string) {
    4 <= |s| <= 40 && forall i :: 0 <= i < |s| ==> HexDigit(s[i])
  }

  /** The binding as it will be read back. */
  function BindingLine(v: Version, c: Commits): Line {
    if Hex(c.libg) && Hex(c.patcher) then Binding(Print(v), c)
    else Malformed("version_commit_binding=" + Print(v) + "|libgphoto2=" + c.libg + "|patcher=" + c.patcher)
  }

  function SetLast(f: File, v: Version): (g: File)
    ensures |g| == |f| && forall i :: 0 <= i < |f| ==> g[i] == if f[i].Last? then Last(Print(v)) else f[i]
  {
    if f == [] then [] else [if f[0].Last? then Last(Print(v)) else f[0]] + SetLast(f[1..], v)
  }

  /** The new line goes after the first i lines. */
  function Insert(f: File, i: nat, l: Line): File
    requires i <= |f|
  {
    f[..i] + [l] + f[i..]
  }

  /** One past the first registry entry: where the claiming loop, which never breaks, ends up. */
  function PastFirstConsumed(f: File): (i: nat)
    requires HasConsumed(f)
    ensures 0 < i <= |f| && f[i - 1].Consumed? && forall j :: 0 <= j < i - 1 ==> !f[j].Consumed?
  {
    if f[0].Consumed? then 1
    else
      assert HasConsumed(f[1..]) by {
        var l :| l in f && l.Consumed?;
        assert l in f[1..];
      }
      1 + PastFirstConsumed(f[1..])
  }

  /** One past the last line that is a binding, or else a registry entry; 0 if there is neither. */
  function PastLast(f: File, bindings: bool): (i: nat)
    ensures i <= |f| && (i > 0 ==> (if bindings then f[i - 1].Binding? else f[i - 1].Consumed?))
    ensures forall j :: i <= j < |f| ==> !(if bindings then f[j].Binding? else f[j].Consumed?)
  {
    if f == [] then 0
    else
      var last := f[|f| - 1];
      if (if bindings then last.Binding? else last.Consumed?) then |f| else PastLast(f[..|f| - 1], bindings)
  }

  function Claim(f: File, v: Version): Option<File> {
    if !ConsumedReadable(f) || IsConsumed(f, v) || !HasConsumed(f) then None
    else Some(Insert(f, PastFirstConsumed(f), Consumed(Print(v))))
  }

  ghost function Bind(f: File, v: Version, c: Commits): Option<File> {
    if !BindingsReadable(f) || !CommitsAccepted(f, v, c) then None
    else if BindingLine(v, c) in f then Some(f)
    else if PastLast(f, true) > 0 then Some(Insert(f, PastLast(f, true), BindingLine(v, c)))
    else if PastLast(f, false) > 0 then Some(Insert(f, PastLast(f, false), BindingLine(v, c)))
    else None
  }

  ghost predicate Permitted(f: File, v: Version, c: Commits) {
    Readable(f) && Monotonic(f, v) && c.libg != "" && c.patcher != "" && CommitsAccepted(f, v, c)
  }

  /** The successive contents `--record` writes; fewer than three if a later step refuses. */
  ghost function Writes(f: File, candidate: string, c: Commits): seq<File> {
    if Parse(candidate).None? || !Permitted(f, Parse(candidate).value, c) then []
    else
      var v := Parse(candidate).value;
      var one := SetLast(f, v);
      var two := Claim(one, v);
      if two.None? then [one]
      else
        var three := Bind(two.value, v, c);
        if three.None? then [one, two.value] else [one, two.value, three.value]
  }

  // ------------------------------------------------------------- membership

  lemma {:induction false} InsertMembers(f: File, i: nat, x: Line)
    requires i <= |f|
    ensures forall l: Line :: l in Insert(f, i, x) <==> l in f || l == x
  {
    assert f == f[..i] + f[i..];
  }

  lemma {:induction false} InsertKeepsLast(f: File, i: nat, x: Line)
    requires i <= |f| && !x.Last?
    ensures LastOf(Insert(f, i, x)) == LastOf(f)
    decreases i
  {
    if i == 0 {
      assert Insert(f, i, x)[1..] == f;
    } else {
      InsertKeepsLast(f[1..], i - 1, x);
      assert Insert(f, i, x)[1..] == Insert(f[1..], i - 1, x);
    }
  }

  lemma {:induction false} SetLastMembers(f: File, v: Version)
    ensures forall l: Line :: !l.Last? ==> (l in SetLast(f, v) <==> l in f)
  {
    var g := SetLast(f, v);
    forall l: Line | !l.Last? && l in g
      ensures l in f
    {
      var i :| 0 <= i < |g| && g[i] == l;
      assert f[i] == l;
    }
    forall l: Line | !l.Last? && l in f
      ensures l in g
    {
      var i :| 0 <= i < |f| && f[i] == l;
      assert g[i] == l;
    }
  }

  lemma {:induction false} SetLastIsLast(f: File, v: Version)
    requires LastOf(f).Some?
    ensures LastOf(SetLast(f, v)) == Some(v)
  {
    ParsePrint(v);
    if !f[0].Last? {
      SetLastIsLast(f[1..], v);
    }
  }

  /** Two files with the same lines, baseline entries apart, are read alike. */
  lemma {:induction false} SameReading(f: File, g: File)
    requires forall l: Line :: !l.Last? ==> (l in f <==> l in g)
    ensures ConsumedReadable(f) <==> ConsumedReadable(g)
    ensures forall v :: IsConsumed(f, v) <==> IsConsumed(g, v)
    ensures forall v, c :: Bound(f, v, c) <==> Bound(g, v, c)
    ensures BindingsReadable(f) <==> BindingsReadable(g)
    ensures HasConsumed(f) <==> HasConsumed(g)
  {
  }

  lemma {:induction false} AddedConsumed(f: File, g: File, v: Version)
    requires forall l: Line :: l in g <==> l in f || l == Consumed(Print(v))
    ensures ConsumedReadable(g) <==> ConsumedReadable(f)
    ensures forall w :: IsConsumed(g, w) <==> IsConsumed(f, w) || w == v
    ensures forall w, c :: Bound(g, w, c) <==> Bound(f, w, c)
    ensures BindingsReadable(g) <==> BindingsReadable(f)
    ensures HasConsumed(g)
  {
    ParsePrint(v);
    assert Consumed(Print(v)) in g;
  }

  lemma {:induction false} AddedBinding(f: File, g: File, v: Version, c: Commits)
    requires forall l: Line :: l in g <==> l in f || l == BindingLine(v, c)
    ensures ConsumedReadable(g) <==> ConsumedReadable(f)
    ensures forall w :: IsConsumed(g, w) <==> IsConsumed(f, w)
    ensures forall w, d :: Bound(g, w, d) <==> Bound(f, w, d) || (Hex(c.libg) && Hex(c.patcher) && w == v && d == c)
    ensures BindingsParse(g) <==> BindingsParse(f) && Hex(c.libg) && Hex(c.patcher)
  {
    ParsePrint(v);
    assert BindingLine(v, c) in g;
  }
}
