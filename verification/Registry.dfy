/** verify_display_fwver_monotonic.py as it runs: the state file rewritten line list by line list. */
module Registry {
  import opened Words
  import opened RegistryText
  import opened RegistryModel
  import opened RegistryRun

  class StateFile {
    var lines: File
    // Every content the file has been given, oldest first.
    ghost var writes: seq<File>

    constructor (lines: File)
      ensures this.lines == lines && writes == []
    {
      this.lines := lines;
      writes := [];
    }

    method WriteText(text: File)
      modifies this
      ensures lines == text && writes == old(writes) + [text]
    {
      lines := text;
      writes := writes + [text];
    }

    method ReadLast() returns (v: Option<Version>)
      ensures v == LastOf(lines)
    {
      var i := 0;
      while i < |lines| && !lines[i].Last?
        invariant 0 <= i <= |lines| && LastOf(lines[i..]) == LastOf(lines)
      {
        assert lines[i..][1..] == lines[i + 1..];
        i := i + 1;
      }
      if i < |lines| {
        v := Parse(lines[i].raw);
      } else {
        v := None;
      }
    }

    method ReadConsumed() returns (vs: Option<seq<Version>>)
      ensures vs.Some? <==> ConsumedReadable(lines)
      ensures vs.Some? ==> vs.value == ConsumedList(lines)
    {
      hide Parse;
      var out: seq<Version> := [];
      var i := 0;
      while i < |lines|
        invariant 0 <= i <= |lines|
        invariant ConsumedReadable(lines[..i])
        invariant out == ConsumedList(lines[..i])
      {
        var l := lines[i];
        assert lines[..i + 1] == lines[..i] + [l];
        if l.Consumed? {
          var v := Parse(l.raw);
          if v.None? {
            assert l in lines;
            return None;
          }
          out := out + [v.value];
        }
        ListAppend(lines[..i], l);
        i := i + 1;
      }
      assert lines[..i] == lines;
      vs := Some(out);
    }

    /** None is the ValueError for a malformed, unreadable or contradictory binding. */
    method ReadBindings() returns (m: Option<map<Version, Commits>>)
      ensures m.Some? <==> BindingsReadable(lines)
      ensures m.Some? ==> Reads(m.value, lines)
    {
      hide Parse;
      var out: map<Version, Commits> := map[];
      var i := 0;
      while i < |lines|
        invariant 0 <= i <= |lines| && BindingsParse(lines[..i]) && Reads(out, lines[..i])
      {
        var l := lines[i];
        assert l in lines;
        assert lines[..i + 1] == lines[..i] + [l];
        if l.Malformed? {
          return None;
        }
        if l.Binding? {
          var v := Parse(l.raw);
          if v.None? {
            return None;
          }
          if v.value in out && out[v.value] != l.commits {
            Contradicted(lines, lines[..i], out, v.value, l);
            return None;
          }
          ReadsBinding(out, lines[..i], l);
          out := out[v.value := l.commits];
        } else {
          ReadsOther(out, lines[..i], l);
        }
        i := i + 1;
      }
      assert lines[..i] == lines;
      ReadsOnce(out, lines);
      m := Some(out);
    }

    method NextVersion() returns (v: Option<Version>)
      ensures Readable(lines) ==> v == Next(LastOf(lines).value, ConsumedList(lines))
      ensures !Readable(lines) ==> v.None?
    {
      var last := ReadLast();
      var consumed := ReadConsumed();
      var bindings := ReadBindings();
      if last.None? || consumed.None? || bindings.None? {
        return None;
      }
      v := NextDisplay(last.value, consumed.value);
    }

    method RecordBaseline(v: Version) returns (ok: bool)
      modifies this
      ensures ok == HasLast(old(lines))
      ensures lines == (if ok then SetLast(old(lines), v) else old(lines))
      ensures writes == old(writes) + (if ok then [lines] else [])
    {
      if !(exists l <- lines :: l.Last?) {
        return false;
      }
      var text := lines;
      for i := 0 to |lines|
        invariant |text| == |lines|
        invariant forall j :: 0 <= j < i ==> text[j] == if lines[j].Last? then Last(Print(v)) else lines[j]
        invariant forall j :: i <= j < |lines| ==> text[j] == lines[j]
      {
        if lines[i].Last? {
          text := text[i := Last(Print(v))];
        }
      }
      assert text == SetLast(lines, v);
      WriteText(text);
      ok := true;
    }

    /** The descending loop, which never breaks: it ends one past the first registry entry. */
    method FindClaim() returns (insertAt: Option<nat>)
      ensures insertAt.Some? <==> HasConsumed(lines)
      ensures insertAt.Some? ==> insertAt.value == PastFirstConsumed(lines)
    {
      insertAt := None;
      var i := |lines|;
      while i > 0
        invariant 0 <= i <= |lines|
        invariant insertAt.None? ==> forall j :: i <= j < |lines| ==> !lines[j].Consumed?
        invariant insertAt.Some? ==> i < insertAt.value <= |lines| && lines[insertAt.value - 1].Consumed?
                                     && forall j :: i <= j < insertAt.value - 1 ==> !lines[j].Consumed?
      {
        i := i - 1;
        if lines[i].Consumed? {
          insertAt := Some(i + 1);
        }
      }
      if insertAt.Some? {
        assert lines[insertAt.value - 1] in lines;
      }
    }

    method ClaimVersion(v: Version) returns (ok: bool)
      modifies this
      ensures ok == Claim(old(lines), v).Some?
      ensures lines == (if ok then Claim(old(lines), v).value else old(lines))
      ensures writes == old(writes) + (if ok then [lines] else [])
    {
      var consumed := ReadConsumed();
      if consumed.None? || v in consumed.value {
        return false;
      }
      var insertAt := FindClaim();
      if insertAt.None? {
        return false;
      }
      WriteText(lines[..insertAt.value] + [Consumed(Print(v))] + lines[insertAt.value..]);
      ok := true;
    }

    method FindPast(bindings: bool) returns (at: nat)
      ensures at == PastLast(lines, bindings)
    {
      at := |lines|;
      while at > 0 && !(if bindings then lines[at - 1].Binding? else lines[at - 1].Consumed?)
        invariant at <= |lines| && PastLast(lines[..at], bindings) == PastLast(lines, bindings)
      {
        assert lines[..at][..at - 1] == lines[..at - 1];
        at := at - 1;
      }
    }

    method BindVersion(v: Version, c: Commits) returns (ok: bool)
      modifies this
      ensures ok == Bind(old(lines), v, c).Some?
      ensures lines == (if ok then Bind(old(lines), v, c).value else old(lines))
      ensures writes == old(writes) + (if ok && BindingLine(v, c) !in old(lines) then [lines] else [])
    {
      hide BindingsReadable, CommitsAccepted, BindingLine;
      var bindings := ReadBindings();
      if bindings.None? {
        return false;
      }
      AcceptsIff(bindings.value, lines, v, c);
      if !Accepts(bindings.value, v, c) {
        return false;
      }
      var line := BindingLine(v, c);
      if line in lines {
        return true;
      }
      var at := FindPast(true);
      if at == 0 {
        at := FindPast(false);
      }
      if at == 0 {
        return false;
      }
      WriteText(lines[..at] + [line] + lines[at..]);
      ok := true;
    }

    /** What `--record` asks before it writes anything. */
    method Permit(candidate: string, c: Commits) returns (v: Option<Version>)
      ensures v.Some? <==> Parse(candidate).Some? && Permitted(lines, Parse(candidate).value, c)
      ensures v.Some? ==> v == Parse(candidate)
    {
      hide Parse, BindingsReadable, ConsumedReadable, LastOf, CommitsAccepted, Accepts, IsConsumed, SameFamily, Less;
      var last := ReadLast();
      var consumed := ReadConsumed();
      var bindings := ReadBindings();
      var current := Parse(candidate);
      if last.None? || consumed.None? || bindings.None? || current.None? {
        return None;
      }
      if !SameFamily(current.value, last.value) || !Less(last.value, current.value) || current.value in consumed.value {
        return None;
      }
      AcceptsIff(bindings.value, lines, current.value, c);
      if c.libg == "" || c.patcher == "" || !Accepts(bindings.value, current.value, c) {
        return None;
      }
      v := current;
    }

    /** `--record`: the three writes in order, each step reading the file again. */
    method Record(candidate: string, libg: string, patcher: string) returns (ok: bool)
      modifies this
      ensures var w := Writes(old(lines), candidate, Commits(libg, patcher));
              && ok == (|w| == 3)
              && lines == (if w == [] then old(lines) else w[|w| - 1])
              && (writes == old(writes) + w || (|w| == 3 && w[1] == w[2] && writes == old(writes) + w[..2]))
    {
      hide Parse, Claim, Bind, SetLast, BindingLine, LastOf, Permitted;
      var c := Commits(libg, patcher);
      var permitted := Permit(candidate, c);
      ok := false;
      if permitted.None? {
        return;
      }
      var v := permitted.value;
      PermittedLast(lines, v, c);
      LastPresent(lines);
      ok := RecordBaseline(v);
      ok := ClaimVersion(v);
      if ok {
        BindKeeps(lines, v, c);
        ok := BindVersion(v, c);
      }
    }
  }

  lemma PermittedLast(f: File, v: Version, c: Commits)
    requires Permitted(f, v, c)
    ensures LastOf(f).Some?
  {
  }

  /** The map a reader builds says exactly what the lines bind. */
  ghost predicate Reads(m: map<Version, Commits>, f: File) {
    forall v, c :: Bound(f, v, c) <==> v in m && m[v] == c
  }

  /** `validate_commit_set` on the map. */
  predicate Accepts(m: map<Version, Commits>, v: Version, c: Commits) {
    c.libg != UNKNOWN && c.patcher != UNKNOWN && (if v in m then m[v] == c else forall w <- m :: m[w] != c)
  }

  lemma {:induction false} ReadsOnce(m: map<Version, Commits>, f: File)
    requires Reads(m, f)
    ensures OneBuildEach(f)
  {
  }

  lemma {:induction false} ReadsBinding(m: map<Version, Commits>, f: File, l: Line)
    requires Reads(m, f) && l.Binding? && Parse(l.raw).Some?
    requires Parse(l.raw).value in m ==> m[Parse(l.raw).value] == l.commits
    ensures Reads(m[Parse(l.raw).value := l.commits], f + [l])
  {
    BoundAppend(f, l);
  }

  lemma {:induction false} ReadsOther(m: map<Version, Commits>, f: File, l: Line)
    requires Reads(m, f) && !l.Binding?
    ensures Reads(m, f + [l])
  {
    BoundAppend(f, l);
  }

  lemma {:induction false} BoundAppend(f: File, l: Line)
    ensures forall v, c :: Bound(f + [l], v, c) <==> Bound(f, v, c) || Binds(l, v, c)
  {
    hide Binds;
    forall v, c
      ensures Bound(f + [l], v, c) <==> Bound(f, v, c) || Binds(l, v, c)
    {
      if Bound(f, v, c) {
        var k :| k in f && Binds(k, v, c);
        assert k in f + [l];
      }
      if Binds(l, v, c) {
        assert l in f + [l];
      }
    }
  }

  lemma {:induction false} AcceptsIff(m: map<Version, Commits>, f: File, v: Version, c: Commits)
    requires Reads(m, f)
    ensures Accepts(m, v, c) <==> CommitsAccepted(f, v, c)
  {
    hide Bound;
    assert forall w :: Bound(f, w, c) <==> w in m && m[w] == c;
    if v in m {
      assert Bound(f, v, m[v]);
    }
  }

  lemma {:induction false} Contradicted(f: File, before: File, m: map<Version, Commits>, v: Version, l: Line)
    requires Reads(m, before) && v in m && l.Binding? && Binds(l, v, l.commits) && m[v] != l.commits
    requires l in f && forall k <- before :: k in f
    ensures !OneBuildEach(f)
  {
    assert Bound(before, v, m[v]);
    assert Bound(f, v, m[v]) && Bound(f, v, l.commits);
  }

  lemma {:induction false} ListAppend(f: File, l: Line)
    requires ConsumedReadable(f) && (l.Consumed? ==> Parse(l.raw).Some?)
    ensures ConsumedReadable(f + [l])
    ensures ConsumedList(f + [l]) == ConsumedList(f) + (if l.Consumed? then [Parse(l.raw).value] else [])
    decreases |f|
  {
    if f != [] {
      assert (f + [l])[1..] == f[1..] + [l];
      ListAppend(f[1..], l);
    }
  }

  lemma {:induction false} LastPresent(f: File)
    requires LastOf(f).Some?
    ensures HasLast(f)
  {
    if !f[0].Last? {
      LastPresent(f[1..]);
      var l :| l in f[1..] && l.Last?;
      assert l in f;
    }
  }

  lemma BindKeeps(f: File, v: Version, c: Commits)
    ensures BindingLine(v, c) in f && Bind(f, v, c).Some? ==> Bind(f, v, c).value == f
  {
  }

  lemma {:induction false} TopNext(last: Version, known: seq<Version>, v: Version)
    ensures Top(last, known + [v]) == if v[4] > Top(last, known) then v[4] else Top(last, known)
  {
    assert (known + [v])[..|known|] == known;
  }

  lemma TopNone(last: Version)
    ensures Top(last, []) == last[4]
  {
  }

  /** max(known), or None when another family is met. */
  method Highest(last: Version, consumed: seq<Version>) returns (top: Option<nat>)
    ensures top == if forall v <- consumed :: SameFamily(v, last) then Some(Top(last, consumed)) else None
  {
    hide SameFamily, Top;
    var n := last[4];
    TopNone(last);
    for i := 0 to |consumed|
      invariant forall j :: 0 <= j < i ==> SameFamily(consumed[j], last)
      invariant n >= 0 && n == Top(last, consumed[..i])
    {
      if !SameFamily(consumed[i], last) {
        return None;
      }
      TopNext(last, consumed[..i], consumed[i]);
      assert consumed[..i + 1] == consumed[..i] + [consumed[i]];
      if consumed[i][4] > n {
        n := consumed[i][4];
      }
    }
    assert consumed[..|consumed|] == consumed;
    top := Some(n);
  }

  method NextDisplay(last: Version, consumed: seq<Version>) returns (v: Option<Version>)
    ensures v == Next(last, consumed)
  {
    hide SameFamily;
    var top := Highest(last, consumed);
    if top.None? {
      return None;
    }
    var candidate: Version := last[..4] + [top.value];
    var free := false;
    // One past the top no entry is left to meet: the search takes a single turn.
    while !free
      invariant candidate == last[..4] + [if free then top.value + 1 else top.value]
      decreases if free then 0 else 1
    {
      candidate := candidate[..4] + [candidate[4] + 1];
      free := candidate !in consumed;
    }
    v := Some(candidate);
  }
}
