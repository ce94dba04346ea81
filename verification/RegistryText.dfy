/** Canonical five-component display versions: parsing, printing, and that each undoes the other. */
module RegistryText {
  import opened Words

  type Version = v: seq<nat> | |v| == 5 witness [0, 0, 0, 0, 0]

  predicate Digit(c: char) {
    '0' <= c <= '9'
  }

  predicate AllDigits(s: string) {
    forall i :: 0 <= i < |s| ==> Digit(s[i])
  }

  /** str(n). */
  function Show(n: nat): (s: string)
    ensures s != "" && AllDigits(s)
  {
    if n < 10 then [('0' as int + n) as char] else Show(n / 10) + [('0' as int + n % 10) as char]
  }

  predicate Numeric(s: string) {
    s != "" && AllDigits(s)
  }

  function DigitValue(c: char): nat {
    if Digit(c) then c as int - '0' as int else 0
  }

  /** int(s), for a string of digits. */
  function Value(s: string): nat
    decreases |s|
  {
    if s == "" then 0 else 10 * Value(s[..|s| - 1]) + DigitValue(s[|s| - 1])
  }

  lemma {:induction false} ValueShow(n: nat)
    ensures Value(Show(n)) == n
    decreases n
  {
    if n >= 10 {
      ValueShow(n / 10);
      assert Show(n)[..|Show(n)| - 1] == Show(n / 10);
    }
  }

  /** The pieces between dots. */
  function Split(s: string): (parts: seq<string>)
    ensures parts != []
  {
    if s == "" then [""]
    else if s[0] == '.' then [""] + Split(s[1..])
    else var r := Split(s[1..]); [[s[0]] + r[0]] + r[1..]
  }

  function Join(parts: seq<string>): string
    requires parts != []
  {
    if |parts| == 1 then parts[0] else parts[0] + "." + Join(parts[1..])
  }

  lemma {:induction false} JoinSplit(s: string)
    ensures Join(Split(s)) == s
    decreases |s|
  {
    if s != "" {
      JoinSplit(s[1..]);
      var r := Split(s[1..]);
      if s[0] == '.' {
        assert ([""] + r)[1..] == r;
        assert Join([""] + r) == "." + s[1..] == s;
      } else {
        var q := [[s[0]] + r[0]] + r[1..];
        assert q[1..] == r[1..];
        assert Join(q) == [s[0]] + Join(r);
      }
    }
  }

  lemma {:induction false} SplitPiece(a: string, rest: string)
    requires '.' !in a
    ensures Split(a) == [a] && Split(a + "." + rest) == [a] + Split(rest)
    decreases |a|
  {
    if a == "" {
      assert a + "." + rest == "." + rest && ("." + rest)[1..] == rest;
    } else {
      SplitPiece(a[1..], rest);
      assert (a + "." + rest)[1..] == a[1..] + "." + rest;
      assert [a[0]] + a[1..] == a;
    }
  }

  lemma {:induction false} SplitJoin(parts: seq<string>)
    requires parts != [] && forall p <- parts :: '.' !in p
    ensures Split(Join(parts)) == parts
    decreases |parts|
  {
    if |parts| == 1 {
      SplitPiece(parts[0], "");
    } else {
      SplitJoin(parts[1..]);
      SplitPiece(parts[0], Join(parts[1..]));
      assert [parts[0]] + parts[1..] == parts;
    }
  }

  /** What `str.strip` takes off. */
  predicate Space(c: char) {
    || c == ' ' || '\t' <= c <= '\r' || '\U{1C}' <= c <= '\U{1F}' || c == '\U{85}' || c == '\U{A0}'
    || c == '\U{1680}' || '\U{2000}' <= c <= '\U{200A}' || c == '\U{2028}' || c == '\U{2029}'
    || c == '\U{202F}' || c == '\U{205F}' || c == '\U{3000}'
  }

  function StripRight(s: string): string
    decreases |s|
  {
    if s != "" && Space(s[|s| - 1]) then StripRight(s[..|s| - 1]) else s
  }

  function Strip(s: string): string {
    if s != "" && Space(s[0]) then Strip(s[1..]) else StripRight(s)
  }

  function Shown(v: seq<nat>): (parts: seq<string>)
    ensures |parts| == |v| && forall i :: 0 <= i < |v| ==> parts[i] == Show(v[i])
  {
    seq(|v|, i requires 0 <= i < |v| => Show(v[i]))
  }

  function Print(v: Version): string {
    Join(Shown(v))
  }

  predicate Canonical(part: string) {
    Numeric(part) && Show(Value(part)) == part
  }

  function Values(parts: seq<string>): (v: seq<nat>)
    ensures |v| == |parts| && forall i :: 0 <= i < |v| ==> v[i] == Value(parts[i])
  {
    seq(|parts|, i requires 0 <= i < |parts| => Value(parts[i]))
  }

  /** None is the ValueError for a malformed or non-canonical version. */
  function Parse(raw: string): Option<Version> {
    var parts := Split(Strip(raw));
    if |parts| == 5 && forall i :: 0 <= i < 5 ==> Canonical(parts[i]) then Some(Values(parts)) else None
  }

  lemma {:induction false} JoinEnds(parts: seq<string>)
    requires parts != [] && forall p <- parts :: Numeric(p)
    ensures Join(parts) != "" && Digit(Join(parts)[0]) && Digit(Join(parts)[|Join(parts)| - 1])
    decreases |parts|
  {
    if |parts| > 1 {
      JoinEnds(parts[1..]);
    }
    assert parts[0] in parts;
  }

  lemma {:induction false} ParsePrint(v: Version)
    ensures Parse(Print(v)) == Some(v)
  {
    var parts := Shown(v);
    JoinEnds(parts);
    assert Strip(Print(v)) == Print(v);
    SplitJoin(parts);
    forall i | 0 <= i < 5
      ensures Canonical(parts[i]) && Value(parts[i]) == v[i]
    {
      ValueShow(v[i]);
    }
    assert Values(parts) == v;
  }

  lemma {:induction false} PrintParse(raw: string)
    requires Parse(raw).Some?
    ensures Print(Parse(raw).value) == Strip(raw)
  {
    var parts := Split(Strip(raw));
    JoinSplit(Strip(raw));
    assert Shown(Values(parts)) == parts;
  }

  /** Python's order on tuples. */
  predicate Less(a: seq<nat>, b: seq<nat>) {
    if b == [] then false
    else if a == [] then true
    else a[0] < b[0] || (a[0] == b[0] && Less(a[1..], b[1..]))
  }

  predicate SameFamily(a: Version, b: Version) {
    a[..4] == b[..4]
  }

  /** Within a family the last component decides. */
  lemma {:induction false} FamilyOrder(a: Version, b: Version)
    requires SameFamily(a, b)
    ensures Less(a, b) <==> a[4] < b[4]
    ensures a == b <==> a[4] == b[4]
  {
    assert a[..4][0] == b[..4][0] && a[..4][1] == b[..4][1] && a[..4][2] == b[..4][2] && a[..4][3] == b[..4][3];
    assert a == a[..4] + [a[4]] && b == b[..4] + [b[4]];
    LessTail(a, b, 0);
    LessTail(a, b, 1);
    LessTail(a, b, 2);
    LessTail(a, b, 3);
    assert a[4..] == [a[4]] && b[4..] == [b[4]];
    assert Less(a[4..], b[4..]) <==> a[4] < b[4];
    assert a[0..] == a && b[0..] == b;
  }

  lemma LessTail(a: Version, b: Version, i: nat)
    requires i < 4 && a[i] == b[i]
    ensures Less(a[i..], b[i..]) <==> Less(a[i + 1..], b[i + 1..])
  {
    assert a[i..][1..] == a[i + 1..] && b[i..][1..] == b[i + 1..];
  }
}
