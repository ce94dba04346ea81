/** What the conditions text must say, stated without reference to how it is searched. */
module BulbText {
  import opened Words
  import opened BulbMachine
  import opened BulbField

  lemma SmallDecimal(m: nat)
    requires m < 100
    ensures Decimal(m) == if m < 10 then [48 + m] else [48 + m / 10, 48 + m % 10]
  {
    assert m >= 10 ==> Decimal(m / 10) == [48 + m / 10];
  }

  /** `; exposure-mode-raw=<m>;` */
  function FieldBytes(m: nat): seq<byte> {
    [59, 32] + MODE_KEY + Decimal(m) + [59]
  }

  /** The key occurs once in the text, delimited, with canonical value `m` in the known range. */
  ghost predicate HasMode(text: seq<byte>, m: nat) {
    && m <= 31
    && (exists i :: OccursAt(text, FieldBytes(m), i))
    && (forall i, j :: OccursAt(text, MODE_KEY, i) && OccursAt(text, MODE_KEY, j) ==> i == j)
  }

  /** The same condition in the order the code tests it, at the first key. */
  ghost predicate ModeAt(text: seq<byte>, i: int, m: nat) {
    && FirstAt(text, MODE_KEY, i) && Delimited(text, i)
    && FieldValue(text, i + 18) == Some(m)
    && i + 19 <= |text| && !Repeated(text, i + 19) && m <= 31
  }

  lemma OccursByIndex(hay: seq<byte>, needle: seq<byte>, i: int)
    requires 0 <= i && i + |needle| <= |hay|
    ensures OccursAt(hay, needle, i) <==> forall k :: 0 <= k < |needle| ==> hay[i + k] == needle[k]
  {
    var part := hay[i..i + |needle|];
    assert forall k :: 0 <= k < |needle| ==> part[k] == hay[i + k];
  }

  lemma KeyLetters()
    ensures |MODE_KEY| == 18 && MODE_KEY[17] == 61 && MODE_KEY[0] == 101
    ensures forall k :: 0 <= k < 17 ==> MODE_KEY[k] != 61
  {
  }

  /** A key shows its letters. */
  lemma KeyLetterAt(text: seq<byte>, i: int, k: nat)
    requires OccursAt(text, MODE_KEY, i) && k < 18
    ensures |MODE_KEY| == 18 && 0 <= i && i + 18 <= |text| && text[i + k] == MODE_KEY[k]
  {
    KeyLetters();
    OccursByIndex(text, MODE_KEY, i);
  }

  /** Where the letter k places on is not the key's, there is no key. */
  lemma NoKeyAt(text: seq<byte>, j: int, k: nat)
    requires k < 18 && 0 <= j && j + k < |text| && |MODE_KEY| == 18 && text[j + k] != MODE_KEY[k]
    ensures !OccursAt(text, MODE_KEY, j)
  {
    if j + 18 <= |text| {
      OccursByIndex(text, MODE_KEY, j);
    }
  }

  /** Two keys cannot overlap: only the last letter is an equals sign. */
  lemma KeysApart(text: seq<byte>, i: int, j: int)
    requires OccursAt(text, MODE_KEY, i) && OccursAt(text, MODE_KEY, j) && i < j
    ensures i + 18 <= j
  {
    KeyLetters();
    KeyLetterAt(text, i, 17);
    hide OccursAt;
    if j < i + 18 {
      NoKeyAt(text, j, i + 17 - j);
      assert false;
    }
  }

  lemma FourSlices(s: seq<byte>, a: nat, b: nat, c: nat, d: nat, e: nat)
    requires a <= b <= c <= d <= e <= |s|
    ensures s[a..e] == s[a..b] + s[b..c] + s[c..d] + s[d..e]
  {
    assert s[a..c] == s[a..b] + s[b..c];
    assert s[a..d] == s[a..c] + s[c..d];
    assert s[a..e] == s[a..d] + s[d..e];
  }

  /** The bytes from the delimiter before the key to the one after the value, if the code accepts them. */
  lemma FieldRead(text: seq<byte>, i: int, m: nat)
    requires OccursAt(text, MODE_KEY, i) && Delimited(text, i) && FieldValue(text, i + 18) == Some(m)
    ensures m < 100 && 2 <= i && OccursAt(text, FieldBytes(m), i - 2)
  {
    hide Decimal;
    KeyLetters();
    ValueRead(text, i + 18, m);
    var end := i + 18 + |Decimal(m)|;
    assert text[i - 2..i] == [59, 32];
    FourSlices(text, i - 2, i, i + 18, end, end + 1);
  }

  lemma ValueRead(text: seq<byte>, d: int, m: nat)
    requires d >= 0 && FieldValue(text, d) == Some(m)
    ensures m < 100 && d + |Decimal(m)| < |text|
    ensures text[d..d + |Decimal(m)|] == Decimal(m) && text[d + |Decimal(m)|..d + |Decimal(m)| + 1] == [59]
  {
    hide Decimal;
    if m < 100 {
      SmallDecimal(m);
    }
  }

  lemma FieldWritten(text: seq<byte>, i: int, m: nat)
    requires m < 100 && 2 <= i && OccursAt(text, FieldBytes(m), i - 2) && OccursAt(text, MODE_KEY, i)
    ensures Delimited(text, i) && FieldValue(text, i + 18) == Some(m)
  {
    hide Decimal;
    SmallDecimal(m);
    KeyLetters();
    var f := FieldBytes(m);
    OccursByIndex(text, f, i - 2);
    hide OccursAt;
    assert text[i - 2 + 0] == f[0] && text[i - 2 + 1] == f[1];
    assert text[i - 2 + 20] == f[20] && text[i - 2 + 21] == f[21];
    if m >= 10 {
      assert text[i - 2 + 22] == f[22];
    }
  }

  /** The accepted fields are exactly the delimited canonical decimals. */
  lemma FieldIff(text: seq<byte>, i: int, m: nat)
    requires OccursAt(text, MODE_KEY, i)
    ensures Delimited(text, i) && FieldValue(text, i + 18) == Some(m)
            <==> m < 100 && 2 <= i && OccursAt(text, FieldBytes(m), i - 2)
  {
    hide OccursAt, Delimited, FieldValue, FieldBytes;
    if Delimited(text, i) && FieldValue(text, i + 18) == Some(m) {
      FieldRead(text, i, m);
    }
    if m < 100 && 2 <= i && OccursAt(text, FieldBytes(m), i - 2) {
      FieldWritten(text, i, m);
    }
  }

  lemma KeyInField(text: seq<byte>, i: int, m: nat)
    requires m < 100 && OccursAt(text, FieldBytes(m), i)
    ensures OccursAt(text, MODE_KEY, i + 2)
  {
    hide Decimal;
    SmallDecimal(m);
    KeyLetters();
    var f := FieldBytes(m);
    OccursByIndex(text, f, i);
    OccursByIndex(text, MODE_KEY, i + 2);
    forall k | 0 <= k < 18
      ensures text[i + 2 + k] == MODE_KEY[k]
    {
      assert text[i + (k + 2)] == f[k + 2];
    }
  }

  lemma OccursInSuffix(text: seq<byte>, from: int, j: int)
    requires 0 <= from <= |text|
    ensures OccursAt(text[from..], MODE_KEY, j) <==> 0 <= j && OccursAt(text, MODE_KEY, from + j)
  {
    if 0 <= j && j + |MODE_KEY| <= |text| - from {
      assert text[from..][j..j + |MODE_KEY|] == text[from + j..from + j + |MODE_KEY|];
    }
  }

  /** Past a well-formed field, a repeated key is any other key at all. */
  lemma UniqueIff(text: seq<byte>, i: int)
    requires FirstAt(text, MODE_KEY, i) && i + 19 <= |text| && Digit(Peek(text, i + 18))
    ensures !Repeated(text, i + 19) <==> forall j :: OccursAt(text, MODE_KEY, j) ==> j == i
  {
    KeyLetters();
    NoKeyAt(text, i + 18, 0);
    hide OccursAt;
    forall j | OccursAt(text, MODE_KEY, j) && j != i
      ensures Repeated(text, i + 19)
    {
      KeysApart(text, i, j);
      OccursInSuffix(text, i + 19, j - i - 19);
    }
    if Repeated(text, i + 19) {
      var rest := text[i + 19..];
      var j :| OccursAt(rest, MODE_KEY, j);
      OccursInSuffix(text, i + 19, j);
    }
  }

  lemma {:induction false} FirstExists(text: seq<byte>, needle: seq<byte>, j: int) returns (i: int)
    requires OccursAt(text, needle, j)
    ensures FirstAt(text, needle, i) && i <= j
    decreases j
  {
    if k :| 0 <= k < j && OccursAt(text, needle, k) {
      i := FirstExists(text, needle, k);
    } else {
      i := j;
    }
  }

  /** The code accepts a text with value `m` exactly when the text says so. */
  lemma ModeIff(text: seq<byte>, m: nat)
    ensures HasMode(text, m) <==> exists i :: ModeAt(text, i, m)
  {
    if HasMode(text, m) {
      var f :| OccursAt(text, FieldBytes(m), f);
      KeyInField(text, f, m);
      var i := FirstExists(text, MODE_KEY, f + 2);
      assert i == f + 2;
      FieldIff(text, i, m);
      UniqueIff(text, i);
      assert ModeAt(text, i, m);
    }
    if i :| ModeAt(text, i, m) {
      FieldIff(text, i, m);
      UniqueIff(text, i);
      assert OccursAt(text, FieldBytes(m), i - 2);
    }
  }
}
