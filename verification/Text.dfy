/** Decimal numerals as `format!("{n}")` writes them, `str::replace` and `str::split`. */
module Text {

  predicate IsDigit(c: char) {
    '0' <= c <= '9'
  }

  function Digit(d: nat): (c: char)
    requires d < 10
    ensures IsDigit(c) && c as int == '0' as int + d
  {
    ('0' as int + d) as char
  }

  function Decimal(n: nat): (s: string)
    ensures s != "" && forall k :: 0 <= k < |s| ==> IsDigit(s[k])
  {
    if n < 10 then [Digit(n)] else Decimal(n / 10) + [Digit(n % 10)]
  }

  /** The number a string of digits denotes. */
  function Value(s: string): nat
    requires forall k :: 0 <= k < |s| ==> IsDigit(s[k])
  {
    if s == "" then 0
    else
      assert IsDigit(s[|s| - 1]);
      Value(s[..|s| - 1]) * 10 + (s[|s| - 1] as int - '0' as int)
  }

  /** Reading a numeral back gives the number. */
  lemma {:induction false} ValueOfDecimal(n: nat)
    ensures Value(Decimal(n)) == n
  {
    if n >= 10 {
      ValueOfDecimal(n / 10);
      var s := Decimal(n);
      assert s[..|s| - 1] == Decimal(n / 10);
    } else {
      var s := Decimal(n);
      assert s[..|s| - 1] == "";
    }
  }

  lemma DecimalInjective(m: nat, n: nat)
    requires Decimal(m) == Decimal(n)
    ensures m == n
  {
    ValueOfDecimal(m);
    ValueOfDecimal(n);
  }

  /** `str::replace` of one character by a string. */
  function Replace(s: string, c: char, w: string): string {
    if s == "" then "" else (if s[0] == c then w else [s[0]]) + Replace(s[1..], c, w)
  }

  lemma {:induction false} ReplaceConcat(s: string, t: string, c: char, w: string)
    ensures Replace(s + t, c, w) == Replace(s, c, w) + Replace(t, c, w)
  {
    if s == "" {
      assert s + t == t;
    } else {
      assert (s + t)[1..] == s[1..] + t;
      ReplaceConcat(s[1..], t, c, w);
    }
  }

  lemma {:induction false} ReplaceAbsent(s: string, c: char, w: string)
    requires c !in s
    ensures Replace(s, c, w) == s
  {
    if s != "" { ReplaceAbsent(s[1..], c, w); }
  }

  lemma ReplaceOne(c: char, d: char, w: string)
    ensures Replace([c], d, w) == if c == d then w else [c]
  {
    assert [c][1..] == "";
  }

  // ---------------------------------------------------------------- splitting

  /** The parts of a text between separators, `str::split`. */
  function Split(s: string, c: char): (parts: seq<string>)
    ensures parts != []
  {
    if s == "" then [""]
    else
      var rest := Split(s[1..], c);
      if s[0] == c then [""] + rest else [[s[0]] + rest[0]] + rest[1..]
  }

  function Join(parts: seq<string>, c: char): string
    requires parts != []
  {
    if |parts| == 1 then parts[0] else parts[0] + [c] + Join(parts[1..], c)
  }

  /** Splitting cuts at every separator and loses nothing. */
  lemma {:induction false} SplitJoin(s: string, c: char)
    ensures Join(Split(s, c), c) == s && forall part :: part in Split(s, c) ==> c !in part
  {
    if s != "" {
      var rest := Split(s[1..], c);
      SplitJoin(s[1..], c);
      if s[0] == c {
        assert ([""] + rest)[1..] == rest;
      } else {
        var parts := [[s[0]] + rest[0]] + rest[1..];
        assert parts[1..] == rest[1..] && rest == [rest[0]] + rest[1..];
        assert Join(parts, c) == [s[0]] + Join(rest, c);
      }
      assert s == [s[0]] + s[1..];
    }
  }

  /** A stretch without separators that reaches as far as it can on both sides. */
  predicate Segment(s: string, c: char, i: nat, j: nat) {
    && i <= j <= |s|
    && (i == 0 || s[i - 1] == c) && (j == |s| || s[j] == c)
    && c !in s[i..j]
  }

  predicate SegmentIs(s: string, c: char, i: nat, j: nat, part: string) {
    Segment(s, c, i, j) && s[i..j] == part
  }

  /** The parts are exactly the maximal stretches without separators. */
  lemma {:induction false} SplitIsSegments(s: string, c: char, part: string)
    ensures part in Split(s, c) <==> exists i: nat, j: nat :: SegmentIs(s, c, i, j, part)
    decreases |s|
  {
    var f := FirstSeparator(s, c);
    if part in Split(s, c) {
      PartFound(s, c, part);
    }
    if i: nat, j: nat :| SegmentIs(s, c, i, j, part) {
      if i <= f {
        FirstSegment(s, c, f, i, j);
      } else {
        var rest := s[f + 1..];
        LaterSegment(s, c, f, i, j);
        assert SegmentIs(rest, c, i - f - 1, j - f - 1, part);
        hide Split;
        SplitIsSegments(rest, c, part);
      }
    }
  }

  /** Where the first separator is; the first part ends there, and the others are those of what follows. */
  lemma {:induction false} FirstSeparator(s: string, c: char) returns (f: nat)
    ensures f <= |s| && c !in s[..f] && (f < |s| ==> s[f] == c)
    ensures Split(s, c) == [s[..f]] + if f < |s| then Split(s[f + 1..], c) else []
  {
    if s == "" || s[0] == c {
      f := 0;
    } else {
      var g := FirstSeparator(s[1..], c);
      f := g + 1;
      assert s[..f] == [s[0]] + s[1..][..g];
      if f < |s| { assert s[1..][g + 1..] == s[f + 1..]; }
    }
  }

  lemma LaterSegment(s: string, c: char, f: nat, i: nat, j: nat)
    requires f < |s| && s[f] == c && Segment(s, c, i, j) && i > f
    ensures Segment(s[f + 1..], c, i - f - 1, j - f - 1) && s[f + 1..][i - f - 1..j - f - 1] == s[i..j]
  {
    assert s[f + 1..][i - f - 1..j - f - 1] == s[i..j];
  }

  lemma FirstSegment(s: string, c: char, f: nat, i: nat, j: nat)
    requires f <= |s| && c !in s[..f] && (f < |s| ==> s[f] == c) && Segment(s, c, i, j) && i <= f
    ensures i == 0 && j == f
  {
    assert forall k :: 0 <= k < f ==> s[..f][k] == s[k];
    assert forall k :: i <= k < j ==> s[i..j][k - i] == s[k];
  }

  lemma {:induction false} PartFound(s: string, c: char, part: string)
    requires part in Split(s, c)
    ensures exists i: nat, j: nat :: SegmentIs(s, c, i, j, part)
    decreases |s|
  {
    var f := FirstSeparator(s, c);
    hide Split;
    if part == s[..f] {
      assert SegmentIs(s, c, 0, f, part);
    } else {
      var rest := s[f + 1..];
      PartFound(rest, c, part);
      var i: nat, j: nat :| SegmentIs(rest, c, i, j, part);
      assert s[i + f + 1..j + f + 1] == rest[i..j];
      assert SegmentIs(s, c, i + f + 1, j + f + 1, part);
    }
  }

  /** Joining texts without separators and splitting again gives them back. */
  lemma {:induction false} JoinSplit(parts: seq<string>, c: char)
    requires parts != [] && forall part :: part in parts ==> c !in part
    ensures Split(Join(parts, c), c) == parts
    decreases |parts|
  {
    assert parts[0] in parts;
    if |parts| == 1 {
      OneText(parts[0], c);
    } else {
      JoinSplit(parts[1..], c);
      NextText(parts[0], Join(parts[1..], c), c);
      assert parts == [parts[0]] + parts[1..];
    }
  }

  lemma {:induction false} OneText(a: string, c: char)
    requires c !in a
    ensures Split(a, c) == [a]
  {
    if a != "" {
      OneText(a[1..], c);
      assert a == [a[0]] + a[1..];
    }
  }

  lemma {:induction false} NextText(a: string, rest: string, c: char)
    requires c !in a
    ensures Split(a + [c] + rest, c) == [a] + Split(rest, c)
  {
    var s := a + [c] + rest;
    if a == "" {
      assert s[1..] == rest;
    } else {
      NextText(a[1..], rest, c);
      assert s[1..] == a[1..] + [c] + rest;
      assert a == [a[0]] + a[1..];
    }
  }
}
