/** The texts of `crates/kr0ki-behavior/src/validation.rs`: byte spans of a source, and its path. */
module SourceText {
  import opened Text

  // ---------------------------------------------------------------- spans

  function Utf8Len(c: char): nat {
    var u := c as int;
    if u < 0x80 then 1 else if u < 0x800 then 2 else if u < 0x10000 then 3 else 4
  }

  function ByteLen(s: string): nat {
    if s == "" then 0 else ByteLen(s[..|s| - 1]) + Utf8Len(s[|s| - 1])
  }

  /** Byte offset `i` falls between two characters of `s`, or at an end of it. */
  predicate IsCharBoundary(s: string, i: nat) {
    exists k :: 0 <= k <= |s| && ByteLen(s[..k]) == i
  }

  /** `content.get(start..end) == Some(text)`. */
  predicate SpanIs(content: string, start: nat, end: nat, text: string) {
    exists j :: 0 <= j <= |content| && ByteLen(content[..j]) == start && SpanEnds(content, j, end, text)
  }

  predicate SpanEnds(content: string, j: nat, end: nat, text: string)
    requires j <= |content|
  {
    exists k :: j <= k <= |content| && ByteLen(content[..k]) == end && content[j..k] == text
  }

  /** Section 3 of RFC 3629. */
  function Encode(c: char): seq<nat> {
    var u := c as int;
    if u < 0x80 then [u]
    else if u < 0x800 then [0xC0 + u / 64, 0x80 + u % 64]
    else if u < 0x10000 then [0xE0 + u / 4096, 0x80 + u / 64 % 64, 0x80 + u % 64]
    else [0xF0 + u / 262144, 0x80 + u / 4096 % 64, 0x80 + u / 64 % 64, 0x80 + u % 64]
  }

  function Bytes(s: string): seq<nat> {
    if s == "" then [] else Bytes(s[..|s| - 1]) + Encode(s[|s| - 1])
  }

  /** The bytes `10xxxxxx`, inside a character. */
  predicate Continues(b: nat) {
    0x80 <= b < 0xC0
  }

  lemma EncodeShape(c: char)
    ensures |Encode(c)| == Utf8Len(c) > 0 && !Continues(Encode(c)[0])
    ensures forall k :: 0 < k < |Encode(c)| ==> Continues(Encode(c)[k])
  {
  }

  lemma {:induction false} BytesLength(s: string)
    ensures |Bytes(s)| == ByteLen(s)
  {
    hide Encode, Utf8Len;
    if s != "" {
      BytesLength(s[..|s| - 1]);
      EncodeShape(s[|s| - 1]);
    }
  }

  lemma {:induction false} BytesConcat(s: string, t: string)
    ensures Bytes(s + t) == Bytes(s) + Bytes(t)
    decreases |t|
  {
    hide Encode;
    if t == "" {
      assert s + t == s;
    } else {
      var last := |t| - 1;
      assert (s + t)[..|s + t| - 1] == s + t[..last];
      BytesConcat(s, t[..last]);
    }
  }

  /** A prefix of the text is a prefix of its bytes. */
  lemma BytesAt(s: string, k: nat)
    requires k <= |s|
    ensures ByteLen(s[..k]) <= |Bytes(s)| && Bytes(s)[..ByteLen(s[..k])] == Bytes(s[..k])
    ensures Bytes(s)[ByteLen(s[..k])..] == Bytes(s[k..])
  {
    hide Encode, Utf8Len;
    assert s == s[..k] + s[k..];
    BytesConcat(s[..k], s[k..]);
    BytesLength(s[..k]);
  }

  lemma FirstByte(s: string)
    requires s != ""
    ensures Bytes(s) != [] && !Continues(Bytes(s)[0]) && Bytes(s) == Encode(s[0]) + Bytes(s[1..])
  {
    hide Encode;
    EncodeShape(s[0]);
    assert s == [s[0]] + s[1..];
    BytesConcat([s[0]], s[1..]);
    assert [s[0]][..0] == "";
    assert Bytes([s[0]]) == [] + Encode(s[0]);
  }

  /** The boundaries of the text are the ends of its bytes and the bytes that start a character. */
  lemma BoundaryExactly(s: string, i: nat)
    ensures IsCharBoundary(s, i) <==> i <= |Bytes(s)| && (i == |Bytes(s)| || !Continues(Bytes(s)[i]))
  {
    hide Encode, Continues;
    if IsCharBoundary(s, i) {
      var k :| 0 <= k <= |s| && ByteLen(s[..k]) == i;
      BytesAt(s, k);
      if k < |s| {
        FirstByte(s[k..]);
        assert Bytes(s)[i..][0] == Bytes(s)[i];
      } else {
        assert s[k..] == "" && Bytes(s[k..]) == [];
      }
    }
    if i < |Bytes(s)| && !Continues(Bytes(s)[i]) {
      StartIsBoundary(s, i);
    } else if i == |Bytes(s)| {
      BytesLength(s);
      assert s[..|s|] == s;
    }
  }

  lemma {:induction false} StartIsBoundary(s: string, i: nat)
    requires i < |Bytes(s)| && !Continues(Bytes(s)[i])
    ensures IsCharBoundary(s, i)
  {
    hide Encode, Continues;
    var n := |s| - 1;
    var rest := s[..n];
    BytesLength(rest);
    EncodeShape(s[n]);
    if i < |Bytes(rest)| {
      StartIsBoundary(rest, i);
      var k :| 0 <= k <= |rest| && ByteLen(rest[..k]) == i;
      assert rest[..k] == s[..k];
    } else {
      assert Bytes(s)[i] == Encode(s[n])[i - |Bytes(rest)|];
      assert ByteLen(s[..n]) == i;
    }
  }

  lemma EncodeInjective(c: char, d: char, x: seq<nat>, y: seq<nat>)
    requires Encode(c) + x == Encode(d) + y
    ensures c == d && x == y
  {
    var p, q := Encode(c) + x, Encode(d) + y;
    assert p[0] == Encode(c)[0] && q[0] == Encode(d)[0];
    FirstByteClass(c);
    FirstByteClass(d);
    assert |Encode(c)| == |Encode(d)|;
    forall k | 0 <= k < |Encode(c)| ensures Encode(c)[k] == Encode(d)[k] {
      assert p[k] == Encode(c)[k] && q[k] == Encode(d)[k];
    }
    assert p[|Encode(c)|..] == x && q[|Encode(d)|..] == y;
    SameEncoding(c, d);
  }

  lemma FirstByteClass(c: char)
    ensures var b := Encode(c)[0];
            |Encode(c)| == if b < 0x80 then 1 else if b < 0xE0 then 2 else if b < 0xF0 then 3 else 4
  {
  }

  lemma SameEncoding(c: char, d: char)
    requires |Encode(c)| == |Encode(d)| && forall k :: 0 <= k < |Encode(c)| ==> Encode(c)[k] == Encode(d)[k]
    ensures c == d
  {
    Combined(c);
    Combined(d);
  }

  /** The code point put together again from its bytes. */
  lemma Combined(c: char)
    ensures var e, u := Encode(c), c as int;
            && (|e| == 1 ==> u == e[0])
            && (|e| == 2 ==> u == (e[0] - 0xC0) * 64 + (e[1] - 0x80))
            && (|e| == 3 ==> u == (e[0] - 0xE0) * 4096 + (e[1] - 0x80) * 64 + (e[2] - 0x80))
            && (|e| == 4 ==> u == (e[0] - 0xF0) * 262144 + (e[1] - 0x80) * 4096 + (e[2] - 0x80) * 64 + (e[3] - 0x80))
  {
    var u := c as int;
    assert u / 64 / 64 == u / 4096 && u / 4096 / 64 == u / 262144;
  }

  lemma {:induction false} BytesInjective(s: string, t: string)
    requires Bytes(s) == Bytes(t)
    ensures s == t
  {
    hide Encode;
    if s != "" { FirstByte(s); }
    if t != "" { FirstByte(t); }
    if s != "" && t != "" {
      EncodeInjective(s[0], t[0], Bytes(s[1..]), Bytes(t[1..]));
      BytesInjective(s[1..], t[1..]);
      assert s == [s[0]] + s[1..] && t == [t[0]] + t[1..];
    }
  }

  lemma {:induction false} ByteLenMonotone(s: string, j: nat, k: nat)
    requires j <= k <= |s|
    ensures ByteLen(s[..j]) <= ByteLen(s[..k])
    decreases k
  {
    hide Utf8Len;
    if j < k {
      ByteLenMonotone(s, j, k - 1);
      assert s[..k][..k - 1] == s[..k - 1];
    }
  }

  lemma SliceBytes(s: string, j: nat, k: nat)
    requires j <= k <= |s|
    ensures ByteLen(s[..j]) <= ByteLen(s[..k]) <= |Bytes(s)|
    ensures Bytes(s)[ByteLen(s[..j])..ByteLen(s[..k])] == Bytes(s[j..k])
  {
    hide Encode, Utf8Len;
    ByteLenMonotone(s, j, k);
    BytesAt(s, k);
    BytesAt(s[..k], j);
    assert s[..k][..j] == s[..j] && s[..k][j..] == s[j..k];
    BytesLength(s[..k]);
    assert Bytes(s)[..ByteLen(s[..k])][ByteLen(s[..j])..] == Bytes(s)[ByteLen(s[..j])..ByteLen(s[..k])];
  }

  /** `content.get(start..end) == Some(text)`, in bytes: a range between boundaries that holds the bytes
      of the text. */
  lemma SpanExactly(content: string, start: nat, end: nat, text: string)
    ensures SpanIs(content, start, end, text)
            <==> && start <= end <= |Bytes(content)|
                 && IsCharBoundary(content, start) && IsCharBoundary(content, end)
                 && Bytes(content)[start..end] == Bytes(text)
  {
    hide Encode, Utf8Len;
    if SpanIs(content, start, end, text) {
      var j :| 0 <= j <= |content| && ByteLen(content[..j]) == start && SpanEnds(content, j, end, text);
      var k :| j <= k <= |content| && ByteLen(content[..k]) == end && content[j..k] == text;
      SliceBytes(content, j, k);
    }
    if start <= end <= |Bytes(content)| && IsCharBoundary(content, start) && IsCharBoundary(content, end)
       && Bytes(content)[start..end] == Bytes(text) {
      var j :| 0 <= j <= |content| && ByteLen(content[..j]) == start;
      var k :| 0 <= k <= |content| && ByteLen(content[..k]) == end;
      if j <= k {
        SliceBytes(content, j, k);
        BytesInjective(content[j..k], text);
      } else {
        ByteLenMonotone(content, k, j);
        SliceBytes(content, k, k);
        assert content[k..k] == "" && Bytes(content)[start..end] == [];
        BytesInjective("", text);
        assert content[k..k] == text;
      }
    }
  }

  // ---------------------------------------------------------------- paths

  predicate IsControl(c: char) {
    (c as int) < 0x20 || 0x7F <= (c as int) < 0xA0
  }

  predicate PlainChar(c: char) {
    c != '\\' && c != ':' && !IsControl(c)
  }

  predicate RelativePath(path: string) {
    && path != ""
    && (forall k :: 0 <= k < |path| ==> PlainChar(path[k]))
    && (forall part :: part in Split(path, '/') ==> part != "" && part != "." && part != "..")
  }

  /** A path is accepted exactly when it is nonempty, has no backslash, colon or control character, and
      no stretch between its slashes is empty, one dot or two. */
  lemma RelativePathExactly(path: string)
    ensures RelativePath(path)
            <==> && path != ""
                 && (forall c :: c in path ==>
                       c != '\\' && c != ':' && !((c as int) < 0x20 || 0x7F <= (c as int) <= 0x9F))
                 && (forall i: nat, j: nat :: Segment(path, '/', i, j) ==> path[i..j] !in {"", ".", ".."})
  {
    PartsClean(path);
    CharsClean(path);
    hide Split, Clean;
    assert forall c :: PlainChar(c) <==> c != '\\' && c != ':' && !((c as int) < 0x20 || 0x7F <= (c as int) <= 0x9F);
    assert (forall c :: c in path ==> PlainChar(c))
      <==> forall c :: c in path ==>
             c != '\\' && c != ':' && !((c as int) < 0x20 || 0x7F <= (c as int) <= 0x9F);
  }

  lemma CharsClean(path: string)
    ensures (forall c :: c in path ==> PlainChar(c)) <==> forall k :: 0 <= k < |path| ==> PlainChar(path[k])
  {
    hide PlainChar;
    if forall c :: c in path ==> PlainChar(c) {
      forall k | 0 <= k < |path| ensures PlainChar(path[k]) { assert path[k] in path; }
    }
  }

  predicate Clean(part: string) {
    part != "" && part != "." && part != ".."
  }

  lemma PartsClean(path: string)
    ensures (forall part :: part in Split(path, '/') ==> part != "" && part != "." && part != "..")
            <==> forall i: nat, j: nat :: Segment(path, '/', i, j) ==> path[i..j] !in {"", ".", ".."}
  {
    hide Split;
    if forall part :: part in Split(path, '/') ==> Clean(part) {
      forall i: nat, j: nat | Segment(path, '/', i, j) ensures path[i..j] !in {"", ".", ".."} {
        assert SegmentIs(path, '/', i, j, path[i..j]);
        SplitIsSegments(path, '/', path[i..j]);
        assert Clean(path[i..j]);
      }
    } else {
      var part :| part in Split(path, '/') && !Clean(part);
      SplitIsSegments(path, '/', part);
      var i: nat, j: nat :| SegmentIs(path, '/', i, j, part);
      assert Segment(path, '/', i, j) && path[i..j] in {"", ".", ".."};
    }
  }
}
