/** `escape` of `crates/kr0ki-behavior/src/machine.rs`, and how an XML processor reads the result:
    sections 2.2, 2.11, 3.3.3, 4.1 and 4.6 of XML 1.0. */
module XmlEscape {
  import opened Text
  import opened Wrappers

  /** Eight successive replacements of the whole string. */
  function Escape(value: string): string {
    var a := Replace(value, '&', "&amp;");
    var b := Replace(a, '<', "&lt;");
    var c := Replace(b, '>', "&gt;");
    var d := Replace(c, '"', "&quot;");
    var e := Replace(d, '\'', "&apos;");
    var f := Replace(e, '\n', "&#10;");
    var g := Replace(f, '\r', "&#13;");
    Replace(g, '\t', "&#9;")
  }

  /** The single-character form. */
  function Reference(c: char): string {
    if c == '&' then "&amp;" else if c == '<' then "&lt;" else if c == '>' then "&gt;"
    else if c == '"' then "&quot;" else if c == '\'' then "&apos;"
    else if c == '\n' then "&#10;" else if c == '\r' then "&#13;" else if c == '\t' then "&#9;"
    else [c]
  }

  function OnePass(value: string): string {
    if value == "" then "" else Reference(value[0]) + OnePass(value[1..])
  }

  lemma EscapeConcat(s: string, t: string)
    ensures Escape(s + t) == Escape(s) + Escape(t)
  {
    hide Replace;
    ReplaceConcat(s, t, '&', "&amp;");
    var a, a' := Replace(s, '&', "&amp;"), Replace(t, '&', "&amp;");
    ReplaceConcat(a, a', '<', "&lt;");
    var b, b' := Replace(a, '<', "&lt;"), Replace(a', '<', "&lt;");
    ReplaceConcat(b, b', '>', "&gt;");
    var c, c' := Replace(b, '>', "&gt;"), Replace(b', '>', "&gt;");
    ReplaceConcat(c, c', '"', "&quot;");
    var d, d' := Replace(c, '"', "&quot;"), Replace(c', '"', "&quot;");
    ReplaceConcat(d, d', '\'', "&apos;");
    var e, e' := Replace(d, '\'', "&apos;"), Replace(d', '\'', "&apos;");
    ReplaceConcat(e, e', '\n', "&#10;");
    var f, f' := Replace(e, '\n', "&#10;"), Replace(e', '\n', "&#10;");
    ReplaceConcat(f, f', '\r', "&#13;");
    var g, g' := Replace(f, '\r', "&#13;"), Replace(f', '\r', "&#13;");
    ReplaceConcat(g, g', '\t', "&#9;");
  }

  predicate Special(c: char) {
    c == '<' || c == '>' || c == '"' || c == '\'' || c == '\n' || c == '\r' || c == '\t'
  }

  /** What a replacement writes is not touched by the ones after it. */
  lemma ReferencePlain(c: char)
    ensures forall d :: d in Reference(c) ==> !Special(d)
  {
  }

  lemma EscapeOne(c: char)
    ensures Escape([c]) == Reference(c)
  {
    var w := Reference(c);
    ReferencePlain(c);
    StageOne(c, '&', "&amp;");
    StageOne(c, '<', "&lt;");
    StageOne(c, '>', "&gt;");
    StageOne(c, '"', "&quot;");
    StageOne(c, '\'', "&apos;");
    StageOne(c, '\n', "&#10;");
    StageOne(c, '\r', "&#13;");
    StageOne(c, '\t', "&#9;");
    hide Replace;
  }

  lemma StageOne(c: char, d: char, w: string)
    requires Reference(d) == w && (Special(d) || d == '&')
    ensures Replace([c], d, w) == if c == d then w else [c]
    ensures d != '&' ==> Replace(Reference(c), d, w) == Reference(c)
  {
    ReplaceOne(c, d, w);
    ReferencePlain(c);
    if d != '&' { ReplaceAbsent(Reference(c), d, w); }
  }

  /** The eight replacements are one pass over the characters. */
  lemma {:induction false} EscapeOnePass(value: string)
    ensures Escape(value) == OnePass(value)
  {
    if value == "" {
    } else {
      assert value == [value[0]] + value[1..];
      hide Escape, Reference;
      EscapeConcat([value[0]], value[1..]);
      EscapeOne(value[0]);
      EscapeOnePass(value[1..]);
    }
  }

  /** No quote, apostrophe, angle bracket or control white space is left in the output. */
  lemma {:induction false} EscapedPlain(value: string)
    ensures forall c :: c in OnePass(value) ==> !Special(c)
  {
    if value != "" {
      ReferencePlain(value[0]);
      hide Reference;
      EscapedPlain(value[1..]);
    }
  }

  // ---------------------------------------------------------------- reading an attribute value

  /** `Char` of section 2.2. */
  predicate XmlChar(c: char) {
    var n := c as int;
    n == 0x9 || n == 0xa || n == 0xd || 0x20 <= n <= 0xd7ff || 0xe000 <= n <= 0xfffd || 0x10000 <= n <= 0x10ffff
  }

  function DigitValue(c: char): Option<nat> {
    if '0' <= c <= '9' then Some(c as int - '0' as int)
    else if 'a' <= c <= 'f' then Some(c as int - 'a' as int + 10)
    else if 'A' <= c <= 'F' then Some(c as int - 'A' as int + 10)
    else None
  }

  function Number(s: string, base: nat): Option<nat> {
    if s == "" then Some(0)
    else
      var n, d := Number(s[..|s| - 1], base), DigitValue(s[|s| - 1]);
      if n.Some? && d.Some? && d.value < base then Some(n.value * base + d.value) else None
  }

  /** Section 4.1: a character reference denotes a character the document may contain. */
  function CharOf(n: Option<nat>): Option<char> {
    if n.None? || n.value > 0x10ffff || 0xd800 <= n.value <= 0xdfff then None
    else if XmlChar(n.value as char) then Some(n.value as char) else None
  }

  /** What the text between `&` and `;` stands for: a character reference (section 4.1) or a
      predefined entity (section 4.6). */
  function Denotes(name: string): Option<char> {
    if |name| > 2 && name[..2] == "#x" then CharOf(Number(name[2..], 16))
    else if |name| > 1 && name[0] == '#' then CharOf(Number(name[1..], 10))
    else if name == "amp" then Some('&') else if name == "lt" then Some('<') else if name == "gt" then Some('>')
    else if name == "quot" then Some('"') else if name == "apos" then Some('\'') else None
  }

  function Index(s: string, c: char): (i: nat)
    ensures i <= |s|
    ensures i < |s| ==> s[i] == c
  {
    if s == "" || s[0] == c then 0 else 1 + Index(s[1..], c)
  }

  function Prepend(c: char, rest: Option<string>): Option<string> {
    if rest.Some? then Some([c] + rest.value) else None
  }

  /** Section 3.3.3 for a value between double quotes: references are replaced, literal white space
      becomes a space, and markup or a forbidden character is an error. */
  function Normalized(s: string): Option<string> {
    if s == "" then Some("")
    else if s[0] == '&' then
      var k := Index(s, ';');
      if k == |s| then None
      else
        var c := Denotes(s[1..k]);
        if c.None? then None else Prepend(c.value, Normalized(s[k + 1..]))
    else if s[0] == '<' || s[0] == '"' || !XmlChar(s[0]) then None
    else Prepend(if s[0] == '\n' || s[0] == '\r' || s[0] == '\t' then ' ' else s[0], Normalized(s[1..]))
  }

  /** Section 2.11: a carriage return, and the line feed after it, are read as one line feed. */
  function LineEnds(s: string): string {
    if s == "" then ""
    else if s[0] == '\r' then "\n" + LineEnds(if |s| > 1 && s[1] == '\n' then s[2..] else s[1..])
    else [s[0]] + LineEnds(s[1..])
  }

  /** The attribute value a document gives when `text` stands between its quotes. */
  function AttributeValue(text: string): Option<string> {
    Normalized(LineEnds(text))
  }

  lemma {:induction false} NoLineEnds(s: string)
    requires '\r' !in s
    ensures LineEnds(s) == s
  {
    if s != "" { NoLineEnds(s[1..]); }
  }

  lemma {:induction false} NamedReference(name: string, rest: string)
    requires ';' !in name
    ensures Index("&" + name + ";" + rest, ';') == 1 + |name|
  {
    var s := "&" + name + ";" + rest;
    IndexAt(s, ';', 1 + |name|);
  }

  lemma {:induction false} IndexAt(s: string, c: char, k: nat)
    requires k < |s| && s[k] == c && forall i :: 0 <= i < k ==> s[i] != c
    ensures Index(s, c) == k
    decreases k
  {
    if k > 0 { IndexAt(s[1..], c, k - 1); }
  }

  lemma ReadReference(name: string, rest: string)
    requires ';' !in name && Denotes(name).Some?
    ensures Normalized("&" + name + ";" + rest) == Prepend(Denotes(name).value, Normalized(rest))
  {
    var s := "&" + name + ";" + rest;
    NamedReference(name, rest);
    assert s[1..1 + |name|] == name && s[|name| + 2..] == rest;
    hide Denotes, Index;
  }

  lemma DecimalReference()
    ensures Denotes("#10") == Some('\n') && Denotes("#13") == Some('\r') && Denotes("#9") == Some('\t')
  {
    assert Number("1", 10) == Some(1) by { assert "1"[..0] == ""; }
    assert "10"[..1] == "1" && "13"[..1] == "1" && "9"[..0] == "";
    assert "#10"[1..] == "10" && "#13"[1..] == "13" && "#9"[1..] == "9";
  }

  /** One escaped character is read back as that character. */
  lemma ReadOne(c: char, rest: string)
    requires XmlChar(c)
    ensures Normalized(Reference(c) + rest) == Prepend(c, Normalized(rest))
  {
    DecimalReference();
    hide Normalized;
    if c == '&' { ReadReference("amp", rest); assert "&amp;" == "&" + "amp" + ";"; }
    else if c == '<' { ReadReference("lt", rest); assert "&lt;" == "&" + "lt" + ";"; }
    else if c == '>' { ReadReference("gt", rest); assert "&gt;" == "&" + "gt" + ";"; }
    else if c == '"' { ReadReference("quot", rest); assert "&quot;" == "&" + "quot" + ";"; }
    else if c == '\'' { ReadReference("apos", rest); assert "&apos;" == "&" + "apos" + ";"; }
    else if c == '\n' { ReadReference("#10", rest); assert "&#10;" == "&" + "#10" + ";"; }
    else if c == '\r' { ReadReference("#13", rest); assert "&#13;" == "&" + "#13" + ";"; }
    else if c == '\t' { ReadReference("#9", rest); assert "&#9;" == "&" + "#9" + ";"; }
    else { ReadPlain(c, rest); }
  }

  lemma ReadPlain(c: char, rest: string)
    requires c != '&' && !Special(c)
    ensures Normalized([c] + rest) == if XmlChar(c) then Prepend(c, Normalized(rest)) else None
  {
    assert ([c] + rest)[1..] == rest;
  }

  predicate AllXmlChars(s: string) {
    forall k :: 0 <= k < |s| ==> XmlChar(s[k])
  }

  lemma {:induction false} ReadBack(value: string)
    ensures Normalized(OnePass(value)) == if AllXmlChars(value) then Some(value) else None
  {
    if value != "" {
      ReadBack(value[1..]);
      assert AllXmlChars(value) <==> XmlChar(value[0]) && AllXmlChars(value[1..]);
      assert value == [value[0]] + value[1..];
      hide Normalized, Reference, AllXmlChars;
      if XmlChar(value[0]) {
        ReadOne(value[0], OnePass(value[1..]));
      } else {
        UnreadOne(value[0], OnePass(value[1..]));
      }
    }
  }

  lemma UnreadOne(c: char, rest: string)
    requires !XmlChar(c)
    ensures Normalized(Reference(c) + rest) == None
  {
    ReadPlain(c, rest);
  }

  /** An escaped attribute value is read back as the original, for exactly the strings an XML
      document can hold. */
  lemma EscapeRoundTrip(value: string)
    ensures AttributeValue(Escape(value)) == if AllXmlChars(value) then Some(value) else None
  {
    EscapeOnePass(value);
    EscapedPlain(value);
    hide Escape, OnePass;
    NoLineEnds(Escape(value));
    ReadBack(value);
  }
}
