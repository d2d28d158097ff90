/** The SysML declaration scanner of `crates/kr0ki-core/src/assurance_trace.rs`: a tokenizer and a
    scope stack. Characters stand for bytes; every delimiter is ASCII. */
module Scanner {
  import opened Wrappers

  datatype Tok = Word(text: string) | Open | Close | Semi | Other

  /** `DECLARATION_KEYWORDS`. */
  function Keywords(): seq<string> {
    ["package", "part", "port", "item", "attribute", "action", "state", "requirement", "constraint", "connection",
     "interface", "view", "viewpoint", "rendering", "occurrence", "enum", "calc", "case", "analysis", "verification",
     "concern", "allocation", "flow", "metadata", "use", "individual", "snapshot", "timeslice"]
  }

  predicate IsKeyword(w: string) {
    w in Keywords()
  }

  function Def(): string {
    "def"
  }

  /** A word the scanner never takes for a name. */
  predicate Reserved(w: string) {
    IsKeyword(w) || w == Def()
  }

  predicate IsSpace(c: char) {
    c == ' ' || c == '\t' || c == '\n' || c as int == 0x0c || c == '\r'
  }

  predicate IsLetter(c: char) {
    'a' <= c <= 'z' || 'A' <= c <= 'Z' || c == '_'
  }

  predicate IsWordChar(c: char) {
    IsLetter(c) || '0' <= c <= '9'
  }

  // ---------------------------------------------------------------- tokens

  /** What follows a line comment: the line feed and the rest. */
  function AfterLine(s: string): (r: string)
    ensures |r| <= |s| && (s != "" && s[0] != '\n' ==> |r| < |s|)
  {
    if s == "" || s[0] == '\n' then s else AfterLine(s[1..])
  }

  /** What follows a block comment, from after its opening. */
  function AfterBlock(s: string): (r: string)
    ensures |r| <= |s|
  {
    if |s| < 2 then "" else if s[0] == '*' && s[1] == '/' then s[2..] else AfterBlock(s[1..])
  }

  /** What follows a string literal, from after its opening quote. */
  function AfterString(s: string): (r: string)
    ensures |r| <= |s|
  {
    if s == "" then ""
    else if s[0] == '"' then s[1..]
    else if s[0] == '\\' then (if |s| < 2 then "" else AfterString(s[2..]))
    else AfterString(s[1..])
  }

  function QuotedLength(s: string): (n: nat)
    ensures n <= |s| && (n < |s| ==> s[n] == '\'')
  {
    if s == "" || s[0] == '\'' then 0 else 1 + QuotedLength(s[1..])
  }

  function WordLength(s: string): (n: nat)
    ensures n <= |s|
  {
    if s == "" || !IsWordChar(s[0]) then 0 else 1 + WordLength(s[1..])
  }

  function AfterQuoted(s: string): (r: string)
    ensures |r| <= |s|
  {
    var n := QuotedLength(s);
    if n < |s| then s[n + 1..] else ""
  }

  /** The token the text starts with, if any, and what follows: comments and white space give no
      token, strings and other characters one that only separates. */
  function Next(s: string): (r: (seq<Tok>, string))
    requires s != ""
    ensures |r.1| < |s|
  {
    if s[0] == '/' && |s| > 1 && s[1] == '/' then ([], AfterLine(s))
    else if s[0] == '/' && |s| > 1 && s[1] == '*' then ([], AfterBlock(s[2..]))
    else if s[0] == '"' then ([Other], AfterString(s[1..]))
    else if s[0] == '\'' then ([Word(s[1..][..QuotedLength(s[1..])])], AfterQuoted(s[1..]))
    else if s[0] == '{' then ([Open], s[1..])
    else if s[0] == '}' then ([Close], s[1..])
    else if s[0] == ';' then ([Semi], s[1..])
    else if IsSpace(s[0]) then ([], s[1..])
    else if IsLetter(s[0]) then ([Word(s[..WordLength(s)])], s[WordLength(s)..])
    else ([Other], s[1..])
  }

  function Tokens(s: string): seq<Tok>
    decreases |s|
  {
    if s == "" then [] else Next(s).0 + Tokens(Next(s).1)
  }

  // ---------------------------------------------------------------- names

  function Qualified(stack: seq<Option<string>>, name: string): string {
    if stack == [] then name
    else if stack[0].None? then Qualified(stack[1..], name)
    else stack[0].value + "::" + Qualified(stack[1..], name)
  }

  /** A name in an inner scope is qualified by that scope's own qualified name. */
  lemma {:induction false} QualifiedInside(stack: seq<Option<string>>, scope: Option<string>, name: string)
    ensures Qualified(stack + [scope], name)
            == if scope.Some? then Qualified(stack, scope.value) + "::" + name else Qualified(stack, name)
  {
    if stack == [] {
      assert [scope][1..] == [];
    } else {
      assert (stack + [scope])[1..] == stack[1..] + [scope];
      QualifiedInside(stack[1..], scope, name);
    }
  }

  /** Where the name of the declaration starting `toks` may stand. */
  function NameIndex(toks: seq<Tok>): nat {
    if |toks| > 1 && toks[1] == Word(Def()) then 2 else 1
  }

  predicate HasName(toks: seq<Tok>) {
    var j := NameIndex(toks);
    j < |toks| && toks[j].Word? && !Reserved(toks[j].text)
  }

  function Pop(stack: seq<Option<string>>): seq<Option<string>> {
    if stack == [] then [] else stack[..|stack| - 1]
  }

  /** The qualified names declared by the tokens, inside the scopes of `stack`; `pending` names the
      scope the next brace opens. */
  function Names(toks: seq<Tok>, stack: seq<Option<string>>, pending: Option<string>): seq<string> {
    if toks == [] then []
    else
      match toks[0]
      case Word(w) =>
        if IsKeyword(w) && HasName(toks) then
          var name := toks[NameIndex(toks)].text;
          [Qualified(stack, name)] + Names(toks[NameIndex(toks) + 1..], stack, Some(name))
        else Names(toks[1..], stack, pending)
      case Open => Names(toks[1..], stack + [pending], None)
      case Close => Names(toks[1..], Pop(stack), None)
      case Semi => Names(toks[1..], stack, None)
      case Other => Names(toks[1..], stack, pending)
  }

  function Scan(text: string): seq<string> {
    Names(Tokens(text), [], None)
  }

  // ---------------------------------------------------------------- the code

  function From(text: string, i: nat): string {
    if i <= |text| then text[i..] else ""
  }

  method SkipLine(b: string, start: nat) returns (i: nat)
    requires start <= |b|
    ensures start <= i <= |b| && b[i..] == AfterLine(b[start..])
  {
    i := start;
    while i < |b| && b[i] != '\n'
      invariant start <= i <= |b| && AfterLine(b[i..]) == AfterLine(b[start..])
    {
      assert b[i..][1..] == b[i + 1..];
      i := i + 1;
    }
  }

  method SkipBlock(b: string, start: nat) returns (i: nat)
    requires start <= |b|
    ensures start <= i && From(b, i) == AfterBlock(b[start..])
  {
    i := start;
    while i + 1 < |b| && !(b[i] == '*' && b[i + 1] == '/')
      invariant start <= i <= |b| && AfterBlock(b[i..]) == AfterBlock(b[start..])
    {
      assert b[i..][1..] == b[i + 1..];
      i := i + 1;
    }
    assert i + 2 <= |b| ==> b[i..][2..] == b[i + 2..];
    i := i + 2;
  }

  method SkipString(b: string, start: nat) returns (i: nat)
    requires start <= |b|
    ensures start <= i && From(b, i) == AfterString(b[start..])
  {
    i := start;
    hide AfterString;
    while i < |b| && b[i] != '"'
      invariant start <= i && AfterString(From(b, i)) == AfterString(b[start..])
      decreases |b| - i
    {
      StringStep(b, i);
      if b[i] == '\\' { i := i + 1; }
      i := i + 1;
    }
    StringEnd(b, i);
    i := i + 1;
  }

  lemma StringStep(b: string, i: nat)
    requires i < |b| && b[i] != '"'
    ensures AfterString(From(b, i)) == AfterString(From(b, if b[i] == '\\' then i + 2 else i + 1))
  {
    assert b[i..][1..] == b[i + 1..];
    assert i + 2 <= |b| ==> b[i..][2..] == b[i + 2..];
  }

  lemma StringEnd(b: string, i: nat)
    requires i >= |b| || b[i] == '"'
    ensures AfterString(From(b, i)) == From(b, i + 1)
  {
    assert i < |b| ==> b[i..][1..] == b[i + 1..];
  }

  method QuoteEnd(b: string, start: nat) returns (i: nat)
    requires start <= |b|
    ensures i == start + QuotedLength(b[start..])
  {
    i := start;
    while i < |b| && b[i] != '\''
      invariant start <= i <= |b| && QuotedLength(b[start..]) == i - start + QuotedLength(b[i..])
    {
      assert b[i..][1..] == b[i + 1..];
      i := i + 1;
    }
  }

  method WordEnd(b: string, start: nat) returns (i: nat)
    requires start < |b| && IsLetter(b[start])
    ensures i == start + WordLength(b[start..]) && start < i
  {
    i := start;
    while i < |b| && IsWordChar(b[i])
      invariant start <= i <= |b| && WordLength(b[start..]) == i - start + WordLength(b[i..])
    {
      assert b[i..][1..] == b[i + 1..];
      i := i + 1;
    }
  }

  /** One turn of the tokenizer's loop. */
  method TakeToken(b: string, start: nat) returns (tok: seq<Tok>, i: nat)
    requires start < |b|
    ensures start < i && (tok, From(b, i)) == Next(b[start..])
  {
    tok := [];
    i := start;
    ghost var s := b[start..];
    assert s != "" && s[0] == b[i] && s[1..] == From(b, i + 1);
    assert i + 1 < |b| <==> |s| > 1;
    assert |s| > 1 ==> s[1] == b[i + 1];
    hide AfterLine, AfterBlock, AfterString, QuotedLength, WordLength, IsSpace, IsLetter, AfterQuoted;
    if b[i] == '/' && i + 1 < |b| && b[i + 1] == '/' {
      i := SkipLine(b, i);
    } else if b[i] == '/' && i + 1 < |b| && b[i + 1] == '*' {
      assert s[2..] == b[i + 2..];
      i := SkipBlock(b, i + 2);
    } else if b[i] == '"' {
      i := SkipString(b, i + 1);
      tok := [Other];
    } else if b[i] == '\'' {
      i := QuoteEnd(b, start + 1);
      QuotedAt(b, start, i);
      tok := [Word(b[start + 1..i])];
      i := i + 1;
    } else if b[i] == '{' {
      tok := [Open];
      i := i + 1;
    } else if b[i] == '}' {
      tok := [Close];
      i := i + 1;
    } else if b[i] == ';' {
      tok := [Semi];
      i := i + 1;
    } else if IsSpace(b[i]) {
      i := i + 1;
    } else if IsLetter(b[i]) {
      i := WordEnd(b, start);
      assert s[..i - start] == b[start..i] && s[i - start..] == b[i..];
      tok := [Word(b[start..i])];
    } else {
      tok := [Other];
      i := i + 1;
    }
  }

  method Tokenise(b: string) returns (toks: seq<Tok>)
    ensures toks == Tokens(b)
  {
    toks := [];
    var i := 0;
    assert b[0..] == b;
    hide Next, Tokens;
    while i < |b|
      invariant 0 <= i && toks + Tokens(From(b, i)) == Tokens(b)
      decreases |b| - i
    {
      var tok, next := TakeToken(b, i);
      TokensStep(b[i..], tok, From(b, next), toks);
      toks := toks + tok;
      i := next;
    }
    TokensEnd();
  }

  lemma TokensStep(s: string, tok: seq<Tok>, rest: string, toks: seq<Tok>)
    requires s != "" && (tok, rest) == Next(s)
    ensures toks + Tokens(s) == (toks + tok) + Tokens(rest)
  {
    hide Next;
  }

  lemma TokensEnd()
    ensures Tokens("") == []
  {
  }

  lemma QuotedAt(b: string, i: nat, end: nat)
    requires i < |b| && end == i + 1 + QuotedLength(b[i + 1..])
    ensures b[i..][1..][..QuotedLength(b[i..][1..])] == b[i + 1..end]
    ensures AfterQuoted(b[i..][1..]) == From(b, end + 1)
  {
    assert b[i..][1..] == b[i + 1..];
    hide QuotedLength;
  }

  method ScanDeclarations(text: string) returns (names: seq<string>)
    ensures names == Scan(text)
  {
    var toks := Tokenise(text);
    names := [];
    var stack: seq<Option<string>> := [];
    var pending: Option<string> := None;
    var k := 0;
    hide Tokens, IsKeyword, Reserved, Qualified;
    assert toks[0..] == toks;
    while k < |toks|
      invariant 0 <= k <= |toks|
      invariant names + Names(toks[k..], stack, pending) == Names(toks, [], None)
      decreases |toks| - k
    {
      ghost var rest := toks[k..];
      assert rest[1..] == toks[k + 1..];
      match toks[k] {
        case Word(w) =>
          if IsKeyword(w) {
            var j := k + 1;
            if j < |toks| && toks[j] == Word(Def()) { j := j + 1; }
            assert j == k + NameIndex(rest);
            if j < |toks| && toks[j].Word? && !Reserved(toks[j].text) {
              var name := toks[j].text;
              assert rest[j - k..][1..] == toks[j + 1..];
              names := names + [Qualified(stack, name)];
              pending := Some(name);
              k := j;
            }
          }
        case Open =>
          stack := stack + [pending];
          pending := None;
        case Close =>
          stack := Pop(stack);
          pending := None;
        case Semi => pending := None;
        case Other =>
      }
      k := k + 1;
    }
  }
}
