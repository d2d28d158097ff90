/** What the scanner of `crates/kr0ki-core/src/assurance_trace.rs` finds in plain declarations,
    however they are laid out. */
module ScannerExact {
  import opened Scanner
  import opened Wrappers

  datatype Name = Bare(text: string) | Quoted(text: string)

  /** `keyword [def] [name] [: A::B] ;` or the same with a body in braces. */
  datatype Decl = Decl(keyword: string, isDef: bool, name: Option<Name>, ty: seq<Name>, body: Option<Decls>)

  datatype Decls = End | Then(first: Decl, rest: Decls)

  predicate IsBare(w: string) {
    w != "" && IsLetter(w[0]) && forall k :: 0 <= k < |w| ==> IsWordChar(w[k])
  }

  predicate NameOk(n: Name) {
    match n
    case Bare(w) => IsBare(w)
    case Quoted(w) => '\'' !in w
  }

  predicate DeclOk(d: Decl) {
    && IsKeyword(d.keyword)
    && (d.name.Some? ==> NameOk(d.name.value))
    && (forall n :: n in d.ty ==> NameOk(n))
    && (d.body.Some? ==> DeclsOk(d.body.value))
  }

  predicate DeclsOk(ds: Decls) {
    ds.Then? ==> DeclOk(ds.first) && DeclsOk(ds.rest)
  }

  // ---------------------------------------------------------------- what is declared

  /** The name a declaration contributes to the paths below it: a reserved word contributes none. */
  function Scope(d: Decl): Option<string> {
    if d.name.Some? && !Reserved(d.name.value.text) then Some(d.name.value.text) else None
  }

  /** The qualified names of the declarations, parents before children, skipping reserved names. */
  function Scanned(ds: Decls, stack: seq<Option<string>>): seq<string>
    decreases ds
  {
    match ds
    case End => []
    case Then(d, rest) =>
      (if Scope(d).Some? then [Qualified(stack, Scope(d).value)] else [])
        + (if d.body.Some? then Scanned(d.body.value, stack + [Scope(d)]) else [])
        + Scanned(rest, stack)
  }

  /** A name inside the scope with this qualified name, if it is inside one. */
  function Under(path: Option<string>, name: string): string {
    if path.Some? then path.value + "::" + name else name
  }

  /** The qualified name of the scope that the body of `d` is in, when reserved words name none. */
  function Inside(d: Decl, path: Option<string>): Option<string> {
    if Scope(d).Some? then Some(Under(path, Scope(d).value)) else path
  }

  /** What the scanner is to find: each declared name under its parent's qualified name, parents before
      children, but for the reserved words, which declare nothing. */
  function Listed(ds: Decls, path: Option<string>): seq<string>
    decreases ds
  {
    match ds
    case End => []
    case Then(d, rest) =>
      (if Scope(d).Some? then [Under(path, Scope(d).value)] else [])
        + (if d.body.Some? then Listed(d.body.value, Inside(d, path)) else [])
        + Listed(rest, path)
  }

  function GivenPath(d: Decl, path: Option<string>): Option<string> {
    if d.name.Some? then Some(Under(path, d.name.value.text)) else path
  }

  /** The same for every name that is given. */
  function Declared(ds: Decls, path: Option<string>): seq<string>
    decreases ds
  {
    match ds
    case End => []
    case Then(d, rest) =>
      (if d.name.Some? then [Under(path, d.name.value.text)] else [])
        + (if d.body.Some? then Declared(d.body.value, GivenPath(d, path)) else [])
        + Declared(rest, path)
  }

  /** The scope stack stands for the scope with this qualified name. */
  ghost predicate Stands(stack: seq<Option<string>>, path: Option<string>) {
    forall name :: Qualified(stack, name) == Under(path, name)
  }

  lemma {:induction false} StandsInside(stack: seq<Option<string>>, path: Option<string>, d: Decl)
    requires Stands(stack, path)
    ensures Stands(stack + [Scope(d)], Inside(d, path))
  {
    hide Scope;
    forall name ensures Qualified(stack + [Scope(d)], name) == Under(Inside(d, path), name) {
      QualifiedInside(stack, Scope(d), name);
    }
  }

  /** The scope stack keeps track of the qualified names. */
  lemma {:induction false} ScannedListed(ds: Decls, stack: seq<Option<string>>, path: Option<string>)
    requires Stands(stack, path)
    ensures Scanned(ds, stack) == Listed(ds, path)
    decreases ds
  {
    hide Qualified, Under, Scope, Inside;
    match ds
    case End =>
    case Then(d, rest) =>
      if d.body.Some? {
        StandsInside(stack, path, d);
        ScannedListed(d.body.value, stack + [Scope(d)], Inside(d, path));
      }
      ScannedListed(rest, stack, path);
  }

  predicate NoReservedName(ds: Decls) {
    match ds
    case End => true
    case Then(d, rest) =>
      && (d.name.Some? ==> !Reserved(d.name.value.text))
      && (d.body.Some? ==> NoReservedName(d.body.value))
      && NoReservedName(rest)
  }

  function CountListed(ds: Decls): nat {
    match ds
    case End => 0
    case Then(d, rest) =>
      (if Scope(d).Some? then 1 else 0) + (if d.body.Some? then CountListed(d.body.value) else 0) + CountListed(rest)
  }

  lemma {:induction false} ListedCount(ds: Decls, path: Option<string>)
    ensures |Listed(ds, path)| == CountListed(ds)
    decreases ds
  {
    hide Under, Inside;
    match ds
    case End =>
    case Then(d, rest) =>
      if d.body.Some? { ListedCount(d.body.value, Inside(d, path)); }
      ListedCount(rest, path);
  }

  lemma {:induction false} DeclaredCount(ds: Decls, path: Option<string>)
    ensures |Declared(ds, path)| >= CountListed(ds)
    ensures |Declared(ds, path)| == CountListed(ds) <==> NoReservedName(ds)
    decreases ds
  {
    hide Under, Reserved, GivenPath;
    match ds
    case End =>
    case Then(d, rest) =>
      if d.body.Some? { DeclaredCount(d.body.value, GivenPath(d, path)); }
      DeclaredCount(rest, path);
  }

  lemma {:induction false} UnreservedSame(ds: Decls, path: Option<string>)
    requires NoReservedName(ds)
    ensures Listed(ds, path) == Declared(ds, path)
    decreases ds
  {
    hide Under, Reserved;
    match ds
    case End =>
    case Then(d, rest) =>
      if d.body.Some? { UnreservedSame(d.body.value, GivenPath(d, path)); }
      UnreservedSame(rest, path);
  }

  /** Every declared name is found exactly when none of them is a keyword or `def`. */
  lemma CompleteExactly(ds: Decls)
    ensures Listed(ds, None) == Declared(ds, None) <==> NoReservedName(ds)
  {
    ListedCount(ds, None);
    DeclaredCount(ds, None);
    if NoReservedName(ds) { UnreservedSame(ds, None); }
  }

  // ---------------------------------------------------------------- lexemes

  datatype Lexeme = Plain(text: string) | InQuotes(text: string) | Colon | OpenBrace | CloseBrace | Semicolon

  predicate LexemeOk(l: Lexeme) {
    match l
    case Plain(w) => IsBare(w)
    case InQuotes(w) => '\'' !in w
    case _ => true
  }

  function LexemeText(l: Lexeme): string {
    match l
    case Plain(w) => w
    case InQuotes(w) => "'" + w + "'"
    case Colon => ":"
    case OpenBrace => "{"
    case CloseBrace => "}"
    case Semicolon => ";"
  }

  function TokenOf(l: Lexeme): Tok {
    match l
    case Plain(w) => Word(w)
    case InQuotes(w) => Word(w)
    case Colon => Other
    case OpenBrace => Open
    case CloseBrace => Close
    case Semicolon => Semi
  }

  function NameLexeme(n: Name): Lexeme {
    match n
    case Bare(w) => Plain(w)
    case Quoted(w) => InQuotes(w)
  }

  /** `A::B::C`. */
  function PathLexemes(path: seq<Name>): seq<Lexeme> {
    if path == [] then []
    else if |path| == 1 then [NameLexeme(path[0])]
    else [NameLexeme(path[0]), Colon, Colon] + PathLexemes(path[1..])
  }

  function HeadLexemes(d: Decl): seq<Lexeme> {
    [Plain(d.keyword)] + (if d.isDef then [Plain(Def())] else [])
      + (if d.name.Some? then [NameLexeme(d.name.value)] else [])
      + (if d.ty == [] then [] else [Colon] + PathLexemes(d.ty))
  }

  function Lexemes(ds: Decls): seq<Lexeme> {
    match ds
    case End => []
    case Then(d, rest) =>
      HeadLexemes(d)
        + (if d.body.Some? then [OpenBrace] + Lexemes(d.body.value) + [CloseBrace] else [Semicolon])
        + Lexemes(rest)
  }

  function TokensOf(ls: seq<Lexeme>): seq<Tok> {
    seq(|ls|, k requires 0 <= k < |ls| => TokenOf(ls[k]))
  }

  // ---------------------------------------------------------------- names in the tokens of declarations

  lemma OtherSkipped(more: seq<Tok>, stack: seq<Option<string>>, pending: Option<string>)
    ensures Names([Other] + more, stack, pending) == Names(more, stack, pending)
  {
    assert ([Other] + more)[1..] == more;
  }

  lemma WordSkipped(w: string, more: seq<Tok>, stack: seq<Option<string>>, pending: Option<string>)
    requires more != [] && !more[0].Word?
    ensures Names([Word(w)] + more, stack, pending) == Names(more, stack, pending)
  {
    hide Qualified, Reserved, IsKeyword;
    var toks := [Word(w)] + more;
    assert toks[1..] == more && toks[1] == more[0];
  }

  /** The words of a type give no name: none is followed by another word. */
  lemma {:induction false} PathSkipped(path: seq<Name>, more: seq<Tok>, stack: seq<Option<string>>,
                                       pending: Option<string>)
    requires path != [] && more != [] && !more[0].Word?
    ensures Names(TokensOf(PathLexemes(path)) + more, stack, pending) == Names(more, stack, pending)
    decreases |path|
  {
    var toks := TokensOf(PathLexemes(path)) + more;
    hide Names;
    if |path| == 1 {
      assert toks == [Word(path[0].text)] + more;
      WordSkipped(path[0].text, more, stack, pending);
    } else {
      var after := TokensOf(PathLexemes(path[1..])) + more;
      assert toks == [Word(path[0].text)] + ([Other] + ([Other] + after));
      WordSkipped(path[0].text, [Other] + ([Other] + after), stack, pending);
      OtherSkipped([Other] + after, stack, pending);
      OtherSkipped(after, stack, pending);
      PathSkipped(path[1..], more, stack, pending);
    }
  }

  lemma TypeSkipped(ty: seq<Name>, more: seq<Tok>, stack: seq<Option<string>>, pending: Option<string>)
    requires more != [] && !more[0].Word?
    ensures var colon := if ty == [] then [] else [Colon] + PathLexemes(ty);
            Names(TokensOf(colon) + more, stack, pending) == Names(more, stack, pending)
  {
    hide Names;
    if ty == [] {
      assert TokensOf([]) + more == more;
    } else {
      assert TokensOf([Colon] + PathLexemes(ty)) + more == [Other] + (TokensOf(PathLexemes(ty)) + more);
      OtherSkipped(TokensOf(PathLexemes(ty)) + more, stack, pending);
      PathSkipped(ty, more, stack, pending);
    }
  }

  /** The keyword, `def` and name of a declaration give its name, if it has one to give. */
  lemma HeadNames(d: Decl, more: seq<Tok>, stack: seq<Option<string>>)
    requires IsKeyword(d.keyword) && more != [] && !more[0].Word?
    ensures var words := [Word(d.keyword)] + (if d.isDef then [Word(Def())] else [])
                         + (if d.name.Some? then [Word(d.name.value.text)] else []);
            Names(words + more, stack, None)
            == (if Scope(d).Some? then [Qualified(stack, Scope(d).value)] else []) + Names(more, stack, Scope(d))
  {
    hide Qualified;
    var def := if d.isDef then [Word(Def())] else [];
    if d.name.Some? {
      var w := d.name.value.text;
      var toks := [Word(d.keyword)] + def + [Word(w)] + more;
      if Reserved(w) {
        ReservedHead(d.keyword, d.isDef, w, more, stack);
      } else {
        assert !d.isDef ==> toks[1] == Word(w) && w != Def();
        assert d.isDef ==> toks[1] == Word(Def());
        assert NameIndex(toks) == 1 + |def| && toks[1 + |def|] == Word(w);
        assert toks[2 + |def|..] == more;
      }
    } else {
      BareHead(d.keyword, d.isDef, more, stack);
    }
  }

  lemma DefNotKeyword()
    ensures !IsKeyword(Def())
  {
  }

  lemma BareHead(keyword: string, isDef: bool, more: seq<Tok>, stack: seq<Option<string>>)
    requires more != [] && !more[0].Word?
    ensures Names([Word(keyword)] + (if isDef then [Word(Def())] else []) + [] + more, stack, None)
            == Names(more, stack, None)
  {
    hide Qualified, Reserved, IsKeyword, Def;
    if isDef {
      var toks := [Word(keyword), Word(Def())] + more;
      assert [Word(keyword)] + [Word(Def())] + [] + more == toks;
      assert toks[1..] == [Word(Def())] + more && toks[2] == more[0];
      WordSkipped(Def(), more, stack, None);
    } else {
      assert [Word(keyword)] + [] + [] + more == [Word(keyword)] + more;
      WordSkipped(keyword, more, stack, None);
    }
  }

  /** A reserved name is passed over, whatever stands before it. */
  lemma {:induction false} ReservedHead(keyword: string, isDef: bool, w: string, more: seq<Tok>,
                                        stack: seq<Option<string>>)
    requires Reserved(w) && more != [] && !more[0].Word?
    ensures Names([Word(keyword)] + (if isDef then [Word(Def())] else []) + [Word(w)] + more, stack, None)
            == Names(more, stack, None)
  {
    hide *;
    WordSkipped(w, more, stack, None);
    if isDef {
      ReservedDef(keyword, w, more, stack);
      assert [Word(keyword)] + [Word(Def())] + [Word(w)] + more == [Word(keyword), Word(Def()), Word(w)] + more;
    } else {
      ReservedPlain(keyword, w, more, stack);
      assert [Word(keyword)] + [] + [Word(w)] + more == [Word(keyword), Word(w)] + more;
    }
  }

  lemma {:induction false} ReservedDef(keyword: string, w: string, more: seq<Tok>, stack: seq<Option<string>>)
    requires Reserved(w) && more != [] && !more[0].Word?
    ensures Names([Word(keyword), Word(Def()), Word(w)] + more, stack, None) == Names([Word(w)] + more, stack, None)
  {
    DefNotKeyword();
    hide Qualified, IsKeyword, Def;
    var toks := [Word(keyword), Word(Def()), Word(w)] + more;
    assert toks[1..] == [Word(Def()), Word(w)] + more && toks[1..][1..] == [Word(w)] + more;
  }

  lemma {:induction false} ReservedPlain(keyword: string, w: string, more: seq<Tok>, stack: seq<Option<string>>)
    requires Reserved(w) && more != [] && !more[0].Word?
    ensures Names([Word(keyword), Word(w)] + more, stack, None) == Names([Word(w)] + more, stack, None)
  {
    hide Qualified, IsKeyword, Def;
    var toks := [Word(keyword), Word(w)] + more;
    assert toks[1..] == [Word(w)] + more && toks[2] == more[0];
  }

  /** Scanning the tokens of declarations gives their names and leaves nothing pending. */
  lemma {:induction false} DeclNames(ds: Decls, more: seq<Tok>, stack: seq<Option<string>>)
    requires DeclsOk(ds)
    ensures Names(TokensOf(Lexemes(ds)) + more, stack, None) == Scanned(ds, stack) + Names(more, stack, None)
    decreases ds
  {
    match ds
    case End => assert TokensOf([]) + more == more;
    case Then(d, rest) =>
      var after := TokensOf(Lexemes(rest)) + more;
      DeclNames(rest, more, stack);
      HeadSplit(d, rest, more);
      if d.body.Some? { DeclNames(d.body.value, [Close] + after, stack + [Scope(d)]); }
      hide *;
      OneDecl(d, rest, after, stack);
      ScannedParts(d, rest, stack, Names(more, stack, None));
  }

  function OwnName(d: Decl, stack: seq<Option<string>>): seq<string> {
    if Scope(d).Some? then [Qualified(stack, Scope(d).value)] else []
  }

  function InnerNames(d: Decl, stack: seq<Option<string>>): seq<string> {
    if d.body.Some? then Scanned(d.body.value, stack + [Scope(d)]) else []
  }

  lemma {:induction false} ScannedParts(d: Decl, rest: Decls, stack: seq<Option<string>>, tail: seq<string>)
    ensures Scanned(Then(d, rest), stack) + tail
            == OwnName(d, stack) + (InnerNames(d, stack) + (Scanned(rest, stack) + tail))
  {
    ScannedOne(d, rest, stack);
    hide Scanned, Scope, Qualified, OwnName, InnerNames;
  }

  lemma {:induction false} ScannedOne(d: Decl, rest: Decls, stack: seq<Option<string>>)
    ensures Scanned(Then(d, rest), stack) == OwnName(d, stack) + InnerNames(d, stack) + Scanned(rest, stack)
  {
    hide Scope, Qualified;
  }

  function Body(d: Decl, after: seq<Tok>): seq<Tok> {
    if d.body.Some? then [Open] + (TokensOf(Lexemes(d.body.value)) + ([Close] + after)) else [Semi] + after
  }

  lemma {:induction false} OneDecl(d: Decl, rest: Decls, after: seq<Tok>, stack: seq<Option<string>>)
    requires IsKeyword(d.keyword)
    requires d.body.Some? ==> Names(TokensOf(Lexemes(d.body.value)) + ([Close] + after), stack + [Scope(d)], None)
                              == Scanned(d.body.value, stack + [Scope(d)])
                                + Names([Close] + after, stack + [Scope(d)], None)
    ensures Names(TokensOf(HeadLexemes(d)) + Body(d, after), stack, None)
            == OwnName(d, stack) + (InnerNames(d, stack) + Names(after, stack, None))
  {
    hide Names, IsKeyword, Qualified, HeadLexemes, Lexemes, TokensOf, Scope, Scanned;
    OneHead(d, Body(d, after), stack);
    if d.body.Some? {
      OpenScope(TokensOf(Lexemes(d.body.value)) + ([Close] + after), stack, Scope(d));
      CloseScope(after, stack, Scope(d));
    } else {
      EndDecl(after, stack, Scope(d));
      assert InnerNames(d, stack) + Names(after, stack, None) == Names(after, stack, None);
    }
  }

  lemma {:induction false} HeadSplit(d: Decl, rest: Decls, more: seq<Tok>)
    ensures var after := TokensOf(Lexemes(rest)) + more;
            TokensOf(Lexemes(Then(d, rest))) + more
            == TokensOf(HeadLexemes(d)) + Body(d, after)
  {
    hide HeadLexemes, Lexemes, TokensOf;
    LexemesOf(d, rest);
    var tail := if d.body.Some? then [OpenBrace] + Lexemes(d.body.value) + [CloseBrace] else [Semicolon];
    TokensConcat(HeadLexemes(d) + tail, Lexemes(rest));
    TokensConcat(HeadLexemes(d), tail);
    BodyTokens(d, TokensOf(Lexemes(rest)) + more);
    hide Body;
    Regroup(TokensOf(HeadLexemes(d)), TokensOf(tail), TokensOf(Lexemes(rest)), more);
  }

  lemma Regroup(a: seq<Tok>, b: seq<Tok>, c: seq<Tok>, d: seq<Tok>)
    ensures a + b + c + d == a + (b + (c + d))
  {
  }

  lemma {:induction false} BodyTokens(d: Decl, after: seq<Tok>)
    ensures var tail := if d.body.Some? then [OpenBrace] + Lexemes(d.body.value) + [CloseBrace] else [Semicolon];
            TokensOf(tail) + after == Body(d, after)
  {
    hide Lexemes;
    if d.body.Some? {
      TokensConcat([OpenBrace] + Lexemes(d.body.value), [CloseBrace]);
      TokensConcat([OpenBrace], Lexemes(d.body.value));
    }
    assert TokensOf([OpenBrace]) == [Open] && TokensOf([CloseBrace]) == [Close] && TokensOf([Semicolon]) == [Semi];
    hide TokensOf;
  }

  lemma LexemesOf(d: Decl, rest: Decls)
    ensures Lexemes(Then(d, rest))
            == HeadLexemes(d)
               + (if d.body.Some? then [OpenBrace] + Lexemes(d.body.value) + [CloseBrace] else [Semicolon])
               + Lexemes(rest)
  {
  }

  lemma HeadTokens(d: Decl, colon: seq<Lexeme>, more: seq<Tok>)
    requires colon == if d.ty == [] then [] else [Colon] + PathLexemes(d.ty)
    requires more != [] && !more[0].Word?
    ensures var words := [Word(d.keyword)] + (if d.isDef then [Word(Def())] else [])
                         + (if d.name.Some? then [Word(d.name.value.text)] else []);
            TokensOf(HeadLexemes(d)) + more == words + (TokensOf(colon) + more)
    ensures TokensOf(colon) + more != [] && !(TokensOf(colon) + more)[0].Word?
  {
    hide PathLexemes, Def;
    var def := if d.isDef then [Plain(Def())] else [];
    var name := if d.name.Some? then [NameLexeme(d.name.value)] else [];
    HeadParts(d, colon, def, name);
    WordTokens(d, def, name);
    TypeStart(colon, more, d.ty);
    hide *;
    var words := [Plain(d.keyword)] + def + name;
    TokensConcat(words, colon);
    assert TokensOf(words) + TokensOf(colon) + more == TokensOf(words) + (TokensOf(colon) + more);
  }

  lemma HeadParts(d: Decl, colon: seq<Lexeme>, def: seq<Lexeme>, name: seq<Lexeme>)
    requires colon == if d.ty == [] then [] else [Colon] + PathLexemes(d.ty)
    requires def == if d.isDef then [Plain(Def())] else []
    requires name == if d.name.Some? then [NameLexeme(d.name.value)] else []
    ensures HeadLexemes(d) == ([Plain(d.keyword)] + def + name) + colon
  {
    hide PathLexemes, Def, NameLexeme;
  }

  lemma TypeStart(colon: seq<Lexeme>, more: seq<Tok>, ty: seq<Name>)
    requires colon == (if ty == [] then [] else [Colon] + PathLexemes(ty)) && more != [] && !more[0].Word?
    ensures TokensOf(colon) + more != [] && !(TokensOf(colon) + more)[0].Word?
  {
    hide PathLexemes;
  }

  lemma WordTokens(d: Decl, def: seq<Lexeme>, name: seq<Lexeme>)
    requires def == if d.isDef then [Plain(Def())] else []
    requires name == if d.name.Some? then [NameLexeme(d.name.value)] else []
    ensures TokensOf([Plain(d.keyword)] + def + name)
            == [Word(d.keyword)] + (if d.isDef then [Word(Def())] else [])
               + (if d.name.Some? then [Word(d.name.value.text)] else [])
  {
    hide Def;
  }

  lemma TokensConcat(a: seq<Lexeme>, b: seq<Lexeme>)
    ensures TokensOf(a + b) == TokensOf(a) + TokensOf(b)
  {
  }

  lemma OneHead(d: Decl, more: seq<Tok>, stack: seq<Option<string>>)
    requires IsKeyword(d.keyword) && more != [] && !more[0].Word?
    ensures Names(TokensOf(HeadLexemes(d)) + more, stack, None)
            == (if Scope(d).Some? then [Qualified(stack, Scope(d).value)] else []) + Names(more, stack, Scope(d))
  {
    hide Names, Scope, IsKeyword, Qualified, PathLexemes, Def, Reserved;
    var colon := if d.ty == [] then [] else [Colon] + PathLexemes(d.ty);
    HeadTokens(d, colon, more);
    hide TokensOf, HeadLexemes;
    HeadNames(d, TokensOf(colon) + more, stack);
    TypeSkipped(d.ty, more, stack, Scope(d));
  }

  lemma OpenScope(more: seq<Tok>, stack: seq<Option<string>>, pending: Option<string>)
    ensures Names([Open] + more, stack, pending) == Names(more, stack + [pending], None)
  {
    assert ([Open] + more)[1..] == more;
  }

  lemma CloseScope(more: seq<Tok>, stack: seq<Option<string>>, inner: Option<string>)
    ensures Names([Close] + more, stack + [inner], None) == Names(more, stack, None)
  {
    assert ([Close] + more)[1..] == more;
    assert Pop(stack + [inner]) == stack;
  }

  lemma EndDecl(more: seq<Tok>, stack: seq<Option<string>>, pending: Option<string>)
    ensures Names([Semi] + more, stack, pending) == Names(more, stack, None)
  {
    assert ([Semi] + more)[1..] == more;
  }

  // ---------------------------------------------------------------- layouts

  /** White space, or a terminated comment. */
  datatype Piece = Space(c: char) | LineComment(text: string) | BlockComment(text: string)

  predicate PieceOk(p: Piece) {
    match p
    case Space(c) => IsSpace(c)
    case LineComment(t) => '\n' !in t
    case BlockComment(t) => forall k :: 0 <= k < |t| - 1 ==> !(t[k] == '*' && t[k + 1] == '/')
  }

  function PieceText(p: Piece): string {
    match p
    case Space(c) => [c]
    case LineComment(t) => "//" + t + "\n"
    case BlockComment(t) => "/*" + t + "*/"
  }

  function GapText(gap: seq<Piece>): string {
    if gap == [] then "" else PieceText(gap[0]) + GapText(gap[1..])
  }

  predicate GapOk(gap: seq<Piece>) {
    forall p :: p in gap ==> PieceOk(p)
  }

  /** The lexemes, with a gap before each and one at the end. */
  function Layout(ls: seq<Lexeme>, gaps: seq<seq<Piece>>): string
    requires |gaps| == |ls| + 1
  {
    if ls == [] then GapText(gaps[0]) else GapText(gaps[0]) + (LexemeText(ls[0]) + Layout(ls[1..], gaps[1..]))
  }

  /** Every gap is white space and comments, and two plain words never touch. */
  predicate LayoutOk(ls: seq<Lexeme>, gaps: seq<seq<Piece>>) {
    && |gaps| == |ls| + 1
    && (forall k :: 0 <= k < |gaps| ==> GapOk(gaps[k]))
    && (forall k :: 0 < k < |ls| && ls[k - 1].Plain? && ls[k].Plain? ==> gaps[k] != [])
  }

  lemma {:induction false} LineSkipped(t: string, rest: string)
    requires '\n' !in t
    ensures AfterLine(t + "\n" + rest) == "\n" + rest
  {
    if t == "" {
      assert t + "\n" + rest == "\n" + rest;
    } else {
      assert (t + "\n" + rest)[1..] == t[1..] + "\n" + rest;
      LineSkipped(t[1..], rest);
    }
  }

  lemma {:induction false} BlockSkipped(t: string, rest: string)
    requires PieceOk(BlockComment(t))
    ensures AfterBlock(t + "*/" + rest) == rest
  {
    var s := t + "*/" + rest;
    if t == "" {
      assert s[2..] == rest;
    } else {
      assert s[1..] == t[1..] + "*/" + rest;
      assert PieceOk(BlockComment(t[1..])) by {
        forall k | 0 <= k < |t[1..]| - 1 ensures !(t[1..][k] == '*' && t[1..][k + 1] == '/') {
          assert t[1..][k] == t[k + 1] && t[1..][k + 1] == t[k + 2];
        }
      }
      BlockSkipped(t[1..], rest);
      assert |t| > 1 ==> s[1] == t[1];
    }
  }

  lemma {:induction false} SpaceSkipped(c: char, rest: string)
    requires IsSpace(c)
    ensures Tokens([c] + rest) == Tokens(rest)
  {
    assert ([c] + rest)[1..] == rest;
  }

  lemma {:induction false} PieceSkipped(p: Piece, rest: string)
    requires PieceOk(p)
    ensures Tokens(PieceText(p) + rest) == Tokens(rest)
  {
    match p
    case Space(c) => SpaceSkipped(c, rest);
    case LineComment(t) =>
      LineSkipped("//" + t, rest);
      LineStart(t, rest);
      SpaceSkipped('\n', rest);
      hide Tokens;
    case BlockComment(t) =>
      BlockSkipped(t, rest);
      BlockStart(t, rest);
      hide Tokens;
  }

  lemma {:induction false} LineStart(t: string, rest: string)
    ensures Tokens("//" + t + "\n" + rest) == Tokens(AfterLine("//" + t + "\n" + rest))
  {
    hide AfterLine;
  }

  lemma {:induction false} BlockStart(t: string, rest: string)
    ensures Tokens("/*" + t + "*/" + rest) == Tokens(AfterBlock(t + "*/" + rest))
  {
    hide AfterBlock;
    assert ("/*" + t + "*/" + rest)[2..] == t + "*/" + rest;
  }

  lemma {:induction false} GapSkipped(gap: seq<Piece>, rest: string)
    requires GapOk(gap)
    ensures Tokens(GapText(gap) + rest) == Tokens(rest)
    decreases |gap|
  {
    hide Tokens, PieceOk, PieceText;
    if gap == [] {
      assert GapText(gap) + rest == rest;
    } else {
      assert GapText(gap) + rest == PieceText(gap[0]) + (GapText(gap[1..]) + rest);
      PieceSkipped(gap[0], GapText(gap[1..]) + rest);
      GapSkipped(gap[1..], rest);
    }
  }

  lemma {:induction false} WordEnds(w: string, rest: string)
    requires forall k :: 0 <= k < |w| ==> IsWordChar(w[k])
    requires rest != "" ==> !IsWordChar(rest[0])
    ensures WordLength(w + rest) == |w|
    decreases |w|
  {
    hide IsWordChar;
    if w == "" {
      assert w + rest == rest;
    } else {
      assert (w + rest)[1..] == w[1..] + rest;
      WordEnds(w[1..], rest);
    }
  }

  lemma {:induction false} QuoteEnds(w: string, rest: string)
    requires '\'' !in w
    ensures QuotedLength(w + "'" + rest) == |w|
    decreases |w|
  {
    if w == "" {
      assert w + "'" + rest == "'" + rest;
    } else {
      assert (w + "'" + rest)[1..] == w[1..] + "'" + rest;
      QuoteEnds(w[1..], rest);
    }
  }

  lemma {:induction false} PlainRead(w: string, rest: string)
    requires IsBare(w) && (rest != "" ==> !IsWordChar(rest[0]))
    ensures Tokens(w + rest) == [Word(w)] + Tokens(rest)
  {
    WordEnds(w, rest);
    var s := w + rest;
    assert s[0] == w[0] && s[..|w|] == w && s[|w|..] == rest;
    assert Next(s) == ([Word(w)], rest);
  }

  lemma {:induction false} QuotedRead(w: string, rest: string)
    requires '\'' !in w
    ensures Tokens("'" + w + "'" + rest) == [Word(w)] + Tokens(rest)
  {
    var s := "'" + w + "'" + rest;
    QuoteEnds(w, rest);
    assert s[1..] == w + "'" + rest;
    assert s[1..][..|w|] == w && s[1..][|w| + 1..] == rest;
    assert Next(s) == ([Word(w)], rest);
  }

  lemma {:induction false} SymbolRead(l: Lexeme, rest: string)
    requires l.Colon? || l.OpenBrace? || l.CloseBrace? || l.Semicolon?
    ensures Tokens(LexemeText(l) + rest) == [TokenOf(l)] + Tokens(rest)
  {
    assert (LexemeText(l) + rest)[1..] == rest;
  }

  lemma {:induction false} LexemeRead(l: Lexeme, rest: string)
    requires LexemeOk(l) && (l.Plain? && rest != "" ==> !IsWordChar(rest[0]))
    ensures Tokens(LexemeText(l) + rest) == [TokenOf(l)] + Tokens(rest)
  {
    hide Tokens, IsBare;
    match l
    case Plain(w) => PlainRead(w, rest);
    case InQuotes(w) => QuotedRead(w, rest);
    case _ => SymbolRead(l, rest);
  }

  lemma GapStarts(gap: seq<Piece>)
    requires GapOk(gap) && gap != []
    ensures GapText(gap) != "" && !IsWordChar(GapText(gap)[0])
  {
    assert PieceOk(gap[0]);
    assert PieceText(gap[0]) != "" && !IsWordChar(PieceText(gap[0])[0]);
  }

  /** What follows a plain word in a layout is not part of a word. */
  lemma WordSeparated(ls: seq<Lexeme>, gaps: seq<seq<Piece>>)
    requires LayoutOk(ls, gaps) && ls != [] && (forall l :: l in ls ==> LexemeOk(l))
    ensures LayoutOk(ls[1..], gaps[1..])
    ensures var rest := Layout(ls[1..], gaps[1..]); ls[0].Plain? && rest != "" ==> !IsWordChar(rest[0])
  {
    if gaps[1] != [] {
      GapStarts(gaps[1]);
    } else if |ls| > 1 {
      assert LexemeOk(ls[1]);
      assert Layout(ls[1..], gaps[1..]) == LexemeText(ls[1]) + Layout(ls[1..][1..], gaps[1..][1..]);
    }
  }

  /** Any layout of lexemes gives exactly their tokens. */
  lemma {:induction false} LayoutTokens(ls: seq<Lexeme>, gaps: seq<seq<Piece>>)
    requires LayoutOk(ls, gaps) && forall l :: l in ls ==> LexemeOk(l)
    ensures Tokens(Layout(ls, gaps)) == TokensOf(ls)
    decreases |ls|
  {
    if ls == [] {
      GapSkipped(gaps[0], "");
      assert GapText(gaps[0]) + "" == GapText(gaps[0]);
    } else {
      var rest := Layout(ls[1..], gaps[1..]);
      WordSeparated(ls, gaps);
      assert LexemeOk(ls[0]) && GapOk(gaps[0]);
      hide Tokens, LexemeText, GapText, LexemeOk, GapOk, IsWordChar;
      GapSkipped(gaps[0], LexemeText(ls[0]) + rest);
      LexemeRead(ls[0], rest);
      LayoutTokens(ls[1..], gaps[1..]);
      assert TokensOf(ls) == [TokenOf(ls[0])] + TokensOf(ls[1..]);
    }
  }

  // ---------------------------------------------------------------- exactness

  predicate AllLetters(w: string) {
    forall k :: 0 <= k < |w| ==> IsLetter(w[k])
  }

  lemma FirstKeywords()
    ensures AllLetters("package") && AllLetters("part") && AllLetters("port") && AllLetters("item")
            && AllLetters("attribute") && AllLetters("action") && AllLetters("state")
  {
  }

  lemma SecondKeywords()
    ensures AllLetters("requirement") && AllLetters("constraint") && AllLetters("connection") && AllLetters("interface")
            && AllLetters("view") && AllLetters("viewpoint") && AllLetters("rendering")
  {
  }

  lemma ThirdKeywords()
    ensures AllLetters("occurrence") && AllLetters("enum") && AllLetters("calc") && AllLetters("case")
            && AllLetters("analysis") && AllLetters("verification") && AllLetters("concern")
  {
  }

  lemma FourthKeywords()
    ensures AllLetters("allocation") && AllLetters("flow") && AllLetters("metadata") && AllLetters("use")
            && AllLetters("individual") && AllLetters("snapshot") && AllLetters("timeslice")
  {
  }

  lemma KeywordBare(w: string)
    requires IsKeyword(w)
    ensures IsBare(w)
  {
    FirstKeywords();
    SecondKeywords();
    ThirdKeywords();
    FourthKeywords();
    hide AllLetters, IsLetter;
    assert AllLetters(w) && w != "";
    LettersAreBare(w);
  }

  lemma LettersAreBare(w: string)
    requires AllLetters(w) && w != ""
    ensures IsBare(w)
  {
  }

  lemma DefBare()
    ensures IsBare(Def())
  {
  }

  lemma {:induction false} PathOk(path: seq<Name>)
    requires forall n :: n in path ==> NameOk(n)
    ensures forall l :: l in PathLexemes(path) ==> LexemeOk(l)
  {
    hide IsBare;
    if path != [] {
      assert NameOk(path[0]);
      if |path| > 1 { PathOk(path[1..]); }
    }
  }

  lemma HeadOk(d: Decl)
    requires DeclOk(d)
    ensures forall l :: l in HeadLexemes(d) ==> LexemeOk(l)
  {
    KeywordBare(d.keyword);
    DefBare();
    PathOk(d.ty);
    hide IsBare, IsKeyword, Def, PathLexemes, DeclsOk;
  }

  lemma {:induction false} LexemesOk(ds: Decls)
    requires DeclsOk(ds)
    ensures forall l :: l in Lexemes(ds) ==> LexemeOk(l)
    decreases ds
  {
    match ds
    case End =>
    case Then(d, rest) =>
      HeadOk(d);
      LexemesOk(rest);
      if d.body.Some? { LexemesOk(d.body.value); }
      LexemesOf(d, rest);
      hide IsBare, HeadLexemes, Lexemes, LexemeOk, DeclOk;
  }

  /** Scanning any layout of plain declarations gives their qualified names, parents first. */
  lemma ScanIsExact(ds: Decls, gaps: seq<seq<Piece>>)
    requires DeclsOk(ds) && LayoutOk(Lexemes(ds), gaps)
    ensures Scan(Layout(Lexemes(ds), gaps)) == Listed(ds, None)
  {
    LexemesOk(ds);
    ScannedListed(ds, [], None);
    hide LayoutOk, DeclsOk, Names, Tokens, Lexemes, Scanned, Listed, Layout;
    LayoutTokens(Lexemes(ds), gaps);
    DeclNames(ds, [], []);
    assert TokensOf(Lexemes(ds)) + [] == TokensOf(Lexemes(ds));
    NothingNamed();
  }

  lemma NothingNamed()
    ensures Names([], [], None) == []
  {
  }

  /** Nothing is missed exactly when no declaration is named by a keyword or `def`. */
  lemma ScanComplete(ds: Decls, gaps: seq<seq<Piece>>)
    requires DeclsOk(ds) && LayoutOk(Lexemes(ds), gaps)
    ensures Scan(Layout(Lexemes(ds), gaps)) == Declared(ds, None) <==> NoReservedName(ds)
  {
    hide Scan, Layout, Listed, Declared, DeclsOk, LayoutOk, NoReservedName;
    ScanIsExact(ds, gaps);
    CompleteExactly(ds);
  }

  /** A part named by the quoted word `part`. */
  function PartPart(): Decls {
    Then(Decl("part", false, Some(Quoted("part")), [], None), End)
  }

  /** The text `part 'part';` declares a name and yields none. */
  lemma QuotedKeywordDropped()
    ensures DeclsOk(PartPart()) && Declared(PartPart(), None) == ["part"]
    ensures Scan("part 'part';") == []
  {
    PartDeclared();
    PartText();
    PartGaps();
    hide *;
    ScanIsExact(PartPart(), [[], [Space(' ')], [], []]);
  }

  lemma PartDeclared()
    ensures DeclsOk(PartPart()) && Declared(PartPart(), None) == ["part"] && Listed(PartPart(), None) == []
    ensures Lexemes(PartPart()) == [Plain("part"), InQuotes("part"), Semicolon]
  {
    PartLexemes();
    PartIsKeyword();
    PartNames();
    hide IsKeyword, Lexemes, Declared, Listed;
  }

  lemma PartNames()
    ensures Declared(PartPart(), None) == ["part"] && Listed(PartPart(), None) == []
  {
    PartIsKeyword();
    hide IsKeyword;
  }

  lemma PartLexemes()
    ensures Lexemes(PartPart()) == [Plain("part"), InQuotes("part"), Semicolon]
  {
    hide IsKeyword;
    assert PathLexemes([]) == [];
  }

  lemma PartGaps()
    ensures LayoutOk([Plain("part"), InQuotes("part"), Semicolon], [[], [Space(' ')], [], []])
  {
  }

  lemma PartIsKeyword()
    ensures IsKeyword("part") && '\'' !in "part"
  {
    assert Keywords()[1] == "part";
  }

  lemma PartText()
    ensures Layout([Plain("part"), InQuotes("part"), Semicolon], [[], [Space(' ')], [], []]) == "part 'part';"
  {
    var gaps: seq<seq<Piece>> := [[], [Space(' ')], [], []];
    assert GapText(gaps[1]) == " " && gaps[1..][0] == gaps[1] && gaps[1..][1..] == [[], []]
      && gaps[1..][1..][1..] == [[]];
    assert Layout([], [[]]) == "";
    assert Layout([Semicolon], [[], []]) == ";";
    assert Layout([InQuotes("part"), Semicolon], gaps[1..]) == " 'part';";
  }

  /** White space and comments between the tokens change nothing. */
  lemma GapsIrrelevant(ds: Decls, gaps: seq<seq<Piece>>, gaps': seq<seq<Piece>>)
    requires DeclsOk(ds) && LayoutOk(Lexemes(ds), gaps) && LayoutOk(Lexemes(ds), gaps')
    ensures Scan(Layout(Lexemes(ds), gaps)) == Scan(Layout(Lexemes(ds), gaps'))
  {
    ScanIsExact(ds, gaps);
    ScanIsExact(ds, gaps');
  }

  // ---------------------------------------------------------------- string literals

  /** A character of a string literal, by itself or after a backslash. */
  datatype StringPart = Raw(c: char) | Escaped(c: char)

  predicate PartsOk(parts: seq<StringPart>) {
    forall p :: p in parts && p.Raw? ==> p.c != '"' && p.c != '\\'
  }

  function StringText(parts: seq<StringPart>): string {
    if parts == [] then ""
    else (if parts[0].Raw? then [parts[0].c] else ['\\', parts[0].c]) + StringText(parts[1..])
  }

  lemma {:induction false} StringEnds(parts: seq<StringPart>, rest: string)
    requires PartsOk(parts)
    ensures AfterString(StringText(parts) + "\"" + rest) == rest
    ensures AfterString(StringText(parts)) == ""
  {
    var s := StringText(parts) + "\"" + rest;
    if parts == [] {
      assert s[1..] == rest;
    } else {
      var inner := StringText(parts[1..]) + "\"" + rest;
      assert parts[0] in parts;
      assert PartsOk(parts[1..]);
      StringEnds(parts[1..], rest);
      if parts[0].Raw? {
        assert s[0] == parts[0].c && s[1..] == inner && StringText(parts)[1..] == StringText(parts[1..]);
      } else {
        assert s[0] == '\\' && s[2..] == inner && StringText(parts)[2..] == StringText(parts[1..]);
      }
    }
  }

  /** A string literal, whatever is escaped in it, is one token that names nothing; one that is not closed
      takes the rest of the text with it. */
  lemma StringLiteral(parts: seq<StringPart>, rest: string)
    requires PartsOk(parts)
    ensures Tokens("\"" + StringText(parts) + "\"" + rest) == [Other] + Tokens(rest)
    ensures Tokens("\"" + StringText(parts)) == [Other]
    ensures Scan("\"" + StringText(parts) + "\"" + rest) == Scan(rest)
  {
    var s, open := "\"" + StringText(parts) + "\"" + rest, "\"" + StringText(parts);
    StringEnds(parts, rest);
    hide StringText, AfterString, Names;
    assert s[1..] == StringText(parts) + "\"" + rest && open[1..] == StringText(parts);
    assert Next(s) == ([Other], rest) && Next(open) == ([Other], "");
    assert Tokens(open) == [Other] + Tokens("");
    OtherSkipped(Tokens(rest), [], None);
  }
}
