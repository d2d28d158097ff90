/** The render service of `crates/kr0ki-core/src/lib.rs` over the content-addressed cache of
    `crates/kr0ki-core/src/cache.rs`. */
module RenderCache {
  import opened Wrappers

  newtype byte = x: int | 0 <= x < 256

  datatype OutputKind = Svg | Png

  function Ext(o: OutputKind): string {
    if o.Svg? then "svg" else "png"
  }

  /** The slugs of `crates/kr0ki-core/src/format.rs`. */
  function Slugs(): seq<string> {
    ["plantuml", "c4plantuml", "graphviz", "d2", "vegalite", "ditaa", "nomnoml", "wavedrom", "vega", "blockdiag",
     "actdiag", "seqdiag", "nwdiag", "packetdiag", "rackdiag", "erd", "umlet", "pikchr", "goat", "bytefield", "dbml",
     "tikz", "svgbob", "wireviz", "structurizr", "symbolator"]
  }

  const Separator := 0x1f as char

  predicate Plain(s: string) {
    Separator !in s
  }

  lemma SlugsPlain(slug: string)
    requires slug in Slugs()
    ensures Plain(slug) && slug != Ext(Svg) && slug != Ext(Png)
  {
  }

  // ---------------------------------------------------------------- rendering without the cache

  datatype RenderError = BadSource(message: string) | Flatten(message: string) | Unreachable(message: string)

  /** A backend that is a function of its inputs, and the local SVG rasterizer. */
  datatype Backend = Backend(
    render: (string, OutputKind, string) -> Result<seq<byte>, RenderError>,
    svgToPng: seq<byte> -> Result<seq<byte>, string>)

  /** `render_bytes_with_png_fallback`. */
  function RenderBytes(b: Backend, format: string, output: OutputKind, source: string): Result<seq<byte>, RenderError> {
    match b.render(format, output, source)
    case Ok(bytes) => Ok(bytes)
    case Err(e) =>
      if e.BadSource? && output.Png? then
        match b.render(format, Svg, source)
        case Err(e') => Err(e')
        case Ok(svg) =>
          match b.svgToPng(svg)
          case Ok(png) => Ok(png)
          case Err(m) => Err(Flatten(m))
      else Err(e)
  }

  /** The backend's own bytes for the text, or the rasterized SVG when it refuses PNG. */
  ghost predicate Draws(b: Backend, format: string, output: OutputKind, source: string, bytes: seq<byte>) {
    || b.render(format, output, source) == Ok(bytes)
    || (output.Png? && RefusesPng(b, format, source)
        && exists svg :: b.render(format, Svg, source) == Ok(svg) && b.svgToPng(svg) == Ok(bytes))
  }

  predicate RefusesPng(b: Backend, format: string, source: string) {
    b.render(format, Png, source).Err? && b.render(format, Png, source).error.BadSource?
  }

  /** The error of the call that failed: the backend's, unless it refused PNG; then that of its SVG, or of
      rasterizing it. */
  ghost predicate FailsWith(b: Backend, format: string, output: OutputKind, source: string, e: RenderError) {
    if output.Png? && RefusesPng(b, format, source) then
      || b.render(format, Svg, source) == Err(e)
      || (e.Flatten? && exists svg :: b.render(format, Svg, source) == Ok(svg) && b.svgToPng(svg) == Err(e.message))
    else b.render(format, output, source) == Err(e)
  }

  /** What rendering gives, in terms of the backend's calls only. */
  lemma RenderBytesExactly(b: Backend, format: string, output: OutputKind, source: string)
    ensures forall bytes ::
              RenderBytes(b, format, output, source) == Ok(bytes) <==> Draws(b, format, output, source, bytes)
    ensures forall e :: RenderBytes(b, format, output, source) == Err(e) <==> FailsWith(b, format, output, source, e)
  {
  }

  // ---------------------------------------------------------------- keys

  datatype Request =
    | Text(format: string, output: OutputKind, source: string)
    | Model(viewKind: string, format: string, output: OutputKind, source: string, contentHash: string, ruleSet: string)

  function Domain(): string {
    "kr0ki/v1"
  }

  /** What `cache_key` and `model_cache_key` hash. */
  function Preimage(r: Request): string {
    match r
    case Text(format, output, source) =>
      Domain() + [Separator] + format + [Separator] + Ext(output) + [Separator] + source
    case Model(viewKind, format, _, _, contentHash, ruleSet) =>
      Domain() + [Separator] + viewKind + [Separator] + format + [Separator] + contentHash + [Separator] + ruleSet
  }

  /** `path_for_ext`, below the cache root. */
  function Path(key: string, output: OutputKind): string
    requires |key| >= 2
  {
    key[..2] + "/" + key + "." + Ext(output)
  }

  lemma PathInjective(key: string, output: OutputKind, key': string, output': OutputKind)
    requires |key| >= 2 && |key'| >= 2 && Path(key, output) == Path(key', output')
    ensures key == key' && output == output'
  {
    var p, p' := Path(key, output), Path(key', output');
    assert |key| == |key'|;
    forall i | 0 <= i < |key| ensures key[i] == key'[i] {
      assert p[3 + i] == key[i] && p'[3 + i] == key'[i];
    }
    assert p[4 + |key|] == Ext(output)[0] && p'[4 + |key|] == Ext(output')[0];
  }

  // ---------------------------------------------------------------- the service

  datatype CacheStatus = Hit | Miss

  datatype Rendered = Rendered(key: string, bytes: seq<byte>, output: OutputKind, status: CacheStatus)

  datatype ServiceError = Render(error: RenderError) | CacheIo

  /** Whether the file system goes along with reading and with writing. */
  datatype Io = Io(readable: bool, writable: bool)

  type Files = map<string, seq<byte>>

  datatype Digest = Digest(hash: string -> string) {
    ghost predicate LongEnough() {
      forall x :: |hash(x)| >= 2
    }
  }

  /** One request: the answer and the files afterwards. */
  function Serve(b: Backend, h: Digest, files: Files, r: Request, io: Io): (Result<Rendered, ServiceError>, Files)
    requires |h.hash(Preimage(r))| >= 2
  {
    var key := h.hash(Preimage(r));
    var path := Path(key, r.output);
    if !io.readable then (Err(CacheIo), files)
    else if path in files then (Ok(Rendered(key, files[path], r.output, Hit)), files)
    else
      match RenderBytes(b, r.format, r.output, r.source)
      case Err(e) => (Err(Render(e)), files)
      case Ok(bytes) =>
        if !io.writable then (Err(CacheIo), files)
        else (Ok(Rendered(key, bytes, r.output, Miss)), files[path := bytes])
  }

  class FsCache {
    var files: Files

    constructor ()
      ensures files == map[]
    {
      files := map[];
    }

    method GetRaw(key: string, output: OutputKind, io: Io) returns (r: Result<Option<seq<byte>>, ServiceError>)
      requires |key| >= 2
      ensures r == if !io.readable then Err(CacheIo)
                   else if Path(key, output) in files then Ok(Some(files[Path(key, output)])) else Ok(None)
    {
      var path := Path(key, output);
      if !io.readable { return Err(CacheIo); }
      if path in files { return Ok(Some(files[path])); }
      r := Ok(None);
    }

    method PutRaw(key: string, output: OutputKind, bytes: seq<byte>, io: Io) returns (ok: bool)
      requires |key| >= 2
      modifies this
      ensures ok == io.writable
      ensures files == if ok then old(files)[Path(key, output) := bytes] else old(files)
    {
      if !io.writable { return false; }
      files := files[Path(key, output) := bytes];
      ok := true;
    }
  }

  class RenderService {
    const backend: Backend
    const digest: Digest
    const cache: FsCache

    constructor (backend: Backend, digest: Digest, cache: FsCache)
      ensures this.backend == backend && this.digest == digest && this.cache == cache
    {
      this.backend, this.digest, this.cache := backend, digest, cache;
    }

    method RenderWithFallback(format: string, output: OutputKind, source: string)
      returns (r: Result<seq<byte>, RenderError>)
      ensures r == RenderBytes(backend, format, output, source)
      ensures r.Ok? ==> Draws(backend, format, output, source, r.value)
      ensures r.Err? ==> FailsWith(backend, format, output, source, r.error)
    {
      RenderBytesExactly(backend, format, output, source);
      r := backend.render(format, output, source);
      if r.Err? && r.error.BadSource? && output == Png {
        var svg := backend.render(format, Svg, source);
        match svg {
          case Err(e) => return Err(e);
          case Ok(bytes) =>
            var png := backend.svgToPng(bytes);
            match png {
              case Ok(image) => return Ok(image);
              case Err(m) => return Err(Flatten(m));
            }
        }
      }
    }

    method Fetch(r: Request, key: string, io: Io) returns (answer: Result<Rendered, ServiceError>)
      requires key == digest.hash(Preimage(r)) && |key| >= 2
      modifies cache
      ensures (answer, cache.files) == Serve(backend, digest, old(cache.files), r, io)
    {
      var found := cache.GetRaw(key, r.output, io);
      match found {
        case Err(e) => return Err(e);
        case Ok(Some(bytes)) => return Ok(Rendered(key, bytes, r.output, Hit));
        case Ok(None) =>
      }
      var rendered := RenderWithFallback(r.format, r.output, r.source);
      match rendered {
        case Err(e) => return Err(Render(e));
        case Ok(bytes) =>
          var stored := cache.PutRaw(key, r.output, bytes, io);
          if !stored { return Err(CacheIo); }
          answer := Ok(Rendered(key, bytes, r.output, Miss));
      }
    }

    /** `render`. */
    method RenderText(format: string, output: OutputKind, source: string, io: Io)
      returns (answer: Result<Rendered, ServiceError>)
      requires digest.LongEnough()
      modifies cache
      ensures (answer, cache.files) == Serve(backend, digest, old(cache.files), Text(format, output, source), io)
    {
      var r := Text(format, output, source);
      answer := Fetch(r, digest.hash(Preimage(r)), io);
    }

    /** `render_model`. */
    method RenderModel(viewKind: string, format: string, output: OutputKind, source: string, contentHash: string,
                       ruleSet: string, io: Io)
      returns (answer: Result<Rendered, ServiceError>)
      requires digest.LongEnough()
      modifies cache
      ensures (answer, cache.files)
              == Serve(backend, digest, old(cache.files), Model(viewKind, format, output, source, contentHash, ruleSet),
                       io)
    {
      var r := Model(viewKind, format, output, source, contentHash, ruleSet);
      answer := Fetch(r, digest.hash(Preimage(r)), io);
    }
  }

  // ---------------------------------------------------------------- what a key determines

  /** The format is a slug, and the view kind and the content hash contain no separator. */
  predicate FieldsPlain(r: Request) {
    r.format in Slugs() && (r.Model? ==> Plain(r.viewKind) && Plain(r.contentHash))
  }

  /** Enough for a key to determine what is rendered: plain fields, and a lowered text that is a
      function of the fields of its key. A caller that lowers one snapshot in several ways breaks the
      last part; see `SnapshotViewsShareAnswer`. */
  ghost predicate RequestOk(r: Request, lowered: (string, string, string, string) -> string) {
    FieldsPlain(r) && (r.Model? ==> r.source == lowered(r.viewKind, r.format, r.contentHash, r.ruleSet))
  }

  lemma FirstField(a: string, x: string, b: string, y: string)
    requires Plain(a) && Plain(b) && a + [Separator] + x == b + [Separator] + y
    ensures a == b && x == y
  {
    var s, t := a + [Separator] + x, b + [Separator] + y;
    assert s[|a|] == Separator && t[|b|] == Separator;
    assert forall k :: 0 <= k < |a| ==> s[k] == a[k] && a[k] != Separator;
    assert forall k :: 0 <= k < |b| ==> t[k] == b[k] && b[k] != Separator;
    assert |a| == |b|;
    assert s[..|a|] == a && t[..|a|] == b;
    assert s[|a| + 1..] == x && t[|a| + 1..] == y;
  }

  function Rest(r: Request): string {
    match r
    case Text(format, output, source) => format + [Separator] + (Ext(output) + [Separator] + source)
    case Model(viewKind, format, _, _, contentHash, ruleSet) =>
      viewKind + [Separator] + (format + [Separator] + (contentHash + [Separator] + ruleSet))
  }

  lemma PreimageRest(r: Request)
    ensures Preimage(r) == Domain() + [Separator] + Rest(r)
  {
    hide Domain, Ext;
    match r
    case Text(format, output, source) => JoinThree(Domain(), format, Ext(output), source);
    case Model(viewKind, format, _, _, contentHash, ruleSet) => JoinFour(Domain(), viewKind, format, contentHash,
      ruleSet);
  }

  lemma JoinThree(d: string, a: string, b: string, c: string)
    ensures d + [Separator] + a + [Separator] + b + [Separator] + c
            == d + [Separator] + (a + [Separator] + (b + [Separator] + c))
  {
  }

  lemma JoinFour(d: string, a: string, b: string, c: string, e: string)
    ensures d + [Separator] + a + [Separator] + b + [Separator] + c + [Separator] + e
            == d + [Separator] + (a + [Separator] + (b + [Separator] + (c + [Separator] + e)))
  {
    JoinThree(d + [Separator] + a, b, c, e);
    var x := b + [Separator] + (c + [Separator] + e);
    assert d + [Separator] + a + [Separator] + x == d + [Separator] + (a + [Separator] + x);
  }

  lemma ExtPlain(o: OutputKind)
    ensures Plain(Ext(o))
  {
  }

  lemma DomainPlain()
    ensures Plain(Domain())
  {
  }

  /** A text key and a model key never meet: the second field is an extension in one and a slug in
      the other. */
  lemma TextAndModelApart(a: Request, b: Request)
    requires FieldsPlain(a) && FieldsPlain(b) && a.Text? && b.Model?
    ensures Preimage(a) != Preimage(b)
  {
    SlugsPlain(a.format);
    SlugsPlain(b.format);
    ExtPlain(a.output);
    DomainPlain();
    PreimageRest(a);
    PreimageRest(b);
    hide Slugs, Preimage, Domain, Plain, Ext;
    if Preimage(a) == Preimage(b) {
      FirstField(Domain(), Rest(a), Domain(), Rest(b));
      var x, y := Ext(a.output) + [Separator] + a.source,
        b.format + [Separator] + (b.contentHash + [Separator] + b.ruleSet);
      FirstField(a.format, x, b.viewKind, y);
      FirstField(Ext(a.output), a.source, b.format, b.contentHash + [Separator] + b.ruleSet);
      assert false;
    }
  }

  /** The fields that make up the key. */
  predicate SameKeyFields(a: Request, b: Request) {
    match (a, b)
    case (Text(f, o, s), Text(g, p, t)) => f == g && o == p && s == t
    case (Model(v, f, _, _, h, r), Model(w, g, _, _, k, q)) => v == w && f == g && h == k && r == q
    case _ => false
  }

  /** Requests with plain fields hash the same bytes exactly when all fields of their keys agree. */
  lemma PreimageDetermines(a: Request, b: Request)
    requires FieldsPlain(a) && FieldsPlain(b)
    ensures Preimage(a) == Preimage(b) <==> SameKeyFields(a, b)
  {
    SlugsPlain(a.format);
    SlugsPlain(b.format);
    DomainPlain();
    PreimageRest(a);
    PreimageRest(b);
    hide Slugs, Domain, Plain;
    if Preimage(a) == Preimage(b) {
      FirstField(Domain(), Rest(a), Domain(), Rest(b));
      if a.Text? && b.Text? {
        TextFields(a, b);
      } else if a.Model? && b.Model? {
        var x, y := a.contentHash + [Separator] + a.ruleSet, b.contentHash + [Separator] + b.ruleSet;
        FirstField(a.viewKind, a.format + [Separator] + x, b.viewKind, b.format + [Separator] + y);
        FirstField(a.format, x, b.format, y);
        FirstField(a.contentHash, a.ruleSet, b.contentHash, b.ruleSet);
      } else if a.Text? {
        TextAndModelApart(a, b);
      } else {
        TextAndModelApart(b, a);
      }
    }
  }

  lemma TextFields(a: Request, b: Request)
    requires a.Text? && b.Text? && Plain(a.format) && Plain(b.format) && Rest(a) == Rest(b)
    ensures a == b
  {
    ExtPlain(a.output);
    ExtPlain(b.output);
    FirstField(a.format, Ext(a.output) + [Separator] + a.source, b.format, Ext(b.output) + [Separator] + b.source);
    FirstField(Ext(a.output), a.source, Ext(b.output), b.source);
  }

  // ---------------------------------------------------------------- any sequence of requests

  /** No collision among the preimages of the requests in play. */
  ghost predicate NoCollisions(h: Digest, rs: set<Request>) {
    forall a, b :: a in rs && b in rs && h.hash(Preimage(a)) == h.hash(Preimage(b)) ==> Preimage(a) == Preimage(b)
  }

  function FileOf(h: Digest, r: Request): string
    requires |h.hash(Preimage(r))| >= 2
  {
    Path(h.hash(Preimage(r)), r.output)
  }

  /** Every file a request could be answered from holds what rendering that request gives. */
  ghost predicate Faithful(b: Backend, h: Digest, files: Files, rs: set<Request>)
    requires h.LongEnough()
  {
    forall r :: r in rs && FileOf(h, r) in files ==>
      RenderBytes(b, r.format, r.output, r.source) == Ok(files[FileOf(h, r)])
  }

  /** Two requests answered from one file render the same text. */
  ghost predicate KeysDetermine(h: Digest, rs: set<Request>) {
    forall a, q :: a in rs && q in rs && h.hash(Preimage(a)) == h.hash(Preimage(q)) && a.output == q.output
      ==> a.format == q.format && a.source == q.source
  }

  ghost predicate InPlay(rs: set<Request>, h: Digest, lowered: (string, string, string, string) -> string) {
    h.LongEnough() && NoCollisions(h, rs) && forall r :: r in rs ==> RequestOk(r, lowered)
  }

  lemma SoundRequestsDetermined(h: Digest, rs: set<Request>, lowered: (string, string, string, string) -> string)
    requires InPlay(rs, h, lowered)
    ensures KeysDetermine(h, rs)
  {
    hide Preimage, FieldsPlain;
    forall a, q | a in rs && q in rs && h.hash(Preimage(a)) == h.hash(Preimage(q))
      ensures a.format == q.format && a.source == q.source
    {
      assert RequestOk(a, lowered) && RequestOk(q, lowered);
      PreimageDetermines(a, q);
    }
  }

  lemma SameFileSameRender(b: Backend, h: Digest, rs: set<Request>, r: Request, q: Request)
    requires h.LongEnough() && KeysDetermine(h, rs) && r in rs && q in rs && FileOf(h, r) == FileOf(h, q)
    ensures RenderBytes(b, r.format, r.output, r.source) == RenderBytes(b, q.format, q.output, q.source)
  {
    hide Path, Preimage, RenderBytes;
    PathInjective(h.hash(Preimage(r)), r.output, h.hash(Preimage(q)), q.output);
  }

  /** What an answer must say, whatever the cache held. */
  predicate Transparent(b: Backend, r: Request, answer: Result<Rendered, ServiceError>) {
    match answer
    case Ok(rendered) => Ok(rendered.bytes) == RenderBytes(b, r.format, r.output, r.source)
      && rendered.output == r.output
    case Err(Render(e)) => RenderBytes(b, r.format, r.output, r.source) == Err(e)
    case Err(CacheIo) => true
  }

  lemma ServeTransparent(b: Backend, h: Digest, files: Files, rs: set<Request>, r: Request, io: Io)
    requires h.LongEnough() && KeysDetermine(h, rs) && r in rs && Faithful(b, h, files, rs)
    ensures Transparent(b, r, Serve(b, h, files, r, io).0)
    ensures Faithful(b, h, Serve(b, h, files, r, io).1, rs)
    ensures Serve(b, h, files, r, io).0.Err? ==> Serve(b, h, files, r, io).1 == files
    ensures io.readable && io.writable ==> Serve(b, h, files, r, io).0 != Err(CacheIo)
  {
    hide Path, Preimage, RenderBytes, KeysDetermine;
    var after := Serve(b, h, files, r, io).1;
    forall q | q in rs && FileOf(h, q) in after
      ensures RenderBytes(b, q.format, q.output, q.source) == Ok(after[FileOf(h, q)]) {
      if FileOf(h, q) == FileOf(h, r) { SameFileSameRender(b, h, rs, q, r); }
    }
  }

  /** The files after serving the requests one after the other. */
  function FilesAfter(b: Backend, h: Digest, files: Files, requests: seq<(Request, Io)>): Files
    requires forall k :: 0 <= k < |requests| ==> |h.hash(Preimage(requests[k].0))| >= 2
  {
    if requests == [] then files
    else
      var rest := requests[..|requests| - 1];
      Serve(b, h, FilesAfter(b, h, files, rest), requests[|requests| - 1].0, requests[|requests| - 1].1).1
  }

  lemma {:induction false} FilesStayFaithful(b: Backend, h: Digest, requests: seq<(Request, Io)>, rs: set<Request>)
    requires h.LongEnough() && KeysDetermine(h, rs) && forall k :: 0 <= k < |requests| ==> requests[k].0 in rs
    ensures Faithful(b, h, FilesAfter(b, h, map[], requests), rs)
    decreases |requests|
  {
    hide Serve, Path, Preimage, RenderBytes, KeysDetermine;
    if requests != [] {
      var n := |requests| - 1;
      FilesStayFaithful(b, h, requests[..n], rs);
      ServeTransparent(b, h, FilesAfter(b, h, map[], requests[..n]), rs, requests[n].0, requests[n].1);
    }
  }

  ghost predicate Among(requests: seq<(Request, Io)>, rs: set<Request>) {
    forall k :: 0 <= k < |requests| ==> requests[k].0 in rs
  }

  /** Every stored file is what the backend draws for one of the requests stored under it. */
  ghost predicate Drawn(b: Backend, h: Digest, files: Files, rs: set<Request>)
    requires h.LongEnough()
  {
    forall path :: path in files ==> exists r :: DrawnFor(b, h, rs, path, files[path], r)
  }

  ghost predicate DrawnFor(b: Backend, h: Digest, rs: set<Request>, path: string, bytes: seq<byte>, r: Request)
    requires h.LongEnough()
  {
    r in rs && FileOf(h, r) == path && Draws(b, r.format, r.output, r.source, bytes)
  }

  /** An answer: the key and the output asked for, a hit exactly when the file is there, and bytes that the
      backend draws for a request of that file; or the backend's own error; or an I/O error, exactly when
      a file cannot be read, or one that is drawn cannot be written. */
  ghost predicate Answers(b: Backend, h: Digest, files: Files, rs: set<Request>, r: Request, io: Io,
                          answer: Result<Rendered, ServiceError>)
    requires h.LongEnough()
  {
    match answer
    case Ok(x) =>
      && io.readable && x.key == h.hash(Preimage(r)) && x.output == r.output
      && (x.status.Hit? <==> FileOf(h, r) in files)
      && (exists q :: DrawnFor(b, h, rs, FileOf(h, r), x.bytes, q))
      && (x.status.Miss? ==> io.writable && Draws(b, r.format, r.output, r.source, x.bytes))
    case Err(Render(e)) => io.readable && FileOf(h, r) !in files && FailsWith(b, r.format, r.output, r.source, e)
    case Err(CacheIo) =>
      !io.readable
      || (!io.writable && FileOf(h, r) !in files && exists bytes :: Draws(b, r.format, r.output, r.source, bytes))
  }

  lemma ServeAnswers(b: Backend, h: Digest, files: Files, rs: set<Request>, r: Request, io: Io)
    requires h.LongEnough() && r in rs && Drawn(b, h, files, rs)
    ensures Answers(b, h, files, rs, r, io, Serve(b, h, files, r, io).0)
    ensures Drawn(b, h, Serve(b, h, files, r, io).1, rs)
    ensures var (answer, after) := Serve(b, h, files, r, io);
            after == if answer.Ok? then files[FileOf(h, r) := answer.value.bytes] else files
  {
    RenderBytesExactly(b, r.format, r.output, r.source);
    hide Path, Preimage, RenderBytes, Draws, FailsWith;
    var (answer, after) := Serve(b, h, files, r, io);
    if RenderBytes(b, r.format, r.output, r.source).Ok? {
      assert DrawnFor(b, h, rs, FileOf(h, r), RenderBytes(b, r.format, r.output, r.source).value, r);
    }
    if answer.Ok? && FileOf(h, r) in files {
      assert exists q :: DrawnFor(b, h, rs, FileOf(h, r), files[FileOf(h, r)], q);
    }
  }

  lemma {:induction false} FilesStayDrawn(b: Backend, h: Digest, requests: seq<(Request, Io)>, rs: set<Request>)
    requires h.LongEnough() && Among(requests, rs)
    ensures Drawn(b, h, FilesAfter(b, h, map[], requests), rs)
    decreases |requests|
  {
    hide Serve, Path, Preimage, Answers, DrawnFor;
    if requests != [] {
      var n := |requests| - 1;
      FilesStayDrawn(b, h, requests[..n], rs);
      ServeAnswers(b, h, FilesAfter(b, h, map[], requests[..n]), rs, requests[n].0, requests[n].1);
    }
  }

  /** In any sequence of requests from an empty cache, every answer is of that kind. */
  lemma EveryAnswerIsDrawn(b: Backend, h: Digest, requests: seq<(Request, Io)>, k: nat)
    requires h.LongEnough() && k < |requests|
    ensures var files, rs := FilesAfter(b, h, map[], requests[..k]), set i | 0 <= i < |requests| :: requests[i].0;
            Answers(b, h, files, rs, requests[k].0, requests[k].1, Serve(b, h, files, requests[k].0, requests[k].1).0)
  {
    var rs := set i | 0 <= i < |requests| :: requests[i].0;
    hide Serve, Path, Preimage, Answers, DrawnFor;
    FilesStayDrawn(b, h, requests[..k], rs);
    ServeAnswers(b, h, FilesAfter(b, h, map[], requests[..k]), rs, requests[k].0, requests[k].1);
  }

  /** Where key and output determine format and source, the bytes are what the backend draws for the very
      request, hit or miss. */
  lemma EveryAnswerIsItsOwn(b: Backend, h: Digest, requests: seq<(Request, Io)>, k: nat)
    requires h.LongEnough() && k < |requests| && KeysDetermine(h, set i | 0 <= i < |requests| :: requests[i].0)
    ensures var (r, io) := requests[k];
            var answer := Serve(b, h, FilesAfter(b, h, map[], requests[..k]), r, io).0;
            && (answer.Ok? ==>
            Draws(b, r.format, r.output, r.source, answer.value.bytes) && answer.value.output == r.output)
            && (answer.Err? && answer.error.Render? ==> FailsWith(b, r.format, r.output, r.source, answer.error.error))
  {
    var rs := set i | 0 <= i < |requests| :: requests[i].0;
    var r := requests[k].0;
    EveryAnswerIsDrawn(b, h, requests, k);
    hide Serve, Path, Preimage, Draws, FailsWith, KeysDetermine;
    var answer := Serve(b, h, FilesAfter(b, h, map[], requests[..k]), r, requests[k].1).0;
    if answer.Ok? {
      var q :| DrawnFor(b, h, rs, FileOf(h, r), answer.value.bytes, q);
      SameTextForFile(h, rs, r, q);
    }
  }

  lemma SameTextForFile(h: Digest, rs: set<Request>, r: Request, q: Request)
    requires h.LongEnough() && KeysDetermine(h, rs) && r in rs && q in rs && FileOf(h, r) == FileOf(h, q)
    ensures r.format == q.format && r.source == q.source && r.output == q.output
  {
    hide Path, Preimage;
    PathInjective(h.hash(Preimage(r)), r.output, h.hash(Preimage(q)), q.output);
  }

  ghost predicate AllTransparent(b: Backend, h: Digest, requests: seq<(Request, Io)>)
    requires h.LongEnough()
  {
    forall k :: 0 <= k < |requests| ==>
      Transparent(b, requests[k].0, Serve(b, h, FilesAfter(b, h, map[], requests[..k]), requests[k].0, requests[k].1).0)
  }

  lemma DeterminedTransparent(b: Backend, h: Digest, requests: seq<(Request, Io)>, rs: set<Request>)
    requires h.LongEnough() && KeysDetermine(h, rs) && Among(requests, rs)
    ensures AllTransparent(b, h, requests)
  {
    hide Serve, Path, Preimage, RenderBytes, KeysDetermine, Transparent;
    forall k | 0 <= k < |requests|
      ensures Transparent(b, requests[k].0,
                          Serve(b, h, FilesAfter(b, h, map[], requests[..k]), requests[k].0, requests[k].1).0)
    {
      FilesStayFaithful(b, h, requests[..k], rs);
      ServeTransparent(b, h, FilesAfter(b, h, map[], requests[..k]), rs, requests[k].0, requests[k].1);
    }
  }

  /** Starting from an empty cache, every answer in any sequence of sound requests is the one an
      uncached render gives, unless the file system fails. */
  lemma CacheIsTransparent(b: Backend, h: Digest, requests: seq<(Request, Io)>,
                           lowered: (string, string, string, string) -> string)
    requires InPlay(set i | 0 <= i < |requests| :: requests[i].0, h, lowered)
    ensures AllTransparent(b, h, requests)
  {
    var rs := set i | 0 <= i < |requests| :: requests[i].0;
    SoundRequestsDetermined(h, rs, lowered);
    hide Preimage, RequestOk, NoCollisions, Transparent, Serve;
    DeterminedTransparent(b, h, requests, rs);
  }

  // ---------------------------------------------------------------- exactly when

  const Works := Io(true, true)

  /** The second of two requests with one key and output gets what the first one rendered. */
  lemma SecondGetsFirst(b: Backend, h: Digest, a: Request, r: Request, bytes: seq<byte>)
    requires h.LongEnough() && h.hash(Preimage(a)) == h.hash(Preimage(r)) && a.output == r.output
    requires RenderBytes(b, a.format, a.output, a.source) == Ok(bytes)
    ensures var requests := [(a, Works), (r, Works)];
            && Serve(b, h, FilesAfter(b, h, map[], requests[..1]), r, Works).0
               == Ok(Rendered(h.hash(Preimage(r)), bytes, r.output, Hit))
            && (AllTransparent(b, h, requests) <==> RenderBytes(b, r.format, r.output, r.source) == Ok(bytes))
  {
    var requests := [(a, Works), (r, Works)];
    hide Path, Preimage, RenderBytes;
    var files: Files := map[];
    assert FilesAfter(b, h, files, requests[..0]) == files;
    assert requests[..1][..0] == [] && requests[..1][0] == (a, Works);
    assert FilesAfter(b, h, files, requests[..1]) == files[FileOf(h, a) := bytes];
    if AllTransparent(b, h, requests) {
      assert requests[1].0 == r;
    } else {
      var k :| 0 <= k < 2
        && !Transparent(b, requests[k].0,
                        Serve(b, h, FilesAfter(b, h, map[], requests[..k]), requests[k].0, requests[k].1).0);
      assert k == 1;
    }
  }

  /** A backend that tells the first request's text from every other. */
  function Telling(a: Request): Backend {
    Backend(
      (format, output, source) => if format == a.format && source == a.source then Ok([0]) else Ok([1]),
      svg => Ok([]))
  }

  lemma TellingShows(h: Digest, a: Request, r: Request)
    requires h.LongEnough() && h.hash(Preimage(a)) == h.hash(Preimage(r)) && a.output == r.output
    requires a.format != r.format || a.source != r.source
    ensures !AllTransparent(Telling(a), h, [(a, Works), (r, Works)])
  {
    hide Preimage, AllTransparent;
    SecondGetsFirst(Telling(a), h, a, r, [0]);
  }

  /** Every sequence over a set of requests is answered as without the cache, by every backend,
      exactly when any two of them with one key and output render the same text in one format. */
  lemma TransparentExactly(h: Digest, rs: set<Request>)
    requires h.LongEnough()
    ensures (forall b: Backend, requests: seq<(Request, Io)> :: Among(requests, rs) ==> AllTransparent(b, h, requests))
            <==> forall a, q :: a in rs && q in rs && h.hash(Preimage(a)) == h.hash(Preimage(q)) && a.output == q.output
                   ==> a.format == q.format && a.source == q.source
  {
    hide AllTransparent, Preimage;
    if KeysDetermine(h, rs) {
      forall b: Backend, requests: seq<(Request, Io)> | Among(requests, rs) ensures AllTransparent(b, h, requests) {
        DeterminedTransparent(b, h, requests, rs);
      }
    } else {
      var a, q :| a in rs && q in rs && h.hash(Preimage(a)) == h.hash(Preimage(q)) && a.output == q.output
                  && (a.format != q.format || a.source != q.source);
      TellingShows(h, a, q);
      assert Among([(a, Works), (q, Works)], rs);
    }
  }

  /** The same for requests whose preimages do not collide, in terms of the preimages. */
  lemma TransparentByPreimage(h: Digest, rs: set<Request>)
    requires h.LongEnough() && NoCollisions(h, rs)
    ensures (forall b: Backend, requests: seq<(Request, Io)> :: Among(requests, rs) ==> AllTransparent(b, h, requests))
            <==> forall a, q :: a in rs && q in rs && Preimage(a) == Preimage(q) && a.output == q.output
                   ==> a.format == q.format && a.source == q.source
  {
    TransparentExactly(h, rs);
    hide AllTransparent, Preimage, Among;
  }

  /** A snapshot request: the D2 text depends on the view asked for, which is no part of the key. */
  function Snapshot(output: OutputKind, source: string, contentHash: string): Request {
    Model("sysmlv2-snapshot", "d2", output, source, contentHash, "sysmlv2-ufo-graph-v2")
  }

  /** Asked for two views of one snapshot, the service answers the second request with the first
      view's diagram; that is right only when both views draw the same. */
  lemma SnapshotViewsShareAnswer(b: Backend, h: Digest, output: OutputKind, contentHash: string, source: string,
                                 source': string, bytes: seq<byte>)
    requires h.LongEnough() && RenderBytes(b, "d2", output, source) == Ok(bytes)
    ensures var a, r := Snapshot(output, source, contentHash), Snapshot(output, source', contentHash);
            var requests := [(a, Works), (r, Works)];
            && Serve(b, h, FilesAfter(b, h, map[], requests[..1]), r, Works).0
               == Ok(Rendered(h.hash(Preimage(r)), bytes, output, Hit))
            && (AllTransparent(b, h, requests) <==> RenderBytes(b, "d2", output, source') == Ok(bytes))
  {
    SecondGetsFirst(b, h, Snapshot(output, source, contentHash), Snapshot(output, source', contentHash), bytes);
  }

  /** A view kind with a separator in it can make a model request share the key of a text request,
      and be answered with the text's diagram. */
  lemma SeparatorInViewKind(b: Backend, h: Digest, source: string, contentHash: string, ruleSet: string,
                            bytes: seq<byte>)
    requires h.LongEnough()
             && RenderBytes(b, "d2", Svg, "d2" + [Separator] + contentHash + [Separator] + ruleSet) == Ok(bytes)
    ensures var a := Text("d2", Svg, "d2" + [Separator] + contentHash + [Separator] + ruleSet);
            var r := Model("d2" + [Separator] + "svg", "d2", Svg, source, contentHash, ruleSet);
            AllTransparent(b, h, [(a, Works), (r, Works)]) <==> RenderBytes(b, "d2", Svg, source) == Ok(bytes)
  {
    var a := Text("d2", Svg, "d2" + [Separator] + contentHash + [Separator] + ruleSet);
    var r := Model("d2" + [Separator] + "svg", "d2", Svg, source, contentHash, ruleSet);
    assert Preimage(a) == Preimage(r) by { hide Domain; }
    hide Preimage, RenderBytes, AllTransparent;
    SecondGetsFirst(b, h, a, r, bytes);
  }
}
