/** The source's `addAuth`: the request URI, the HA1/HA2/response hash chain
    over an abstract hash function, the eight-character nonce count and the
    fixed-order `Authorization` header. */
module Authorization {
  import opened Optional
  import opened Text
  import opened Decimal
  import opened Algorithms
  import opened Client

  /** The request options the client reads and writes: the method and the
      headers (absent headers are the empty map). */
  datatype RequestOptions = RequestOptions(httpMethod: Option<string>, headers: map<string, string>)

  /** The hash primitives (`md5`, `sha256`, `sha512_256`), left abstract: every
      property below holds for any function of this type. */
  type HashFn = (HashPrimitive, string) -> string

  predicate DoubleSlashAt(s: string, i: nat) {
    i + 1 < |s| && s[i] == '/' && s[i + 1] == '/'
  }

  function FirstDoubleSlash(s: string, from: nat): (r: Option<nat>)
    requires from <= |s|
    ensures r.Some? ==> from <= r.value && DoubleSlashAt(s, r.value)
    ensures r.Some? ==> forall j :: from <= j < r.value ==> !DoubleSlashAt(s, j)
    ensures r.None? ==> forall j :: from <= j ==> !DoubleSlashAt(s, j)
    decreases |s| - from
  {
    if from == |s| then None
    else if DoubleSlashAt(s, from) then Some(from)
    else FirstDoubleSlash(s, from + 1)
  }

  /** The source's `url.replace("//", "")`: only the first `//` is removed. */
  function DropFirstDoubleSlash(url: string): (r: string)
    ensures (forall i: nat :: !DoubleSlashAt(url, i)) ==> r == url
    ensures forall i: nat :: DoubleSlashAt(url, i) && (forall j: nat :: j < i ==> !DoubleSlashAt(url, j))
              ==> r == url[..i] + url[i + 2..]
  {
    match FirstDoubleSlash(url, 0)
    case None => url
    case Some(i) => url[..i] + url[i + 2..]
  }

  /** The URI sent in the digest: after the first `//` is removed, everything
      from the first `/` on, or `/` when no slash is left. */
  function RequestUri(url: string): (uri: string)
    ensures |uri| >= 1 && uri[0] == '/'
    ensures var u := DropFirstDoubleSlash(url);
      && ('/' !in u ==> uri == "/")
      && ('/' in u ==> EndsWith(u, uri) && '/' !in u[..|u| - |uri|])
  {
    var u := DropFirstDoubleSlash(url);
    match IndexOf(u, '/', 0)
    case None => "/"
    case Some(k) =>
      assert u[|u| - |u[k..]|..] == u[k..];
      u[k..]
  }

  /** For an absolute URL `scheme//host path` the URI is the path (or `/`). */
  lemma UriOfAbsoluteUrl(scheme: string, host: string, path: string)
    requires '/' !in scheme && '/' !in host
    requires path == [] || path[0] == '/'
    ensures RequestUri(scheme + "//" + host + path) == if path == [] then "/" else path
  {
    var url := scheme + "//" + host + path;
    var i := |scheme|;
    assert DoubleSlashAt(url, i);
    assert forall j :: 0 <= j < i ==> url[j] == scheme[j];
    assert DropFirstDoubleSlash(url) == scheme + host + path by {
      assert url[..i] == scheme;
      assert url[i + 2..] == host + path;
    }
    var u := scheme + host + path;
    assert forall j :: 0 <= j < |scheme| + |host| ==> u[j] == (scheme + host)[j];
    if path != [] {
      assert u[|scheme| + |host|] == '/';
      assert u[|scheme| + |host|..] == path;
    }
  }

  /** A path that already starts with `/` and holds no `//` is sent as is. */
  lemma UriOfPath(path: string)
    requires |path| >= 1 && path[0] == '/'
    requires forall i: nat :: !DoubleSlashAt(path, i)
    ensures RequestUri(path) == path
  {
  }

  /** The method: upper-cased, `GET` when absent or empty. */
  function RequestMethod(opts: RequestOptions): string {
    if opts.httpMethod.None? || opts.httpMethod.value == "" then "GET" else UpperCase(opts.httpMethod.value)
  }

  /** HA1: the precomputed secret or H(user:realm:password), re-keyed as
      H(HA1:nonce:cnonce) by the `-sess` algorithms. */
  function HA1(h: HashFn, cfg: Config, s: Session): string {
    var prim := PrimitiveOf(s.algorithm);
    var base := if cfg.precomputedHash then cfg.password
                else h(prim, cfg.user + ":" + s.realm + ":" + cfg.password);
    if IsSess(s.algorithm) then h(prim, base + ":" + s.nonce + ":" + s.cnonce) else base
  }

  /** HA2: H(method:uri); `auth-int` adds no entity-body hash. */
  function HA2(h: HashFn, s: Session, httpMethod: string, uri: string): string {
    h(PrimitiveOf(s.algorithm), httpMethod + ":" + uri)
  }

  /** The request digest: three parts without a qop, six parts with one. */
  function ResponseHash(h: HashFn, cfg: Config, s: Session, httpMethod: string, uri: string): string {
    var prim := PrimitiveOf(s.algorithm);
    var ha1 := HA1(h, cfg, s);
    var ha2 := HA2(h, s, httpMethod, uri);
    match s.qop
    case None => h(prim, ha1 + ":" + s.nonce + ":" + ha2)
    case Some(q) => h(prim, ha1 + ":" + s.nonce + ":" + NcString(s.nc) + ":" + s.cnonce + ":" + q.Name() + ":" + ha2)
  }

  function Quote(v: string): string {
    "\"" + v + "\""
  }

  /** One `name=value` piece of the header template. */
  function Kv(name: string, value: string): string {
    name + "=" + value
  }

  /** The `Authorization` value: the source's template, written as its
      comma-separated pieces in the source's fixed order. */
  function DigestHeader(h: HashFn, cfg: Config, s: Session, httpMethod: string, uri: string): string {
    var opaqueString := if s.opaqueValue.Some? then Kv("opaque", Quote(s.opaqueValue.value)) + "," else "";
    var qopString := if s.qop.Some? then Kv("qop", s.qop.value.Name()) + "," else "";
    var front := Kv("username", Quote(cfg.user)) + "," + Kv("realm", Quote(s.realm)) + ","
                 + Kv("nonce", Quote(s.nonce)) + "," + Kv("uri", Quote(uri));
    var back := Kv("algorithm", s.algorithm.Name()) + "," + Kv("response", Quote(ResponseHash(h, cfg, s, httpMethod, uri)))
                + "," + Kv("nc", NcString(s.nc)) + "," + Kv("cnonce", Quote(s.cnonce));
    s.scheme + " " + front + "," + opaqueString + qopString + back
  }

  /** The source's `addAuth`. Without a parsed challenge the options pass
      through untouched; otherwise only the `Authorization` header is set,
      to the digest computed for the request's method and URI. */
  function AddAuth(h: HashFn, c: Client, url: string, opts: RequestOptions): (r: RequestOptions)
    ensures !c.session.hasAuth ==> r == opts
    ensures c.session.hasAuth ==>
      && r.httpMethod == opts.httpMethod
      && r.headers.Keys == opts.headers.Keys + {"Authorization"}
      && r.headers["Authorization"] == DigestHeader(h, c.config, c.session, RequestMethod(opts), RequestUri(url))
      && forall k :: k in opts.headers && k != "Authorization" ==> r.headers[k] == opts.headers[k]
  {
    if !c.session.hasAuth then opts
    else
      var value := DigestHeader(h, c.config, c.session, RequestMethod(opts), RequestUri(url));
      opts.(headers := opts.headers["Authorization" := value])
  }

  /** The source's `addBasicAuth`, with the base-64 encoder as a parameter. */
  function AddBasicAuth(encode: string -> string, cfg: Config, opts: RequestOptions): (r: RequestOptions)
    ensures r.httpMethod == opts.httpMethod
    ensures r.headers.Keys == opts.headers.Keys + {"Authorization"}
    ensures StartsWith(r.headers["Authorization"], "Basic ")
    ensures r.headers["Authorization"] == "Basic " + encode(cfg.user + ":" + cfg.password)
    ensures forall k :: k in opts.headers && k != "Authorization" ==> r.headers[k] == opts.headers[k]
  {
    opts.(headers := opts.headers["Authorization" := "Basic " + encode(cfg.user + ":" + cfg.password)])
  }

  /** With an injective encoder, such as base 64, the Basic header determines
      the `user:password` credentials it was built from. */
  lemma BasicHeaderDeterminesCredentials(encode: string -> string, cfg1: Config, cfg2: Config,
                                         opts1: RequestOptions, opts2: RequestOptions)
    requires forall x, y :: encode(x) == encode(y) ==> x == y
    requires AddBasicAuth(encode, cfg1, opts1).headers["Authorization"]
             == AddBasicAuth(encode, cfg2, opts2).headers["Authorization"]
    ensures cfg1.user + ":" + cfg1.password == cfg2.user + ":" + cfg2.password
  {
    var e1, e2 := encode(cfg1.user + ":" + cfg1.password), encode(cfg2.user + ":" + cfg2.password);
    assert e1 == ("Basic " + e1)[6..];
    assert e2 == ("Basic " + e2)[6..];
  }
}
