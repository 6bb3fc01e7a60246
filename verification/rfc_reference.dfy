/** Independent statements of what the digest computation should be: the
    response formula of RFC 7616 section 3.4.1 (with RFC 2069 section 2.1.1
    when no qop is chosen), and the header as a list of parameters. */
module RfcReference {
  import opened Optional
  import opened Text
  import opened Decimal
  import opened Algorithms
  import opened Client
  import opened Authorization

  /** KD(secret, data) = H(secret ":" data). */
  function KD(h: HashFn, prim: HashPrimitive, secret: string, data: string): string {
    h(prim, secret + ":" + data)
  }

  /** A1: `user:realm:password`, or for a `-sess` algorithm
      `H(user:realm:password):nonce:cnonce`. */
  function A1(h: HashFn, prim: HashPrimitive, sess: bool, user: string, realm: string, password: string,
              nonce: string, cnonce: string): string
  {
    var secret := user + ":" + realm + ":" + password;
    if sess then h(prim, secret) + ":" + nonce + ":" + cnonce else secret
  }

  /** The request digest as the RFCs define it, with A2 = `method:uri` (the
      `auth` form; the entity-body hash of `auth-int` is not computed). */
  function RfcResponse(h: HashFn, prim: HashPrimitive, sess: bool, user: string, realm: string,
                       password: string, nonce: string, cnonce: string, nc: string,
                       qop: Option<string>, httpMethod: string, uri: string): string
  {
    var ha1 := h(prim, A1(h, prim, sess, user, realm, password, nonce, cnonce));
    var ha2 := h(prim, httpMethod + ":" + uri);
    match qop
    case None => KD(h, prim, ha1, nonce + ":" + ha2)
    case Some(q) => KD(h, prim, ha1, nonce + ":" + nc + ":" + cnonce + ":" + q + ":" + ha2)
  }

  function QopName(q: Option<Qop>): Option<string> {
    match q
    case None => None
    case Some(v) => Some(v.Name())
  }

  lemma ThreePartRegroup(a: string, b: string, c: string)
    ensures a + ":" + b + ":" + c == a + ":" + (b + ":" + c)
  {
  }

  lemma SixPartRegroup(a: string, b: string, c: string, d: string, e: string, f: string)
    ensures a + ":" + b + ":" + c + ":" + d + ":" + e + ":" + f
         == a + ":" + (b + ":" + c + ":" + d + ":" + e + ":" + f)
  {
  }

  /** With a plain password, HA1 is H(A1). */
  lemma HA1FollowsRfc(h: HashFn, cfg: Config, s: Session)
    requires !cfg.precomputedHash
    ensures HA1(h, cfg, s) == h(PrimitiveOf(s.algorithm),
                                A1(h, PrimitiveOf(s.algorithm), IsSess(s.algorithm), cfg.user, s.realm,
                                   cfg.password, s.nonce, s.cnonce))
  {
  }

  /** With a plain password, the client's response is the RFC response for the
      session's algorithm, realm, nonces and qop, with the count written as the
      eight-character decimal string. */
  lemma ResponseFollowsRfc(h: HashFn, cfg: Config, s: Session, httpMethod: string, uri: string)
    requires !cfg.precomputedHash
    ensures ResponseHash(h, cfg, s, httpMethod, uri)
         == RfcResponse(h, PrimitiveOf(s.algorithm), IsSess(s.algorithm), cfg.user, s.realm, cfg.password,
                        s.nonce, s.cnonce, NcString(s.nc), QopName(s.qop), httpMethod, uri)
  {
    HA1FollowsRfc(h, cfg, s);
    var ha1 := HA1(h, cfg, s);
    var ha2 := HA2(h, s, httpMethod, uri);
    match s.qop
    case None =>
      ThreePartRegroup(ha1, s.nonce, ha2);
    case Some(q) =>
      SixPartRegroup(ha1, s.nonce, NcString(s.nc), s.cnonce, q.Name(), ha2);
  }

  /** Configuring the precomputed H(user:realm:password) as the secret gives
      the same header, byte for byte, as configuring the password itself. */
  lemma PrecomputedHashEquivalent(h: HashFn, cfg: Config, s: Session, httpMethod: string, uri: string)
    requires !cfg.precomputedHash
    ensures var pre := cfg.(precomputedHash := true,
                            password := h(PrimitiveOf(s.algorithm), cfg.user + ":" + s.realm + ":" + cfg.password));
      DigestHeader(h, pre, s, httpMethod, uri) == DigestHeader(h, cfg, s, httpMethod, uri)
  {
  }

  /** One `name=value` parameter of a digest header. */
  datatype Param = Param(name: string, value: string, quoted: bool)

  function RenderParam(p: Param): string {
    Kv(p.name, if p.quoted then Quote(p.value) else p.value)
  }

  /** The parameters joined by commas. */
  function RenderParams(ps: seq<Param>): string
    decreases |ps|
  {
    if |ps| == 0 then ""
    else if |ps| == 1 then RenderParam(ps[0])
    else RenderParam(ps[0]) + "," + RenderParams(ps[1..])
  }

  function Names(ps: seq<Param>): (names: seq<string>)
    ensures |names| == |ps| && forall i :: 0 <= i < |ps| ==> names[i] == ps[i].name
  {
    seq(|ps|, i requires 0 <= i < |ps| => ps[i].name)
  }

  /** The parameters the client sends, in order: the optional `opaque` and
      `qop` sit between `uri` and `algorithm`; `nc` and `cnonce` are sent even
      without a qop. */
  function DigestParams(h: HashFn, cfg: Config, s: Session, httpMethod: string, uri: string): seq<Param> {
    FrontParams(cfg, s, uri) + OptionalParams(s) + BackParams(h, cfg, s, httpMethod, uri)
  }

  function FrontParams(cfg: Config, s: Session, uri: string): seq<Param> {
    [Param("username", cfg.user, true), Param("realm", s.realm, true),
     Param("nonce", s.nonce, true), Param("uri", uri, true)]
  }

  function OptionalParams(s: Session): seq<Param> {
    (if s.opaqueValue.Some? then [Param("opaque", s.opaqueValue.value, true)] else [])
    + (if s.qop.Some? then [Param("qop", s.qop.value.Name(), false)] else [])
  }

  function BackParams(h: HashFn, cfg: Config, s: Session, httpMethod: string, uri: string): seq<Param> {
    [Param("algorithm", s.algorithm.Name(), false),
     Param("response", ResponseHash(h, cfg, s, httpMethod, uri), true),
     Param("nc", NcString(s.nc), false), Param("cnonce", s.cnonce, true)]
  }

  lemma {:induction false} RenderAppend(a: seq<Param>, b: seq<Param>)
    requires |a| >= 1 && |b| >= 1
    ensures RenderParams(a + b) == RenderParams(a) + "," + RenderParams(b)
    decreases |a|
  {
    if |a| == 1 {
      assert (a + b)[1..] == b;
    } else {
      assert (a + b)[1..] == a[1..] + b;
      RenderAppend(a[1..], b);
    }
  }

  lemma RenderFour(p0: Param, p1: Param, p2: Param, p3: Param)
    ensures RenderParams([p0, p1, p2, p3])
         == RenderParam(p0) + "," + RenderParam(p1) + "," + RenderParam(p2) + "," + RenderParam(p3)
  {
    var r0, r1, r2, r3 := RenderParam(p0), RenderParam(p1), RenderParam(p2), RenderParam(p3);
    assert [p2, p3][1..] == [p3];
    assert RenderParams([p2, p3]) == r2 + "," + r3;
    assert [p1, p2, p3][1..] == [p2, p3];
    assert RenderParams([p1, p2, p3]) == r1 + "," + (r2 + "," + r3);
    assert [p0, p1, p2, p3][1..] == [p1, p2, p3];
    assert RenderParams([p0, p1, p2, p3]) == r0 + "," + (r1 + "," + (r2 + "," + r3));
  }

  lemma MiddleRender(s: Session, middle: seq<Param>, back: seq<Param>)
    requires |back| >= 1
    requires middle == OptionalParams(s)
    ensures RenderParams(middle + back)
         == (if s.opaqueValue.Some? then Kv("opaque", Quote(s.opaqueValue.value)) + "," else "")
          + (if s.qop.Some? then Kv("qop", s.qop.value.Name()) + "," else "")
          + RenderParams(back)
  {
    if s.opaqueValue.Some? && s.qop.Some? {
      RenderAppend(middle, back);
      assert middle[1..] == [Param("qop", s.qop.value.Name(), false)];
    } else if s.opaqueValue.Some? || s.qop.Some? {
      RenderAppend(middle, back);
    } else {
      assert middle + back == back;
    }
  }

  /** The header is the scheme, a space, and the parameter list joined by
      commas: the source's template writes exactly that list in that order. */
  lemma HeaderIsParamList(h: HashFn, cfg: Config, s: Session, httpMethod: string, uri: string)
    ensures DigestHeader(h, cfg, s, httpMethod, uri) == s.scheme + " " + RenderParams(DigestParams(h, cfg, s, httpMethod, uri))
  {
    var front, middle, back := FrontParams(cfg, s, uri), OptionalParams(s), BackParams(h, cfg, s, httpMethod, uri);
    assert DigestParams(h, cfg, s, httpMethod, uri) == front + (middle + back);
    RenderAppend(front, middle + back);
    FrontRender(cfg, s, uri);
    BackRender(h, cfg, s, httpMethod, uri);
    MiddleRender(s, middle, back);
    var os := if s.opaqueValue.Some? then Kv("opaque", Quote(s.opaqueValue.value)) + "," else "";
    var qs := if s.qop.Some? then Kv("qop", s.qop.value.Name()) + "," else "";
    var f, b := RenderParams(front), RenderParams(back);
    assert DigestHeader(h, cfg, s, httpMethod, uri) == s.scheme + " " + f + "," + os + qs + b;
    Regroup(s.scheme, f, os, qs, b);
  }

  /** The first four parameters render as the template's first four fields. */
  lemma FrontRender(cfg: Config, s: Session, uri: string)
    ensures RenderParams(FrontParams(cfg, s, uri))
         == Kv("username", Quote(cfg.user)) + "," + Kv("realm", Quote(s.realm)) + ","
            + Kv("nonce", Quote(s.nonce)) + "," + Kv("uri", Quote(uri))
  {
    var front := FrontParams(cfg, s, uri);
    RenderFour(front[0], front[1], front[2], front[3]);
    assert front == [front[0], front[1], front[2], front[3]];
  }

  /** The last four parameters render as the template's last four fields. */
  lemma BackRender(h: HashFn, cfg: Config, s: Session, httpMethod: string, uri: string)
    ensures RenderParams(BackParams(h, cfg, s, httpMethod, uri))
         == Kv("algorithm", s.algorithm.Name()) + "," + Kv("response", Quote(ResponseHash(h, cfg, s, httpMethod, uri)))
            + "," + Kv("nc", NcString(s.nc)) + "," + Kv("cnonce", Quote(s.cnonce))
  {
    var back := BackParams(h, cfg, s, httpMethod, uri);
    RenderFour(back[0], back[1], back[2], back[3]);
    assert back == [back[0], back[1], back[2], back[3]];
  }

  lemma Regroup(scheme: string, f: string, os: string, qs: string, b: string)
    ensures scheme + " " + f + "," + os + qs + b == scheme + " " + (f + "," + (os + qs + b))
  {
  }

  /** The names in the header, in order; `opaque` appears exactly when the
      challenge carried one and `qop` exactly when a qop was chosen. */
  lemma ParamNames(h: HashFn, cfg: Config, s: Session, httpMethod: string, uri: string)
    ensures var names := Names(DigestParams(h, cfg, s, httpMethod, uri));
      && names == ["username", "realm", "nonce", "uri"]
                  + (if s.opaqueValue.Some? then ["opaque"] else [])
                  + (if s.qop.Some? then ["qop"] else [])
                  + ["algorithm", "response", "nc", "cnonce"]
      && ("opaque" in names <==> s.opaqueValue.Some?)
      && ("qop" in names <==> s.qop.Some?)
  {
    var front, middle, back := FrontParams(cfg, s, uri), OptionalParams(s), BackParams(h, cfg, s, httpMethod, uri);
    NamesAppend(front + middle, back);
    NamesAppend(front, middle);
    FrontNames(cfg, s, uri);
    OptionalParamNames(s);
    BackNames(h, cfg, s, httpMethod, uri);
    var fixedFront, fixedBack := ["username", "realm", "nonce", "uri"], ["algorithm", "response", "nc", "cnonce"];
    var on := if s.opaqueValue.Some? then ["opaque"] else [];
    var qn := if s.qop.Some? then ["qop"] else [];
    assert Names(DigestParams(h, cfg, s, httpMethod, uri)) == fixedFront + (on + qn) + fixedBack;
    assert fixedFront + (on + qn) + fixedBack == fixedFront + on + qn + fixedBack;
    OptionalNames(s.opaqueValue.Some?, s.qop.Some?);
  }

  lemma FrontNames(cfg: Config, s: Session, uri: string)
    ensures Names(FrontParams(cfg, s, uri)) == ["username", "realm", "nonce", "uri"]
  {
  }

  lemma OptionalParamNames(s: Session)
    ensures Names(OptionalParams(s)) == (if s.opaqueValue.Some? then ["opaque"] else [])
                                        + (if s.qop.Some? then ["qop"] else [])
  {
    var o := if s.opaqueValue.Some? then [Param("opaque", s.opaqueValue.value, true)] else [];
    var q := if s.qop.Some? then [Param("qop", s.qop.value.Name(), false)] else [];
    NamesAppend(o, q);
  }

  lemma BackNames(h: HashFn, cfg: Config, s: Session, httpMethod: string, uri: string)
    ensures Names(BackParams(h, cfg, s, httpMethod, uri)) == ["algorithm", "response", "nc", "cnonce"]
  {
  }

  /** In the fixed name order, `opaque` and `qop` occur exactly when included. */
  lemma OptionalNames(withOpaque: bool, withQop: bool)
    ensures var names := ["username", "realm", "nonce", "uri"]
                         + (if withOpaque then ["opaque"] else [])
                         + (if withQop then ["qop"] else [])
                         + ["algorithm", "response", "nc", "cnonce"];
      && ("opaque" in names <==> withOpaque)
      && ("qop" in names <==> withQop)
  {
    var fixedFront, fixedBack := ["username", "realm", "nonce", "uri"], ["algorithm", "response", "nc", "cnonce"];
    var on := if withOpaque then ["opaque"] else [];
    var qn := if withQop then ["qop"] else [];
    assert "opaque" !in fixedFront && "opaque" !in fixedBack && "opaque" !in qn;
    assert "qop" !in fixedFront && "qop" !in fixedBack && "qop" !in on;
  }

  /** The names of a concatenation are the concatenated names. */
  lemma NamesAppend(a: seq<Param>, b: seq<Param>)
    ensures Names(a + b) == Names(a) + Names(b)
  {
    assert forall i :: 0 <= i < |a| ==> (a + b)[i] == a[i];
    assert forall i :: |a| <= i < |a| + |b| ==> (a + b)[i] == b[i - |a|];
  }
}
