/** The client's configuration and session record, its construction, the
    client-nonce generator and the consumption of a `WWW-Authenticate`
    challenge. */
module Client {
  import opened Optional
  import opened Text
  import opened FieldParser
  import opened Algorithms

  /** The quality of protection chosen from a challenge. */
  datatype Qop = Auth | AuthInt {
    function Name(): string {
      match this
      case Auth => "auth"
      case AuthInt => "auth-int"
    }
  }

  /** The constructor's options; `None` is an option left undefined. */
  datatype Options = Options(
    algorithm: Option<string>,
    precomputedHash: Option<bool>,
    cnonceSize: Option<int>,
    statusCode: Option<int>,
    basic: Option<bool>)

  /** What the client fixes at construction and never changes. */
  datatype Config = Config(
    user: string,
    password: string,
    precomputedHash: bool,
    cnonceSize: int,
    statusCode: int,
    basic: bool)

  /** The session record: the source's `digest` object together with its
      `hasAuth` flag. */
  datatype Session = Session(
    algorithm: Algorithm,
    scheme: string,
    realm: string,
    qop: Option<Qop>,
    opaqueValue: Option<string>,
    nonce: string,
    cnonce: string,
    nc: nat,
    hasAuth: bool)

  datatype Client = Client(config: Config, session: Session)

  /** The constructor: options fall back to their defaults (no precomputed
      hash, 32-character client nonces, challenge status 401, digest rather
      than basic), and the session starts unauthenticated with count 0, an
      empty realm and the normalised algorithm. */
  function New(user: string, password: string, opts: Options): (c: Client)
    ensures c.config.user == user && c.config.password == password
    ensures c.config.precomputedHash <==> opts.precomputedHash == Some(true)
    ensures c.config.basic <==> opts.basic == Some(true)
    ensures opts.cnonceSize.None? ==> c.config.cnonceSize == 32
    ensures opts.cnonceSize.Some? ==> c.config.cnonceSize == opts.cnonceSize.value
    ensures opts.statusCode.None? ==> c.config.statusCode == 401
    ensures opts.statusCode.Some? ==> c.config.statusCode == opts.statusCode.value
    ensures c.session.nc == 0 && !c.session.hasAuth && c.session.realm == ""
    ensures c.session.algorithm == NormaliseAlgorithm(opts.algorithm)
  {
    Client(
      Config(user, password, opts.precomputedHash.GetOr(false), opts.cnonceSize.GetOr(32),
             opts.statusCode.GetOr(401), opts.basic.GetOr(false)),
      Session(NormaliseAlgorithm(opts.algorithm), "", "", None, None, "", "", 0, false))
  }

  /** The source's `parseQop`: the trimmed `qop` value read as a comma list
      selects `auth` when it lists `auth`, otherwise `auth-int` when it lists
      that, otherwise nothing (also when the field is absent). */
  function ParseQop(raw: string): (r: Option<Qop>)
    ensures var v := Parse(raw, "qop", true);
      && (r == Some(Auth) <==> v.Some? && "auth" in Split(v.value, ','))
      && (r == Some(AuthInt) <==> v.Some? && "auth" !in Split(v.value, ',') && "auth-int" in Split(v.value, ','))
  {
    match Parse(raw, "qop", true)
    case None => None
    case Some(v) =>
      var qops := Split(v, ',');
      if "auth" in qops then Some(Auth)
      else if "auth-int" in qops then Some(AuthInt)
      else None
  }

  /** `auth` is chosen exactly when it appears as a comma-delimited member of
      the trimmed `qop` value, and `auth-int` exactly when that does and `auth`
      does not. */
  lemma ParseQopDelimited(raw: string)
    ensures ParseQop(raw) == Some(Auth) <==>
      var v := Parse(raw, "qop", true);
      v.Some? && exists i :: DelimitedAt(v.value, "auth", i, ',')
    ensures ParseQop(raw) == Some(AuthInt) <==>
      var v := Parse(raw, "qop", true);
      v.Some? && !(exists i :: DelimitedAt(v.value, "auth", i, ','))
              && exists i :: DelimitedAt(v.value, "auth-int", i, ',')
  {
    var v := Parse(raw, "qop", true);
    if v.Some? {
      InSplitIff(v.value, "auth", ',');
      InSplitIff(v.value, "auth-int", ',');
    }
  }

  /** The source's `h.split(/\s/)[0]`: the prefix before the first white-space
      character. */
  function FirstToken(h: string): (r: string)
    ensures |r| <= |h| && r == h[..|r|]
    ensures forall i :: 0 <= i < |r| ==> !IsSpace(r[i])
    ensures |r| == |h| || IsSpace(h[|r|])
  {
    h[..Find(h, 0, IsSpace).GetOr(|h|)]
  }

  /** The client-nonce alphabet, the source's `nonceRaw`. */
  const NonceAlphabet: string := "abcdef0123456789"

  /** One random choice: `Math.floor(Math.random() * 16)`. */
  type Draw = i: int | 0 <= i < 16

  /** The number of loop rounds `for (i = 0; i < size; ++i)` makes. */
  function NonceLength(size: int): nat {
    if size <= 0 then 0 else size
  }

  /** The source's `makeNonce`, with the random choices supplied as `draws`:
      character `i` is the alphabet letter that draw `i` picks. */
  function MakeNonce(size: int, draws: seq<Draw>): (r: string)
    requires |draws| >= NonceLength(size)
    ensures |r| == NonceLength(size)
    ensures forall i :: 0 <= i < |r| ==> r[i] in NonceAlphabet
    ensures forall i :: 0 <= i < |r| ==> r[i] == NonceAlphabet[draws[i]]
  {
    seq(NonceLength(size), i requires 0 <= i < NonceLength(size) => NonceAlphabet[draws[i]])
  }

  /** The source's loop, appending one character per round. */
  method BuildNonce(size: int, draws: seq<Draw>) returns (uid: string)
    requires |draws| >= NonceLength(size)
    ensures uid == MakeNonce(size, draws)
  {
    uid := "";
    var i := 0;
    while i < size
      invariant 0 <= i && (size <= 0 ==> i == 0) && (size > 0 ==> i <= size)
      invariant uid == MakeNonce(i, draws)
    {
      uid := uid + [NonceAlphabet[draws[i]]];
      i := i + 1;
    }
  }

  /** The draw that produced a nonce character: the position of the
      character in the alphabet. */
  function DrawOf(c: char): (d: Draw)
    requires c in NonceAlphabet
    ensures NonceAlphabet[d] == c
  {
    match IndexOf(NonceAlphabet, c, 0)
    case Some(k) => k
  }

  /** The alphabet has sixteen distinct letters, so reading each nonce
      character back recovers the draw that chose it. */
  lemma MakeNonceRecoversDraws(size: int, draws: seq<Draw>)
    requires |draws| >= NonceLength(size)
    ensures var r := MakeNonce(size, draws);
      forall i :: 0 <= i < |r| ==> DrawOf(r[i]) == draws[i]
  {
    var r := MakeNonce(size, draws);
    forall i | 0 <= i < |r|
      ensures DrawOf(r[i]) == draws[i]
    {
      var d := DrawOf(r[i]);
      assert NonceAlphabet[d] == NonceAlphabet[draws[i]];
      AlphabetDistinct(d, draws[i]);
    }
  }

  /** Two nonces of one size are equal exactly when their draws agree on the
      positions the nonce reads; later draws are never read. */
  lemma NoncesDistinguishDraws(size: int, d1: seq<Draw>, d2: seq<Draw>)
    requires |d1| >= NonceLength(size) && |d2| >= NonceLength(size)
    ensures MakeNonce(size, d1) == MakeNonce(size, d2)
            <==> d1[..NonceLength(size)] == d2[..NonceLength(size)]
  {
    var n := NonceLength(size);
    if MakeNonce(size, d1) == MakeNonce(size, d2) {
      MakeNonceRecoversDraws(size, d1);
      MakeNonceRecoversDraws(size, d2);
      assert forall i :: 0 <= i < n ==> d1[..n][i] == d2[..n][i];
    } else {
      var r1, r2 := MakeNonce(size, d1), MakeNonce(size, d2);
      var k :| 0 <= k < n && r1[k] != r2[k];
      assert d1[..n][k] != d2[..n][k];
    }
  }

  lemma AlphabetDistinct(i: Draw, j: Draw)
    requires NonceAlphabet[i] == NonceAlphabet[j]
    ensures i == j
  {
  }

  /** The source's `parseAuth`. A missing header, or one shorter than five
      characters, only clears `hasAuth`. Otherwise the session is marked
      authenticated and refilled from the header: the scheme is the first
      word, the realm the raw `realm` capture without quotes, the qop chosen
      by `ParseQop`, the opaque value trimmed (absent when not sent), the
      nonce trimmed (empty when not sent), a fresh client nonce, and the
      count one higher. The algorithm is never taken from the challenge. */
  function ParseAuth(s: Session, cnonceSize: int, header: Option<string>, draws: seq<Draw>): (s': Session)
    requires |draws| >= NonceLength(cnonceSize)
    ensures header.None? || |header.value| < 5 ==> s' == s.(hasAuth := false)
    ensures header.Some? && |header.value| >= 5 ==>
      var h := header.value;
      && s'.hasAuth
      && s'.nc == s.nc + 1
      && s'.algorithm == s.algorithm
      && |s'.scheme| <= |h| && s'.scheme == h[..|s'.scheme|]
      && (forall i :: 0 <= i < |s'.scheme| ==> !IsSpace(s'.scheme[i]))
      && (|s'.scheme| == |h| || IsSpace(h[|s'.scheme|]))
      && (forall i :: 0 <= i < |s'.realm| ==> s'.realm[i] != '"')
      && s'.realm == StripQuotes(Parse(h, "realm", false).GetOr(""))
      && s'.qop == ParseQop(h)
      && s'.opaqueValue == Parse(h, "opaque", true)
      && s'.nonce == Parse(h, "nonce", true).GetOr("")
      && ((forall p :: !FieldAt(h, "nonce", p)) ==> s'.nonce == "")
      && (forall i :: 0 <= i < |s'.nonce| ==> !IsSpace(s'.nonce[i]) && s'.nonce[i] != '"')
      && s'.cnonce == MakeNonce(cnonceSize, draws)
  {
    if header.None? || |header.value| < 5 then
      s.(hasAuth := false)
    else
      var h := header.value;
      s.(hasAuth := true,
         scheme := FirstToken(h),
         realm := StripQuotes(Parse(h, "realm", false).GetOr("")),
         qop := ParseQop(h),
         opaqueValue := Parse(h, "opaque", true),
         nonce := Parse(h, "nonce", true).GetOr(""),
         cnonce := MakeNonce(cnonceSize, draws),
         nc := s.nc + 1)
  }
}
