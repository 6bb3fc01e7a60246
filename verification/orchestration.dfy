/** The source's `fetch`: one request, and on a challenge status one retry
    with the computed digest, as a transition on the client with the server's
    replies as inputs. */
module Orchestration {
  import opened Optional
  import opened Client
  import opened Authorization

  /** What the client reads from a server reply. */
  datatype Reply = Reply(status: int, wwwAuthenticate: Option<string>)

  /** One request issued. In basic mode it is the finished options; otherwise
      it is the options handed to `addAuth` together with the client state
      that signs them, so the request sent is `Request(h, a)`. */
  datatype Attempt =
    | BasicRequest(options: RequestOptions)
    | SignedRequest(client: Client, url: string, opts: RequestOptions)
  {
    /** The nonce count the request's digest header carries, when it carries one. */
    function DigestNc(): Option<nat> {
      if SignedRequest? && client.session.hasAuth then Some(client.session.nc) else None
    }
  }

  /** The client after the call, the requests issued in order, and the reply
      handed back to the caller. */
  datatype Outcome = Outcome(client: Client, attempts: seq<Attempt>, reply: Reply)

  /** The options actually sent for an attempt. */
  function Request(h: HashFn, a: Attempt): RequestOptions {
    match a
    case BasicRequest(options) => options
    case SignedRequest(c, url, opts) => AddAuth(h, c, url, opts)
  }

  /** When a signed request's count is recorded, the request gets the
      signing session's digest header, whose `nc=` field is that count;
      otherwise its options go out unchanged, including any header the caller
      left in them. */
  lemma RequestCarriesCount(h: HashFn, a: Attempt)
    requires a.SignedRequest?
    ensures a.DigestNc().None? ==> Request(h, a) == a.opts
    ensures a.DigestNc().Some? ==>
      && "Authorization" in Request(h, a).headers
      && Request(h, a).headers["Authorization"]
           == DigestHeader(h, a.client.config, a.client.session, RequestMethod(a.opts), RequestUri(a.url))
      && a.client.session.nc == a.DigestNc().value
  {
  }

  /** The least nonce count the next digest header of this session can carry:
      the current count while a challenge is in use, one more otherwise (the
      next challenge consumed advances it first). */
  function NextUsable(s: Session): nat {
    if s.hasAuth then s.nc else s.nc + 1
  }

  ghost predicate Increasing(attempts: seq<Attempt>) {
    forall i, j :: 0 <= i < j < |attempts| && attempts[i].DigestNc().Some? && attempts[j].DigestNc().Some?
      ==> attempts[i].DigestNc().value < attempts[j].DigestNc().value
  }

  ghost predicate Within(attempts: seq<Attempt>, lo: nat, hi: nat) {
    forall i :: 0 <= i < |attempts| && attempts[i].DigestNc().Some?
      ==> lo <= attempts[i].DigestNc().value < hi
  }

  lemma PairIncreasing(a1: Attempt, a2: Attempt, lo: nat, hi: nat)
    requires a1.DigestNc().Some? ==> lo <= a1.DigestNc().value
    requires a2.DigestNc().Some? && a2.DigestNc().value < hi
    requires a1.DigestNc().Some? ==> a1.DigestNc().value < a2.DigestNc().value
    requires lo <= a2.DigestNc().value
    ensures Increasing([a1, a2]) && Within([a1, a2], lo, hi)
  {
  }

  lemma SingleIncreasing(a: Attempt, lo: nat, hi: nat)
    requires a.DigestNc().Some? ==> lo <= a.DigestNc().value < hi
    ensures Increasing([a]) && Within([a], lo, hi)
  {
  }

  /** A challenge is usable, and the request is retried, exactly when the
      header is present and at least five characters long. */
  predicate Usable(first: Reply) {
    first.wwwAuthenticate.Some? && |first.wwwAuthenticate.value| >= 5
  }

  /** The session after a challenge status: `hasAuth` cleared, then the
      `WWW-Authenticate` header consumed by `parseAuth`. */
  function Challenged(c: Client, first: Reply, draws: seq<Draw>): (s: Session)
    requires |draws| >= NonceLength(c.config.cnonceSize)
    ensures s.hasAuth <==> Usable(first)
    ensures s.hasAuth ==> s.nc == c.session.nc + 1
    ensures !s.hasAuth ==> s == c.session.(hasAuth := false)
  {
    ParseAuth(c.session.(hasAuth := false), c.config.cnonceSize, first.wwwAuthenticate, draws)
  }

  /** The source's `fetch`. In basic mode one request with a Basic header and
      no state change. Otherwise the first request is signed with the current
      session; a reply with the configured challenge status clears `hasAuth`
      and consumes the `WWW-Authenticate` header, and when that yields a usable
      challenge the request is reissued once, signed with the new session: a
      retry answered by 401 or the challenge status clears `hasAuth`, any
      other answer advances the count. A first reply that is not a challenge
      also advances the count. */
  function Fetch(encode: string -> string, c: Client, url: string, opts: RequestOptions,
                 first: Reply, second: Reply, draws: seq<Draw>): (o: Outcome)
    requires |draws| >= NonceLength(c.config.cnonceSize)
    ensures o.client.config == c.config
    ensures 1 <= |o.attempts| <= 2
    ensures c.config.basic ==>
      && o.client == c && o.reply == first
      && o.attempts == [BasicRequest(AddBasicAuth(encode, c.config, opts))]
    ensures !c.config.basic ==> o.attempts[0] == SignedRequest(c, url, opts)
    ensures !c.config.basic && first.status != c.config.statusCode ==>
      && o.client.session == c.session.(nc := c.session.nc + 1)
      && |o.attempts| == 1 && o.reply == first
    ensures !c.config.basic && first.status == c.config.statusCode ==> (|o.attempts| == 2 <==> Usable(first))
    ensures !c.config.basic && first.status == c.config.statusCode && |o.attempts| == 1 ==>
      && o.client.session == c.session.(hasAuth := false) && o.reply == first
    ensures |o.attempts| == 2 ==>
      var s := Challenged(c, first, draws);
      && o.attempts[1] == SignedRequest(Client(c.config, s), url, opts)
      && o.client.session == (if o.client.session.hasAuth then s.(nc := s.nc + 1) else s.(hasAuth := false))
    ensures |o.attempts| == 2 ==>
      && !c.config.basic && first.status == c.config.statusCode
      && o.attempts[1].DigestNc() == Some(c.session.nc + 1)
      && o.reply == second
      && (o.client.session.hasAuth <==> second.status != 401 && second.status != c.config.statusCode)
      && o.client.session.nc == (if o.client.session.hasAuth then c.session.nc + 2 else c.session.nc + 1)
    ensures o.client.session.nc >= c.session.nc
    ensures NextUsable(c.session) <= NextUsable(o.client.session)
  {
    if c.config.basic then
      Outcome(c, [BasicRequest(AddBasicAuth(encode, c.config, opts))], first)
    else
      var a1 := SignedRequest(c, url, opts);
      if first.status != c.config.statusCode then
        Outcome(Client(c.config, c.session.(nc := c.session.nc + 1)), [a1], first)
      else
        var s := Challenged(c, first, draws);
        if !s.hasAuth then Outcome(Client(c.config, s), [a1], first)
        else
          var s' := if second.status == 401 || second.status == c.config.statusCode then s.(hasAuth := false)
                    else s.(nc := s.nc + 1);
          Outcome(Client(c.config, s'), [a1, SignedRequest(Client(c.config, s), url, opts)], second)
  }

  /** A challenge with a usable header is retried, and the retried request
      carries the digest header computed from the challenge just consumed,
      for the request's method and URI. */
  lemma RetrySendsChallengeDigest(h: HashFn, encode: string -> string, c: Client, url: string,
                                  opts: RequestOptions, first: Reply, second: Reply, draws: seq<Draw>)
    requires |draws| >= NonceLength(c.config.cnonceSize)
    requires !c.config.basic && first.status == c.config.statusCode && Usable(first)
    ensures |Fetch(encode, c, url, opts, first, second, draws).attempts| == 2
    ensures var r := Request(h, Fetch(encode, c, url, opts, first, second, draws).attempts[1]);
      && "Authorization" in r.headers
      && r.headers["Authorization"]
           == DigestHeader(h, c.config, Challenged(c, first, draws), RequestMethod(opts), RequestUri(url))
  {
    var o := Fetch(encode, c, url, opts, first, second, draws);
    RequestCarriesCount(h, o.attempts[1]);
  }

  /** The digest counts one call of `fetch` computes strictly increase and
      lie between the least count the session could use before the call and
      the least it can use after it. A request that goes out unsigned is not
      among them, even when reused options still hold an older header. */
  lemma FetchCountsIncrease(encode: string -> string, c: Client, url: string, opts: RequestOptions,
                            first: Reply, second: Reply, draws: seq<Draw>)
    requires |draws| >= NonceLength(c.config.cnonceSize)
    ensures var o := Fetch(encode, c, url, opts, first, second, draws);
      && Increasing(o.attempts)
      && Within(o.attempts, NextUsable(c.session), NextUsable(o.client.session))
  {
    var o := Fetch(encode, c, url, opts, first, second, draws);
    var lo, hi := NextUsable(c.session), NextUsable(o.client.session);
    if |o.attempts| == 2 {
      PairIncreasing(o.attempts[0], o.attempts[1], lo, hi);
      assert o.attempts == [o.attempts[0], o.attempts[1]];
    } else {
      SingleIncreasing(o.attempts[0], lo, hi);
      assert o.attempts == [o.attempts[0]];
    }
  }

  /** One call of `fetch` with the inputs the network and the random source
      supply to it. */
  datatype Call = Call(url: string, opts: RequestOptions, first: Reply, second: Reply, draws: seq<Draw>)

  datatype Trace = Trace(client: Client, attempts: seq<Attempt>)

  /** A sequence of calls on one client, one after another. */
  function Run(encode: string -> string, c: Client, calls: seq<Call>): (t: Trace)
    requires forall i :: 0 <= i < |calls| ==> |calls[i].draws| >= NonceLength(c.config.cnonceSize)
    ensures t.client.config == c.config
    decreases |calls|
  {
    if calls == [] then Trace(c, [])
    else
      var call := calls[0];
      var o := Fetch(encode, c, call.url, call.opts, call.first, call.second, call.draws);
      var rest := Run(encode, o.client, calls[1..]);
      Trace(rest.client, o.attempts + rest.attempts)
  }

  lemma JoinIncreasing(a: seq<Attempt>, b: seq<Attempt>, lo: nat, mid: nat, hi: nat)
    requires lo <= mid <= hi
    requires Increasing(a) && Within(a, lo, mid)
    requires Increasing(b) && Within(b, mid, hi)
    ensures Increasing(a + b) && Within(a + b, lo, hi)
  {
    assert forall i :: 0 <= i < |a| ==> (a + b)[i] == a[i];
    assert forall i :: |a| <= i < |a| + |b| ==> (a + b)[i] == b[i - |a|];
  }

  /** Over any sequence of calls the nonce count never decreases, and the
      counts recorded for signed requests strictly increase. Since `addAuth`
      writes the header into the caller's options object, this means no count
      is sent twice only when each call is given fresh options (as the
      `factory` option provides): a reused object still holds the previous
      digest when the next call's first request goes out unsigned. */
  lemma {:induction false} NonceCountsNeverRepeat(encode: string -> string, c: Client, calls: seq<Call>)
    requires forall i :: 0 <= i < |calls| ==> |calls[i].draws| >= NonceLength(c.config.cnonceSize)
    ensures Run(encode, c, calls).client.session.nc >= c.session.nc
    ensures NextUsable(c.session) <= NextUsable(Run(encode, c, calls).client.session)
    ensures Increasing(Run(encode, c, calls).attempts)
    ensures Within(Run(encode, c, calls).attempts, NextUsable(c.session),
                   NextUsable(Run(encode, c, calls).client.session))
    decreases |calls|
  {
    if calls != [] {
      var call := calls[0];
      var o := Fetch(encode, c, call.url, call.opts, call.first, call.second, call.draws);
      FetchCountsIncrease(encode, c, call.url, call.opts, call.first, call.second, call.draws);
      NonceCountsNeverRepeat(encode, o.client, calls[1..]);
      var rest := Run(encode, o.client, calls[1..]);
      JoinIncreasing(o.attempts, rest.attempts, NextUsable(c.session), NextUsable(o.client.session),
                     NextUsable(rest.client.session));
    }
  }

  /** The two ends of a first challenge on a fresh client: a server that
      rejects the retried request leaves the session unauthenticated, one that
      accepts it leaves it authenticated; either way the first challenge
      advanced the count from 0 to 1, and acceptance advances it once more. */
  lemma FirstChallengeOutcomes(encode: string -> string, user: string, password: string,
                               url: string, opts: RequestOptions, header: string, draws: seq<Draw>, ok: int)
    requires |header| >= 5 && |draws| >= 32 && ok != 401
    ensures var c := New(user, password, Options(None, None, None, None, None));
      var rejected := Fetch(encode, c, url, opts, Reply(401, Some(header)), Reply(401, None), draws);
      var accepted := Fetch(encode, c, url, opts, Reply(401, Some(header)), Reply(ok, None), draws);
      && |rejected.attempts| == 2 && !rejected.client.session.hasAuth && rejected.client.session.nc == 1
      && |accepted.attempts| == 2 && accepted.client.session.hasAuth && accepted.client.session.nc == 2
  {
    var c := New(user, password, Options(None, None, None, None, None));
    var s := ParseAuth(c.session.(hasAuth := false), c.config.cnonceSize, Some(header), draws);
    assert s.hasAuth;
  }
}
