# digest-fetch client core, modelled in Dafny

This project models the client side of HTTP Digest authentication as
implemented by `DigestClient` in `main.ts` (RFC 2069 section 2.1, RFC 2617
section 3.2, RFC 7616 sections 3.3 and 3.4). The model covers:

- the tolerant field extractor `parse`, i.e. the case-insensitive regular
  expression `field=("[^"]*"|[^,]*)`, written as an explicit scan and proved
  equal to a declarative statement of the regular expression's leftmost match;
- the constructor's defaults and its normalisation of the algorithm name;
- challenge consumption, `parseAuth` with the `parseQop` policy, as a
  transition on an immutable session record. The record holds the `digest`
  object's fields plus `hasAuth`;
- `makeNonce`, with the random choices passed in as a sequence of draws;
- `addAuth`: the request URI, the HA1/HA2/response chain, the 8-character
  nonce count and the fixed-order `Authorization` header. Hashing is done by
  an abstract function `h(primitive, text)`, so every property holds for any
  hash function;
- `fetch`, as a transition on the client that takes the server replies as
  inputs. It includes a trace lemma over any sequence of calls.

Modules: `Optional`, `Text` (character classes, search, filter, split),
`Decimal` (decimal digits and the nonce-count string), `FieldParser`,
`Algorithms`, `Client` (configuration, session record, constructor,
`ParseQop`, `ParseAuth`, nonce generation), `Authorization` (`addAuth`),
`RfcReference` (independent RFC formulas and the header as a parameter list)
and `Orchestration` (`fetch`).

The model follows the code, including where it departs from what a reader of the protocol documents would expect:

- The header always carries `nc=` and `cnonce=`, even when no qop was chosen.
  RFC 2069-style responses would omit them.
- The algorithm is never read from the challenge. Only the configured,
  normalised algorithm is used.
- A malformed configuration is not rejected at construction. An unsupported
  algorithm becomes MD5 and every other option is taken as given.
- The nonce count is written in decimal, zero-padded to 8 characters, and not
  in hexadecimal as the RFCs ask. From count 10 on, the two readings differ.

Other behaviours of the code that the model reproduces exactly:

- `url.replace("//", "")` removes only the first `//`. So a relative path
  such as `/a//b` is sent as the URI `/ab`.
- `parse` matches `field=` anywhere, including inside another field's name.
  For example, `cnonce=` contains `nonce=`.
- An opening quote with no closing quote falls back to the comma-terminated
  branch.

## Model

| member | source | states |
|---|---|---|
| FieldParser.Parse | main.ts:24-29 | the result is absent exactly when no case-insensitive `field=` occurs anywhere in the input; a trimmed result contains no white-space and no `"` |
| FieldParser.ParseIsRegexMatch | main.ts:25-27 | at the leftmost `field=`, the untrimmed result equals a string exactly when that string is the regular expression's capture (quoted alternative first, greedy comma-free run otherwise); the trimmed result is that capture with white-space and quotes removed |
| FieldParser.FindField | main.ts:25-26 | the scan returns the leftmost position where `field=` occurs, and no position when there is none |
| FieldParser.Capture | main.ts:25 | the scanned capture satisfies the declarative alternation `"[^"]*"` or `[^,]*`, including the fall-through when no closing quote exists |
| FieldParser.CaptureUnique | main.ts:25 | the alternation allows at most one capture at a position, so the scan is the regular expression's only answer |
| Text.FilterConcat | main.ts:27 | character removal works piece by piece over concatenation |
| Text.Split | main.ts:241 | splitting on `,` yields at least one piece, and no piece contains a comma |
| Text.JoinSplit | main.ts:241 | re-joining the pieces with `,` gives back the original string |
| Text.InSplitIff | main.ts:241-243 | a comma-free token is one of the pieces exactly when it occurs in the string with a comma or a string end on each side |
| Text.IndexOf | main.ts:169 | `indexOf` returns the first position of the character at or after the start, or none when it does not occur |
| Decimal.DecimalString | main.ts:192 | the decimal form of the count consists of digits, has no leading zero, and reads back as the count |
| Decimal.NcString | main.ts:192 | the nonce-count string always has 8 digits, and its decimal value is the count modulo 10^8 (the last 8 digits, zero-padded) |
| Decimal.ValueInjective | main.ts:192 | two digit strings of equal length with equal value are equal, so the value fixes the 8-character string |
| Decimal.NcStringExamples | main.ts:192 | count 1 is written `00000001` and count 10 is written `00000010` |
| Algorithms.FromName | main.ts:15-22 | a name is accepted exactly when it is one of the six supported names, and the algorithm returned carries that name |
| Algorithms.FromNameOfName | main.ts:15-22 | reading back the name of an algorithm gives the same algorithm |
| Algorithms.NormaliseAlgorithm | main.ts:85-91 | an absent or empty configured name gives MD5; a supported name is kept; any other name falls back to MD5 |
| Algorithms.PrimitiveOf | main.ts:92-96 | SHA-256 exactly for names starting `SHA-256`, SHA-512/256 exactly for names starting `SHA-512-256`, MD5 otherwise |
| Algorithms.IsSess | main.ts:175 | the session re-keying applies exactly to the names ending in `-sess` |
| Client.New | main.ts:73-104 | a supplied client-nonce size and challenge status are kept, and absent ones fall back to 32 and 401; the precomputed and basic flags hold exactly when set to true; the session starts with count 0, no auth, an empty realm and the normalised algorithm |
| Client.ParseQop | main.ts:232-247 | `auth` exactly when the trimmed, comma-split `qop` value lists `auth`; otherwise `auth-int` exactly when that is listed; otherwise (including an absent field) nothing |
| Client.ParseQopDelimited | main.ts:238-246 | the same choice, stated without splitting: `auth` is chosen exactly when it occurs comma-delimited in the trimmed value, and `auth-int` exactly when it does and `auth` does not |
| Client.FirstToken | main.ts:223 | the scheme is a prefix of the header that contains no white-space and is followed by white-space or the header's end |
| Client.MakeNonce | main.ts:249-255 | the nonce has exactly as many characters as the loop makes rounds (the size, or 0 when the size is not positive), each from `abcdef0123456789`, the i-th being the letter the i-th draw picks |
| Client.BuildNonce | main.ts:249-255 | the source's append loop builds exactly that nonce |
| Client.MakeNonceRecoversDraws | main.ts:252 | each nonce character gives back the draw that chose it |
| Client.NoncesDistinguishDraws | main.ts:249-255 | two nonces of one size are equal exactly when their draws agree on the first `NonceLength(size)` positions; later draws are never read |
| Client.ParseAuth | main.ts:216-230 | a missing or short (under 5 characters) header only clears `hasAuth`, and every other field, including the count, stays unchanged; otherwise `hasAuth` is set, the count goes up by exactly 1, the algorithm is kept, the scheme is the first word, the realm has no quotes, the nonce is the trimmed `nonce` capture (empty when absent), and the client nonce is fresh from the draws |
| Authorization.DropFirstDoubleSlash | main.ts:168 | a URL without `//` is unchanged; otherwise only the first `//` is removed |
| Authorization.RequestUri | main.ts:168-169 | the URI always starts with `/`; it is `/` when no slash remains after the first `//` is removed, and otherwise it is the suffix from the first remaining slash |
| Authorization.UriOfAbsoluteUrl | main.ts:166-169 | for `scheme//host path` with slash-free scheme and host, the URI is the path, or `/` when the path is empty |
| Authorization.UriOfPath | main.ts:168-169 | a path that starts with `/` and holds no `//` is sent unchanged |
| Authorization.AddAuth | main.ts:162-205 | without a parsed challenge the options pass through unchanged; with one, only the `Authorization` header is added or replaced, with the digest for the request's method and URI, and the method and every other header stay the same |
| Authorization.AddBasicAuth | main.ts:136-148 | only the `Authorization` header changes, and it is exactly `Basic ` followed by the encoding of `user:password` |
| Authorization.BasicHeaderDeterminesCredentials | main.ts:144 | with an injective encoder (base 64 is one), two equal Basic headers were built from the same `user:password` string |
| RfcReference.HA1FollowsRfc | main.ts:172-179 | with a plain password, HA1 is H(A1): A1 is `user:realm:password`, or for `-sess` algorithms `H(user:realm:password):nonce:cnonce` |
| RfcReference.ResponseFollowsRfc | main.ts:172-196 | with a plain password, the response is the RFC's KD(H(A1), nonce:H(A2)) without a qop and KD(H(A1), nonce:nc:cnonce:qop:H(A2)) with one. Here A2 = `method:uri` (auth-int adds nothing) and nc is the 8-character decimal string |
| RfcReference.PrecomputedHashEquivalent | main.ts:172-174 | configuring the precomputed H(user:realm:password) with the precomputed flag gives the same header, byte for byte, as configuring the password |
| RfcReference.HeaderIsParamList | main.ts:198-203 | the header is the scheme, a space and the comma-joined parameters: username, realm, nonce, uri, optional opaque, optional qop, algorithm, response, nc, cnonce |
| RfcReference.ParamNames | main.ts:198-203 | the parameter names follow that fixed order; `opaque` appears exactly when the challenge had one, and `qop` exactly when a qop was chosen |
| Orchestration.Fetch | main.ts:106-134 | basic mode sends one Basic request and leaves the client unchanged. Otherwise the first request is signed with the current session. A non-challenge first reply increments the count by 1. After a challenge status, the request is retried exactly when the `WWW-Authenticate` header is present and at least 5 characters long. The retry is signed with the session that `parseAuth` built from that header, and it carries the incremented count. Without a retry only `hasAuth` is cleared. A retry answered 401 or the challenge status leaves that session with `hasAuth` false; any other answer keeps it and increments the count again. The count never decreases |
| Orchestration.RetrySendsChallengeDigest | main.ts:117-122 | a challenge status with a usable `WWW-Authenticate` header is retried, and the retried request's `Authorization` header is the digest computed from the challenge just consumed, for the request's method and URI |
| Orchestration.RequestCarriesCount | main.ts:162-205 | when a signed request's count is recorded, the request gets the signing session's digest header, whose count is the session's; otherwise its options go out unchanged, including any header the caller left in them (see Left out on reused options) |
| Orchestration.FetchCountsIncrease | main.ts:106-134 | within one call the digest counts computed strictly increase, and lie between the least count the session could use before the call and the least it can use after it (these are computed counts: with reused options an unsigned request can re-send an older header; see Left out) |
| Orchestration.NonceCountsNeverRepeat | main.ts:106-134 | over any sequence of calls on one client, the count never decreases and the counts of the digests the client computes strictly increase (with a reused options object an unsigned request can still carry an old header; see Left out) |
| Orchestration.FirstChallengeOutcomes | main.ts:117-128 | on a fresh client, a rejected retry ends unauthenticated with count 1, and an accepted retry ends authenticated with count 2 |

## Left out

- The network calls to `globalThis.fetch`, the async suspension and any overlap between concurrent calls. Server replies are inputs to `Orchestration.Fetch`, and calls are sequential.
- The hash primitives (`md5`, `sha256`, `sha512_256`) are the abstract parameter `h`. The base-64 encoder of Basic auth is the abstract parameter `encode`.
- `Math.random` is replaced by injected draws in `0..15`, one per nonce character.
- Logger warnings (unsupported algorithm, `auth-int`) have no effect on state and are omitted.
- `setHeader`'s polymorphism over `Headers`, arrays and records is not modelled. Headers are a map, and absent headers are the empty map.
- The `factory` option and the options copying are left out. The URL is a string. A `Request` object (whose `url` field `addAuth` reads) is not modelled. A `URL` object, which the signature also accepts, has no `url` field, so `urlStr.replace` throws a `TypeError` once `hasAuth` is set; that failure is not modelled either.
- The in-place mutation of the caller's options object by `addAuth` is not modelled, because the model's options are values. One consequence is not covered: when a caller reuses one options object, a request that `addAuth` passes through unsigned (`hasAuth` false) still holds the previous digest header, so a count can be sent twice. `Orchestration.NonceCountsNeverRepeat` speaks of the digests the client computes. It equals what goes on the wire only when each call gets fresh options, for example through `factory`.
- `computeHash`, `hashWithAlgorithm` and the static `parse` wrapper are one-line forwards. They are folded into `HA1`, `HA2`, `ResponseHash` and `FieldParser.Parse`.
- The `auth-int` entity-body hash is not computed by the source, so it is not modelled.
- FieldParser.Parse: the field name is compared with ASCII case folding and taken literally. This is exact for the four lower-case ASCII names the client uses. It does not cover regular-expression metacharacters in a caller-supplied field or JavaScript's non-ASCII case folding.
- Client.ParseAuth: lengths count Dafny characters, not UTF-16 code units. The two agree for headers without astral-plane characters, and challenge headers are ASCII.
- Client.MakeNonce: `cnonceSize` is an integer. A fractional or NaN size, which the source's loop would also accept, is not modelled.
- Decimal.NcString: the count is an unbounded natural number. The loss of precision of JavaScript numbers above 2^53 and the exponent notation from 10^21 on are not modelled.
- Authorization.AddAuth: the method is upper-cased with ASCII rules only, unlike JavaScript's full Unicode `toUpperCase`.
- Session fields that the source leaves undefined until the first challenge start as empty strings or absent values. They are never read before a challenge sets `hasAuth`, so this choice is not observable.
