/** Signed session tokens and the WebSocket bearers that share their signer. */
module SessionTokens {
  import opened Options
  import opened Base64Url

  const SESSION_TTL_SECONDS: int := 8 * 60 * 60
  const WS_TOKEN_TTL_SECONDS: int := 10 * 60
  const MAC_BYTES := 32

  datatype Payload = Payload(sub: string, tid: string, roles: seq<string>, exp: int)

  datatype Traits = Traits(userId: string, tenantId: string, roles: seq<string>)

  /** The keyed MAC and the JSON codec; `parse` yields None on malformed text. */
  datatype Signer = Signer(
    mac: string -> seq<Byte>,
    stringify: Payload -> seq<Byte>,
    parse: seq<Byte> -> Option<Payload>)

  predicate SchemaValid(p: Payload) {
    p.sub != "" && p.tid != "" && p.exp > 0
  }

  /** HMAC-SHA256 yields 32 bytes; JSON text reads back as what was written and is never empty. */
  ghost predicate Sound(s: Signer) {
    && (forall text :: |s.mac(text)| == MAC_BYTES)
    && (forall p :: s.parse(s.stringify(p)) == Some(p) && s.stringify(p) != [])
  }

  function SplitAt(s: string, ch: char): seq<string> {
    if s == [] then [[]]
    else
      var rest := SplitAt(s[1..], ch);
      if s[0] == ch then [[]] + rest
      else if rest == [] then [s]
      else [[s[0]] + rest[0]] + rest[1..]
  }

  function ComputeSignature(s: Signer, encodedPayload: string): string {
    Encode(s.mac(encodedPayload))
  }

  function Sign(s: Signer, p: Payload): string {
    var encodedPayload := Encode(s.stringify(p));
    encodedPayload + "." + ComputeSignature(s, encodedPayload)
  }

  /** Equal lengths, then equal bytes. */
  function SignatureMatches(s: Signer, encodedPayload: string, provided: string): bool {
    var expected := Decode(ComputeSignature(s, encodedPayload));
    var given := Decode(provided);
    |expected| == |given| && forall i | 0 <= i < |given| :: expected[i] == given[i]
  }

  function DecodePayload(s: Signer, encodedPayload: string): Option<Payload> {
    match s.parse(Decode(encodedPayload))
    case None => None
    case Some(p) => if SchemaValid(p) then Some(p) else None
  }

  function Verify(s: Signer, token: string, nowSeconds: int): Option<Payload> {
    var segments := SplitAt(token, '.');
    if |segments| != 2 then None
    else if segments[0] == "" || segments[1] == "" then None
    else if !SignatureMatches(s, segments[0], segments[1]) then None
    else
      match DecodePayload(s, segments[0])
      case None => None
      case Some(p) => if p.exp <= nowSeconds then None else Some(p)
  }

  function Issue(s: Signer, user: Traits, nowSeconds: int): string {
    Sign(s, Payload(user.userId, user.tenantId, user.roles, nowSeconds + SESSION_TTL_SECONDS))
  }

  function Mint(s: Signer, user: Traits, nowSeconds: int): string {
    Sign(s, Payload(user.userId, user.tenantId, user.roles, nowSeconds + WS_TOKEN_TTL_SECONDS))
  }

  function Authenticate(s: Signer, token: Option<string>, nowSeconds: int): Option<Traits> {
    match token
    case None => None
    case Some(raw) =>
      // an absent and an empty cookie are both falsy
      if raw == "" then None
      else
        match Verify(s, raw, nowSeconds)
        case None => None
        case Some(p) => Some(Traits(p.sub, p.tid, p.roles))
  }

  lemma {:induction false} SplitNone(s: string, ch: char)
    requires ch !in s
    ensures SplitAt(s, ch) == [s]
  {
    if s != [] {
      assert s == [s[0]] + s[1..];
      SplitNone(s[1..], ch);
    }
  }

  /** Two segments: exactly one separator, between them. */
  lemma {:induction false} SplitTwo(s: string, ch: char, a: string, b: string)
    ensures SplitAt(s, ch) == [a, b] <==> ch !in a && ch !in b && s == a + [ch] + b
  {
    if s != [] {
      assert s == [s[0]] + s[1..];
      if s[0] == ch {
        SplitOne(s[1..], ch, b);
        if a == [] {
          assert a + [ch] + b == [ch] + b;
          assert SplitAt(s, ch)[1..] == SplitAt(s[1..], ch);
        } else {
          assert (a + [ch] + b)[0] == a[0];
          assert SplitAt(s, ch)[0] == [];
        }
      } else {
        SplitNonEmpty(s[1..], ch);
        var rest := SplitAt(s[1..], ch);
        if a != [] {
          SplitTwo(s[1..], ch, a[1..], b);
          assert a == [a[0]] + a[1..];
          assert a + [ch] + b == [a[0]] + (a[1..] + [ch] + b);
          if SplitAt(s, ch) == [a, b] {
            assert rest[0] == SplitAt(s, ch)[0][1..] == a[1..];
            assert rest[1..] == SplitAt(s, ch)[1..] == [b];
            assert rest == [a[1..], b];
          }
        } else {
          assert (a + [ch] + b)[0] == ch;
          assert SplitAt(s, ch)[0] != [];
        }
      }
    }
  }

  lemma {:induction false} SplitNonEmpty(s: string, ch: char)
    ensures SplitAt(s, ch) != []
  {
    if s != [] {
      SplitNonEmpty(s[1..], ch);
    }
  }

  lemma {:induction false} SplitOne(s: string, ch: char, b: string)
    ensures SplitAt(s, ch) == [b] <==> ch !in b && s == b
  {
    if ch !in s {
      SplitNone(s, ch);
    } else {
      SplitMany(s, ch);
    }
  }

  lemma {:induction false} SplitMany(s: string, ch: char)
    requires ch in s
    ensures |SplitAt(s, ch)| >= 2
  {
    assert s == [s[0]] + s[1..];
    if s[0] == ch {
      SplitNonEmpty(s[1..], ch);
    } else {
      SplitMany(s[1..], ch);
    }
  }

  /**
   * What verification accepts: two non-empty segments around the only '.', the second
   * decoding to the MAC of the first, the first to a schema-valid payload not expired.
   */
  lemma AcceptedIff(s: Signer, token: string, nowSeconds: int, p: Payload)
    ensures Verify(s, token, nowSeconds) == Some(p)
       <==> exists body: string, signature: string ::
              && token == body + "." + signature && '.' !in body && '.' !in signature
              && body != "" && signature != ""
              && Decode(signature) == s.mac(body)
              && s.parse(Decode(body)) == Some(p) && SchemaValid(p) && p.exp > nowSeconds
  {
    var segments := SplitAt(token, '.');
    if Verify(s, token, nowSeconds) == Some(p) {
      assert segments == [segments[0], segments[1]];
      SplitTwo(token, '.', segments[0], segments[1]);
      RoundTrip(s.mac(segments[0]));
      assert Decode(segments[1]) == s.mac(segments[0]);
      assert token == segments[0] + "." + segments[1];
    }
    if body: string, signature: string :|
         && token == body + "." + signature && '.' !in body && '.' !in signature
         && body != "" && signature != ""
         && Decode(signature) == s.mac(body)
         && s.parse(Decode(body)) == Some(p) && SchemaValid(p) && p.exp > nowSeconds
    {
      SplitTwo(token, '.', body, signature);
      RoundTrip(s.mac(body));
    }
  }

  /**
   * Who a connection authenticates as: nobody without a cookie; otherwise exactly the user
   * of an unexpired payload with a user, a tenant and an expiry, in two non-empty segments
   * around the only '.', of which the second decodes to the MAC of the first.
   */
  lemma AuthenticatesIff(s: Signer, token: Option<string>, nowSeconds: int, t: Traits)
    ensures Authenticate(s, token, nowSeconds) == Some(t)
       <==> exists body: string, signature: string, exp: int ::
              && token == Some(body + "." + signature) && '.' !in body && '.' !in signature
              && body != "" && signature != ""
              && Decode(signature) == s.mac(body)
              && s.parse(Decode(body)) == Some(Payload(t.userId, t.tenantId, t.roles, exp))
              && t.userId != "" && t.tenantId != "" && exp > 0 && exp > nowSeconds
  {
    if Authenticate(s, token, nowSeconds) == Some(t) {
      var p := Verify(s, token.value, nowSeconds).value;
      AcceptedIff(s, token.value, nowSeconds, p);
    }
    if body: string, signature: string, exp: int :|
         && token == Some(body + "." + signature) && '.' !in body && '.' !in signature
         && body != "" && signature != ""
         && Decode(signature) == s.mac(body)
         && s.parse(Decode(body)) == Some(Payload(t.userId, t.tenantId, t.roles, exp))
         && t.userId != "" && t.tenantId != "" && exp > 0 && exp > nowSeconds
    {
      AcceptedIff(s, token.value, nowSeconds, Payload(t.userId, t.tenantId, t.roles, exp));
      assert token.value != "";
    }
  }

  /** A signed payload verifies to itself exactly while it is schema-valid and not expired. */
  lemma SignThenVerify(s: Signer, p: Payload, nowSeconds: int)
    requires Sound(s)
    ensures Verify(s, Sign(s, p), nowSeconds) == if SchemaValid(p) && p.exp > nowSeconds then Some(p) else None
  {
    var body := Encode(s.stringify(p));
    var signature := ComputeSignature(s, body);
    RoundTrip(s.stringify(p));
    RoundTrip(s.mac(body));
    SplitTwo(Sign(s, p), '.', body, signature);
  }

  predicate Named(user: Traits) {
    user.userId != "" && user.tenantId != ""
  }

  /** A session, or a bearer, authenticates its user exactly for its lifetime. */
  lemma IssuedThenAuthenticated(s: Signer, user: Traits, issued: int, now: int)
    requires Sound(s) && issued >= 0
    ensures Authenticate(s, Some(Issue(s, user, issued)), now)
         == if Named(user) && now < issued + 28_800 then Some(user) else None
    ensures Authenticate(s, Some(Mint(s, user, issued)), now)
         == if Named(user) && now < issued + 600 then Some(user) else None
  {
    SignThenVerify(s, Payload(user.userId, user.tenantId, user.roles, issued + SESSION_TTL_SECONDS), now);
    SignThenVerify(s, Payload(user.userId, user.tenantId, user.roles, issued + WS_TOKEN_TTL_SECONDS), now);
  }
}
