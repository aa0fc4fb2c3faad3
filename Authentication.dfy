/**
 * The credential strategies: `UnAuthStrategy`, `BearerAuthStrategy` and
 * `BasicAuthStrategy` each turn an `Authorization` header into credentials;
 * all three share the secret check `is_authorized` and the budget lookup
 * `get_rate_limit`. `TOKENS` and `COMMANDS` are parameters.
 */
module Authentication {
  import opened Wrappers
  import opened Text
  import opened Settings
  import Base64

  /**
   * The tuple `extract_credentials` returns: an (identity, secret) pair whose
   * parts may be `None`, or, when a decoded Basic payload has no colon, a
   * one-element tuple.
   */
  datatype Credentials =
    | Pair(user: Option<string>, secret: Option<string>)
    | Single(field: string)

  /** The exceptions these operations raise. */
  datatype AuthError =
    | Base64Error   // `b64decode` rejects the payload (`binascii.Error`)
    | UnicodeError  // the decoded bytes are not text (`UnicodeDecodeError`)
    | UnpackError   // a one-element tuple unpacked into (user, token) (`ValueError`)
    | NoPolicy      // `COMMANDS.get(user)` is `None`, so `.get` fails (`AttributeError`)

  /** The closed family of strategies. */
  datatype AuthStrategy = UnAuthStrategy | BearerAuthStrategy | BasicAuthStrategy

  /** The budget `get_rate_limit` gives an identity whose policy names none. */
  const HourlyDefault: string := "1 per hour"

  /** The scheme word whose prefix (followed by a space) a strategy accepts. */
  function Scheme(strategy: AuthStrategy): string
    requires !strategy.UnAuthStrategy?
  {
    if strategy.BearerAuthStrategy? then "Bearer" else "Basic"
  }

  /**
   * `get_credentials_from_token`: the first identity, in `TOKENS` order, whose
   * secret equals the token, flagged `true`; `(false, (None, token))` if none.
   */
  function GetCredentialsFromToken(tokens: Tokens, bearerToken: string): (r: (bool, Credentials))
    ensures r.0 <==> exists i :: 0 <= i < |tokens| && tokens[i].1 == bearerToken
    ensures !r.0 ==> r.1 == Pair(None, Some(bearerToken))
    ensures r.0 ==> exists i :: 0 <= i < |tokens| && tokens[i].1 == bearerToken
                                && (forall j :: 0 <= j < i ==> tokens[j].1 != bearerToken)
                                && r.1 == Pair(Some(tokens[i].0), Some(bearerToken))
  {
    match IndexOfSecret(tokens, bearerToken)
    case Some(i) => (true, Pair(Some(tokens[i].0), Some(tokens[i].1)))
    case None => (false, Pair(None, Some(bearerToken)))
  }

  /** `BearerAuthStrategy.extract_credentials`. */
  function BearerExtract(tokens: Tokens, header: string): (r: Result<Credentials, AuthError>)
    ensures r.Ok? && r.value.Pair?
    ensures !StartsWith(header, "Bearer ") ==> r.value == Pair(None, None)
    ensures StartsWith(header, "Bearer ") ==>
      var token := FieldAfterScheme(header, "Bearer");
      && r.value.secret == Some(token)
      && (r.value.user.Some? <==> exists i :: 0 <= i < |tokens| && tokens[i].1 == token)
      && (r.value.user.Some? ==> exists i :: 0 <= i < |tokens| && tokens[i] == (r.value.user.value, token))
  {
    if StartsWith(header, "Bearer ") then
      Ok(GetCredentialsFromToken(tokens, FieldAfterScheme(header, "Bearer")).1)
    else
      Ok(Pair(None, None))
  }

  /**
   * The text of a Basic header: the field after `Basic ` base64-decoded and
   * the bytes decoded as text.
   */
  function BasicPayload(header: string): (r: Result<string, AuthError>)
    requires StartsWith(header, "Basic ")
    ensures r == Err(Base64Error) <==> Base64.Decode(FieldAfterScheme(header, "Basic")).None?
    ensures r.Ok? <==> Base64.Decode(FieldAfterScheme(header, "Basic")).Some?
                       && forall i :: 0 <= i < |Base64.Decode(FieldAfterScheme(header, "Basic")).value| ==>
                            Base64.Decode(FieldAfterScheme(header, "Basic")).value[i] < 128
    ensures r.Ok? ==> IsAscii(r.value) && Base64.Decode(FieldAfterScheme(header, "Basic")) == Some(AsciiBytes(r.value))
  {
    match Base64.Decode(FieldAfterScheme(header, "Basic"))
    case None => Err(Base64Error)
    case Some(bytes) =>
      match DecodeAscii(bytes)
      case None => Err(UnicodeError)
      case Some(text) =>
        assert AsciiBytes(text) == bytes;
        Ok(text)
  }

  /**
   * `BasicAuthStrategy.extract_credentials`: decode the payload and split it
   * on the first colon.
   */
  function BasicExtract(header: string): (r: Result<Credentials, AuthError>)
    ensures !StartsWith(header, "Basic ") ==> r == Ok(Pair(None, None))
    ensures StartsWith(header, "Basic ") && BasicPayload(header).Err? ==> r == Err(BasicPayload(header).error)
    ensures StartsWith(header, "Basic ") && BasicPayload(header).Ok? ==>
      var text := BasicPayload(header).value;
      && r.Ok?
      && (r.value.Single? <==> ':' !in text)
      && (r.value.Single? ==> r.value.field == text)
      && (r.value.Pair? ==> r.value.user.Some? && r.value.secret.Some? && ':' !in r.value.user.value
                            && text == r.value.user.value + ":" + r.value.secret.value)
  {
    if !StartsWith(header, "Basic ") then Ok(Pair(None, None))
    else
      match BasicPayload(header)
      case Err(e) => Err(e)
      case Ok(text) =>
        var parts := SplitOnce(text, ':');
        if |parts| == 2 then Ok(Pair(Some(parts[0]), Some(parts[1])))
        else Ok(Single(parts[0]))
  }

  /** `extract_credentials`, dispatched on the strategy. */
  function ExtractCredentials(strategy: AuthStrategy, tokens: Tokens, header: string): (r: Result<Credentials, AuthError>)
    ensures strategy.UnAuthStrategy? ==> r == Ok(Pair(Some("public"), Some("")))
    ensures !strategy.UnAuthStrategy? && !StartsWith(header, Scheme(strategy) + " ") ==> r == Ok(Pair(None, None))
    ensures r.Err? ==> strategy.BasicAuthStrategy? && (r.error == Base64Error || r.error == UnicodeError)
    ensures r.Ok? && r.value.Single? ==> strategy.BasicAuthStrategy?
  {
    match strategy
    case UnAuthStrategy => Ok(Pair(Some("public"), Some("")))
    case BearerAuthStrategy => BearerExtract(tokens, header)
    case BasicAuthStrategy => BasicExtract(header)
  }

  /** `TOKENS.get(user)`, where `None` is never a key. */
  function Lookup(tokens: Tokens, user: Option<string>): Option<string> {
    if user.None? then None else SecretOf(tokens, user.value)
  }

  /**
   * `is_authorized`: the pair is accepted when the secret stored for the
   * identity equals the given secret, comparing `None` with `None` too.
   */
  function IsAuthorized(tokens: Tokens, c: Credentials): (r: Result<bool, AuthError>)
    ensures r.Err? <==> c.Single?
    ensures c.Pair? && c.user.None? ==> (r == Ok(true) <==> c.secret.None?)
    ensures c.Pair? && c.user.Some? && c.secret.None? ==>
      (r == Ok(true) <==> forall i :: 0 <= i < |tokens| ==> tokens[i].0 != c.user.value)
    ensures c.Pair? && c.user.Some? && c.secret.Some? ==>
      (r == Ok(true) <==> exists i :: 0 <= i < |tokens| && tokens[i] == (c.user.value, c.secret.value)
                                      && forall j :: 0 <= j < i ==> tokens[j].0 != c.user.value)
  {
    match c
    case Single(_) => Err(UnpackError)
    case Pair(user, token) => Ok(Lookup(tokens, user) == token)
  }

  /**
   * `get_rate_limit`: the `rate_limit` of the policy of the tuple's first
   * element, `"1 per hour"` when the policy names none; an error when that
   * element has no policy.
   */
  function GetRateLimit(commands: Commands, c: Credentials): (r: Result<string, AuthError>)
    ensures var first := if c.Single? then Some(c.field) else c.user;
      && (r.Err? <==> first.None? || first.value !in commands)
      && (r.Ok? && commands[first.value].rateLimit.Some? ==> r.value == commands[first.value].rateLimit.value)
      && (r.Ok? && commands[first.value].rateLimit.None? ==> r.value == HourlyDefault)
  {
    var first := if c.Single? then Some(c.field) else c.user;
    if first.Some? && first.value in commands then Ok(commands[first.value].rateLimit.GetOr(HourlyDefault))
    else Err(NoPolicy)
  }

  /**
   * The strict form of `is_authorized`: a pair is accepted only when it names
   * an identity and a secret and the secret stored for that identity equals it.
   */
  function IsAuthorizedStrict(tokens: Tokens, c: Credentials): (r: Result<bool, AuthError>)
    ensures r.Err? <==> c.Single?
    ensures r == Ok(true) <==>
      c.Pair? && c.user.Some? && c.secret.Some? && SecretOf(tokens, c.user.value) == c.secret
  {
    match c
    case Single(_) => Err(UnpackError)
    case Pair(user, token) => Ok(user.Some? && token.Some? && Lookup(tokens, user) == token)
  }

  /** Whenever both an identity and a secret are named, the strict check decides as `is_authorized` does. */
  lemma StrictAgreesOnFullPairs(tokens: Tokens, c: Credentials)
    requires c.Pair? && c.user.Some? && c.secret.Some?
    ensures IsAuthorizedStrict(tokens, c) == IsAuthorized(tokens, c)
  {
  }

  /** The strict check rejects every pair without an identity, where `is_authorized` accepts `(None, None)`. */
  lemma StrictRejectsMissingIdentity(tokens: Tokens, secret: Option<string>)
    ensures IsAuthorizedStrict(tokens, Pair(None, secret)) == Ok(false)
    ensures IsAuthorized(tokens, Pair(None, secret)) == Ok(secret.None?)
  {
  }

  /**
   * A Bearer strategy given a header of another scheme extracts `(None, None)`,
   * and `is_authorized` accepts that pair whatever `TOKENS` holds.
   */
  lemma MissingCredentialsAccepted(tokens: Tokens)
    ensures ExtractCredentials(BearerAuthStrategy, tokens, "Token abc") == Ok(Pair(None, None))
    ensures IsAuthorized(tokens, Pair(None, None)) == Ok(true)
  {
    assert "Token abc"[..7][0] != "Bearer "[0];
  }

  /** The unauthenticated strategy always yields the public identity with an empty secret. */
  lemma UnAuthIsPublic(tokens: Tokens, header: string)
    ensures ExtractCredentials(UnAuthStrategy, tokens, header) == Ok(Pair(Some("public"), Some("")))
  {
  }

  /** Bearer and Basic yield `(None, None)` for a header that does not start with their own scheme and a space. */
  lemma OtherSchemeYieldsNothing(strategy: AuthStrategy, tokens: Tokens, header: string)
    requires !strategy.UnAuthStrategy?
    requires !StartsWith(header, Scheme(strategy) + " ")
    ensures ExtractCredentials(strategy, tokens, header) == Ok(Pair(None, None))
  {
  }

  /** The scheme match is case-sensitive: a lower-case `bearer` is another scheme. */
  lemma SchemeIsCaseSensitive(tokens: Tokens)
    ensures ExtractCredentials(BearerAuthStrategy, tokens, "bearer abc") == Ok(Pair(None, None))
    ensures ExtractCredentials(BasicAuthStrategy, tokens, "basic abc") == Ok(Pair(None, None))
  {
    assert "bearer abc"[..7][0] != "Bearer "[0];
    assert "basic abc"[..6][0] != "Basic "[0];
  }

  /**
   * A Bearer header whose token is a configured secret yields the first
   * identity holding that secret, together with the secret.
   */
  lemma BearerFindsFirstIdentity(tokens: Tokens, token: string, more: string, i: nat)
    requires ' ' !in token && (more == [] || more[0] == ' ')
    requires i < |tokens| && tokens[i].1 == token
    requires forall j :: 0 <= j < i ==> tokens[j].1 != token
    ensures ExtractCredentials(BearerAuthStrategy, tokens, "Bearer " + token + more)
      == Ok(Pair(Some(tokens[i].0), Some(token)))
  {
    FieldAfterSchemeOf("Bearer", token, more);
    assert "Bearer " == "Bearer" + " ";
  }

  /** The pair a Bearer header yields for a configured secret passes `is_authorized` and its strict form. */
  lemma BearerMatchIsAuthorized(tokens: Tokens, token: string, more: string, i: nat)
    requires UniqueIdentities(tokens)
    requires ' ' !in token && (more == [] || more[0] == ' ')
    requires i < |tokens| && tokens[i].1 == token
    requires forall j :: 0 <= j < i ==> tokens[j].1 != token
    ensures IsAuthorized(tokens, Pair(Some(tokens[i].0), Some(token))) == Ok(true)
    ensures IsAuthorizedStrict(tokens, Pair(Some(tokens[i].0), Some(token))) == Ok(true)
  {
    SecretOfEntry(tokens, i);
  }

  /** A Bearer token that is no configured secret yields `(None, token)`, which `is_authorized` rejects. */
  lemma BearerUnknownToken(tokens: Tokens, token: string, more: string)
    requires ' ' !in token && (more == [] || more[0] == ' ')
    requires forall j :: 0 <= j < |tokens| ==> tokens[j].1 != token
    ensures ExtractCredentials(BearerAuthStrategy, tokens, "Bearer " + token + more) == Ok(Pair(None, Some(token)))
    ensures IsAuthorized(tokens, Pair(None, Some(token))) == Ok(false)
  {
    FieldAfterSchemeOf("Bearer", token, more);
    assert "Bearer " == "Bearer" + " ";
  }

  /** ASCII text stays ASCII when concatenated. */
  lemma AsciiConcat(a: string, b: string)
    requires IsAscii(a) && IsAscii(b)
    ensures IsAscii(a + b)
  {
    forall i | 0 <= i < |a + b| ensures (a + b)[i] as int < 128 {
      if i >= |a| { assert (a + b)[i] == b[i - |a|]; }
    }
  }

  /** The payload of a Basic header built from text is that text: encoding and decoding are inverse. */
  lemma BasicPayloadOf(text: string)
    requires IsAscii(text)
    ensures StartsWith("Basic " + Base64.Encode(AsciiBytes(text)), "Basic ")
    ensures BasicPayload("Basic " + Base64.Encode(AsciiBytes(text))) == Ok(text)
  {
    var e := Base64.Encode(AsciiBytes(text));
    Base64.EncodeAlphabet(AsciiBytes(text));
    FieldAfterSchemeOf("Basic", e, []);
    assert "Basic " + e + [] == "Basic " + e;
    assert "Basic " == "Basic" + " ";
    Base64.DecodeEncode(AsciiBytes(text));
    DecodeAsciiBytes(text);
  }

  /**
   * A Basic header carrying the base64 encoding of `user:secret`, where the
   * identity has no colon, yields exactly that identity and secret; the
   * secret may itself contain colons.
   */
  lemma BasicRoundTrip(user: string, secret: string)
    requires ':' !in user
    requires IsAscii(user) && IsAscii(secret)
    ensures IsAscii(user + ":" + secret)
    ensures ExtractCredentials(BasicAuthStrategy, [], "Basic " + Base64.Encode(AsciiBytes(user + ":" + secret)))
      == Ok(Pair(Some(user), Some(secret)))
  {
    var text := user + ":" + secret;
    AsciiConcat(user, ":");
    AsciiConcat(user + ":", secret);
    BasicPayloadOf(text);
    assert text == user + [':'] + secret;
    SplitOnceLeadingField(user, secret, ':');
  }

  /**
   * A Basic payload without a colon yields a one-element tuple, which
   * `is_authorized` cannot unpack.
   */
  lemma BasicWithoutColon(tokens: Tokens, text: string)
    requires ':' !in text && IsAscii(text)
    ensures ExtractCredentials(BasicAuthStrategy, tokens, "Basic " + Base64.Encode(AsciiBytes(text)))
      == Ok(Single(text))
    ensures IsAuthorized(tokens, Single(text)).Err?
  {
    BasicPayloadOf(text);
  }

  /** `get_rate_limit` fails for an identity without a policy and otherwise defaults to one call per hour. */
  lemma RateLimitOfIdentity(commands: Commands, user: string, secret: Option<string>)
    ensures user !in commands ==> GetRateLimit(commands, Pair(Some(user), secret)) == Err(NoPolicy)
    ensures user in commands ==>
      GetRateLimit(commands, Pair(Some(user), secret)) == Ok(commands[user].rateLimit.GetOr("1 per hour"))
    ensures GetRateLimit(commands, Pair(None, secret)) == Err(NoPolicy)
  {
  }
}
