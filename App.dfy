/**
 * The request decisions of the proxy application: which token each check
 * reads from the `Authorization` header, which rate-limit budget applies,
 * and whether a command is allowed, with the forced-value overlay written
 * into the request body. The configuration is the manager's current
 * snapshot, passed as a parameter.
 */
module App {
  import opened Wrappers
  import opened Text
  import opened Settings
  import opened ConfigManagement

  /** The budget used when neither the caller's policy nor `public` names one. */
  const DefaultRateLimit: string := "1 per second"

  /**
   * The token `rate_limit_from_header` reads: the word after `Bearer ` when
   * the header starts with it, otherwise the empty string.
   */
  function RateLimitToken(header: Option<string>): (token: string)
    ensures ' ' !in token
    ensures header.None? || !StartsWith(header.value, "Bearer ") ==> token == ""
    ensures header.Some? && StartsWith(header.value, "Bearer ") ==>
      StartsWith(header.value, "Bearer " + token)
      && (|header.value| == 7 + |token| || header.value[7 + |token|] == ' ')
  {
    if header.Some? && header.value != "" && StartsWith(header.value, "Bearer ") then
      assert "Bearer" + " " == "Bearer ";
      FieldAfterScheme(header.value, "Bearer")
    else ""
  }

  /**
   * The token `verify_token_and_command` reads: the last space-separated
   * word of the header, whatever its scheme; the empty string without a header.
   */
  function AuthorizationToken(header: Option<string>): (token: string)
    ensures ' ' !in token
    ensures header.None? ==> token == ""
    ensures header.Some? ==> EndsWith(header.value, token)
    ensures header.Some? && |token| < |header.value| ==> header.value[|header.value| - |token| - 1] == ' '
  {
    var h := header.GetOr("");
    SplitLastField(h, ' ');
    Last(Split(h, ' '))
  }

  /** For `Bearer` and one word, both checks read that word. */
  lemma BearerTokensAgree(t: string)
    requires ' ' !in t
    ensures RateLimitToken(Some("Bearer " + t)) == t
    ensures AuthorizationToken(Some("Bearer " + t)) == t
  {
    FieldAfterSchemeOf("Bearer", t, []);
    assert "Bearer" + " " + t + [] == "Bearer " + t;
    assert "Bearer " + t == "Bearer" + [' '] + t;
    SplitLeadingField("Bearer", t, ' ');
    SplitNoSep(t, ' ');
  }

  /** The rate-limit token is the word after `Bearer `, whatever follows it after a space. */
  lemma RateLimitTokenOfBearer(t: string, more: string)
    requires ' ' !in t && (more == [] || more[0] == ' ')
    ensures RateLimitToken(Some("Bearer " + t + more)) == t
  {
    FieldAfterSchemeOf("Bearer", t, more);
    assert "Bearer" + " " + t + more == "Bearer " + t + more;
  }

  /** The authorization token of `Bearer t u` is `u`. */
  lemma AuthorizationTokenOfTwoWords(t: string, u: string)
    requires ' ' !in t && ' ' !in u
    ensures AuthorizationToken(Some("Bearer " + t + " " + u)) == u
  {
    SplitThree("Bearer", t, u, ' ');
    assert "Bearer" + [' '] + t + [' '] + u == "Bearer " + t + " " + u;
  }

  /** With two words after `Bearer `, the rate limit reads the first and the authorization the last. */
  lemma BearerTokensDisagree(t: string, u: string)
    requires ' ' !in t && ' ' !in u
    ensures RateLimitToken(Some("Bearer " + t + " " + u)) == t
    ensures AuthorizationToken(Some("Bearer " + t + " " + u)) == u
  {
    RateLimitTokenOfBearer(t, " " + u);
    assert "Bearer " + t + (" " + u) == "Bearer " + t + " " + u;
    AuthorizationTokenOfTwoWords(t, u);
  }

  /** A header without spaces is itself the authorization token. */
  lemma AuthorizationTokenWithoutSpace(h: string)
    requires ' ' !in h
    ensures AuthorizationToken(Some(h)) == h
  {
    SplitNoSep(h, ' ');
  }

  /** The generator in `is_authorized`: the first identity, in `TOKENS` order, whose secret is the token. */
  function FirstIdentity(tokens: Tokens, token: string): (r: Option<string>)
    ensures r.None? <==> forall i :: 0 <= i < |tokens| ==> tokens[i].1 != token
    ensures r.Some? ==> exists i :: 0 <= i < |tokens| && tokens[i] == (r.value, token)
                                  && forall j :: 0 <= j < i ==> tokens[j].1 != token
  {
    match IndexOfSecret(tokens, token)
    case Some(i) => Some(tokens[i].0)
    case None => None
  }

  /** `commands_config.get(user, {}).get("commands", [])`. */
  function AllowedCommands(commands: Commands, user: string): (allowed: seq<string>)
    ensures user !in commands || commands[user].commands.None? ==> allowed == []
    ensures user in commands && commands[user].commands.Some? ==> allowed == commands[user].commands.value
  {
    if user in commands then commands[user].commands.GetOr([]) else []
  }

  /** `command in allowed`: only a string can equal an entry of a list of strings. */
  predicate CommandIn(command: Json, allowed: seq<string>): (b: bool)
    ensures b <==> exists i :: 0 <= i < |allowed| && command == JStr(allowed[i])
  {
    command.JStr? && command.s in allowed
  }

  /** The exception `is_authorized` can raise. */
  datatype AppError = Unhashable  // a list or object used as a `forced_values` key (`TypeError`)

  /**
   * `commands_config.get(user, {}).get("forced_values", {}).get(command, {})`:
   * the fields forced for this command, none when there are none, and an
   * error when the command cannot be a dictionary key.
   */
  function ForcedValuesFor(commands: Commands, user: string, command: Json): (r: Result<Fields, AppError>)
    ensures r.Err? <==> !command.Hashable()
    ensures r.Ok? && r.value != map[] ==>
      command.JStr? && user in commands && commands[user].forcedValues.Some?
      && command.s in commands[user].forcedValues.value
      && r.value == commands[user].forcedValues.value[command.s]
    ensures (command.JStr? && user in commands && commands[user].forcedValues.Some?
             && command.s in commands[user].forcedValues.value) ==>
      r == Ok(commands[user].forcedValues.value[command.s])
  {
    if !command.Hashable() then Err(Unhashable)
    else if user in commands && commands[user].forcedValues.Some? && command.JStr?
            && command.s in commands[user].forcedValues.value then
      Ok(commands[user].forcedValues.value[command.s])
    else Ok(map[])
  }

  /** The body after `json_data[key] = value` for every forced field. */
  function Overlay(body: Fields, forced: Fields): (r: Fields)
    ensures r.Keys == body.Keys + forced.Keys
    ensures forall k :: k in forced ==> r[k] == forced[k]
    ensures forall k :: k in body && k !in forced ==> r[k] == body[k]
  {
    body + forced
  }

  /** Writing the same forced fields a second time changes nothing. */
  lemma OverlayIdempotent(body: Fields, forced: Fields)
    ensures Overlay(Overlay(body, forced), forced) == Overlay(body, forced)
  {
  }

  /** The verdict of `is_authorized` and the body it leaves. */
  datatype Decision = Decision(allowed: bool, body: Fields)

  /**
   * What `is_authorized` decides for a token and a command: an identity found
   * by its secret and with a non-empty name is held to its own allow-list,
   * after its forced values are written into the body; otherwise the
   * `public` allow-list applies and the body is left alone.
   */
  function Authorize(cfg: Snapshot, token: string, command: Json, body: Fields): (r: Result<Decision, AppError>)
    ensures var user := FirstIdentity(cfg.tokens, token);
      r.Err? <==> user.Some? && user.value != "" && !command.Hashable()
    ensures var user := FirstIdentity(cfg.tokens, token);
      r.Ok? && (user.None? || user.value == "") ==> r.value.body == body
    ensures r.Ok? ==> body.Keys <= r.value.body.Keys
    ensures r.Ok? && r.value.allowed ==> command.JStr?
  {
    var user := FirstIdentity(cfg.tokens, token);
    if user.Some? && user.value != "" then
      match ForcedValuesFor(cfg.commands, user.value, command)
      case Err(e) => Err(e)
      case Ok(forced) => Ok(Decision(CommandIn(command, AllowedCommands(cfg.commands, user.value)), Overlay(body, forced)))
    else
      Ok(Decision(CommandIn(command, AllowedCommands(cfg.commands, "public")), body))
  }

  /**
   * A token that first matches a named identity: the command is allowed iff
   * it is in that identity's `commands` list (none when the list is missing),
   * and the forced fields are in the body whatever the verdict.
   */
  lemma AuthorizeMatchedIdentity(cfg: Snapshot, token: string, command: Json, body: Fields, i: nat)
    requires i < |cfg.tokens| && cfg.tokens[i].1 == token && cfg.tokens[i].0 != ""
    requires forall j :: 0 <= j < i ==> cfg.tokens[j].1 != token
    requires command.Hashable()
    ensures var user := cfg.tokens[i].0;
      var r := Authorize(cfg, token, command, body);
      && r.Ok?
      && (r.value.allowed <==> command.JStr? && user in cfg.commands
                               && cfg.commands[user].commands.Some? && command.s in cfg.commands[user].commands.value)
      && r.value.body == Overlay(body, ForcedValuesFor(cfg.commands, user, command).value)
  {
    var user := FirstIdentity(cfg.tokens, token);
    var k :| 0 <= k < |cfg.tokens| && cfg.tokens[k] == (user.value, token)
             && forall j :: 0 <= j < k ==> cfg.tokens[j].1 != token;
    assert k == i;
  }

  /** A named identity asking with a list or object as its command makes `is_authorized` raise. */
  lemma AuthorizeUnhashableCommand(cfg: Snapshot, token: string, command: Json, body: Fields)
    requires FirstIdentity(cfg.tokens, token).Some? && FirstIdentity(cfg.tokens, token).value != ""
    requires !command.Hashable()
    ensures Authorize(cfg, token, command, body) == Err(Unhashable)
  {
  }

  /**
   * A token that matches no identity, or first matches one with an empty
   * name, is held to the `public` allow-list and the body is unchanged.
   */
  lemma AuthorizeFallsBackToPublic(cfg: Snapshot, token: string, command: Json, body: Fields)
    requires (forall i :: 0 <= i < |cfg.tokens| ==> cfg.tokens[i].1 != token)
             || exists i :: 0 <= i < |cfg.tokens| && cfg.tokens[i] == ("", token)
                            && forall j :: 0 <= j < i ==> cfg.tokens[j].1 != token
    ensures Authorize(cfg, token, command, body)
      == Ok(Decision(command.JStr? && "public" in cfg.commands && cfg.commands["public"].commands.Some?
                     && command.s in cfg.commands["public"].commands.value, body))
  {
    var user := FirstIdentity(cfg.tokens, token);
    if user.Some? {
      var i :| 0 <= i < |cfg.tokens| && cfg.tokens[i] == ("", token)
               && forall j :: 0 <= j < i ==> cfg.tokens[j].1 != token;
      var k :| 0 <= k < |cfg.tokens| && cfg.tokens[k] == (user.value, token)
               && forall j :: 0 <= j < k ==> cfg.tokens[j].1 != token;
      assert k == i;
    }
  }

  /**
   * A request without an `Authorization` header, when no identity has an
   * empty secret, is held to the `public` allow-list.
   */
  lemma AnonymousRequestIsPublic(cfg: Snapshot, command: Json, body: Fields)
    requires forall i :: 0 <= i < |cfg.tokens| ==> cfg.tokens[i].1 != ""
    ensures Authorize(cfg, AuthorizationToken(None), command, body)
      == Ok(Decision(CommandIn(command, AllowedCommands(cfg.commands, "public")), body))
  {
  }

  /** A forced `env` of `prod` for `deploy` replaces the `staging` the caller sent. */
  lemma ForcedValueReplacesSubmitted()
    ensures var policy := UserConfig(Some(["deploy"]), None, Some(map["deploy" := map["env" := JStr("prod")]]), 0);
      var cfg := Snapshot([("svc", "s3cret")], map["svc" := policy], None);
      var body := map["action" := JStr("deploy"), "env" := JStr("staging")];
      Authorize(cfg, "s3cret", JStr("deploy"), body)
        == Ok(Decision(true, map["action" := JStr("deploy"), "env" := JStr("prod")]))
  {
    var body := map["action" := JStr("deploy"), "env" := JStr("staging")];
    assert Overlay(body, map["env" := JStr("prod")]) == map["action" := JStr("deploy"), "env" := JStr("prod")];
  }

  /** `TOKENS` entry `entry` settles the rate limit: its secret is the token and its identity has a non-empty policy. */
  predicate RateLimitEligible(commands: Commands, token: string, entry: (string, string)) {
    entry.1 == token && entry.0 in commands && commands[entry.0].NonEmpty()
  }

  /** The first entry, in `TOKENS` order, that settles the rate limit. */
  function FirstEligible(tokens: Tokens, commands: Commands, token: string): (r: Option<nat>)
    ensures r.Some? ==> r.value < |tokens| && RateLimitEligible(commands, token, tokens[r.value])
    ensures r.Some? ==> forall j :: 0 <= j < r.value ==> !RateLimitEligible(commands, token, tokens[j])
    ensures r.None? ==> forall j :: 0 <= j < |tokens| ==> !RateLimitEligible(commands, token, tokens[j])
  {
    if |tokens| == 0 then None
    else if RateLimitEligible(commands, token, tokens[0]) then Some(0)
    else
      match FirstEligible(tokens[1..], commands, token)
      case None => None
      case Some(k) => Some(k + 1)
  }

  /** `commands_config.get("public", {}).get("rate_limit", "1 per second")`. */
  function PublicRateLimit(commands: Commands): (limit: string)
    ensures "public" in commands && commands["public"].rateLimit.Some? ==> limit == commands["public"].rateLimit.value
    ensures limit != DefaultRateLimit ==> "public" in commands && commands["public"].rateLimit == Some(limit)
  {
    if "public" in commands then commands["public"].rateLimit.GetOr(DefaultRateLimit) else DefaultRateLimit
  }

  /**
   * The budget for a token: that of the first identity holding the token as
   * its secret and having a non-empty policy, else that of `public`, else
   * one call per second.
   */
  function RateLimitSelection(cfg: Snapshot, token: string): (limit: string)
    ensures limit != DefaultRateLimit ==>
      ("public" in cfg.commands && cfg.commands["public"].rateLimit == Some(limit))
      || exists i :: 0 <= i < |cfg.tokens| && cfg.tokens[i].1 == token && cfg.tokens[i].0 in cfg.commands
                     && cfg.commands[cfg.tokens[i].0].rateLimit == Some(limit)
  {
    match FirstEligible(cfg.tokens, cfg.commands, token)
    case Some(i) => cfg.commands[cfg.tokens[i].0].rateLimit.GetOr(DefaultRateLimit)
    case None => PublicRateLimit(cfg.commands)
  }

  /** The first settling entry decides the budget. */
  lemma RateLimitOfFirstEligible(cfg: Snapshot, token: string, i: nat)
    requires i < |cfg.tokens| && RateLimitEligible(cfg.commands, token, cfg.tokens[i])
    requires forall j :: 0 <= j < i ==> !RateLimitEligible(cfg.commands, token, cfg.tokens[j])
    ensures RateLimitSelection(cfg, token) == cfg.commands[cfg.tokens[i].0].rateLimit.GetOr("1 per second")
  {
  }

  /** Without a settling entry the budget is `public`'s, or one call per second. */
  lemma RateLimitFallback(cfg: Snapshot, token: string)
    requires forall j :: 0 <= j < |cfg.tokens| ==> !RateLimitEligible(cfg.commands, token, cfg.tokens[j])
    ensures "public" in cfg.commands ==>
      RateLimitSelection(cfg, token) == cfg.commands["public"].rateLimit.GetOr("1 per second")
    ensures "public" !in cfg.commands ==> RateLimitSelection(cfg, token) == "1 per second"
  {
  }

  /**
   * Two identities sharing a secret, where only the second has a policy: the
   * budget is the second's while the allow-list checked is the first's.
   */
  lemma RateLimitAndAuthorizationMayResolveDifferently()
    ensures var policy := UserConfig(Some(["ping"]), Some("5 per second"), None, 0);
      var cfg := Snapshot([("a", "s"), ("b", "s")], map["b" := policy], None);
      && RateLimitSelection(cfg, "s") == "5 per second"
      && FirstIdentity(cfg.tokens, "s") == Some("a")
      && Authorize(cfg, "s", JStr("ping"), map[]) == Ok(Decision(false, map[]))
  {
    var policy := UserConfig(Some(["ping"]), Some("5 per second"), None, 0);
    var cfg := Snapshot([("a", "s"), ("b", "s")], map["b" := policy], None);
    assert cfg.tokens[1..] == [("b", "s")];
    assert FirstEligible(cfg.tokens[1..], cfg.commands, "s") == Some(0);
  }

  /** `get_rate_limit_from_token`: searches `TOKENS` in order, then falls back to `public`. */
  method GetRateLimitFromToken(cfg: Snapshot, token: string) returns (limit: string)
    ensures limit == RateLimitSelection(cfg, token)
  {
    var i := 0;
    while i < |cfg.tokens|
      invariant 0 <= i <= |cfg.tokens|
      invariant forall j :: 0 <= j < i ==> !RateLimitEligible(cfg.commands, token, cfg.tokens[j])
    {
      var (user, userToken) := cfg.tokens[i];
      if userToken == token {
        if user in cfg.commands && cfg.commands[user].NonEmpty() {
          return cfg.commands[user].rateLimit.GetOr(DefaultRateLimit);
        }
      }
      i := i + 1;
    }
    return PublicRateLimit(cfg.commands);
  }

  /** `rate_limit_from_header`: the budget for the `Bearer` token of the header. */
  method RateLimitFromHeader(cfg: Snapshot, header: Option<string>) returns (limit: string)
    ensures limit == RateLimitSelection(cfg, RateLimitToken(header))
  {
    var token := "";
    if header.Some? && header.value != "" && StartsWith(header.value, "Bearer ") {
      token := FieldAfterScheme(header.value, "Bearer");
    }
    limit := GetRateLimitFromToken(cfg, token);
  }

  /** The parsed JSON body of a request, which `is_authorized` updates in place. */
  class RequestBody {
    var fields: Fields

    constructor (fields: Fields)
      ensures this.fields == fields
    {
      this.fields := fields;
    }
  }

  /** The loop of `is_authorized` that writes each forced field into the body. */
  method WriteForcedValues(body: RequestBody, forced: Fields)
    modifies body
    ensures body.fields == Overlay(old(body.fields), forced)
  {
    var remaining := forced.Keys;
    ghost var written: set<string> := {};
    while remaining != {}
      invariant remaining + written == forced.Keys && remaining !! written
      invariant body.fields == old(body.fields) + (map k | k in written :: forced[k])
      decreases remaining
    {
      var key :| key in remaining;
      body.fields := body.fields[key := forced[key]];
      remaining := remaining - {key};
      written := written + {key};
    }
    assert (map k | k in written :: forced[k]) == forced;
  }

  /**
   * `is_authorized`: decides the command for the token and, for a named
   * identity, writes its forced values into `body` before returning the
   * verdict.
   */
  method IsAuthorized(cfg: Snapshot, token: string, command: Json, body: RequestBody) returns (r: Result<bool, AppError>)
    modifies body
    ensures match Authorize(cfg, token, command, old(body.fields))
      case Ok(d) => r == Ok(d.allowed) && body.fields == d.body
      case Err(e) => r == Err(e) && body.fields == old(body.fields)
  {
    var user := FirstIdentity(cfg.tokens, token);
    if user.Some? && user.value != "" {
      var allowed := AllowedCommands(cfg.commands, user.value);
      var lookup := ForcedValuesFor(cfg.commands, user.value, command);
      if lookup.Err? {
        return Err(lookup.error);
      }
      WriteForcedValues(body, lookup.value);
      return Ok(CommandIn(command, allowed));
    }
    return Ok(CommandIn(command, AllowedCommands(cfg.commands, "public")));
  }

  /** `json_data.get('action')`: the requested command, `null` when absent. */
  function Action(fields: Fields): (command: Json)
    ensures "action" in fields ==> command == fields["action"]
    ensures command != JNull ==> "action" in fields
  {
    if "action" in fields then fields["action"] else JNull
  }

  /** What `verify_token_and_command` lets happen to a request. */
  datatype Verdict =
    | Proceed               // the handler runs
    | Forbidden             // `abort(403)`
    | Failed(error: AppError)

  /**
   * `verify_token_and_command`: reads the token and the command, lets
   * `is_authorized` decide (and overlay the body), and forbids a refused
   * request.
   */
  method VerifyTokenAndCommand(cfg: Snapshot, header: Option<string>, body: RequestBody) returns (v: Verdict)
    modifies body
    ensures match Authorize(cfg, AuthorizationToken(header), Action(old(body.fields)), old(body.fields))
      case Ok(d) => v == (if d.allowed then Proceed else Forbidden) && body.fields == d.body
      case Err(e) => v == Failed(e) && body.fields == old(body.fields)
  {
    var token := AuthorizationToken(header);
    var command := Action(body.fields);
    var r := IsAuthorized(cfg, token, command, body);
    match r
    case Ok(allowed) => v := if allowed then Proceed else Forbidden;
    case Err(e) => v := Failed(e);
  }
}
