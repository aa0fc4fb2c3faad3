# nano-proxy policy decisions in Dafny

nano-proxy is a small Flask gateway. It receives JSON-RPC calls on `/rpc`, decides who the caller is
from the `Authorization` header, checks the requested `action` against that caller's allow-list,
writes the caller's forced values into the request body, chooses the rate-limit budget string for
`flask_limiter`, and forwards the body to one configured endpoint. Its configuration (`TOKENS`,
`COMMANDS`, `endpoint`) lives in a Python settings module that a `ConfigManager` reloads whenever the
file's modification time changes.

This project models the decision part of that pipeline:

- `Text`: the string operations the code relies on: `str.startswith`, `str.split(' ')` (empty
  fields kept, always at least one field), `str.split(':', 1)`, and ASCII text as bytes.
- `Base64`: strict base64 per section 4 of RFC 4648, with the round trip `Decode(Encode(b)) == Some(b)`.
- `Settings`: the shape of the settings module. `TOKENS` is a sequence of (identity, secret) pairs
  kept in dictionary insertion order. `COMMANDS` maps an identity to its policy. JSON values appear
  in request bodies.
- `ConfigManagement`: the `ConfigManager` class (`__init__`, `load_configs`, `check_and_reload`),
  proved against the pure state transition `Reload`.
- `Authentication`: the three strategies of `src/authentication.py`. Each extracts credentials from a
  header; all share the secret check `is_authorized` and the budget lookup `get_rate_limit`.
- `App`: the helpers of `app.py`:
  - the two token extractions;
  - `get_rate_limit_from_token`, a loop proved against `RateLimitSelection`;
  - `is_authorized`, a method that writes the forced values into a `RequestBody` object in place,
    proved against the pure `Authorize`;
  - `verify_token_and_command`.

The file's modification time and the attributes the changed settings file defines are parameters
of `CheckAndReload`. `TOKENS` and `COMMANDS` are parameters of the authentication functions, and the
configuration snapshot is a parameter of the `App` operations.

Where the intended design of the system and its code disagree, the model follows the code:

- The authorization token is the last space-separated word of the header, with no check of the
  scheme (`app.py:66`). A Bearer prefix is only checked for the rate-limit token.
- The empty token (no header) matches an identity whose secret is empty.
- A reload happens on any change of the modification time, not only an increase.
- `importlib.reload` executes the changed file in the module's existing namespace. An attribute
  the new file no longer defines keeps its old value. The reloaded configuration can therefore mix
  the two versions of the file, for example new tokens with the old endpoint.
- A reload that fails raises to the caller; the model leaves the state unchanged and reports
  `ReloadFailed`.
- A bad Basic payload raises (`binascii.Error`, `UnicodeDecodeError`). It does not yield absent
  credentials.
- `get_rate_limit_from_token` skips identities whose policy is missing or an empty dictionary.
- The default budget is `"1 per hour"` in `src/authentication.py` but `"1 per second"` in `app.py`.
  Both are modelled as written.

## Model

| member | source | states |
|---|---|---|
| Text.FieldAfterScheme | nano-proxy/app.py:57 | `split(' ')[1]` after a `scheme + " "` prefix always exists; it is the space-free word right after the prefix, followed by the end of the header or a space |
| Text.FieldAfterSchemeOf | nano-proxy/src/authentication.py:26 | for a header `scheme + " " + t + rest` with `t` space-free and `rest` empty or starting with a space, the second field is exactly `t` |
| Text.SplitOnce | nano-proxy/src/authentication.py:43 | `split(':', 1)` gives one part (the whole text) iff there is no colon, otherwise two parts around the first colon, the first colon-free, and they rebuild the text |
| Text.SplitOnceLeadingField | nano-proxy/src/authentication.py:43 | a colon-free `u` followed by `:` and any `rest` (colons allowed) splits into exactly `[u, rest]` |
| Text.StartsWith | nano-proxy/app.py:56 | `str.startswith`: the prefix is no longer than the string and equals its leading characters |
| Text.Split | nano-proxy/app.py:57 | `split(' ')` gives at least one field and no field contains a space |
| Text.SplitLastField | nano-proxy/app.py:66 | the last field of `split(' ')` is a suffix of the string, preceded by a space when shorter than it |
| Text.DecodeAscii | nano-proxy/src/authentication.py:42 | `.decode('utf-8')` succeeds iff every byte is below 128, and then gives one ASCII character per byte, each the character of its byte |
| Text.DecodeAsciiBytes | nano-proxy/src/authentication.py:42 | decoding the bytes of ASCII text gives that text back |
| Base64.Encode | nano-proxy/src/authentication.py:41 | the encoding of a non-empty byte string is at least one four-character group |
| Base64.Decode | nano-proxy/src/authentication.py:41 | strict base64 decoding; it carries no contract of its own and is characterised by `Base64.DecodeEncode` and `Base64.DecodeRejectsRaggedLength` |
| Base64.DecodeRejectsRaggedLength | nano-proxy/src/authentication.py:41 | strict decoding rejects a string whose length is not a multiple of four |
| Base64.EncodeAlphabet | nano-proxy/src/authentication.py:41-42 | an encoding consists of alphabet characters and `=` only, so it contains no space and survives `split(' ')` whole |
| Base64.DecodeEncode | nano-proxy/src/authentication.py:41-42 | `b64decode` inverts base64 encoding for every byte string |
| Settings.SecretOf | nano-proxy/src/authentication.py:12 | `TOKENS.get(user)` is `None` iff no entry has that identity, otherwise the secret of the first entry with that identity |
| Settings.SecretOfEntry | nano-proxy/src/authentication.py:12 | with unique identities, looking up an entry's identity finds that entry's secret |
| Settings.IndexOfSecret | nano-proxy/src/authentication.py:32-35 | the first position, in `TOKENS` order, whose secret equals the given one, or none when no secret does |
| ConfigManagement.Load | nano-proxy/src/config_manager.py:14-17 | `load_configs` takes `TOKENS`, `COMMANDS` and `endpoint` from the module, defaulting to `{}`, `{}` and `None` |
| ConfigManagement.Reload | nano-proxy/src/config_manager.py:19-25 | an unchanged modification time or a failed reload leaves the state as it was; any other time, lower as well as higher, is stored together with the module object after re-execution and the snapshot loaded from that object |
| ConfigManagement.ReloadKeepsConsistent | nano-proxy/src/config_manager.py:19-25 | if the snapshot was loaded from the stored module, it still is after `check_and_reload` |
| ConfigManagement.ReloadTakesDefinedNames | nano-proxy/src/config_manager.py:23-25 | after a reload, each of `TOKENS`, `COMMANDS` and `endpoint` that the changed file defines is served with the file's value |
| ConfigManagement.ReloadKeepsDroppedNames | nano-proxy/src/config_manager.py:23-25 | each of the three names the changed file no longer defines keeps the value served before the reload |
| ConfigManagement.ReloadMixesVersions | nano-proxy/src/config_manager.py:23-25 | a changed file that defines only `TOKENS` yields the new tokens next to the old endpoint |
| ConfigManagement.ReloadServesAssignedNone | nano-proxy/src/config_manager.py:17-25 | a changed file that assigns `endpoint = None` serves no endpoint after the reload, whatever was served before |
| ConfigManagement.ReloadIdempotent | nano-proxy/src/config_manager.py:19-25 | a second `check_and_reload` with the same modification time and file changes nothing |
| ConfigManagement.ConfigManager.constructor | nano-proxy/src/config_manager.py:9-12 | the new manager stores the module and its modification time, and its snapshot is what `load_configs` reads from that module |
| ConfigManagement.ConfigManager.LoadConfigs | nano-proxy/src/config_manager.py:14-17 | replaces the three configuration fields by what the stored module yields; the module and the time are untouched |
| ConfigManagement.ConfigManager.CheckAndReload | nano-proxy/app.py:30-36 | the manager's new state is `Reload` of its old state, so it stays consistent; the outcome reports unchanged, reloaded or failed |
| Authentication.GetCredentialsFromToken | nano-proxy/src/authentication.py:31-35 | flag true iff some secret equals the token, and then the first such identity with the token; otherwise `(False, (None, token))` |
| Authentication.IsAuthorized | nano-proxy/src/authentication.py:10-12 | a one-element tuple raises on unpacking; `(None, s)` is accepted iff `s` is `None`; `(u, None)` iff `u` has no entry; `(u, s)` iff the first entry for `u` holds `s` |
| Authentication.GetRateLimit | nano-proxy/src/authentication.py:14-15 | fails iff the first element is `None` or not a key of `COMMANDS`; otherwise the policy's `rate_limit` when it names one, and `"1 per hour"` when it does not |
| Authentication.BearerExtract | nano-proxy/src/authentication.py:24-29 | the pair is `(None, None)` without a `Bearer ` prefix; otherwise its secret is the second space-separated field, and it names an identity iff some entry holds that secret, and then an entry with that identity and secret |
| Authentication.BasicPayload | nano-proxy/src/authentication.py:41-42 | fails with a base64 error iff the second field does not decode, succeeds iff it decodes to bytes below 128, and then the text's bytes are exactly the decoded bytes |
| Authentication.BasicExtract | nano-proxy/src/authentication.py:39-44 | `(None, None)` without a `Basic ` prefix; a decoding error is raised as is; otherwise a one-element tuple of the text iff it has no colon, else a pair whose colon-free identity, a colon and the secret rebuild the text |
| Authentication.ExtractCredentials | nano-proxy/src/authentication.py:19-44 | the unauthenticated strategy gives `("public", "")`; Bearer and Basic give `(None, None)` without their own prefix; only Basic can raise, and only a decoding error; only Basic yields a one-element tuple |
| Authentication.MissingCredentialsAccepted | nano-proxy/src/authentication.py:10-29 | a Bearer strategy given the header `Token abc` extracts `(None, None)`, and `is_authorized` accepts that pair whatever `TOKENS` holds |
| Authentication.IsAuthorizedStrict | nano-proxy/src/authentication.py:10-12 | corrected check: accepted iff an identity and a secret are both given and the identity's stored secret equals it |
| Authentication.StrictAgreesOnFullPairs | nano-proxy/src/authentication.py:10-12 | on pairs naming both an identity and a secret the corrected check decides as the original |
| Authentication.StrictRejectsMissingIdentity | nano-proxy/src/authentication.py:10-12 | the corrected check rejects every pair without an identity, where the original accepts `(None, None)` |
| Authentication.UnAuthIsPublic | nano-proxy/src/authentication.py:19-20 | the unauthenticated strategy yields `("public", "")` for every header |
| Authentication.OtherSchemeYieldsNothing | nano-proxy/src/authentication.py:23-44 | Bearer and Basic yield `(None, None)` for any header that does not start with their own scheme and a space |
| Authentication.SchemeIsCaseSensitive | nano-proxy/src/authentication.py:23-44 | `bearer abc` and `basic abc` are not recognised by the Bearer and Basic strategies |
| Authentication.BearerFindsFirstIdentity | nano-proxy/src/authentication.py:25-34 | a Bearer header whose token is a configured secret yields the first identity holding it, with the token |
| Authentication.BearerMatchIsAuthorized | nano-proxy/src/authentication.py:10-34 | with unique identities, the pair found for a configured secret passes `is_authorized` (and the corrected check) |
| Authentication.BearerUnknownToken | nano-proxy/src/authentication.py:25-35 | a Bearer token that is no configured secret yields `(None, token)`, which `is_authorized` rejects |
| Authentication.BasicPayloadOf | nano-proxy/src/authentication.py:40-42 | the text decoded from `Basic ` plus the base64 of ASCII text is that text |
| Authentication.BasicRoundTrip | nano-proxy/src/authentication.py:38-43 | the Basic header for `user:secret`, with a colon-free identity, yields exactly `(user, secret)`; the secret may contain colons |
| Authentication.BasicWithoutColon | nano-proxy/src/authentication.py:38-43 | a Basic payload without a colon yields a one-element tuple, and `is_authorized` (line 11) fails to unpack it |
| Authentication.RateLimitOfIdentity | nano-proxy/src/authentication.py:14-15 | `get_rate_limit` fails for an identity without a policy and for `None`, and otherwise gives the policy's budget or `"1 per hour"` |
| App.RateLimitToken | nano-proxy/app.py:54-57 | without a header, or when it does not start with `Bearer `, the token is `""`; otherwise it is the space-free word right after `Bearer ` |
| App.AuthorizationToken | nano-proxy/app.py:66 | the token is space-free, a suffix of the header preceded by a space when shorter than it, and `""` without a header |
| App.BearerTokensAgree | nano-proxy/app.py:56-66 | for `Bearer t`, with `t` space-free, both extractions read `t` |
| App.RateLimitTokenOfBearer | nano-proxy/app.py:56-57 | for `Bearer t` followed by nothing or by a space and anything, the rate-limit token is `t` |
| App.AuthorizationTokenOfTwoWords | nano-proxy/app.py:66 | the authorization token of `Bearer t u` is `u` |
| App.BearerTokensDisagree | nano-proxy/app.py:56-66 | for `Bearer t u` the rate limit reads `t` and the authorization reads `u` |
| App.AuthorizationTokenWithoutSpace | nano-proxy/app.py:66 | a header without a space is itself the authorization token |
| App.FirstIdentity | nano-proxy/app.py:88-89 | none iff no secret equals the token; otherwise the identity of the first entry, in `TOKENS` order, holding the token |
| App.AllowedCommands | nano-proxy/app.py:91-92 | the identity's `commands` list, or no command when the identity has no policy or its policy no list |
| App.CommandIn | nano-proxy/app.py:97-98 | the command is allowed iff it is the string of some entry of the list |
| App.ForcedValuesFor | nano-proxy/app.py:93-94 | fails iff the command is a list or an object (unhashable); a string command with an entry in the identity's `forced_values` gets exactly that entry, and any non-empty result is such an entry |
| App.Authorize | nano-proxy/app.py:87-98 | raises iff the token first matches a named identity and the command is unhashable; an unmatched or unnamed token leaves the body unchanged; the body never loses a key; only a string command is ever allowed |
| App.Overlay | nano-proxy/app.py:95-96 | the body after the writes has the body's keys plus the forced keys; forced keys hold the forced values and all other keys keep theirs |
| App.OverlayIdempotent | nano-proxy/app.py:95-96 | writing the same forced values twice leaves the body as writing them once |
| App.AuthorizeMatchedIdentity | nano-proxy/app.py:88-97 | when the token first matches a named identity, the command is allowed iff it is in that identity's `commands` (none if missing), and the body gets the forced values whatever the verdict |
| App.AuthorizeUnhashableCommand | nano-proxy/app.py:93-94 | a named identity whose command is a list or object makes `is_authorized` raise |
| App.AuthorizeFallsBackToPublic | nano-proxy/app.py:90-98 | a token that matches no identity, or first matches the empty identity, is held to `public`'s `commands` and the body is unchanged |
| App.AnonymousRequestIsPublic | nano-proxy/app.py:66-98 | without a header, when no secret is empty, the command is checked against `public`'s list and the body is unchanged |
| App.ForcedValueReplacesSubmitted | nano-proxy/app.py:93-97 | a forced `env: prod` for `deploy` overwrites the submitted `env: staging`, and the command is allowed |
| App.PublicRateLimit | nano-proxy/app.py:84 | `public`'s `rate_limit` when it names one; any other budget than `"1 per second"` is `public`'s |
| App.RateLimitSelection | nano-proxy/app.py:78-84 | any budget other than `"1 per second"` is `public`'s or that of an identity one of whose entries holds the token |
| App.FirstEligible | nano-proxy/app.py:79-82 | the first `TOKENS` entry whose secret is the token and whose identity has a non-empty policy, or none when no entry qualifies |
| App.RateLimitOfFirstEligible | nano-proxy/app.py:79-83 | the first qualifying entry decides the budget: its policy's `rate_limit`, or `"1 per second"` |
| App.RateLimitFallback | nano-proxy/app.py:84 | without a qualifying entry the budget is `public`'s `rate_limit`, else `"1 per second"` |
| App.RateLimitAndAuthorizationMayResolveDifferently | nano-proxy/app.py:78-98 | when two identities share a secret and only the second has a policy, the budget is the second's while the allow-list checked is the first's |
| App.GetRateLimitFromToken | nano-proxy/app.py:78-84 | the search loop returns `RateLimitSelection`, the budget the two lemmas above characterise |
| App.RateLimitFromHeader | nano-proxy/app.py:52-60 | the budget for the header is the selection for its Bearer token |
| App.WriteForcedValues | nano-proxy/app.py:95-96 | after the loop the body is the overlay of its old fields with the forced values |
| App.Action | nano-proxy/app.py:68 | the body's `action`, and `null` only when the body has none or it is `null` |
| App.IsAuthorized | nano-proxy/app.py:87-98 | returns the verdict of `Authorize` and leaves the body `Authorize` describes; when it raises, the body is untouched |
| App.VerifyTokenAndCommand | nano-proxy/app.py:63-73 | the handler proceeds iff `Authorize` allows the header's last word and the body's `action`; a refusal is a 403 and a raised error is reported; the body is overlaid as `Authorize` says |

## Left out

- Flask routing, `request`, `jsonify` and `abort` are not modelled, nor are the `/reload` and `/rpc` handlers (`app.py:103-124`). This includes the extra `load_configs` call of `/reload`. They are HTTP plumbing; `VerifyTokenAndCommand` returns a verdict instead of aborting.
- The `flask_limiter` and memcached enforcement is out of scope: it is an external library. Only the choice of the budget string is modelled.
- `requests.post` forwarding and the 502 translation (`app.py:115-120`) are network I/O.
- `os.path.getmtime` and `importlib.reload` are file-system and interpreter I/O. They become the `currentModTime` and `file` parameters of `CheckAndReload`; `file` lists the attributes the changed file defines.
- A reload that re-executes part of the module before raising is not modelled. The model treats a failed reload as changing nothing.
- The `print` logging lines are not modelled.
- Base64.Decode, Base64.DecodeRejectsRaggedLength: Python's `b64decode` does not validate by default. It discards characters outside the alphabet, ignores extra `=` and stops at the first padded group, so `YQ===` and `YQ==YWJj` both decode to `a`. The model decodes strictly per RFC 4648 and rejects all of these, so a Basic header such as `Basic YQ===` raises in the model where the code yields `('a',)`.
- Text.DecodeAscii: UTF-8 is modelled only for ASCII bytes. A non-ASCII byte is a decoding error, although Python accepts valid multi-byte UTF-8.
- `request.get_json(force=True) or {}` is taken as an already parsed object. Parse errors are not modelled, and neither is a non-object JSON body.
- JSON floats are not modelled, nor is the key order of bodies (a `map` has none).
- ConfigManagement.Reload: a changed file that assigns `None` to `TOKENS` or `COMMANDS` is treated as not defining the name, so the old value is kept. Python stores `None`, and the next `.items()` or `.get` on it raises. Like other values of the wrong type, this is not modelled. An `endpoint = None` is modelled.
- Policies whose values are not the documented types are not modelled (a non-string `rate_limit`, a non-list `commands`).
- The `ConfigManager` copy in `app.py:19-36` is the same code as `src/config_manager.py`. It is modelled once.
- Concurrency between requests and the reload is not modelled. The code has no locking, and the model is sequential.

## Findings

| source | as written | input that shows it | evidently intended | confidence | as-written member | corrected member |
|---|---|---|---|---|---|---|
| nano-proxy/src/authentication.py:10-12 | `TOKENS.get(user) == token` accepts `(None, None)`, which Bearer and Basic return for a header of any other scheme | `BearerAuthStrategy` with header `Token abc` extracts `(None, None)` and `is_authorized` returns `True` | a pair is accepted only when it names an identity and a secret and the stored secret matches | medium, not executed | Authentication.MissingCredentialsAccepted | Authentication.IsAuthorizedStrict |
