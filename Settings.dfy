/**
 * The shape of the settings module the proxy loads: `TOKENS` (identity to
 * secret, in insertion order), `COMMANDS` (identity to its policy) and
 * `endpoint`, plus the JSON values that appear in request bodies and in
 * forced-value overlays.
 */
module Settings {
  import opened Wrappers

  /** A JSON value as parsed from a request body. */
  datatype Json =
    | JNull
    | JBool(b: bool)
    | JInt(i: int)
    | JStr(s: string)
    | JList(items: seq<Json>)
    | JObject(members: map<string, Json>)
  {
    /** Lists and objects are unhashable and cannot be used as a dictionary key. */
    predicate Hashable() {
      !JList? && !JObject?
    }
  }

  /** A JSON object: field name to value. */
  type Fields = map<string, Json>

  /** `TOKENS`: (identity, secret) entries in the dictionary's insertion order. */
  type Tokens = seq<(string, string)>

  /**
   * One identity's entry of `COMMANDS`. Each component is `None` when the key
   * is absent; `otherKeys` counts keys the proxy never reads, which only
   * matter for the truthiness of the whole entry.
   */
  datatype UserConfig = UserConfig(
    commands: Option<seq<string>>,
    rateLimit: Option<string>,
    forcedValues: Option<map<string, Fields>>,
    otherKeys: nat)
  {
    /** Python truthiness of the entry's dictionary: it has at least one key. */
    predicate NonEmpty() {
      commands.Some? || rateLimit.Some? || forcedValues.Some? || otherKeys > 0
    }
  }

  /** `COMMANDS`: identity to policy. */
  type Commands = map<string, UserConfig>

  /**
   * The module attributes the proxy reads; `None` when the attribute is not
   * defined. `endpoint` may also be defined as Python's `None`, which is
   * `Some(None)` here.
   */
  datatype SettingsModule = SettingsModule(
    tokens: Option<Tokens>,
    commands: Option<Commands>,
    endpoint: Option<Option<string>>)

  /** `TOKENS` is a dictionary, so no identity appears twice. */
  predicate UniqueIdentities(t: Tokens) {
    forall i, j :: 0 <= i < j < |t| ==> t[i].0 != t[j].0
  }

  /** `TOKENS.get(user)`: the secret stored for `user`, if any. */
  function SecretOf(t: Tokens, user: string): (r: Option<string>)
    ensures r.None? <==> forall i :: 0 <= i < |t| ==> t[i].0 != user
    ensures r.Some? ==> exists i :: 0 <= i < |t| && t[i] == (user, r.value)
                                  && forall j :: 0 <= j < i ==> t[j].0 != user
  {
    if |t| == 0 then None
    else if t[0].0 == user then Some(t[0].1)
    else
      var r := SecretOf(t[1..], user);
      if r.Some? then
        var i :| 0 <= i < |t[1..]| && t[1..][i] == (user, r.value)
                 && forall j :: 0 <= j < i ==> t[1..][j].0 != user;
        assert t[i + 1] == (user, r.value);
        assert forall j :: 0 <= j < i + 1 ==> t[j].0 != user by {
          forall j | 0 <= j < i + 1 ensures t[j].0 != user {
            if j > 0 { assert t[j] == t[1..][j - 1]; }
          }
        }
        r
      else r
  }

  /** With unique identities, the entry at `i` is what a lookup of its identity finds. */
  lemma SecretOfEntry(t: Tokens, i: nat)
    requires UniqueIdentities(t)
    requires i < |t|
    ensures SecretOf(t, t[i].0) == Some(t[i].1)
  {
    var r := SecretOf(t, t[i].0);
    var k :| 0 <= k < |t| && t[k] == (t[i].0, r.value);
    assert k == i;
  }

  /** The position of the first entry, in insertion order, whose secret is `secret`. */
  function IndexOfSecret(t: Tokens, secret: string): (r: Option<nat>)
    ensures r.Some? ==> r.value < |t| && t[r.value].1 == secret
    ensures r.Some? ==> forall j :: 0 <= j < r.value ==> t[j].1 != secret
    ensures r.None? ==> forall j :: 0 <= j < |t| ==> t[j].1 != secret
  {
    if |t| == 0 then None
    else if t[0].1 == secret then Some(0)
    else
      match IndexOfSecret(t[1..], secret)
      case None => None
      case Some(k) => Some(k + 1)
  }
}
