/**
 * `ConfigManager`: holds the settings module, the modification time it was
 * loaded at, and the three configuration values read off it, and reloads all
 * of them when the modification time changes. The file's modification time
 * and the attributes the changed file defines are inputs of the model rather than file-system
 * reads.
 */
module ConfigManagement {
  import opened Wrappers
  import opened Settings

  /** The configuration the request handlers read: tokens, commands and endpoint. */
  datatype Snapshot = Snapshot(tokens: Tokens, commands: Commands, endpoint: Option<string>)

  /**
   * What `load_configs` reads off a settings module: `TOKENS` and `COMMANDS`
   * default to empty dictionaries and `endpoint` to `None`.
   */
  function Load(m: SettingsModule): (s: Snapshot)
    ensures s.tokens == (if m.tokens.Some? then m.tokens.value else [])
    ensures s.commands == (if m.commands.Some? then m.commands.value else map[])
    ensures s.endpoint == (if m.endpoint.Some? then m.endpoint.value else None)
  {
    Snapshot(m.tokens.GetOr([]), m.commands.GetOr(map[]), m.endpoint.GetOr(None))
  }

  /** The whole state of a manager: module, stored modification time and loaded snapshot. */
  datatype ManagerState = ManagerState(settings: SettingsModule, modTime: int, config: Snapshot)

  /** The snapshot is exactly what the stored module object yields. */
  predicate Consistent(st: ManagerState) {
    st.config == Load(st.settings)
  }

  /** What a call of `check_and_reload` did. */
  datatype ReloadOutcome =
    | Unchanged     // the modification time equals the stored one
    | Reloaded      // the changed file was executed again in the module's namespace
    | ReloadFailed  // executing the changed file raised; nothing was replaced

  /**
   * The module object after `importlib.reload`: the changed file runs in the
   * module's existing namespace, so each attribute the file defines is
   * replaced and each attribute it no longer defines keeps its old value.
   */
  function Reexecute(current: SettingsModule, file: SettingsModule): SettingsModule {
    SettingsModule(
      if file.tokens.Some? then file.tokens else current.tokens,
      if file.commands.Some? then file.commands else current.commands,
      if file.endpoint.Some? then file.endpoint else current.endpoint)
  }

  /**
   * The state after `check_and_reload` observes modification time `marker`;
   * `file` holds the attributes the changed settings file defines, or is
   * `None` when executing it raises.
   */
  function Reload(st: ManagerState, marker: int, file: Option<SettingsModule>): (r: ManagerState)
    ensures marker == st.modTime || file.None? ==> r == st
    ensures marker != st.modTime && file.Some? ==>
      var m := Reexecute(st.settings, file.value);
      r == ManagerState(m, marker, Load(m))
  {
    if marker == st.modTime then st
    else
      match file
      case None => st
      case Some(f) =>
        var m := Reexecute(st.settings, f);
        ManagerState(m, marker, Load(m))
  }

  /** A reload keeps the snapshot consistent with the module it came from. */
  lemma ReloadKeepsConsistent(st: ManagerState, marker: int, file: Option<SettingsModule>)
    requires Consistent(st)
    ensures Consistent(Reload(st, marker, file))
  {
  }

  /** After a reload, every attribute the changed file defines is served from that file. */
  lemma ReloadTakesDefinedNames(st: ManagerState, marker: int, f: SettingsModule)
    requires marker != st.modTime
    ensures var r := Reload(st, marker, Some(f));
      && r.modTime == marker
      && (f.tokens.Some? ==> r.config.tokens == f.tokens.value)
      && (f.commands.Some? ==> r.config.commands == f.commands.value)
      && (f.endpoint.Some? ==> r.config.endpoint == f.endpoint.value)
  {
  }

  /**
   * An attribute the changed file no longer defines keeps the value served
   * before the reload, so the snapshot can mix the two versions of the file.
   */
  lemma ReloadKeepsDroppedNames(st: ManagerState, marker: int, f: SettingsModule)
    requires Consistent(st)
    ensures var r := Reload(st, marker, Some(f));
      && (f.tokens.None? ==> r.config.tokens == st.config.tokens)
      && (f.commands.None? ==> r.config.commands == st.config.commands)
      && (f.endpoint.None? ==> r.config.endpoint == st.config.endpoint)
  {
  }

  /** A changed file that only redefines `TOKENS` gives new tokens next to the old endpoint. */
  lemma ReloadMixesVersions()
    ensures var before := ManagerState(SettingsModule(Some([("a", "1")]), None, Some(Some("http://old"))), 0,
                                    Snapshot([("a", "1")], map[], Some("http://old")));
      var r := Reload(before, 1, Some(SettingsModule(Some([("b", "2")]), None, None)));
      r.config == Snapshot([("b", "2")], map[], Some("http://old"))
  {
  }

  /** A changed file that assigns `endpoint = None` serves no endpoint, whatever was served before. */
  lemma ReloadServesAssignedNone(st: ManagerState, marker: int, tokens: Option<Tokens>, commands: Option<Commands>)
    requires marker != st.modTime
    ensures Reload(st, marker, Some(SettingsModule(tokens, commands, Some(None)))).config.endpoint == None
  {
  }

  /** Repeating a reload with the same modification time and file changes nothing more. */
  lemma ReloadIdempotent(st: ManagerState, marker: int, file: Option<SettingsModule>)
    ensures Reload(Reload(st, marker, file), marker, file) == Reload(st, marker, file)
  {
  }

  class ConfigManager {
    var settingsModule: SettingsModule
    var modTime: int
    var tokensConfig: Tokens
    var commandsConfig: Commands
    var endpoint: Option<string>

    /** The configuration currently served to requests. */
    function Current(): Snapshot
      reads this
    {
      Snapshot(tokensConfig, commandsConfig, endpoint)
    }

    /** The manager's fields as one value. */
    function State(): ManagerState
      reads this
    {
      ManagerState(settingsModule, modTime, Current())
    }

    ghost predicate Valid()
      reads this
    {
      Consistent(State())
    }

    /** `ConfigManager(settings_module)`: stores the module and its modification time, then loads. */
    constructor (m: SettingsModule, marker: int)
      ensures Valid()
      ensures State() == ManagerState(m, marker, Load(m))
    {
      settingsModule := m;
      modTime := marker;
      tokensConfig := [];
      commandsConfig := map[];
      endpoint := None;
      new;
      LoadConfigs();
    }

    /** `load_configs`: reads the three attributes, with their defaults, off the stored module. */
    method LoadConfigs()
      modifies this
      ensures Valid()
      ensures settingsModule == old(settingsModule) && modTime == old(modTime)
      ensures Current() == Load(settingsModule)
    {
      tokensConfig := settingsModule.tokens.GetOr([]);
      commandsConfig := settingsModule.commands.GetOr(map[]);
      endpoint := settingsModule.endpoint.GetOr(None);
    }

    /**
     * `check_and_reload`: when `currentModTime` differs from the stored time,
     * execute the changed file (`file`, or `None` when that raises) in the
     * module, store the new time and load every value again.
     */
    method CheckAndReload(currentModTime: int, file: Option<SettingsModule>) returns (outcome: ReloadOutcome)
      requires Valid()
      modifies this
      ensures Valid()
      ensures State() == Reload(old(State()), currentModTime, file)
      ensures outcome == (if currentModTime == old(modTime) then Unchanged
                          else if file.None? then ReloadFailed
                          else Reloaded)
    {
      if currentModTime != modTime {
        if file.None? {
          return ReloadFailed;
        }
        settingsModule := Reexecute(settingsModule, file.value);
        modTime := currentModTime;
        LoadConfigs();
        return Reloaded;
      }
      return Unchanged;
    }
  }
}
