/** The plugin manager of internal/plugin/manager.go: running plugins in memory over a
    table of saved configurations. */
module PluginManager {
  import opened Common
  import opened PluginBase
  import PluginTrace

  datatype Key = Key(app: string, name: string)

  datatype Row = Row(config: string, enabled: bool)

  /** Plugins in memory, saved rows, and the instances that were dropped. */
  datatype Manager = Manager(memory: map<Key, Plugin>, rows: map<Key, Row>, dropped: seq<Plugin>)

  const EMPTY := Manager(map[], map[], [])

  datatype ManagerError = NoAppId | NoName | AlreadyLoaded | NotLoaded | CreateFailed | InstallFailed
                        | PluginFailed(cause: PluginError) | UninstallFailed | DatabaseFailed
                        | NotExecuted(why: PluginError)

  /** How the parts the manager does not decide turn out in one operation: the factory
      and its injection, validators and hooks of the plugin, and of the database the query
      of GetPlugin, the save of SavePluginConfig, and the write of loading or unloading. */
  datatype Luck = Luck(create: bool, hooks: bool, valid: bool, load: bool, start: bool, install: bool,
                       stop: bool, uninstall: bool, unload: bool, query: bool, save: bool, database: bool)

  /** Load and Start of a new instance. */
  function Boot(config: string, l: Luck): (Plugin, Result<(), PluginError>) {
    var (p, r) := Load(NewPlugin(l.hooks), config, l.valid, l.load);
    if r.Err? then (p, r) else Start(p, l.start)
  }

  function LoadPlugin(m: Manager, k: Key, config: string, l: Luck): (Manager, Result<(), ManagerError>) {
    if k.app == "" then (m, Err(NoAppId))
    else if k.name == "" then (m, Err(NoName))
    else if k in m.memory then (m, Err(AlreadyLoaded))
    else
      var (p, r) := Boot(config, l);
      if r.Err? then (m.(dropped := m.dropped + [p]), Err(PluginFailed(r.error)))
      else if !l.database then (m.(dropped := m.dropped + [p]), Err(DatabaseFailed))
      else (m.(memory := m.memory[k := p], rows := m.rows[k := Row(config, true)]), Ok(()))
  }

  function InstallPlugin(m: Manager, k: Key, config: string, l: Luck): (Manager, Result<(), ManagerError>) {
    if !l.create then (m, Err(CreateFailed))
    else if !l.install then (m, Err(InstallFailed))
    else LoadPlugin(m, k, config, l)
  }

  /** GetPlugin: from memory, or started from an enabled saved row. */
  function GetPlugin(m: Manager, k: Key, l: Luck): (Manager, Option<Plugin>) {
    if k.app == "" || k.name == "" then (m, None)
    else if k in m.memory then (m, Some(m.memory[k]))
    else if !l.query || k !in m.rows || !m.rows[k].enabled || !l.create then (m, None)
    else
      var (p, r) := Boot(m.rows[k].config, l);
      if r.Err? then (m.(dropped := m.dropped + [p]), None)
      else (m.(memory := m.memory[k := p]), Some(p))
  }

  function UnloadPlugin(m: Manager, k: Key, l: Luck): (Manager, Result<(), ManagerError>) {
    if k.app == "" then (m, Err(NoAppId))
    else if k.name == "" then (m, Err(NoName))
    else if k !in m.memory then (m, Err(NotLoaded))
    else
      var (p, r) := Unload(m.memory[k], l.unload);
      var m1 := m.(memory := m.memory[k := p]);
      if r.Err? then (m1, Err(PluginFailed(r.error)))
      else if !l.database then (m1, Err(DatabaseFailed))
      else (Manager(m.memory - {k}, m.rows - {k}, m.dropped + [p]), Ok(()))
  }

  function UninstallPlugin(m: Manager, k: Key, l: Luck): (Manager, Result<(), ManagerError>) {
    var (m1, found) := GetPlugin(m, k, l);
    if found.None? then UnloadPlugin(m1, k, l)
    else
      var (p, r) := Stop(found.value, l.stop);
      var m2 := m1.(memory := m1.memory[k := p]);
      if r.Err? then (m2, Err(PluginFailed(r.error)))
      else if !l.uninstall then (m2, Err(UninstallFailed))
      else UnloadPlugin(m2, k, l)
  }

  /** SavePluginConfig: stop and drop the old instance, save the row, start a new one. */
  function SavePluginConfig(m: Manager, k: Key, row: Row, l: Luck, l2: Luck): (Manager, Result<(), ManagerError>) {
    var (m1, found) := GetPlugin(m, k, l);
    if found.None? then Reload(m1, k, row, l2)
    else
      var (p, r) := Stop(found.value, l.stop);
      if r.Err? then (m1.(memory := m1.memory[k := p]), Err(PluginFailed(r.error)))
      else
        var (q, r2) := Unload(p, l.unload);
        if r2.Err? then (m1.(memory := m1.memory[k := q]), Err(PluginFailed(r2.error)))
        else Reload(m1.(memory := m1.memory - {k}, dropped := m1.dropped + [q]), k, row, l2)
  }

  function Reload(m: Manager, k: Key, row: Row, l: Luck): (Manager, Result<(), ManagerError>) {
    if !l.save then (m, Err(DatabaseFailed))
    else
      var m1 := m.(rows := m.rows[k := row]);
      if !l.create then (m1, Err(CreateFailed)) else LoadPlugin(m1, k, row.config, l)
  }

  function ExecutePlugin(m: Manager, k: Key, o: Outcome, l: Luck): (Manager, Result<(), ManagerError>) {
    var (m1, found) := GetPlugin(m, k, l);
    if found.None? then (m1, Err(NotLoaded))
    else
      var (p, r) := Execute(found.value, o);
      (m1.(memory := m1.memory[k := p]), if r.Ok? then Ok(()) else Err(NotExecuted(r.error)))
  }

  // ---------- runs ----------

  datatype Event =
    | DoInstall(key: Key, config: string, luck: Luck)
    | DoUninstall(key: Key, luck: Luck)
    | DoGet(key: Key, luck: Luck)
    | DoSave(key: Key, row: Row, luck: Luck, luck2: Luck)
    | DoExecute(key: Key, outcome: Outcome, luck: Luck)

  function Step(m: Manager, e: Event): Manager {
    match e
    case DoInstall(k, c, l) => InstallPlugin(m, k, c, l).0
    case DoUninstall(k, l) => UninstallPlugin(m, k, l).0
    case DoGet(k, l) => GetPlugin(m, k, l).0
    case DoSave(k, row, l, l2) => SavePluginConfig(m, k, row, l, l2).0
    case DoExecute(k, o, l) => ExecutePlugin(m, k, o, l).0
  }

  function After(run: seq<Event>): Manager {
    if run == [] then EMPTY else Step(After(run[..|run| - 1]), run[|run| - 1])
  }

  /** The hooks that end a plugin's run do not fail, if it has hooks. */
  predicate Stops(p: Plugin, l: Luck) {
    p.hooks ==> l.stop && l.unload
  }

  /** An uninstall ends the run of what it finds and deletes its row; a saved configuration
      ends the run of what it finds. Nothing else asks anything. */
  predicate Harmless(m: Manager, e: Event) {
    match e
    case DoUninstall(k, l) =>
      var found := GetPlugin(m, k, l).1;
      found.Some? ==> Stops(found.value, l) && l.uninstall && l.database
    case DoSave(k, _, l, _) =>
      var found := GetPlugin(m, k, l).1;
      found.Some? ==> Stops(found.value, l)
    case _ => true
  }

  ghost predicate AllHarmless(run: seq<Event>) {
    forall n :: 0 <= n < |run| ==> Harmless(After(run[..n]), run[n])
  }

  /** A plugin in memory runs the configuration of its saved, enabled row. */
  ghost predicate RunsSaved(m: Manager, k: Key)
    requires k in m.memory
  {
    var p := m.memory[k];
    && p.state == Running && InOrder(p)
    && k in m.rows && m.rows[k].enabled && p.config == Some(m.rows[k].config)
    && k.app != "" && k.name != ""
  }

  ghost predicate Inv(m: Manager) {
    && (forall k :: k in m.memory ==> RunsSaved(m, k))
    && (forall p :: p in m.dropped ==> WellUsed(p.calls))
  }

  lemma BootRuns(config: string, l: Luck)
    ensures var (p, r) := Boot(config, l);
            && WellUsed(p.calls)
            && (r.Ok? ==> p.state == Running && InOrder(p) && p.config == Some(config))
            && (r.Ok? <==> l.valid && (l.hooks ==> l.load && l.start))
  {
    var p := NewPlugin(l.hooks);
    DoInOrder(p, PluginBase.DoLoad(config, l.valid, l.load));
    DoInOrder(Load(p, config, l.valid, l.load).0, PluginBase.DoStart(l.start));
  }

  lemma StopUnload(p: Plugin, l: Luck)
    requires p.state == Running && InOrder(p)
    ensures var (q, r) := Stop(p, l.stop);
            && (r.Ok? <==> p.hooks ==> l.stop) && q.state != Running && q.hooks == p.hooks
            && (r.Ok? ==>
                  var (u, r2) := Unload(q, l.unload);
                  (r2.Ok? <==> p.hooks ==> l.unload) && u.state != Running && (r2.Ok? ==> WellUsed(u.calls)))
  {
    DoInOrder(p, PluginBase.DoStop(l.stop));
    DoInOrder(Stop(p, l.stop).0, PluginBase.DoUnload(l.unload));
  }

  lemma GetKeeps(m: Manager, k: Key, l: Luck)
    requires Inv(m)
    ensures var (m1, found) := GetPlugin(m, k, l);
            Inv(m1) && m1.rows == m.rows && (found.Some? <==> k in m1.memory)
                && (found.Some? ==> found.value == m1.memory[k])
  {
    hide InOrder, WellUsed;
    if k in m.memory {
      assert RunsSaved(m, k);
    } else if k in m.rows {
      BootRuns(m.rows[k].config, l);
      var m1 := GetPlugin(m, k, l).0;
      forall x | x in m1.memory ensures RunsSaved(m1, x) { if x != k { assert RunsSaved(m, x); } }
    }
  }

  lemma LoadKeeps(m: Manager, k: Key, config: string, l: Luck)
    requires Inv(m)
    ensures Inv(LoadPlugin(m, k, config, l).0)
  {
    hide InOrder, WellUsed;
    BootRuns(config, l);
    var m1 := LoadPlugin(m, k, config, l).0;
    forall x | x in m1.memory ensures RunsSaved(m1, x) { if x in m.memory { assert RunsSaved(m, x); } }
  }

  lemma ReloadKeeps(m: Manager, k: Key, row: Row, l: Luck)
    requires Inv(m) && k !in m.memory
    ensures Inv(Reload(m, k, row, l).0)
  {
    hide InOrder, WellUsed, LoadPlugin;
    var m1 := m.(rows := m.rows[k := row]);
    assert Inv(m1) by {
      forall x | x in m1.memory ensures RunsSaved(m1, x) { assert RunsSaved(m, x); }
    }
    LoadKeeps(m1, k, row.config, l);
  }

  /** An uninstall keeps every plugin in memory running its saved configuration exactly
      when it is harmless: otherwise the plugin stays in memory stopped, failed or unloaded. */
  lemma UninstallExactly(m: Manager, k: Key, l: Luck)
    requires Inv(m)
    ensures Inv(UninstallPlugin(m, k, l).0) <==> Harmless(m, DoUninstall(k, l))
  {
    hide InOrder, WellUsed, GetPlugin, Stop, Unload;
    GetKeeps(m, k, l);
    var (m1, found) := GetPlugin(m, k, l);
    if found.Some? {
      assert RunsSaved(m1, k);
      StopUnload(found.value, l);
      var m3 := UninstallPlugin(m, k, l).0;
      if Harmless(m, DoUninstall(k, l)) {
        assert m3.memory == m1.memory - {k};
        forall x | x in m3.memory ensures RunsSaved(m3, x) { assert RunsSaved(m1, x); }
      } else {
        var (p, r) := Stop(found.value, l.stop);
        var m2 := m1.(memory := m1.memory[k := p]);
        if r.Ok? && l.uninstall {
          assert m2.memory[k] == p && m3 == UnloadPlugin(m2, k, l).0;
          var (u, r2) := Unload(p, l.unload);
          assert r2.Err? || !l.database;
          assert m3 == m2.(memory := m2.memory[k := u]);
        } else {
          assert m3 == m2;
        }
        assert k in m3.memory && !RunsSaved(m3, k);
      }
    }
  }

  /** The same of saving a configuration. */
  lemma SaveExactly(m: Manager, k: Key, row: Row, l: Luck, l2: Luck)
    requires Inv(m)
    ensures Inv(SavePluginConfig(m, k, row, l, l2).0) <==> Harmless(m, DoSave(k, row, l, l2))
  {
    hide InOrder, WellUsed, GetPlugin, Stop, Unload, Reload;
    GetKeeps(m, k, l);
    var (m1, found) := GetPlugin(m, k, l);
    if found.None? {
      ReloadKeeps(m1, k, row, l2);
    } else {
      assert RunsSaved(m1, k);
      StopUnload(found.value, l);
      if Stops(found.value, l) {
        var q := Unload(Stop(found.value, l.stop).0, l.unload).0;
        var m2 := m1.(memory := m1.memory - {k}, dropped := m1.dropped + [q]);
        forall x | x in m2.memory ensures RunsSaved(m2, x) { assert RunsSaved(m1, x); }
        ReloadKeeps(m2, k, row, l2);
      } else {
        var m3 := SavePluginConfig(m, k, row, l, l2).0;
        var (p, r) := Stop(found.value, l.stop);
        if r.Err? {
          assert m3 == m1.(memory := m1.memory[k := p]);
        } else {
          assert m3 == m1.(memory := m1.memory[k := Unload(p, l.unload).0]);
        }
        assert k in m3.memory && !RunsSaved(m3, k);
      }
    }
  }

  lemma ExecuteKeeps(m: Manager, k: Key, o: Outcome, l: Luck)
    requires Inv(m)
    ensures Inv(ExecutePlugin(m, k, o, l).0)
  {
    hide InOrder, WellUsed, GetPlugin;
    GetKeeps(m, k, l);
    var (m1, found) := GetPlugin(m, k, l);
    if found.Some? {
      assert RunsSaved(m1, k);
      DoInOrder(found.value, PluginBase.DoExecute(o));
      var m2 := ExecutePlugin(m, k, o, l).0;
      forall x | x in m2.memory ensures RunsSaved(m2, x) { if x != k { assert RunsSaved(m1, x); } }
    }
  }

  /** In every run of harmless events a plugin in memory is running the configuration of
      its enabled row, and no instance, kept or dropped, ever executed outside its load
      and unload. */
  lemma {:induction false} MemoryRunsSaved(run: seq<Event>)
    requires AllHarmless(run)
    ensures Inv(After(run))
  {
    hide Inv, Step, Harmless;
    if run == [] {
      EmptyInv();
    } else {
      var n := |run| - 1;
      assert AllHarmless(run[..n]) by {
        forall i | 0 <= i < n ensures Harmless(After(run[..n][..i]), run[..n][i]) { assert run[..n][..i] == run[..i]; }
      }
      MemoryRunsSaved(run[..n]);
      StepExactly(After(run[..n]), run[n]);
    }
  }

  /** The condition is exact: memory agrees with the table all along a run if and only if
      all its events are harmless. */
  lemma HarmlessExactly(run: seq<Event>)
    ensures (forall n :: 0 <= n <= |run| ==> Inv(After(run[..n]))) <==> AllHarmless(run)
  {
    hide Inv, Step, Harmless;
    if AllHarmless(run) {
      forall n | 0 <= n <= |run| ensures Inv(After(run[..n])) {
        forall i | 0 <= i < n ensures Harmless(After(run[..n][..i]), run[..n][i]) { assert run[..n][..i] == run[..i]; }
        MemoryRunsSaved(run[..n]);
      }
    }
    if forall n :: 0 <= n <= |run| ==> Inv(After(run[..n])) {
      forall n | 0 <= n < |run| ensures Harmless(After(run[..n]), run[n]) {
        assert run[..n + 1][..n] == run[..n];
        assert After(run[..n + 1]) == Step(After(run[..n]), run[n]);
        StepExactly(After(run[..n]), run[n]);
      }
    }
  }

  lemma EmptyInv()
    ensures Inv(EMPTY)
  {
  }

  lemma StepExactly(m: Manager, e: Event)
    requires Inv(m)
    ensures Inv(Step(m, e)) <==> Harmless(m, e)
  {
    hide Inv, LoadPlugin, GetPlugin, UninstallPlugin, SavePluginConfig, ExecutePlugin;
    match e
    case DoInstall(k, c, l) => LoadKeeps(m, k, c, l);
    case DoUninstall(k, l) => UninstallExactly(m, k, l);
    case DoGet(k, l) => GetKeeps(m, k, l);
    case DoSave(k, row, l, l2) => SaveExactly(m, k, row, l, l2);
    case DoExecute(k, o, l) => ExecuteKeeps(m, k, o, l);
  }

  /** So GetPlugin answers as if memory were empty, when the saved configuration can be
      loaded and started: same presence, same configuration, running either way. */
  lemma MemoryIsTransparent(run: seq<Event>, k: Key, l: Luck)
    requires AllHarmless(run)
    requires l.query && l.create && l.valid && (l.hooks ==> l.load && l.start)
    ensures var m := After(run);
            var a, b := GetPlugin(m, k, l).1, GetPlugin(m.(memory := map[]), k, l).1;
            && (a.Some? <==> b.Some?)
            && (a.Some? ==> a.value.config == b.value.config && a.value.state == b.value.state == Running)
  {
    hide After, InOrder, WellUsed, Boot;
    MemoryRunsSaved(run);
    var m := After(run);
    if k in m.memory { assert RunsSaved(m, k); }
    if k in m.rows { BootRuns(m.rows[k].config, l); }
  }

  /** Installing succeeds exactly for a named plugin of a named app that is not in memory, when
      it can be made, installed, configured, started and saved. It then runs, under an
      enabled row, the configuration given; a failure changes neither memory nor rows. */
  lemma InstallsExactly(m: Manager, k: Key, config: string, l: Luck)
    ensures var (m1, r) := InstallPlugin(m, k, config, l);
            && (r.Ok? <==> && k.app != "" && k.name != "" && k !in m.memory && l.create && l.install && l.valid
                           && (l.hooks ==> l.load && l.start) && l.database)
            && (r.Ok? ==> && m1.rows == m.rows[k := Row(config, true)] && k in m1.memory
                          && m1.memory[k].config == Some(config) && m1.memory[k].state == Running
                          && m1.memory - {k} == m.memory)
            && (r.Err? ==> m1.rows == m.rows && m1.memory == m.memory)
  {
    hide Boot, InOrder, WellUsed;
    BootRuns(config, l);
    var booted: Result<(), PluginError> := Boot(config, l).1;
    assert booted.Ok? || booted.Err?;
  }

  lemma ReloadsExactly(m: Manager, k: Key, row: Row, l: Luck)
    requires k !in m.memory
    ensures var (m1, r) := Reload(m, k, row, l);
            && (r.Ok? <==> && k.app != "" && k.name != "" && l.save && l.create && l.valid
                           && (l.hooks ==> l.load && l.start) && l.database)
            && (r.Ok? ==> && k in m1.rows && m1.rows[k] == Row(row.config, true) && k in m1.memory
                          && m1.memory[k].config == Some(row.config) && m1.memory[k].state == Running)
  {
    hide Boot, InOrder, WellUsed;
    BootRuns(row.config, l);
    var booted: Result<(), PluginError> := Boot(row.config, l).1;
    assert booted.Ok? || booted.Err?;
  }

  /** Saving a configuration, in a state that the run theorems allow, succeeds exactly when
      what is found under the key can be stopped and unloaded, and the row saved and the
      plugin made, configured, started and saved again. It then runs the configuration
      given, whether or not the row given was enabled. */
  lemma SavesExactly(m: Manager, k: Key, row: Row, l: Luck, l2: Luck)
    requires Inv(m)
    ensures var (m1, r) := SavePluginConfig(m, k, row, l, l2);
            && (r.Ok? <==> && Harmless(m, DoSave(k, row, l, l2)) && k.app != "" && k.name != ""
                           && l2.save && l2.create && l2.valid && (l2.hooks ==> l2.load && l2.start) && l2.database)
            && (r.Ok? ==> && k in m1.rows && m1.rows[k] == Row(row.config, true) && k in m1.memory
                          && m1.memory[k].config == Some(row.config) && m1.memory[k].state == Running)
  {
    hide Boot, InOrder, WellUsed, GetPlugin, Stop, Unload, Reload;
    GetKeeps(m, k, l);
    var (m1, found) := GetPlugin(m, k, l);
    if found.Some? {
      assert RunsSaved(m1, k);
      StopUnload(found.value, l);
      var q := Unload(Stop(found.value, l.stop).0, l.unload).0;
      ReloadsExactly(m1.(memory := m1.memory - {k}, dropped := m1.dropped + [q]), k, row, l2);
    } else {
      ReloadsExactly(m1, k, row, l2);
    }
  }

  /** An uninstall, in such a state, succeeds exactly when something is found under the key,
      its hooks work, and the row is deleted; it leaves neither row nor plugin, so nothing is
      found under the key from then on. */
  lemma UninstallsExactly(m: Manager, k: Key, l: Luck, later: Luck)
    requires Inv(m)
    ensures var (m1, r) := UninstallPlugin(m, k, l);
            var found := GetPlugin(m, k, l).1;
            && (r.Ok? <==> found.Some? && Stops(found.value, l) && l.uninstall && l.database)
            && (r.Ok? ==> k !in m1.memory && k !in m1.rows && GetPlugin(m1, k, later) == (m1, None))
  {
    hide Boot, InOrder, WellUsed, GetPlugin, Stop, Unload;
    GetKeeps(m, k, l);
    var (m0, found) := GetPlugin(m, k, l);
    if found.Some? {
      assert RunsSaved(m0, k);
      StopUnload(found.value, l);
      var stopped: Result<(), PluginError> := Stop(found.value, l.stop).1;
      var unloaded: Result<(), PluginError> := Unload(Stop(found.value, l.stop).0, l.unload).1;
      assert (stopped.Ok? || stopped.Err?) && (unloaded.Ok? || unloaded.Err?);
    }
    var m1 := UninstallPlugin(m, k, l).0;
    if k !in m1.memory && k !in m1.rows { NothingFound(m1, k, later); }
  }

  /** In such a state an execution through the manager succeeds exactly when a plugin is found
      under the key, no Before of its middleware fails, and neither does its OnExecute. */
  lemma ExecutesExactly(m: Manager, k: Key, o: Outcome, l: Luck)
    requires Inv(m)
    ensures var (m1, r) := ExecutePlugin(m, k, o, l);
            var (m0, found) := GetPlugin(m, k, l);
            && (r.Ok? <==> found.Some? && PluginTrace.NoneFails(o) && (found.value.hooks ==> o.execOk))
            && (r == Err(NotLoaded) <==> found.None?)
            && m1.rows == m.rows
            && (found.Some? ==> k in m1.memory && m1.memory[k] == found.value.(calls := m1.memory[k].calls))
  {
    hide InOrder, WellUsed, GetPlugin;
    GetKeeps(m, k, l);
    var found := GetPlugin(m, k, l).1;
    if found.Some? {
      assert RunsSaved(GetPlugin(m, k, l).0, k);
      PluginTrace.ExecuteAnswers(found.value, o);
    }
  }

  lemma NothingFound(m: Manager, k: Key, l: Luck)
    requires k !in m.memory && k !in m.rows
    ensures GetPlugin(m, k, l) == (m, None)
  {
  }

  /** What a harmful uninstall leaves when OnUninstall fails: the plugin stays in memory
      stopped, and every execution through the manager is refused. */
  lemma FailedUninstallStrands(m: Manager, k: Key, l: Luck, o: Outcome, l2: Luck)
    requires Inv(m) && k in m.memory && (m.memory[k].hooks ==> l.stop) && !l.uninstall
    ensures var m1 := UninstallPlugin(m, k, l).0;
            && k in m1.memory && m1.memory[k].state == Stopped
            && ExecutePlugin(m1, k, o, l2).1 == Err(NotExecuted(InvalidState))
  {
    assert RunsSaved(m, k);
  }
}
