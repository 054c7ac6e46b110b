/** The plugin manager step by step over its running plugin objects and its configuration
    table, tied to the operations of module PluginManager. */
module PluginManagerService {
  import opened Common
  import opened PluginBase
  import opened PluginManager

  lemma DropChanged(m: map<Key, Plugin>, k: Key, p: Plugin)
    ensures m[k := p] - {k} == m - {k}
  {
  }

  lemma SetTwice(m: map<Key, Plugin>, k: Key, p: Plugin, q: Plugin)
    ensures m[k := p][k := q] == m[k := q]
  {
  }

  class Service {
    var memory: map<Key, SmartPlugin>
    var rows: map<Key, Row>
    ghost var dropped: seq<Plugin>

    constructor ()
      ensures Valid() && Contents() == EMPTY
    {
      memory, rows, dropped := map[], map[], [];
    }

    /** No instance is kept under two keys. */
    ghost predicate Valid()
      reads this
    {
      forall a, b :: a in memory && b in memory && memory[a] == memory[b] ==> a == b
    }

    ghost function Contents(): Manager
      reads this, memory.Values
    {
      Manager(map k | k in memory :: memory[k].Contents(), rows, dropped)
    }

    /** Creates an instance, loads and starts it. */
    method BootPlugin(config: string, l: Luck) returns (p: SmartPlugin, r: Result<(), PluginError>)
      ensures fresh(p) && (p.Contents(), r) == Boot(config, l)
    {
      p := new SmartPlugin(l.hooks);
      r := p.LoadConfig(config, l.valid, l.load);
      if r.Err? { return; }
      r := p.StartPlugin(l.start);
    }

    // ---------- one instance of the memory ----------

    method StopAt(k: Key, l: Luck) returns (r: Result<(), PluginError>)
      requires Valid() && k in memory
      modifies memory[k]
      ensures var (p, q) := Stop(old(memory[k].Contents()), l.stop);
              r == q && memory[k].Contents() == p
                  && Contents() == old(Contents()).(memory := old(Contents()).memory[k := p])
    {
      r := memory[k].StopPlugin(l.stop);
      assert Contents().memory == old(Contents()).memory[k := memory[k].Contents()];
    }

    method UnloadAt(k: Key, l: Luck) returns (r: Result<(), PluginError>)
      requires Valid() && k in memory
      modifies memory[k]
      ensures var (p, q) := Unload(old(memory[k].Contents()), l.unload);
              r == q && memory[k].Contents() == p
                  && Contents() == old(Contents()).(memory := old(Contents()).memory[k := p])
    {
      r := memory[k].UnloadPlugin(l.unload);
      assert Contents().memory == old(Contents()).memory[k := memory[k].Contents()];
    }

    method ExecuteAt(k: Key, o: Outcome) returns (r: Result<(), PluginError>)
      requires Valid() && k in memory
      modifies memory[k]
      ensures var (p, q) := Execute(old(memory[k].Contents()), o);
              r == q && memory[k].Contents() == p
                  && Contents() == old(Contents()).(memory := old(Contents()).memory[k := p])
    {
      r := memory[k].ExecutePlugin(o);
      assert Contents().memory == old(Contents()).memory[k := memory[k].Contents()];
    }

    method DropAt(k: Key)
      requires Valid() && k in memory
      modifies this
      ensures Valid() && memory == old(memory) - {k}
      ensures Contents() == Manager(old(Contents()).memory - {k}, rows,
                                    old(Contents()).dropped + [old(memory[k].Contents())])
      ensures rows == old(rows)
    {
      dropped := dropped + [memory[k].Contents()];
      memory := memory - {k};
      assert Contents().memory == old(Contents()).memory - {k};
    }

    method KeepAt(k: Key, p: SmartPlugin)
      requires Valid() && p !in memory.Values
      modifies this`memory
      ensures Valid() && memory == old(memory)[k := p]
      ensures Contents() == old(Contents()).(memory := old(Contents()).memory[k := p.Contents()])
    {
      memory := memory[k := p];
      assert Contents().memory == old(Contents()).memory[k := p.Contents()];
    }

    // ---------- the operations ----------

    method LoadNew(k: Key, config: string, l: Luck) returns (r: Result<(), ManagerError>)
      requires Valid()
      modifies this
      ensures Valid() && fresh(memory.Values - old(memory.Values))
      ensures (Contents(), r) == LoadPlugin(old(Contents()), k, config, l)
    {
      hide Boot;
      if k.app == "" { return Err(NoAppId); }
      if k.name == "" { return Err(NoName); }
      if k in memory { return Err(AlreadyLoaded); }
      var p, booted := BootPlugin(config, l);
      if booted.Err? || !l.database {
        dropped := dropped + [p.Contents()];
        assert Contents().memory == old(Contents()).memory;
        return Err(if booted.Err? then PluginFailed(booted.error) else DatabaseFailed);
      }
      rows := rows[k := Row(config, true)];
      assert Contents().memory == old(Contents()).memory;
      KeepAt(k, p);
      return Ok(());
    }

    method Install(k: Key, config: string, l: Luck) returns (r: Result<(), ManagerError>)
      requires Valid()
      modifies this
      ensures Valid() && fresh(memory.Values - old(memory.Values))
      ensures (Contents(), r) == InstallPlugin(old(Contents()), k, config, l)
    {
      hide LoadPlugin;
      if !l.create { return Err(CreateFailed); }
      if !l.install { return Err(InstallFailed); }
      r := LoadNew(k, config, l);
    }

    method Get(k: Key, l: Luck) returns (r: Option<SmartPlugin>)
      requires Valid()
      modifies this
      ensures Valid() && fresh(memory.Values - old(memory.Values))
      ensures r.Some? ==> k in memory && r.value == memory[k]
      ensures var (m, found) := GetPlugin(old(Contents()), k, l);
              Contents() == m && (r.None? <==> found.None?) && (r.Some? ==> r.value.Contents() == found.value)
    {
      hide Boot;
      if k.app == "" || k.name == "" { return None; }
      if k in memory { return Some(memory[k]); }
      if !l.query || k !in rows || !rows[k].enabled || !l.create { return None; }
      var p, booted := BootPlugin(rows[k].config, l);
      assert Contents().memory == old(Contents()).memory;
      if booted.Err? {
        dropped := dropped + [p.Contents()];
        return None;
      }
      KeepAt(k, p);
      return Some(p);
    }

    method UnloadLoaded(k: Key, l: Luck) returns (r: Result<(), ManagerError>)
      requires Valid()
      modifies this, memory.Values
      ensures Valid() && memory.Values <= old(memory.Values)
      ensures (Contents(), r) == UnloadPlugin(old(Contents()), k, l)
    {
      hide Unload;
      if k.app == "" { return Err(NoAppId); }
      if k.name == "" { return Err(NoName); }
      if k !in memory { return Err(NotLoaded); }
      var unloaded := UnloadAt(k, l);
      if unloaded.Err? { return Err(PluginFailed(unloaded.error)); }
      if !l.database { return Err(DatabaseFailed); }
      ghost var m, p := old(Contents()), memory[k].Contents();
      rows := rows - {k};
      assert Contents().memory == m.memory[k := p];
      DropAt(k);
      DropChanged(m.memory, k, p);
      return Ok(());
    }

    method Uninstall(k: Key, l: Luck) returns (r: Result<(), ManagerError>)
      requires Valid()
      modifies this, memory.Values
      ensures Valid() && fresh(memory.Values - old(memory.Values))
      ensures (Contents(), r) == UninstallPlugin(old(Contents()), k, l)
    {
      hide Stop, UnloadPlugin, GetPlugin;
      var found := Get(k, l);
      if found.Some? {
        var stopped := StopAt(k, l);
        if stopped.Err? { return Err(PluginFailed(stopped.error)); }
        if !l.uninstall { return Err(UninstallFailed); }
      }
      r := UnloadLoaded(k, l);
    }

    method SaveConfig(k: Key, row: Row, l: Luck, l2: Luck) returns (r: Result<(), ManagerError>)
      requires Valid()
      modifies this, memory.Values
      ensures Valid() && fresh(memory.Values - old(memory.Values))
      ensures (Contents(), r) == SavePluginConfig(old(Contents()), k, row, l, l2)
    {
      hide Stop, Unload, GetPlugin, Reload;
      var found := Get(k, l);
      if found.Some? {
        r := EndRun(k, l);
        if r.Err? { return; }
      }
      r := SaveAndLoad(k, row, l2);
    }

    /** The part of SavePluginConfig that stops and drops the old instance. */
    method EndRun(k: Key, l: Luck) returns (r: Result<(), ManagerError>)
      requires Valid() && k in memory
      modifies this, memory.Values
      ensures Valid() && memory.Values <= old(memory.Values)
      ensures var m := old(Contents());
              var (p, r1) := Stop(m.memory[k], l.stop);
              var (q, r2) := Unload(p, l.unload);
              if r1.Err? then (Contents(), r) == (m.(memory := m.memory[k := p]), Err(PluginFailed(r1.error)))
              else if r2.Err? then (Contents(), r) == (m.(memory := m.memory[k := q]), Err(PluginFailed(r2.error)))
              else (Contents(), r) == (m.(memory := m.memory - {k}, dropped := m.dropped + [q]), Ok(()))
    {
      hide Stop, Unload;
      ghost var m := Contents();
      var stopped := StopAt(k, l);
      if stopped.Err? { return Err(PluginFailed(stopped.error)); }
      ghost var m1, p := Contents(), memory[k].Contents();
      assert m1 == m.(memory := m.memory[k := p]);
      var unloaded := UnloadAt(k, l);
      ghost var q := memory[k].Contents();
      SetTwice(m.memory, k, p, q);
      assert Contents() == m.(memory := m.memory[k := q]);
      if unloaded.Err? { return Err(PluginFailed(unloaded.error)); }
      DropAt(k);
      DropChanged(m.memory, k, q);
      return Ok(());
    }

    /** The part of SavePluginConfig that follows the removal of the old instance. */
    method SaveAndLoad(k: Key, row: Row, l: Luck) returns (r: Result<(), ManagerError>)
      requires Valid()
      modifies this
      ensures Valid() && fresh(memory.Values - old(memory.Values))
      ensures (Contents(), r) == Reload(old(Contents()), k, row, l)
    {
      hide LoadPlugin;
      if !l.save { return Err(DatabaseFailed); }
      rows := rows[k := row];
      assert Contents().memory == old(Contents()).memory;
      if !l.create { return Err(CreateFailed); }
      r := LoadNew(k, row.config, l);
    }

    method ExecuteOn(k: Key, o: Outcome, l: Luck) returns (r: Result<(), ManagerError>)
      requires Valid()
      modifies this, memory.Values
      ensures Valid() && fresh(memory.Values - old(memory.Values))
      ensures (Contents(), r) == ExecutePlugin(old(Contents()), k, o, l)
    {
      hide Execute, GetPlugin;
      var found := Get(k, l);
      if found.None? { return Err(NotLoaded); }
      var executed := ExecuteAt(k, o);
      return if executed.Ok? then Ok(()) else Err(NotExecuted(executed.error));
    }
  }
}
