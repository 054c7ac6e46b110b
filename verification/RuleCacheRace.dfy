/** Evaluations and rule edits running at once, split into the steps at which they
    touch the database or the cache: an edit writes the tables and later deletes the
    app's entry; a load reads the rows, then the conditions rule by rule, and later
    sets the entry (pkg/engine/engine.go, internal/service/rule.go). */
module RuleCacheRace {
  import opened Common
  import opened RuleParser
  import opened RuleTables

  /** An edit that has written: when, and when it deleted the cache entry, if it has. */
  datatype EditRecord = EditRecord(app: string, written: nat, deleted: Option<nat>)

  /** A load in progress: when it began, the rows it read, and how many of them have
      got their conditions. */
  datatype Load = Load(app: string, began: nat, list: seq<Rule>, done: nat)

  /** A cache entry: the list, when the load that set it began, and when it was set. */
  datatype Entry = Entry(list: seq<Rule>, began: nat, at: nat)

  /** The tick counts steps; every step happens at its own tick. */
  datatype State = State(tick: nat, db: Db, cache: map<string, Entry>, loads: map<nat, Load>,
                         edits: map<nat, EditRecord>)

  const INITIAL := State(0, Db(map[], map[]), map[], map[], map[])

  datatype Action =
    | WriteTables(edit: nat, op: Edit)
    | DeleteEntry(edit: nat)                            // never taken when the delete fails
    | ReadRows(load: nat, app: string, rows: seq<Rule>)
    | ReadConditions(load: nat, cs: seq<Condition>)
    | SetEntry(load: nat)
    | GiveUp(load: nat)                                 // a read or the set failed
    | Expire(app: string)                               // the entry's lifetime is over

  /** A step is possible when its operation is at that point and the answers it got
      are answers the database can give. */
  ghost predicate Enabled(s: State, a: Action) {
    match a
    case WriteTables(e, op) => e !in s.edits && KeepsApp(s.db, op)
    case DeleteEntry(e) => e in s.edits && s.edits[e].deleted.None?
    case ReadRows(l, app, rows) => l !in s.loads && ActiveRows(s.db, app, rows)
    case ReadConditions(l, cs) =>
      l in s.loads && s.loads[l].done < |s.loads[l].list|
          && ConditionRows(s.db, s.loads[l].list[s.loads[l].done].id, cs)
    case SetEntry(l) => l in s.loads && s.loads[l].done == |s.loads[l].list|
    case GiveUp(l) => l in s.loads
    case Expire(_) => true
  }

  function Next(s: State, a: Action): State {
    var t := s.(tick := s.tick + 1);
    match a
    case WriteTables(e, op) =>
      t.(db := Write(s.db, op), edits := s.edits[e := EditRecord(EditedApp(s.db, op), s.tick, None)])
    case DeleteEntry(e) =>
      if e !in s.edits then t
      else t.(cache := s.cache - {s.edits[e].app}, edits := s.edits[e := s.edits[e].(deleted := Some(s.tick))])
    case ReadRows(l, app, rows) => t.(loads := s.loads[l := Load(app, s.tick, rows, 0)])
    case ReadConditions(l, cs) =>
      if l !in s.loads || s.loads[l].done >= |s.loads[l].list| then t
      else
        var ld := s.loads[l];
        var rule := ld.list[ld.done].(conditions := cs);
        t.(loads := s.loads[l := ld.(list := ld.list[ld.done := rule], done := ld.done + 1)])
    case SetEntry(l) =>
      if l !in s.loads then t
      else
        var ld := s.loads[l];
        t.(cache := s.cache[ld.app := Entry(ld.list, ld.began, s.tick)], loads := s.loads - {l})
    case GiveUp(l) => t.(loads := s.loads - {l})
    case Expire(app) => t.(cache := s.cache - {app})
  }

  ghost predicate Possible(run: seq<Action>, n: nat)
    requires n <= |run|
  {
    n > 0 ==> Possible(run, n - 1) && Enabled(After(run, n - 1), run[n - 1])
  }

  function After(run: seq<Action>, n: nat): State
    requires n <= |run|
  {
    if n == 0 then INITIAL else Next(After(run, n - 1), run[n - 1])
  }

  // ---------- why a cached list may differ from the tables ----------

  /** Some edit of the app has written and not (or never) deleted the entry. */
  ghost predicate EditPending(s: State, app: string) {
    exists e :: e in s.edits && s.edits[e].app == app && s.edits[e].deleted.None?
  }

  /** The load behind the entry began before some edit wrote, and set the entry after
      that edit had deleted it. */
  ghost predicate LoadOvertaken(s: State, app: string)
    requires app in s.cache
  {
    exists e :: e in s.edits && s.edits[e].app == app && s.edits[e].deleted.Some?
                && s.cache[app].began < s.edits[e].written
                && s.edits[e].deleted.value < s.cache[app].at
  }

  /** No edit of the app has written since the given tick. */
  ghost predicate QuietSince(s: State, app: string, tick: nat) {
    forall e :: e in s.edits && s.edits[e].app == app ==> s.edits[e].written <= tick
  }

  /** What a load has so far is what the tables hold. */
  ghost predicate PartialReading(db: Db, ld: Load) {
    && ld.done <= |ld.list|
    && ActiveRows(db, ld.app, Bare(ld.list))
    && forall i :: 0 <= i < ld.done ==> ConditionRows(db, ld.list[i].id, ld.list[i].conditions)
  }

  ghost predicate Inv(s: State) {
    && WellFormed(s.db)
    && (forall e :: e in s.edits ==> EditInv(s, s.edits[e]))
    && (forall l :: l in s.loads ==> LoadInv(s, s.loads[l]))
    && (forall app :: app in s.cache ==> EntryInv(s, app))
  }

  ghost predicate EditInv(s: State, e: EditRecord) {
    && e.written < s.tick
    && (e.deleted.Some? ==> e.written < e.deleted.value < s.tick)
  }

  ghost predicate LoadInv(s: State, ld: Load) {
    && ld.began < s.tick
    && (QuietSince(s, ld.app, ld.began) ==> PartialReading(s.db, ld))
  }

  ghost predicate EntryInv(s: State, app: string)
    requires app in s.cache
  {
    var en := s.cache[app];
    && en.began < en.at < s.tick
    && (QuietSince(s, app, en.began) ==> Reading(s.db, app, en.list))
    && (forall e :: e in s.edits && s.edits[e].app == app && s.edits[e].deleted.Some? ==>
                      s.edits[e].deleted.value < en.at)
  }

  lemma LoadOfOtherApp(db: Db, op: Edit, ld: Load)
    requires KeepsApp(db, op) && EditedApp(db, op) != ld.app && PartialReading(db, ld)
    ensures PartialReading(Write(db, op), ld)
  {
    OtherAppUntouched(db, op, ld.app);
    var db1, bare := Write(db, op), Bare(ld.list);
    assert ActiveRows(db1, ld.app, bare) by {
      forall id | Active(db1, ld.app, id) ensures exists i :: 0 <= i < |bare| && bare[i].id == id {
        assert Active(db, ld.app, id);
      }
    }
    forall i | 0 <= i < ld.done ensures ConditionRows(db1, ld.list[i].id, ld.list[i].conditions) {
      assert Active(db, ld.app, bare[i].id);
    }
  }

  /** A step that leaves the tables and the edits' writes alone keeps what loads and
      entries have read. */
  ghost predicate SameWrites(s: State, s1: State) {
    && s1.db == s.db && s1.tick == s.tick + 1
    && s1.edits.Keys == s.edits.Keys
    && forall e :: e in s.edits ==> s1.edits[e].app == s.edits[e].app && s1.edits[e].written == s.edits[e].written
  }

  lemma SameWritesQuiet(s: State, s1: State, app: string, tick: nat)
    requires SameWrites(s, s1)
    ensures QuietSince(s1, app, tick) <==> QuietSince(s, app, tick)
  {
    if QuietSince(s1, app, tick) {
      forall e | e in s.edits && s.edits[e].app == app ensures s.edits[e].written <= tick {
        assert e in s1.edits;
      }
    }
  }

  lemma SameWritesLoad(s: State, s1: State, ld: Load)
    requires SameWrites(s, s1) && LoadInv(s, ld)
    ensures LoadInv(s1, ld)
  {
    SameWritesQuiet(s, s1, ld.app, ld.began);
  }

  lemma SameWritesEntry(s: State, s1: State, app: string)
    requires SameWrites(s, s1) && app in s.cache && app in s1.cache && s1.cache[app] == s.cache[app] && EntryInv(s, app)
    requires forall e :: e in s1.edits && s1.edits[e].app == app ==> s1.edits[e].deleted == s.edits[e].deleted
    ensures EntryInv(s1, app)
  {
    SameWritesQuiet(s, s1, app, s.cache[app].began);
  }

  lemma QuietBefore(s: State, s1: State, e: nat, app: string, tick: nat)
    requires e !in s.edits && s1.edits.Keys == s.edits.Keys + {e}
    requires forall f :: f in s.edits ==> s1.edits[f] == s.edits[f]
    requires QuietSince(s1, app, tick) && tick < s1.edits[e].written
    ensures QuietSince(s, app, tick) && s1.edits[e].app != app
  {
    forall f | f in s.edits && s.edits[f].app == app ensures s.edits[f].written <= tick {
      assert f in s1.edits;
    }
    assert e in s1.edits;
  }

  lemma WriteKeepsInv(s: State, e: nat, op: Edit)
    requires Inv(s) && Enabled(s, WriteTables(e, op))
    ensures Inv(Next(s, WriteTables(e, op)))
  {
    hide Write, Reading, PartialReading, WellFormed, KeepsApp, EditedApp;
    var s1 := Next(s, WriteTables(e, op));
    WriteWellFormed(s.db, op);
    forall f | f in s1.edits ensures EditInv(s1, s1.edits[f]) {
      if f != e { assert EditInv(s, s.edits[f]); }
    }
    forall l | l in s1.loads ensures LoadInv(s1, s1.loads[l]) {
      var ld := s.loads[l];
      assert LoadInv(s, ld);
      if QuietSince(s1, ld.app, ld.began) {
        QuietBefore(s, s1, e, ld.app, ld.began);
        LoadOfOtherApp(s.db, op, ld);
      }
    }
    forall x | x in s1.cache ensures EntryInv(s1, x) {
      assert EntryInv(s, x);
      if QuietSince(s1, x, s.cache[x].began) {
        QuietBefore(s, s1, e, x, s.cache[x].began);
        ReadingOfOtherApp(s.db, op, x, s.cache[x].list);
      }
      forall f | f in s1.edits && s1.edits[f].app == x && s1.edits[f].deleted.Some?
        ensures s1.edits[f].deleted.value < s1.cache[x].at
      {
        assert f in s.edits;
      }
    }
  }

  lemma DeleteKeepsInv(s: State, e: nat)
    requires Inv(s) && Enabled(s, DeleteEntry(e))
    ensures Inv(Next(s, DeleteEntry(e)))
  {
    var s1 := Next(s, DeleteEntry(e));
    forall f | f in s1.edits ensures EditInv(s1, s1.edits[f]) {
      assert EditInv(s, s.edits[f]);
    }
    forall l | l in s1.loads ensures LoadInv(s1, s1.loads[l]) {
      SameWritesLoad(s, s1, s.loads[l]);
    }
    forall x | x in s1.cache ensures EntryInv(s1, x) {
      SameWritesEntry(s, s1, x);
    }
  }

  /** The load that a read step leaves. */
  lemma ReadLoad(s: State, a: Action)
    requires Inv(s) && Enabled(s, a) && (a.ReadRows? || a.ReadConditions?)
    ensures LoadInv(Next(s, a), Next(s, a).loads[a.load])
  {
    var s1 := Next(s, a);
    var ld := s1.loads[a.load];
    SameWritesQuiet(s, s1, ld.app, ld.began);
    if a.ReadRows? {
      forall i | 0 <= i < |a.rows| ensures a.rows[i].conditions == [] {
        assert a.rows[i] == s.db.rules[a.rows[i].id];
      }
      assert Bare(a.rows) == a.rows;
    } else {
      assert LoadInv(s, s.loads[a.load]);
      assert Bare(ld.list) == Bare(s.loads[a.load].list);
    }
  }

  /** The entry that a set step leaves. */
  lemma SetLoad(s: State, l: nat)
    requires Inv(s) && Enabled(s, SetEntry(l))
    ensures EntryInv(Next(s, SetEntry(l)), s.loads[l].app)
  {
    var s1, ld := Next(s, SetEntry(l)), s.loads[l];
    assert LoadInv(s, ld);
    SameWritesQuiet(s, s1, ld.app, ld.began);
    forall e | e in s1.edits && s1.edits[e].deleted.Some? ensures s1.edits[e].deleted.value < s.tick {
      assert EditInv(s, s.edits[e]);
    }
  }

  /** The other steps change neither tables nor edits, and at most one load or entry. */
  lemma OtherKeepsInv(s: State, a: Action)
    requires Inv(s) && Enabled(s, a) && !a.WriteTables? && !a.DeleteEntry?
    ensures Inv(Next(s, a))
  {
    var s1 := Next(s, a);
    if a.ReadRows? || a.ReadConditions? { ReadLoad(s, a); }
    if a.SetEntry? { SetLoad(s, a.load); }
    forall f | f in s1.edits ensures EditInv(s1, s1.edits[f]) {
      assert EditInv(s, s.edits[f]);
    }
    forall l | l in s1.loads ensures LoadInv(s1, s1.loads[l]) {
      if !((a.ReadRows? || a.ReadConditions?) && l == a.load) { SameWritesLoad(s, s1, s.loads[l]); }
    }
    forall x | x in s1.cache ensures EntryInv(s1, x) {
      if !(a.SetEntry? && x == s.loads[a.load].app) { SameWritesEntry(s, s1, x); }
    }
  }

  lemma NextKeepsInv(s: State, a: Action)
    requires Inv(s) && Enabled(s, a)
    ensures Inv(Next(s, a))
  {
    match a
    case WriteTables(e, op) => WriteKeepsInv(s, e, op);
    case DeleteEntry(e) => DeleteKeepsInv(s, e);
    case _ => OtherKeepsInv(s, a);
  }

  lemma {:induction false} AlwaysInv(run: seq<Action>, n: nat)
    requires n <= |run| && Possible(run, n)
    ensures Inv(After(run, n))
  {
    if n == 0 {
      assert After(run, n) == INITIAL;
    } else {
      AlwaysInv(run, n - 1);
      NextKeepsInv(After(run, n - 1), run[n - 1]);
    }
  }

  /** In every interleaving, a cached list that is not what LoadRules would read now is
      there only because an edit has written and not deleted, or because a load that
      began before an edit's write set the entry after that edit's delete. */
  lemma StaleOnlyInRaces(run: seq<Action>, n: nat, app: string)
    requires n <= |run| && Possible(run, n)
    requires app in After(run, n).cache && !Reading(After(run, n).db, app, After(run, n).cache[app].list)
    ensures EditPending(After(run, n), app) || LoadOvertaken(After(run, n), app)
  {
    AlwaysInv(run, n);
    var s := After(run, n);
    assert EntryInv(s, app);
    var e :| e in s.edits && s.edits[e].app == app && s.edits[e].written > s.cache[app].began;
  }

  // ---------- the second exception is real ----------

  /** The step may end the life of the app's entry, or change what it is compared with. */
  ghost predicate Touches(s: State, a: Action, app: string) {
    match a
    case WriteTables(_, op) => EditedApp(s.db, op) == app
    case DeleteEntry(e) => e in s.edits && s.edits[e].app == app
    case SetEntry(l) => l in s.loads && s.loads[l].app == app
    case Expire(x) => x == app
    case _ => false
  }

  ghost predicate Stale(s: State, app: string) {
    app in s.cache && !Reading(s.db, app, s.cache[app].list)
  }

  /** A stale entry stays as it is until a step touches it. */
  lemma {:induction false} StaysStale(run: seq<Action>, m: nat, n: nat, app: string)
    requires m <= n <= |run| && Possible(run, n) && Stale(After(run, m), app)
    requires forall k :: m <= k < n ==> !Touches(After(run, k), run[k], app)
    ensures Stale(After(run, n), app) && After(run, n).cache[app] == After(run, m).cache[app]
  {
    if m < n {
      hide Reading;
      StaysStale(run, m, n - 1, app);
      var s, a := After(run, n - 1), run[n - 1];
      assert Enabled(s, a) && !Touches(s, a, app);
      if a.WriteTables? { ReadingOfOtherApp(s.db, a.op, app, s.cache[app].list); }
    }
  }

  /** A load reads an app without rules, a rule is created, its entry deleted, and then
      the load sets what it has read. */
  function Overtaken(r: Rule): seq<Action> {
    [ReadRows(0, r.appId, []), WriteTables(0, Create(r)), DeleteEntry(0), SetEntry(0)]
  }

  lemma OvertakenIsStale(r: Rule, run: seq<Action>)
    requires r.isEnabled && Overtaken(r) <= run
    ensures Possible(run, 4) && Stale(After(run, 4), r.appId) && !EditPending(After(run, 4), r.appId)
  {
    var s1 := Next(INITIAL, run[0]);
    var s2 := Next(s1, run[1]);
    var s3 := Next(s2, run[2]);
    var s4 := Next(s3, run[3]);
    assert After(run, 0) == INITIAL;
    assert After(run, 1) == s1;
    assert After(run, 2) == s2;
    assert After(run, 3) == s3;
    assert After(run, 4) == s4;
    assert Bare([]) == [];
    assert Possible(run, 1);
    assert Possible(run, 2);
    assert Possible(run, 3);
    assert Possible(run, 4);
    assert Active(s4.db, r.appId, r.id);
  }

  /** With every edit finished, a load that was overtaken leaves a list the tables do not
      hold. It stays in every continuation until the entry expires, is deleted or set
      again, or the app is written. */
  lemma OvertakenLoadStaysStale(r: Rule, more: seq<Action>)
    requires r.isEnabled
    ensures var run := Overtaken(r) + more;
            && Possible(run, 4) && !EditPending(After(run, 4), r.appId)
            && Stale(After(run, 4), r.appId)
            && (Possible(run, |run|) && (forall k :: 4 <= k < |run| ==> !Touches(After(run, k), run[k], r.appId))
                ==> Stale(After(run, |run|), r.appId))
  {
    hide Stale, Touches, EditPending, Enabled;
    var run := Overtaken(r) + more;
    OvertakenIsStale(r, run);
    if Possible(run, |run|) && (forall k :: 4 <= k < |run| ==> !Touches(After(run, k), run[k], r.appId)) {
      StaysStale(run, 4, |run|, r.appId);
    }
  }
}
