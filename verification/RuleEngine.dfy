/** The rule engine and the rule service over one set of tables and one cache, one call
    at a time: pkg/engine/engine.go, pkg/engine/cache.go, internal/service/rule.go. */
module RuleEngine {
  import opened Common
  import opened RuleParser
  import opened RuleTables

  datatype CacheEntry = CacheEntry(list: seq<Rule>, deadline: int)

  const DAY := 24 * 3600 * 1_000_000_000

  datatype ServiceError = NotFound | NameExists | DatabaseFailed | CacheFailed

  /** The calls to the database and to Redis that fail. */
  datatype EvalFaults = EvalFaults(get: bool, database: bool, put: bool, again: bool)
  datatype EditFaults = EditFaults(find: bool, names: bool, database: bool, cache: bool)

  /** The answers the database gives to one LoadRules. */
  datatype Answers = Answers(rows: seq<Rule>, conds: map<string, seq<Condition>>)

  ghost predicate AnswersOf(db: Db, app: string, a: Answers) {
    && ActiveRows(db, app, a.rows)
    && forall i :: 0 <= i < |a.rows| ==>
                     a.rows[i].id in a.conds && ConditionRows(db, a.rows[i].id, a.conds[a.rows[i].id])
  }

  class Engine {
    var db: Db
    var cache: map<string, CacheEntry>

    constructor (db: Db)
      requires WellFormed(db)
      ensures this.db == db && cache == map[] && Coherent()
    {
      this.db, cache := db, map[];
    }

    /** Every entry is a reading of the tables as they are. */
    ghost predicate Coherent()
      reads this
    {
      WellFormed(db) && forall app :: app in cache ==> Reading(db, app, cache[app].list)
    }

    method LoadRules(now: int, app: string, answers: Answers, f: EvalFaults) returns (ok: bool)
      requires Coherent() && AnswersOf(db, app, answers)
      modifies this`cache
      ensures Coherent()
      ensures ok <==> !f.database && !f.put
      ensures ok ==> app in cache && cache == old(cache)[app := cache[app]]
      ensures ok ==> cache[app].deadline == now + 86_400 * 1_000_000_000  // a day
      ensures !ok ==> cache == old(cache)
    {
      if f.database { return false; }
      var rules := answers.rows;
      for i := 0 to |rules|
        invariant |rules| == |answers.rows| && Bare(rules) == answers.rows
        invariant forall j :: i <= j < |rules| ==> rules[j] == answers.rows[j]
        invariant forall j :: 0 <= j < i ==> ConditionRows(db, rules[j].id, rules[j].conditions)
      {
        assert answers.rows[i] == Bare(rules)[i];
        var conditions := answers.conds[rules[i].id];
        ghost var before := rules;
        rules := rules[i := rules[i].(conditions := conditions)];
        assert Bare(rules) == Bare(before);
      }
      if f.put { return false; }
      cache := cache[app := CacheEntry(rules, now + DAY)];
      return true;
    }

    /** Evaluate: a cached answer is the answer the tables give. */
    method Evaluate(now: int, app: string, data: Data, done: bool, answers: Answers, f: EvalFaults)
      returns (ok: bool, r: Option<Rule>)
      requires Coherent() && AnswersOf(db, app, answers)
      modifies this`cache
      ensures Coherent()
      ensures ok <==> (app in old(cache) && now < old(cache)[app].deadline && !f.get)
                      || (!f.database && !f.put && !f.again)
      ensures ok ==> forall list :: Reading(db, app, list) ==> (r.Some? <==> Verdict(list, data, done))
      ensures ok && r.Some? ==> Allows(r.value, data, done) && Active(db, app, r.value.id)
                                && forall list, q :: Reading(db, app, list) && q in list && Allows(q, data, done)
                                                     ==> q.priority <= r.value.priority
    {
      var list := [];
      if app in cache && now < cache[app].deadline && !f.get {
        list := cache[app].list;
      } else {
        var loaded := LoadRules(now, app, answers, f);
        if !loaded || f.again { return false, None; }
        list := cache[app].list;
      }
      r := FirstAllowing(list, data, done);
      VerdictOfReadings(db, app, list, data, done, r);
      return true, r;
    }

    method InvalidateCache(app: string, f: EditFaults) returns (ok: bool)
      modifies this`cache
      ensures ok == !f.cache
      ensures cache == if ok then old(cache) - {app} else old(cache)
    {
      if f.cache { return false; }
      cache := cache - {app};
      return true;
    }

    /** Nothing was written and nothing invalidated. */
    twostate predicate Untouched()
      reads this
    {
      db == old(db) && cache == old(cache)
    }

    /** What becomes of an edit that nothing refuses: it is written and then invalidates,
        each of which may fail; a failed invalidation leaves the write in place. */
    twostate predicate Applied(e: Edit, f: EditFaults, new r: Result<(), ServiceError>)
      reads this
    {
      && r == (if f.database then Err(DatabaseFailed) else if f.cache then Err(CacheFailed) else Ok(()))
      && db == (if f.database then old(db) else Write(old(db), e))
      && cache == (if f.database || f.cache then old(cache) else old(cache) - {EditedApp(old(db), e)})
    }

    /** The write of an edit and the invalidation that follows it. */
    method WriteAndInvalidate(e: Edit, f: EditFaults) returns (r: Result<(), ServiceError>)
      requires Coherent() && (KeepsApp(db, e) || e.Update?)
      modifies this
      ensures Applied(e, f, r)
      ensures KeepsApp(old(db), e) && !f.cache ==> Coherent()
      ensures !f.database && !f.cache && e.Update? && e.rule.id in old(db).rules ==>
                (Coherent() <==> MoveHarmless(old(db).rules[e.rule.id], e.rule.appId, old(cache).Keys))
    {
      if f.database { return Err(DatabaseFailed); }
      var app := EditedApp(db, e);
      ghost var before := db;
      WriteWellFormed(db, e);
      db := Write(db, e);
      var ok := InvalidateCache(app, f);
      if KeepsApp(before, e) && !f.cache {
        forall x | x in cache ensures Reading(db, x, cache[x].list) {
          ReadingOfOtherApp(before, e, x, cache[x].list);
        }
      }
      if e.Update? && !f.cache {
        forall x | x in cache ensures Reading(db, x, cache[x].list) <==> !Active(before, x, e.rule.id) {
          MovedRuleLeavesStale(before, e.rule, x, cache[x].list);
        }
        if e.rule.id in before.rules {
          var home := before.rules[e.rule.id].appId;
          assert before.rules[e.rule.id].isEnabled ==> Active(before, home, e.rule.id);
          assert cache.Keys == old(cache).Keys - {e.rule.appId};
        }
      }
      return if ok then Ok(()) else Err(CacheFailed);
    }

    /** The update leaves the rule in its app, or the rule was active nowhere that is cached. */
    static ghost predicate MoveHarmless(before: Rule, app: string, cached: set<string>) {
      before.appId == app || !before.isEnabled || before.appId !in cached
    }

    function ByName(app: string, name: string): set<string>
      reads this
    {
      set id | id in db.rules && db.rules[id].appId == app && db.rules[id].name == name
    }

    /** Create; the database refuses an id it has. */
    method CreateRule(app: string, rule: Rule, f: EditFaults) returns (r: Result<(), ServiceError>)
      requires Coherent()
      modifies this
      ensures f.names ==> r == Err(DatabaseFailed) && Untouched()
      ensures !f.names && old(ByName(app, rule.name)) != {} ==> r == Err(NameExists) && Untouched()
      ensures !f.names && old(ByName(app, rule.name)) == {} && rule.id in old(db).rules ==>
                r == Err(DatabaseFailed) && Untouched()
      ensures !f.names && old(ByName(app, rule.name)) == {} && rule.id !in old(db).rules ==>
                Applied(Create(rule.(appId := app)), f, r)
      ensures !f.cache ==> Coherent()
    {
      if f.names { return Err(DatabaseFailed); }
      if ByName(app, rule.name) != {} { return Err(NameExists); }
      if rule.id in db.rules { return Err(DatabaseFailed); }
      r := WriteAndInvalidate(Create(rule.(appId := app)), f);
    }

    /** Update keeps cache and tables together exactly when the rule stays in its app, or
        was disabled, or its old app has nothing cached. */
    method UpdateRule(rule: Rule, f: EditFaults) returns (r: Result<(), ServiceError>)
      requires Coherent()
      modifies this
      ensures f.find ==> r == Err(DatabaseFailed) && Untouched()
      ensures !f.find && rule.id !in old(db).rules ==> r == Err(NotFound) && Untouched()
      ensures !f.find && rule.id in old(db).rules && old(db).rules[rule.id].name != rule.name ==>
                && (f.names ==> r == Err(DatabaseFailed) && Untouched())
                && (!f.names && !(old(ByName(rule.appId, rule.name)) <= {rule.id})
                    ==> r == Err(NameExists) && Untouched())
      ensures !f.find && rule.id in old(db).rules && old(db).rules[rule.id].name == rule.name ==>
                Applied(Update(rule), f, r)
      ensures !f.find && rule.id in old(db).rules && !f.names && old(ByName(rule.appId, rule.name)) <= {rule.id} ==>
                Applied(Update(rule), f, r)
      ensures r.Ok? ==> (Coherent() <==> MoveHarmless(old(db).rules[rule.id], rule.appId, old(cache).Keys))
      ensures r.Err? && !f.cache ==> Coherent()
    {
      if f.find { return Err(DatabaseFailed); }
      if rule.id !in db.rules { return Err(NotFound); }
      if rule.name != db.rules[rule.id].name {
        if f.names { return Err(DatabaseFailed); }
        if !(ByName(rule.appId, rule.name) <= {rule.id}) { return Err(NameExists); }
      }
      r := WriteAndInvalidate(Update(rule), f);
    }

    method DeleteRule(id: string, f: EditFaults) returns (r: Result<(), ServiceError>)
      requires Coherent()
      modifies this
      ensures f.find ==> r == Err(DatabaseFailed) && Untouched()
      ensures !f.find && id !in old(db).rules ==> r == Err(NotFound) && Untouched()
      ensures !f.find && id in old(db).rules ==> Applied(Delete(id), f, r)
      ensures !f.cache ==> Coherent()
    {
      if f.find { return Err(DatabaseFailed); }
      if id !in db.rules { return Err(NotFound); }
      r := WriteAndInvalidate(Delete(id), f);
    }

    /** AddConditions, UpdateConditions and RemoveConditions; the first two cannot write
        an empty list. */
    method EditConditions(e: Edit, f: EditFaults) returns (r: Result<(), ServiceError>)
      requires Coherent() && (e.AddConditions? || e.UpdateConditions? || e.RemoveConditions?)
      modifies this
      ensures f.find ==> r == Err(DatabaseFailed) && Untouched()
      ensures !f.find && e.id !in old(db).rules ==> r == Err(NotFound) && Untouched()
      ensures !f.find && e.id in old(db).rules && !e.RemoveConditions? && e.cs == [] ==>
                r == Err(DatabaseFailed) && Untouched()
      ensures !f.find && e.id in old(db).rules && (e.RemoveConditions? || e.cs != []) ==> Applied(e, f, r)
      ensures !f.cache ==> Coherent()
    {
      if f.find { return Err(DatabaseFailed); }
      if e.id !in db.rules { return Err(NotFound); }
      if !e.RemoveConditions? && e.cs == [] { return Err(DatabaseFailed); }
      r := WriteAndInvalidate(e, f);
    }
  }

  /** What the loop returns on one reading, said of every reading. */
  lemma VerdictOfReadings(db: Db, app: string, list: seq<Rule>, data: Data, done: bool, r: Option<Rule>)
    requires Reading(db, app, list)
    requires r.None? <==> forall i :: 0 <= i < |list| ==> !Allows(list[i], data, done)
    requires r.Some? ==> exists i :: IsFirstAllowing(list, data, done, i) && r.value == list[i]
    ensures forall other :: Reading(db, app, other) ==> (r.Some? <==> Verdict(other, data, done))
    ensures r.Some? ==> Allows(r.value, data, done) && Active(db, app, r.value.id)
    ensures r.Some? ==> forall other, q :: Reading(db, app, other) && q in other && Allows(q, data, done)
                                           ==> q.priority <= r.value.priority
  {
    assert r.Some? <==> Verdict(list, data, done);
    forall other | Reading(db, app, other) ensures r.Some? <==> Verdict(other, data, done) {
      ReadingsAgree(db, app, list, other, data, done);
    }
    if r.Some? {
      var i :| IsFirstAllowing(list, data, done, i) && r.value == list[i];
      assert Bare(list)[i].id == r.value.id;
      ReadingByPriority(db, app, list);
      forall other, q | Reading(db, app, other) && q in other && Allows(q, data, done)
        ensures q.priority <= r.value.priority
      {
        ReadingsCover(db, app, other, list);
        var p :| p in list && Reordered(q, p);
        ReorderedAllows(q, p, data, done);
        FirstHasGreatestPriority(list, data, done, i, p);
      }
    }
  }
}
