/** The rule tables of internal/repository/rule.go, the edits internal/service/rule.go
    makes to them, and what it means for a rule list to be a reading of them. */
module RuleTables {
  import opened RuleParser

  /** Rows by id, stored without conditions, and the condition rows of each rule. */
  datatype Db = Db(rules: map<string, Rule>, conds: map<string, seq<Condition>>)

  function Conds(db: Db, id: string): seq<Condition> {
    if id in db.conds then db.conds[id] else []
  }

  ghost predicate WellFormed(db: Db) {
    forall id :: id in db.rules ==> db.rules[id].id == id && db.rules[id].conditions == []
  }

  predicate Active(db: Db, app: string, id: string) {
    id in db.rules && db.rules[id].appId == app && db.rules[id].isEnabled
  }

  /** An answer of GetActiveRules: the enabled rows of the app in descending priority,
      rows of equal priority in any order. */
  ghost predicate ActiveRows(db: Db, app: string, rows: seq<Rule>) {
    && (forall i :: 0 <= i < |rows| ==> Active(db, app, rows[i].id) && rows[i] == db.rules[rows[i].id])
    && (forall id :: Active(db, app, id) ==> exists i :: 0 <= i < |rows| && rows[i].id == id)
    && (forall i, j :: 0 <= i < j < |rows| ==> rows[i].id != rows[j].id)
    && ByPriority(rows)
  }

  /** An answer of GetConditions: the condition rows of one rule in any order. */
  ghost predicate ConditionRows(db: Db, id: string, cs: seq<Condition>) {
    multiset(cs) == multiset(Conds(db, id))
  }

  /** The rows of a list without their conditions. */
  ghost function Bare(list: seq<Rule>): (r: seq<Rule>)
    ensures |r| == |list|
    ensures forall i :: 0 <= i < |list| ==> r[i] == list[i].(conditions := [])
  {
    seq(|list|, i requires 0 <= i < |list| => list[i].(conditions := []))
  }

  /** The list that LoadRules may build when nothing else touches the tables. */
  ghost predicate Reading(db: Db, app: string, list: seq<Rule>) {
    && ActiveRows(db, app, Bare(list))
    && forall i :: 0 <= i < |list| ==> ConditionRows(db, list[i].id, list[i].conditions)
  }

  /** Any two readings of the same tables list the same rules up to order. */
  lemma ReadingsCover(db: Db, app: string, a: seq<Rule>, b: seq<Rule>)
    requires Reading(db, app, a) && Reading(db, app, b)
    ensures Covers(a, b)
  {
    var a', b' := Bare(a), Bare(b);
    assert ActiveRows(db, app, a') && ActiveRows(db, app, b');
    forall r | r in a ensures exists q :: q in b && Reordered(r, q) {
      var i :| 0 <= i < |a| && a[i] == r;
      assert Active(db, app, a'[i].id) && a'[i] == db.rules[a'[i].id];
      var j :| 0 <= j < |b'| && b'[j].id == a'[i].id;
      assert b'[j] == db.rules[b'[j].id];
      assert ConditionRows(db, r.id, a[i].conditions) && ConditionRows(db, r.id, b[j].conditions);
      assert b[j] in b && Reordered(r, b[j]);
    }
  }

  /** So evaluating any reading gives the same verdict. */
  lemma ReadingsAgree(db: Db, app: string, a: seq<Rule>, b: seq<Rule>, data: Data, done: bool)
    requires Reading(db, app, a) && Reading(db, app, b)
    ensures Verdict(a, data, done) == Verdict(b, data, done)
  {
    ReadingsCover(db, app, a, b);
    ReadingsCover(db, app, b, a);
    VerdictIgnoresOrder(a, b, data, done);
  }

  lemma ReadingByPriority(db: Db, app: string, list: seq<Rule>)
    requires Reading(db, app, list)
    ensures ByPriority(list)
  {
    var bare := Bare(list);
    forall i, j | 0 <= i < j < |list| ensures list[i].priority >= list[j].priority {
      assert bare[i].priority >= bare[j].priority;
    }
  }

  // ---------- edits ----------

  datatype Edit =
    | Create(rule: Rule)
    | Update(rule: Rule)
    | Delete(id: string)
    | AddConditions(id: string, cs: seq<Condition>)
    | UpdateConditions(id: string, cs: seq<Condition>)
    | RemoveConditions(id: string)

  function Target(e: Edit): string {
    match e
    case Create(r) => r.id
    case Update(r) => r.id
    case Delete(id) => id
    case AddConditions(id, _) => id
    case UpdateConditions(id, _) => id
    case RemoveConditions(id) => id
  }

  /** The database write of an edit, one transaction. */
  function Write(db: Db, e: Edit): Db {
    match e
    case Create(r) => Db(db.rules[r.id := r.(conditions := [])], db.conds[r.id := r.conditions])
    case Update(r) => db.(rules := db.rules[r.id := r.(conditions := [])])
    case Delete(id) => Db(db.rules - {id}, db.conds - {id})
    case AddConditions(id, cs) => db.(conds := db.conds[id := Conds(db, id) + cs])
    case UpdateConditions(id, cs) => db.(conds := db.conds[id := cs])
    case RemoveConditions(id) => db.(conds := db.conds - {id})
  }

  /** The app whose cache entry the edit deletes afterwards. */
  function EditedApp(db: Db, e: Edit): string {
    match e
    case Create(r) => r.appId
    case Update(r) => r.appId
    case _ => if Target(e) in db.rules then db.rules[Target(e)].appId else ""
  }

  /** The edit leaves its rule in the app it is in: a new id for Create, an existing
      rule of the same app for the others. */
  predicate KeepsApp(db: Db, e: Edit) {
    match e
    case Create(r) => r.id !in db.rules
    case Update(r) => r.id in db.rules && db.rules[r.id].appId == r.appId
    case _ => Target(e) in db.rules
  }

  lemma WriteWellFormed(db: Db, e: Edit)
    requires WellFormed(db)
    ensures WellFormed(Write(db, e))
  {
  }

  /** An edit of one app leaves the rows of every other app as they were. */
  lemma OtherAppUntouched(db: Db, e: Edit, app: string)
    requires KeepsApp(db, e) && EditedApp(db, e) != app
    ensures var db1 := Write(db, e);
            && (forall id :: Active(db1, app, id) <==> Active(db, app, id))
            && (forall id :: Active(db, app, id) ==> db1.rules[id] == db.rules[id] && Conds(db1, id) == Conds(db, id))
  {
  }

  /** So a list is a reading of another app after the edit exactly when it was before. */
  lemma ReadingOfOtherApp(db: Db, e: Edit, app: string, list: seq<Rule>)
    requires KeepsApp(db, e) && EditedApp(db, e) != app
    ensures Reading(Write(db, e), app, list) <==> Reading(db, app, list)
  {
    OtherAppUntouched(db, e, app);
    var db1 := Write(db, e);
    if Reading(db, app, list) { SameActiveRows(db, db1, app, list); }
    if Reading(db1, app, list) { SameActiveRows(db1, db, app, list); }
  }

  lemma SameActiveRows(db: Db, db1: Db, app: string, list: seq<Rule>)
    requires Reading(db, app, list)
    requires forall id :: Active(db1, app, id) ==> Active(db, app, id)
    requires forall id :: Active(db, app, id) ==>
                            Active(db1, app, id) && db1.rules[id] == db.rules[id] && Conds(db1, id) == Conds(db, id)
    ensures Reading(db1, app, list)
  {
    var bare := Bare(list);
    assert ActiveRows(db, app, bare);
    assert ActiveRows(db1, app, bare) by {
      forall id | Active(db1, app, id) ensures exists i :: 0 <= i < |bare| && bare[i].id == id {
        assert Active(db, app, id);
      }
    }
    forall i | 0 <= i < |list| ensures ConditionRows(db1, list[i].id, list[i].conditions) {
      assert Active(db, app, bare[i].id);
    }
  }

  /** Update deletes only the entry of the app named in the new row. Of an app the rule is
      not in afterwards, every reading goes stale at once exactly when the rule was active
      there. */
  lemma MovedRuleLeavesStale(db: Db, r: Rule, app: string, list: seq<Rule>)
    requires Reading(db, app, list) && r.appId != app
    ensures EditedApp(db, Update(r)) != app
    ensures Reading(Write(db, Update(r)), app, list) <==> !Active(db, app, r.id)
  {
    var bare, db1 := Bare(list), Write(db, Update(r));
    if Active(db, app, r.id) {
      var i :| 0 <= i < |bare| && bare[i].id == r.id;
      assert !Active(db1, app, bare[i].id);
    } else {
      SameActiveRows(db, db1, app, list);
    }
  }

  // ---------- what an edit leaves ----------

  /** The rule with this id as the tables have it. */
  function Full(db: Db, id: string): Rule
    requires id in db.rules
  {
    db.rules[id].(conditions := Conds(db, id))
  }

  ghost predicate Lists(list: seq<Rule>, id: string) {
    exists x :: x in list && x.id == id
  }

  lemma ReadingShows(db: Db, app: string, list: seq<Rule>)
    requires WellFormed(db) && Reading(db, app, list)
    ensures forall id :: Lists(list, id) <==> Active(db, app, id)
    ensures forall x :: x in list ==> Active(db, app, x.id) && Reordered(x, Full(db, x.id))
  {
    var bare := Bare(list);
    assert ActiveRows(db, app, bare);
    forall x | x in list ensures Active(db, app, x.id) && Reordered(x, Full(db, x.id)) {
      var i :| 0 <= i < |list| && list[i] == x;
      assert bare[i] == db.rules[bare[i].id];
    }
    forall id | Active(db, app, id) ensures Lists(list, id) {
      var i :| 0 <= i < |bare| && bare[i].id == id;
      assert list[i] in list && list[i].id == id;
    }
  }

  /** What is read after an edit has the rules of all other ids just as before. */
  lemma EditSparesOthers(db: Db, e: Edit, app: string, list: seq<Rule>, id: string)
    requires WellFormed(db) && Reading(Write(db, e), app, list) && id != Target(e)
    ensures Lists(list, id) <==> Active(db, app, id)
    ensures forall x :: x in list && x.id == id ==> Reordered(x, Full(db, id))
  {
    hide Reading;
    WriteWellFormed(db, e);
    ReadingShows(Write(db, e), app, list);
  }

  /** The rule that is to be read for an edit's id afterwards, if it exists then: the given
      one for Create; for Update the given settings with the conditions as they were; no rule
      for Delete; and for the others the rule as it was, with the conditions added,
      exchanged or removed. */
  lemma EditIsRead(db: Db, e: Edit, app: string, list: seq<Rule>)
    requires WellFormed(db) && Reading(Write(db, e), app, list)
    ensures match e
            case Create(r) =>
              && (Lists(list, r.id) <==> r.appId == app && r.isEnabled)
              && forall x :: x in list && x.id == r.id ==> Reordered(x, r)
            case Update(r) =>
              && (Lists(list, r.id) <==> r.appId == app && r.isEnabled)
              && forall x :: x in list && x.id == r.id ==> Reordered(x, r.(conditions := Conds(db, r.id)))
            case Delete(id) => !Lists(list, id)
            case AddConditions(id, cs) =>
              && (Lists(list, id) <==> Active(db, app, id))
              && forall x :: x in list && x.id == id ==> Reordered(x, db.rules[id].(conditions := Conds(db, id) + cs))
            case UpdateConditions(id, cs) =>
              && (Lists(list, id) <==> Active(db, app, id))
              && forall x :: x in list && x.id == id ==> Reordered(x, db.rules[id].(conditions := cs))
            case RemoveConditions(id) =>
              && (Lists(list, id) <==> Active(db, app, id))
              && forall x :: x in list && x.id == id ==> x == db.rules[id] && x.conditions == []
  {
    WriteWellFormed(db, e);
    ReadingShows(Write(db, e), app, list);
    if e.RemoveConditions? {
      forall x | x in list && x.id == e.id ensures x == db.rules[x.id] && x.conditions == [] {
        assert Reordered(x, Full(Write(db, e), x.id));
        assert |multiset(x.conditions)| == 0;
      }
    }
  }
}
