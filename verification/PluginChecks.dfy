/** The two-pass completion check of internal/service/verification_plugin.go. */
module PluginChecks {
  import opened Common
  import opened VerificationTables

  datatype Answer = Yes | No | Fails

  /** The verdicts of a Verifiable plugin, which the workflow does not decide; welcomes is
      whether its success callback returns without an error. */
  datatype Oracle = Oracle(needs: (string, string, Context) -> Answer, holds: (string, string, nat) -> Answer,
                           welcomes: (string, string, Context) -> bool)

  /** A running plugin: its metadata, and its oracle if it is Verifiable. */
  datatype Plugin = Plugin(name: string, actions: seq<string>, required: bool, stage: string, oracle: Option<Oracle>)

  datatype PluginConfig = PluginConfig(name: string, enabled: bool)

  /** What the plugin manager answers for one app during one call; its two queries of the
      configurations may fail. */
  datatype World = World(configs: seq<PluginConfig>, running: map<string, Plugin>, listFails: bool, configsFail: bool)

  datatype Requirement = Requirement(name: string, required: bool, stage: string, status: string)

  function FindPlugin(w: World, app: string, name: string): Option<Plugin> {
    if app == "" || name == "" || name !in w.running then None else Some(w.running[name])
  }

  /** A failed query reads as an empty list. */
  function ListPlugins(w: World, app: string): seq<PluginConfig> {
    if app == "" || w.listFails then [] else Keep(w.configs, (c: PluginConfig) => c.enabled)
  }

  // ---------- which plugins an action requires ----------

  /** A request for verification: who wants to do what. */
  datatype Request = Request(app: string, user: string, action: string, context: Context)

  /** Whether a configuration row puts its plugin on the list. */
  function Wanted(w: World, q: Request, c: PluginConfig): Answer {
    match FindPlugin(w, q.app, c.name)
    case None => No
    case Some(p) =>
      if !c.enabled || q.action !in p.actions then No
      else if p.required then Yes
      else if p.oracle.None? then No
      else p.oracle.value.needs(q.user, q.action, q.context)
  }

  function Listed(w: World, q: Request, c: PluginConfig): Requirement
    requires Wanted(w, q, c).Yes?
  {
    var p := FindPlugin(w, q.app, c.name).value;
    Requirement(c.name, p.required, p.stage, PENDING)
  }

  function RequiredOf(w: World, q: Request, configs: seq<PluginConfig>): Result<seq<Requirement>, VerificationError> {
    if configs == [] then Ok([])
    else
      var n := |configs| - 1;
      var before := RequiredOf(w, q, configs[..n]);
      if before.Err? then before
      else
        match Wanted(w, q, configs[n])
        case Fails => Err(CheckFailed)
        case No => before
        case Yes => Ok(before.value + [Listed(w, q, configs[n])])
  }

  function GetRequired(w: World, q: Request): Result<seq<Requirement>, VerificationError> {
    if ListPlugins(w, q.app) == [] then Ok([])
    else if w.configsFail then Err(DatabaseFailed)
    else RequiredOf(w, q, w.configs)
  }

  function WantedOf(w: World, q: Request, configs: seq<PluginConfig>): (r: seq<PluginConfig>)
    ensures forall c :: c in r <==> c in configs && Wanted(w, q, c).Yes?
  {
    KeepExact(configs, (c: PluginConfig) => Wanted(w, q, c).Yes?);
    Keep(configs, (c: PluginConfig) => Wanted(w, q, c).Yes?)
  }

  /** The list fails exactly when some plugin's NeedsVerification does; otherwise it holds
      one pending entry for each wanted plugin, in the order of the configurations. */
  lemma {:induction false} RequiredExact(w: World, q: Request, configs: seq<PluginConfig>)
    ensures var r := RequiredOf(w, q, configs);
            var wanted := WantedOf(w, q, configs);
            && (r.Err? <==> exists c :: c in configs && Wanted(w, q, c).Fails?)
            && (r.Ok? ==> |r.value| == |wanted|
                          && forall i :: 0 <= i < |wanted| ==> r.value[i] == Listed(w, q, wanted[i]))
  {
    hide Wanted;
    if configs != [] {
      var n := |configs| - 1;
      RequiredExact(w, q, configs[..n]);
      assert configs == configs[..n] + [configs[n]];
      forall c ensures c in configs <==> c in configs[..n] || c == configs[n] {}
    }
  }

  /** Leaving early when no plugin is enabled changes nothing. */
  lemma {:induction false} EarlyReturnIdle(w: World, q: Request, configs: seq<PluginConfig>)
    requires q.app == "" || forall c :: c in configs ==> !c.enabled
    ensures RequiredOf(w, q, configs) == Ok([])
  {
    if configs != [] {
      assert configs == configs[..|configs| - 1] + [configs[|configs| - 1]];
      EarlyReturnIdle(w, q, configs[..|configs| - 1]);
    }
  }

  /** Leaving early agrees with the loop, except that it hides a failed query: then
      nothing is required at all. */
  lemma GetRequiredExact(w: World, q: Request)
    ensures GetRequired(w, q) ==
            if w.listFails then Ok([])
            else if w.configsFail && q.app != "" && (exists c :: c in w.configs && c.enabled) then Err(DatabaseFailed)
            else RequiredOf(w, q, w.configs)
  {
    if !w.listFails {
      KeepExact(w.configs, (c: PluginConfig) => c.enabled);
      var enabled := Keep(w.configs, (c: PluginConfig) => c.enabled);
      if q.app == "" || enabled == [] {
        forall c | q.app != "" && c in w.configs ensures !c.enabled { assert c !in enabled; }
        EarlyReturnIdle(w, q, w.configs);
      } else {
        assert enabled[0] in enabled;
      }
    }
  }

  /** A configuration row makes the user pass its plugin: it is enabled, the plugin runs in the
      app and covers the action, and is required there or says itself that it is needed. */
  ghost predicate MustPass(w: World, q: Request, c: PluginConfig) {
    && c.enabled && q.app != "" && c.name != "" && c.name in w.running
    && var p := w.running[c.name];
       && (exists i :: 0 <= i < |p.actions| && p.actions[i] == q.action)
       && (p.required || (p.oracle.Some? && p.oracle.value.needs(q.user, q.action, q.context) == Yes))
  }

  /** The list, where it can be drawn up, names exactly the plugins that must be passed, all
      pending; a failed query of the plugins leaves it empty. */
  lemma ListsExactly(w: World, q: Request, name: string)
    requires GetRequired(w, q).Ok?
    ensures var list := GetRequired(w, q).value;
            && ((exists i :: 0 <= i < |list| && list[i].name == name) <==>
                !w.listFails && exists c :: c in w.configs && c.name == name && MustPass(w, q, c))
            && (forall i :: 0 <= i < |list| ==>
                  && list[i].status == PENDING && list[i].name in w.running
                  && var p := w.running[list[i].name]; list[i].required == p.required && list[i].stage == p.stage)
  {
    hide RequiredOf, GetRequired;
    GetRequiredExact(w, q);
    if !w.listFails {
      RequiredExact(w, q, w.configs);
      forall c ensures Wanted(w, q, c).Yes? <==> MustPass(w, q, c) { WantedExactly(w, q, c); }
      var wanted, list := WantedOf(w, q, w.configs), GetRequired(w, q).value;
      if c :| c in w.configs && c.name == name && MustPass(w, q, c) {
        assert c in wanted;
        var i :| 0 <= i < |wanted| && wanted[i] == c;
        assert list[i].name == name;
      }
      forall i | 0 <= i < |list| ensures wanted[i] in w.configs && MustPass(w, q, wanted[i]) {
        assert wanted[i] in wanted;
      }
    }
  }

  lemma WantedExactly(w: World, q: Request, c: PluginConfig)
    ensures Wanted(w, q, c).Yes? <==> MustPass(w, q, c)
  {
    if q.app != "" && c.name != "" && c.name in w.running {
      var actions := w.running[c.name].actions;
      assert q.action in actions <==> exists i :: 0 <= i < |actions| && actions[i] == q.action;
    }
  }

  /** The loop stops at the first failure. */
  lemma {:induction false} FailureStands(w: World, q: Request, configs: seq<PluginConfig>, n: nat)
    requires n <= |configs| && RequiredOf(w, q, configs[..n]).Err?
    ensures RequiredOf(w, q, configs) == Err(CheckFailed)
  {
    var m := |configs| - 1;
    if n <= m {
      assert configs[..m][..n] == configs[..n];
      FailureStands(w, q, configs[..m], n);
    } else {
      assert configs[..n] == configs;
      if RequiredOf(w, q, configs[..m]).Err? {
        assert configs[..m][..m] == configs[..m];
        FailureStands(w, q, configs[..m], m);
      }
    }
  }

  method GetRequiredPlugins(w: World, q: Request) returns (r: Result<seq<Requirement>, VerificationError>)
    ensures r == GetRequired(w, q)
  {
    var installed := ListPlugins(w, q.app);
    if |installed| == 0 { return Ok([]); }
    if w.configsFail { return Err(DatabaseFailed); }
    var requirements := [];
    for i := 0 to |w.configs|
      invariant RequiredOf(w, q, w.configs[..i]) == Ok(requirements)
    {
      var config := w.configs[i];
      assert w.configs[..i + 1][..i] == w.configs[..i];
      if !config.enabled { continue; }
      var plugin := FindPlugin(w, q.app, config.name);
      if plugin.None? { continue; }
      var p := plugin.value;
      var actionMatch := false;
      for k := 0 to |p.actions|
        invariant actionMatch <==> q.action in p.actions[..k]
        invariant actionMatch ==> q.action in p.actions
      {
        if p.actions[k] == q.action {
          actionMatch := true;
          break;
        }
      }
      if !actionMatch { continue; }
      if p.required {
        requirements := requirements + [Requirement(config.name, true, p.stage, PENDING)];
        continue;
      }
      var needsVerify := if p.oracle.None? then No else p.oracle.value.needs(q.user, q.action, q.context);
      if needsVerify.Fails? {
        FailureStands(w, q, w.configs, i + 1);
        return Err(CheckFailed);
      }
      if needsVerify.No? { continue; }
      requirements := requirements + [Requirement(config.name, false, p.stage, PENDING)];
    }
    assert w.configs[..|w.configs|] == w.configs;
    return Ok(requirements);
  }

  // ---------- one plugin ----------

  /** The last row for a plugin, which is the one the status maps keep. */
  function LastOf(rows: seq<StatusRow>, plugin: string): (r: Option<StatusRow>)
    ensures r.None? <==> forall x :: x in rows ==> x.plugin != plugin
    ensures r.Some? ==> r.value in rows && r.value.plugin == plugin
  {
    if rows == [] then None
    else
      var n := |rows| - 1;
      assert rows == rows[..n] + [rows[n]];
      if rows[n].plugin == plugin then Some(rows[n]) else LastOf(rows[..n], plugin)
  }

  method BuildStatusMaps(rows: seq<StatusRow>)
    returns (statusMap: map<string, string>, verificationMap: map<string, StatusRow>)
    ensures forall p :: p in verificationMap <==> LastOf(rows, p).Some?
    ensures forall p :: p in verificationMap ==> verificationMap[p] == LastOf(rows, p).value
    ensures statusMap == map p | p in verificationMap :: verificationMap[p].status
  {
    statusMap, verificationMap := map[], map[];
    for i := 0 to |rows|
      invariant forall p :: p in verificationMap <==> LastOf(rows[..i], p).Some?
      invariant forall p :: p in verificationMap ==> verificationMap[p] == LastOf(rows[..i], p).value
      invariant statusMap.Keys == verificationMap.Keys
      invariant forall p :: p in statusMap ==> statusMap[p] == verificationMap[p].status
    {
      assert rows[..i + 1][..i] == rows[..i];
      statusMap := statusMap[rows[i].plugin := rows[i].status];
      verificationMap := verificationMap[rows[i].plugin := rows[i]];
    }
    assert rows[..|rows|] == rows;
  }

  datatype Verdict = Satisfied(marked: bool) | Unsatisfied | Broken

  /** What one check looks at: the plugins, the session, and the session's rows. */
  datatype Case = Case(world: World, session: Session, rows: seq<StatusRow>)

  predicate Recorded(c: Case, name: string) {
    LastOf(c.rows, name).Some? && LastOf(c.rows, name).value.status == COMPLETED
  }

  /** The plugin is its own judge: it is not Verifiable, or accepts its latest record. */
  function Vouches(c: Case, p: Plugin): Answer {
    if p.oracle.None? then Yes
    else
      match LastOf(c.rows, p.name)
      case None => No
      case Some(row) =>
        var uid := if c.session.userId.Some? then c.session.userId.value else "";
        p.oracle.value.holds(uid, c.session.action, row.id)
  }

  function Judge(c: Case, name: string): Verdict {
    if Recorded(c, name) then Satisfied(true)
    else
      match FindPlugin(c.world, c.session.app, name)
      case None => Satisfied(false)
      case Some(p) =>
        match Vouches(c, p)
        case Yes => Satisfied(true)
        case No => Unsatisfied
        case Fails => Broken
  }

  /** What satisfies a requirement: a completed last row, a plugin that is gone or not
      Verifiable, or one that accepts the last row under its own name; without a row it has
      nothing to accept. Only a plugin that is asked can break the check. */
  lemma JudgesExactly(c: Case, name: string)
    ensures var running := c.session.app != "" && name != "" && name in c.world.running;
            var verifiable := running && c.world.running[name].oracle.Some?;
            var recorded := LastOf(c.rows, name).Some? && LastOf(c.rows, name).value.status == COMPLETED;
            var row := if running then LastOf(c.rows, c.world.running[name].name) else None;
            var user := if c.session.userId.Some? then c.session.userId.value else "";
            var answer := if verifiable && row.Some?
                          then c.world.running[name].oracle.value.holds(user, c.session.action, row.value.id) else No;
            && (Judge(c, name).Satisfied? <==> recorded || !verifiable || answer == Yes)
            && (Judge(c, name).Broken? <==> !recorded && answer == Fails)
  {
  }

  /** The arguments that every check of one session shares. */
  ghost predicate Backs(c: Case, w: World, session: Session, statusMap: map<string, string>,
                        verificationMap: map<string, StatusRow>)
  {
    && w == c.world && session == c.session
    && (forall p :: p in verificationMap <==> LastOf(c.rows, p).Some?)
    && (forall p :: p in verificationMap ==> verificationMap[p] == LastOf(c.rows, p).value)
    && statusMap == map p | p in verificationMap :: verificationMap[p].status
  }

  /** validateSinglePlugin writes the mark into the requirement it was given. */
  method ValidateSinglePlugin(ghost c: Case, w: World, session: Session, reqs: array<Requirement>, i: nat,
                              statusMap: map<string, string>, verificationMap: map<string, StatusRow>)
    returns (completed: bool, next: Option<nat>, failed: bool)
    requires i < reqs.Length && Backs(c, w, session, statusMap, verificationMap)
    modifies reqs
    ensures var v := Judge(c, old(reqs[i]).name);
            && failed == v.Broken? && completed == v.Satisfied?
            && next == (if v.Unsatisfied? then Some(i) else None)
            && reqs[..] == old(reqs[..])[i := Marked(c, old(reqs[i]))]
  {
    var name := reqs[i].name;
    if name in statusMap && statusMap[name] == COMPLETED {
      reqs[i] := reqs[i].(status := COMPLETED);
      return true, None, false;
    }
    var plugin := FindPlugin(w, session.app, name);
    if plugin.None? { return true, None, false; }
    var valid: Answer;
    if plugin.value.oracle.None? {
      valid := Yes;
    } else if plugin.value.name !in verificationMap {
      valid := No;
    } else {
      var uid := if session.userId.Some? then session.userId.value else "";
      valid := plugin.value.oracle.value.holds(uid, session.action, verificationMap[plugin.value.name].id);
    }
    if valid.Fails? { return false, None, true; }
    if valid.Yes? {
      reqs[i] := reqs[i].(status := COMPLETED);
      return true, None, false;
    }
    return false, Some(i), false;
  }

  // ---------- the two passes ----------

  function Marked(c: Case, x: Requirement): Requirement {
    if Judge(c, x.name) == Satisfied(true) then x.(status := COMPLETED) else x
  }

  /** The requirements as marked so far, the first unsatisfied one, and whether a check failed. */
  datatype Progress = Progress(reqs: seq<Requirement>, next: Option<nat>, failed: bool)

  /** One pass over the first n requirements of one kind. */
  function Pass(c: Case, reqs: seq<Requirement>, required: bool, n: nat): (p: Progress)
    requires n <= |reqs|
    ensures |p.reqs| == |reqs|
  {
    if n == 0 then Progress(reqs, None, false)
    else
      var p := Pass(c, reqs, required, n - 1);
      if p.failed || reqs[n - 1].required != required then p
      else
        var v := Judge(c, reqs[n - 1].name);
        Progress(p.reqs[n - 1 := Marked(c, reqs[n - 1])],
                 if v.Unsatisfied? && p.next.None? then Some(n - 1) else p.next, v.Broken?)
  }

  predicate Unmet(c: Case, reqs: seq<Requirement>, required: bool, i: nat)
    requires i < |reqs|
  {
    reqs[i].required == required && Judge(c, reqs[i].name).Unsatisfied?
  }

  predicate Breaks(c: Case, reqs: seq<Requirement>, required: bool, i: nat)
    requires i < |reqs|
  {
    reqs[i].required == required && Judge(c, reqs[i].name).Broken?
  }

  /** i is the first unmet requirement of its kind among the first n. */
  predicate FirstUnmet(c: Case, reqs: seq<Requirement>, required: bool, n: nat, i: nat)
    requires n <= |reqs|
  {
    i < n && Unmet(c, reqs, required, i) && forall k: nat :: k < i ==> !Unmet(c, reqs, required, k)
  }

  lemma {:induction false} PassFails(c: Case, reqs: seq<Requirement>, required: bool, n: nat)
    requires n <= |reqs|
    ensures Pass(c, reqs, required, n).failed <==> exists i: nat :: i < n && Breaks(c, reqs, required, i)
  {
    hide Judge, Marked;
    if n > 0 {
      PassFails(c, reqs, required, n - 1);
      assert Breaks(c, reqs, required, n - 1) ==> Pass(c, reqs, required, n).failed;
    }
  }

  lemma {:induction false} PassNext(c: Case, reqs: seq<Requirement>, required: bool, n: nat)
    requires n <= |reqs| && !Pass(c, reqs, required, n).failed
    ensures var next := Pass(c, reqs, required, n).next;
            && (next.None? ==> forall i: nat :: i < n ==> !Unmet(c, reqs, required, i))
            && (next.Some? ==> FirstUnmet(c, reqs, required, n, next.value))
  {
    hide Judge, Marked;
    if n > 0 { PassNext(c, reqs, required, n - 1); }
  }

  lemma {:induction false} PassMarks(c: Case, reqs: seq<Requirement>, required: bool, n: nat)
    requires n <= |reqs| && !Pass(c, reqs, required, n).failed
    ensures var p := Pass(c, reqs, required, n);
            forall i: nat :: i < |reqs| ==>
              p.reqs[i] == if i < n && reqs[i].required == required then Marked(c, reqs[i]) else reqs[i]
  {
    hide Judge, Marked;
    if n > 0 { PassMarks(c, reqs, required, n - 1); }
  }

  /** What the second pass sees of the list that the first one marked. */
  lemma SecondPassSees(c: Case, reqs: seq<Requirement>)
    requires !Pass(c, reqs, true, |reqs|).failed
    ensures var marked := Pass(c, reqs, true, |reqs|).reqs;
            && (forall i: nat :: i < |reqs| ==> Unmet(c, marked, false, i) == Unmet(c, reqs, false, i))
            && (forall i: nat :: i < |reqs| ==> Breaks(c, marked, false, i) == Breaks(c, reqs, false, i))
  {
    hide Judge;
    PassMarks(c, reqs, true, |reqs|);
  }

  /** A pass stops at the first check that fails. */
  lemma {:induction false} PassStands(c: Case, reqs: seq<Requirement>, required: bool, n: nat, m: nat)
    requires n <= m <= |reqs| && Pass(c, reqs, required, n).failed
    ensures Pass(c, reqs, required, m) == Pass(c, reqs, required, n)
  {
    if n < m { PassStands(c, reqs, required, n, m - 1); }
  }

  method ValidateRequiredPlugins(ghost c: Case, w: World, session: Session, reqs: array<Requirement>,
                                 statusMap: map<string, string>, verificationMap: map<string, StatusRow>)
    returns (allCompleted: bool, next: Option<nat>, failed: bool)
    requires Backs(c, w, session, statusMap, verificationMap)
    modifies reqs
    ensures var p := Pass(c, old(reqs[..]), true, reqs.Length);
            failed == p.failed && (!failed ==> next == p.next && allCompleted == next.None?) && reqs[..] == p.reqs
  {
    ghost var before := reqs[..];
    allCompleted, next, failed := true, None, false;
    for i := 0 to reqs.Length
      invariant Pass(c, before, true, i) == Progress(reqs[..], next, false)
      invariant allCompleted == next.None? && forall k :: i <= k < reqs.Length ==> reqs[k] == before[k]
    {
      if !reqs[i].required { continue; }
      var completed, candidate, broken := ValidateSinglePlugin(c, w, session, reqs, i, statusMap, verificationMap);
      assert Pass(c, before, true, i + 1).reqs == reqs[..];
      if broken {
        PassStands(c, before, true, i + 1, reqs.Length);
        return false, None, true;
      }
      if !completed {
        allCompleted := false;
        if next.None? { next := candidate; }
      }
    }
  }

  method ValidateOptionalPlugins(ghost c: Case, w: World, session: Session, reqs: array<Requirement>,
                                 statusMap: map<string, string>, verificationMap: map<string, StatusRow>)
    returns (next: Option<nat>, failed: bool)
    requires Backs(c, w, session, statusMap, verificationMap)
    modifies reqs
    ensures var p := Pass(c, old(reqs[..]), false, reqs.Length);
            failed == p.failed && (!failed ==> next == p.next) && reqs[..] == p.reqs
  {
    ghost var before := reqs[..];
    next, failed := None, false;
    for i := 0 to reqs.Length
      invariant Pass(c, before, false, i) == Progress(reqs[..], next, false)
      invariant forall k :: i <= k < reqs.Length ==> reqs[k] == before[k]
    {
      if reqs[i].required { continue; }
      var completed, candidate, broken := ValidateSinglePlugin(c, w, session, reqs, i, statusMap, verificationMap);
      assert Pass(c, before, false, i + 1).reqs == reqs[..];
      if broken {
        PassStands(c, before, false, i + 1, reqs.Length);
        return None, true;
      }
      if !completed && next.None? { next := candidate; }
    }
  }

  // ---------- the whole check ----------

  /** next is the position of the plugin in the list. */
  datatype VerificationStatus = VerificationStatus(completed: bool, status: string, next: Option<nat>,
                                                   plugins: seq<Requirement>)

  function Outcome(next: Option<nat>, plugins: seq<Requirement>): VerificationStatus {
    if next.None? then VerificationStatus(true, COMPLETED, None, plugins)
    else VerificationStatus(false, PENDING, next, plugins)
  }

  function Validate(c: Case, reqs: seq<Requirement>): Result<VerificationStatus, VerificationError> {
    var first := Pass(c, reqs, true, |reqs|);
    if first.failed then Err(CheckFailed)
    else if first.next.Some? then Ok(Outcome(first.next, first.reqs))
    else
      var second := Pass(c, first.reqs, false, |reqs|);
      if second.failed then Err(CheckFailed) else Ok(Outcome(second.next, second.reqs))
  }

  ghost predicate AllSatisfied(c: Case, reqs: seq<Requirement>) {
    forall i: nat :: i < |reqs| ==> Judge(c, reqs[i].name).Satisfied?
  }

  ghost predicate RequiredSatisfied(c: Case, reqs: seq<Requirement>) {
    forall i: nat :: i < |reqs| && reqs[i].required ==> Judge(c, reqs[i].name).Satisfied?
  }

  /** Optional plugins are looked at only when the required ones are all satisfied. */
  ghost predicate Examined(c: Case, reqs: seq<Requirement>, i: nat)
    requires i < |reqs|
  {
    reqs[i].required || RequiredSatisfied(c, reqs)
  }

  lemma RequiredPass(c: Case, reqs: seq<Requirement>)
    requires !Pass(c, reqs, true, |reqs|).failed
    ensures Pass(c, reqs, true, |reqs|).next.None? <==> RequiredSatisfied(c, reqs)
  {
    hide Judge, Pass;
    PassFails(c, reqs, true, |reqs|);
    PassNext(c, reqs, true, |reqs|);
    forall i: nat | i < |reqs| && reqs[i].required
      ensures Judge(c, reqs[i].name).Satisfied? <==> !Unmet(c, reqs, true, i)
    {
      assert !Breaks(c, reqs, true, i);
    }
    if RequiredSatisfied(c, reqs) {
      forall i: nat | i < |reqs| ensures !Unmet(c, reqs, true, i) {}
    }
  }

  /** The check fails exactly when a plugin it examines fails to judge itself. */
  lemma FailsExactly(c: Case, reqs: seq<Requirement>)
    ensures Validate(c, reqs).Err?
            <==> exists i: nat :: i < |reqs| && Examined(c, reqs, i) && Judge(c, reqs[i].name).Broken?
  {
    hide Judge, Pass;
    PassFails(c, reqs, true, |reqs|);
    var first := Pass(c, reqs, true, |reqs|);
    if first.failed {
      var i: nat :| i < |reqs| && Breaks(c, reqs, true, i);
      assert Examined(c, reqs, i) && Judge(c, reqs[i].name).Broken?;
    } else {
      RequiredPass(c, reqs);
      PassFails(c, first.reqs, false, |reqs|);
      SecondPassSees(c, reqs);
      forall i: nat | i < |reqs| && Judge(c, reqs[i].name).Broken? ensures Breaks(c, reqs, false, i) {
        assert !Breaks(c, reqs, true, i);
      }
    }
  }

  /** Completed means every requirement is satisfied. Otherwise the next plugin is the
      first unmet required one, or with none of those the first unmet optional one. */
  lemma CompletedExactly(c: Case, reqs: seq<Requirement>)
    requires Validate(c, reqs).Ok?
    ensures var s := Validate(c, reqs).value;
            && (s.completed <==> AllSatisfied(c, reqs))
            && (s.next.None? <==> s.completed)
            && (s.next.Some? ==> FirstUnmet(c, reqs, !RequiredSatisfied(c, reqs), |reqs|, s.next.value))
  {
    hide Judge, Pass;
    var first := Pass(c, reqs, true, |reqs|);
    RequiredPass(c, reqs);
    PassNext(c, reqs, true, |reqs|);
    if first.next.None? {
      SecondPassSees(c, reqs);
      PassNext(c, first.reqs, false, |reqs|);
      PassFails(c, first.reqs, false, |reqs|);
      forall i: nat | i < |reqs| && !reqs[i].required
        ensures Judge(c, reqs[i].name).Satisfied? <==> !Unmet(c, reqs, false, i)
      {
        assert !Breaks(c, reqs, false, i);
      }
    }
  }

  /** The returned list is the requirements in order, where exactly the examined ones
      that a record or a validation satisfies are marked completed. */
  lemma MarksExactly(c: Case, reqs: seq<Requirement>)
    requires Validate(c, reqs).Ok?
    ensures var s := Validate(c, reqs).value;
            && |s.plugins| == |reqs|
            && forall i: nat :: i < |reqs| ==>
                 s.plugins[i] == if Examined(c, reqs, i) then Marked(c, reqs[i]) else reqs[i]
  {
    hide Judge, Pass;
    var first := Pass(c, reqs, true, |reqs|);
    RequiredPass(c, reqs);
    PassMarks(c, reqs, true, |reqs|);
    if first.next.None? {
      PassMarks(c, first.reqs, false, |reqs|);
    }
  }

  // ---------- by session ----------

  function RowsOf(t: Tables, order: Order, session: Session): seq<StatusRow> {
    if session.userId.Some? then Listing(order, t.rows, session.app, session.userId.value, session.action)
    else order(ListByIdentifier(t.rows, session.app, session.identifier, session.identifierType, session.action))
  }

  function RequestOf(session: Session): Request {
    var user := if session.userId.Some? then session.userId.value else session.identifier;
    Request(session.app, user, session.action, session.context)
  }

  function ValidateBySession(t: Tables, now: int, d: Database, w: World, id: nat)
    : Result<VerificationStatus, VerificationError>
  {
    if CheckSession in d.failing then Err(DatabaseFailed)
    else
      match FindSession(t.sessions, now, id)
      case None => Err(SessionNotFound)
      case Some(session) =>
        if CheckRows in d.failing then Err(DatabaseFailed)
        else
          match GetRequired(w, RequestOf(session))
          case Err(e) => Err(e)
          case Ok(reqs) => Validate(Case(w, session, RowsOf(t, d.order, session)), reqs)
  }

  method ValidatePluginStatusBySession(t: Tables, now: int, d: Database, w: World, id: nat)
    returns (r: Result<VerificationStatus, VerificationError>)
    ensures r == ValidateBySession(t, now, d, w, id)
  {
    if CheckSession in d.failing { return Err(DatabaseFailed); }
    var found := FindSession(t.sessions, now, id);
    if found.None? { return Err(SessionNotFound); }
    if CheckRows in d.failing { return Err(DatabaseFailed); }
    var session := found.value;
    var rows := RowsOf(t, d.order, session);
    var statusMap, verificationMap := BuildStatusMaps(rows);
    var requirements := GetRequiredPlugins(w, RequestOf(session));
    if requirements.Err? { return Err(requirements.error); }
    ghost var c := Case(w, session, rows);
    var listed := requirements.value;
    var reqs := new Requirement[|listed|](i requires 0 <= i < |listed| => listed[i]);
    assert reqs[..] == listed;
    var allCompleted, next, failed := ValidateRequiredPlugins(c, w, session, reqs, statusMap, verificationMap);
    if failed { return Err(CheckFailed); }
    if allCompleted && next.None? {
      next, failed := ValidateOptionalPlugins(c, w, session, reqs, statusMap, verificationMap);
      if failed { return Err(CheckFailed); }
    }
    if allCompleted && next.None? {
      return Ok(VerificationStatus(true, COMPLETED, None, reqs[..]));
    }
    return Ok(VerificationStatus(false, PENDING, next, reqs[..]));
  }

  function ValidateActive(t: Tables, now: int, d: Database, w: World, app: string, user: string)
    : Result<VerificationStatus, VerificationError>
  {
    if CheckActive in d.failing then Err(DatabaseFailed)
    else
      match ActiveSession(t.sessions, now, app, user)
      case None => Err(NoActiveSession)
      case Some(session) => ValidateBySession(t, now, d, w, session.id)
  }
}
