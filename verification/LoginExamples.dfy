/** Runs of module LoginGate: that its theorems speak of runs there are, and that what it
    says can go wrong does. */
module LoginExamples {
  import opened Common
  import opened VerificationTables
  import opened VerificationFlow
  import opened PluginChecks
  import opened LoginGate

  /** An app with one required plugin that never vouches for anyone. */
  const STRICT := World([PluginConfig("otp", true)],
                        map["otp" := Plugin("otp", ["login", "register"], true, "pre_login",
                                            Some(Oracle((u, a, c) => Yes, (u, a, id) => No, (u, a, c) => true)))],
                        false, false)

  const BOTH := Worlds(STRICT, STRICT)
  const UNREADABLE := STRICT.(listFails := true)

  predicate StrictAction(action: string) {
    action == "login" || action == "register"
  }

  function StrictRequest(app: string, user: string, action: string): Request {
    Request(app, user, action, map[])
  }

  function StrictUpdate(now: int, app: string, user: string, action: string, status: string): Event {
    DoUpdate(now, app, user, action, "otp", status, STRICT, map[], CALM)
  }

  function StrictLogin(now: int, app: string, user: string): Event {
    DoLogin(now, app, Some(Account(user, true, false, false, false)), BOTH, map[], NONE)
  }

  function StrictRegister(now: int, app: string, user: string): Event {
    DoRegister(now, app, true, false, Some(user), BOTH, map[], NONE)
  }

  lemma StrictDemands(app: string, user: string, action: string)
    requires app != "" && StrictAction(action)
    ensures Demanded(STRICT, StrictRequest(app, user, action), "otp") && Asks(STRICT, StrictRequest(app, user, action))
    ensures GetRequired(STRICT, StrictRequest(app, user, action))
            == Ok([Requirement("otp", true, "pre_login", PENDING)])
  {
    var q := StrictRequest(app, user, action);
    GetRequiredExact(STRICT, q);
    assert STRICT.configs[..0] == [];
    var c := PluginConfig("otp", true);
    assert Wanted(STRICT, q, c) == Yes;
    assert RequiredOf(STRICT, q, STRICT.configs[..0]) == Ok([]);
    assert STRICT.configs[|STRICT.configs| - 1] == c;
    var none: seq<Requirement> := [];
    assert none + [Listed(STRICT, q, c)] == [Requirement("otp", true, "pre_login", PENDING)];
    assert RequiredOf(STRICT, q, STRICT.configs) == Ok(none + [Listed(STRICT, q, c)]);
  }

  lemma NoFaultsWork(t: Tables, now: int, q: Request)
    ensures CallsWork(t, now, CALM, q)
  {
  }

  lemma NoFaultsClear(t: Tables, now: int, app: string, user: string, action: string)
    ensures Clear(t, now, CALM, app, user, action).1.Ok?
  {
  }

  // ---------- one failed query is enough ----------

  /** A user without any record is kept out by a plugin that is demanded, and let in when
      either reading of the plugin list fails. */
  lemma OneFailureOpens(app: string, user: string)
    requires app != ""
    ensures var q := LoginRequest(app, user, map[]);
            && Demanded(STRICT, q, "otp") && !HasCompleted(EMPTY, KeyOf(q, "otp"))
            && !Vouched(EMPTY, 0, AS_INSERTED, STRICT, q, "otp")
            && !Opens(EMPTY, 0, CALM, BOTH, q)
            && Opens(EMPTY, 0, CALM, Worlds(UNREADABLE, STRICT), q)
            && Opens(EMPTY, 0, CALM, Worlds(STRICT, UNREADABLE), q)
  {
    hide GateCase, CallsWork, GetRequired, Opens;
    var q := LoginRequest(app, user, map[]);
    var c := GateCase(EMPTY, 0, AS_INSERTED, STRICT, q);
    StrictDemands(app, user, "login");
    NoFaultsWork(EMPTY, 0, q);
    EmptyCase(q);
    EmptyHasNone(KeyOf(q, "otp"));
    FailsExactly(c, GetRequired(STRICT, q).value);
    OpensExactly(EMPTY, 0, CALM, BOTH, q);
    UnlistedOpens(EMPTY, 0, CALM, Worlds(UNREADABLE, STRICT), q);
    UnlistedOpens(EMPTY, 0, CALM, Worlds(STRICT, UNREADABLE), q);
  }

  lemma EmptyCase(q: Request)
    requires q.app != ""
    ensures GateCase(EMPTY, 0, AS_INSERTED, STRICT, q).rows == []
    ensures Judge(GateCase(EMPTY, 0, AS_INSERTED, STRICT, q), "otp") == Unsatisfied
    ensures !Vouched(EMPTY, 0, AS_INSERTED, STRICT, q, "otp")
  {
  }

  // ---------- completions, logins and registrations ----------

  /** The rows of a user after an update: one more, and it is the latest of its plugin. */
  lemma UpdatedRow(t: Tables, now: int, app: string, user: string, action: string, status: string)
    ensures var t1 := Step(t, StrictUpdate(now, app, user, action, status));
            var last := LastOf(ListStatus(t1.rows, app, user, action), "otp");
            && last.Some? && last.value.status == status && last.value.updatedAt == now
            && ListStatus(t1.rows, app, user, action) == ListStatus(t.rows, app, user, action) + [last.value]
  {
    var t1 := Step(t, StrictUpdate(now, app, user, action, status));
    KeepMore(t.rows, t1.rows[|t.rows|], (r: StatusRow) => RowOf(r, app, user, action));
  }

  lemma StrictOpens(t: Tables, now: int, app: string, user: string, action: string)
    requires Dated(t, now - 1) && app != "" && StrictAction(action)
    requires Recorded(GateCase(t, now, AS_INSERTED, STRICT, StrictRequest(app, user, action)), "otp")
    ensures Opens(t, now, CALM, BOTH, StrictRequest(app, user, action))
  {
    hide Recorded, GateCase, Dated, GetRequired;
    StrictDemands(app, user, action);
    NoFaultsWork(t, now, StrictRequest(app, user, action));
    RecordsOpen(t, now, CALM, STRICT, StrictRequest(app, user, action));
  }

  /** Whoever completes the plugin finds the gate open. */
  lemma UpdateOpens(run: seq<Event>, n: nat, now: int, app: string, user: string, action: string)
    requires n < |run| && app != "" && StrictAction(action) && Dated(After(run, n), now)
    requires run[n] == StrictUpdate(now, app, user, action, COMPLETED)
    ensures Opens(After(run, n + 1), now + 1, CALM, BOTH, StrictRequest(app, user, action))
  {
    hide GateCase, Recorded, Step, ListStatus, Opens;
    var t1 := After(run, n + 1);
    var q := StrictRequest(app, user, action);
    AfterMore(run, n);
    StepDated(After(run, n), run[n]);
    UpdatedRow(After(run, n), now, app, user, action, COMPLETED);
    InheritedVerdict(t1, now + 1, STRICT, q, "otp");
    LastRecorded(STRICT, GateCase(t1, now + 1, AS_INSERTED, STRICT, q).session, ListStatus(t1.rows, app, user, action));
    StrictOpens(t1, now + 1, app, user, action);
  }

  lemma LastRecorded(w: World, session: Session, rows: seq<StatusRow>)
    requires LastOf(rows, "otp").Some? && LastOf(rows, "otp").value.status == COMPLETED
    ensures Recorded(Case(w, session, rows), "otp")
  {
  }

  lemma OpenLogsIn(t: Tables, now: int, app: string, user: string)
    requires Opens(t, now, CALM, BOTH, StrictRequest(app, user, "login"))
    ensures GatedLogin(t, StrictLogin(now, app, user)) && CleanLogin(t, StrictLogin(now, app, user))
  {
    hide Gate, Clear;
    NoFaultsClear(GatedTables(t, StrictLogin(now, app, user)), now, app, user, "login");
  }

  lemma OpenRegisters(t: Tables, now: int, app: string, user: string)
    requires Opens(t, now, CALM, BOTH, StrictRequest(app, TEMPORARY, "register"))
    ensures Registered(t, StrictRegister(now, app, user))
  {
    hide Gate, Clear, SetSessionUser;
    NoFaultsClear(RegisteredTables(t, StrictRegister(now, app, user)), now, app, user, "register");
  }

  /** A user who completes the plugin before each login. */
  function TwoLogins(app: string, user: string): seq<Event> {
    [StrictUpdate(0, app, user, "login", COMPLETED), StrictLogin(1, app, user),
     StrictUpdate(2, app, user, "login", COMPLETED), StrictLogin(3, app, user)]
  }

  /** So the theorem about two logins speaks of runs that there are. */
  lemma LoginsHappen(app: string, user: string)
    requires app != ""
    ensures var run := TwoLogins(app, user);
            var q := LoginRequest(app, user, map[]);
            && Clocked(run) && LogsInCleanly(run, 1, app, user) && LogsIn(run, 3, app, user)
            && Asks(run[3].worlds.first, q) && Demanded(run[3].worlds.second, q, "otp")
  {
    hide After, GatedLogin, CleanLogin, Demanded, Asks, Dated, Opens, STRICT;
    var run := TwoLogins(app, user);
    AlwaysDated(run, 0, 0);
    UpdateOpens(run, 0, 0, app, user, "login");
    OpenLogsIn(After(run, 1), 1, app, user);
    AlwaysDated(run, 2, 2);
    UpdateOpens(run, 2, 2, app, user, "login");
    OpenLogsIn(After(run, 3), 3, app, user);
    StrictDemands(app, user, "login");
  }

  /** Two users who complete the plugin as the temporary user, each before registering. */
  function TwoRegistrations(app: string, first: string, second: string): seq<Event> {
    [StrictUpdate(0, app, TEMPORARY, "register", COMPLETED), StrictRegister(1, app, first),
     StrictUpdate(2, app, TEMPORARY, "register", COMPLETED), StrictRegister(3, app, second)]
  }

  /** And the one about two registrations. */
  lemma RegistrationsHappen(app: string, first: string, second: string)
    requires app != ""
    ensures var run := TwoRegistrations(app, first, second);
            var q := RegisterRequest(app, map[]);
            && Clocked(run) && RegistersIn(run, 1, app) && RegistersIn(run, 3, app)
            && Asks(run[3].worlds.first, q) && Demanded(run[3].worlds.second, q, "otp")
  {
    hide After, Registered, Demanded, Asks, Dated, Opens, STRICT;
    var run := TwoRegistrations(app, first, second);
    AlwaysDated(run, 0, 0);
    UpdateOpens(run, 0, 0, app, TEMPORARY, "register");
    OpenRegisters(After(run, 1), 1, app, first);
    AlwaysDated(run, 2, 2);
    UpdateOpens(run, 2, 2, app, TEMPORARY, "register");
    OpenRegisters(After(run, 3), 3, app, second);
    StrictDemands(app, TEMPORARY, "register");
  }

  // ---------- inheritance over a failure ----------

  /** A user who completes the plugin and then fails it. */
  function FailedAfterwards(app: string, user: string): seq<Event> {
    [StrictUpdate(0, app, user, "login", COMPLETED), StrictUpdate(1, app, user, "login", FAILED),
     StrictLogin(2, app, user)]
  }

  lemma FailedRows(app: string, user: string)
    ensures var rows := ListStatus(After(FailedAfterwards(app, user), 2).rows, app, user, "login");
            && |rows| == 2 && rows[0].plugin == rows[1].plugin == "otp"
            && rows[0].status == COMPLETED && rows[0].updatedAt == 0 && rows[1].status == FAILED
            && LastOf(rows, "otp") == Some(rows[1])
  {
    hide After, Step, ListStatus;
    var run := FailedAfterwards(app, user);
    AfterMore(run, 0);
    AfterMore(run, 1);
    StartsEmpty(run);
    NothingListed(app, user);
    UpdatedRow(After(run, 0), 0, app, user, "login", COMPLETED);
    UpdatedRow(After(run, 1), 1, app, user, "login", FAILED);
  }

  /** Inheritance overrules the failure: the latest row says failed, and the login succeeds. */
  lemma InheritedOverFailure(app: string, user: string)
    requires app != ""
    ensures var run := FailedAfterwards(app, user);
            var last := LastOf(ListStatus(After(run, 2).rows, app, user, "login"), "otp");
            last.Some? && last.value.status == FAILED && LogsIn(run, 2, app, user)
  {
    hide After, Step, GatedLogin, CleanLogin, GateCase, Recorded, ListStatus, LastOf, Dated, Heir, Opens;
    var run := FailedAfterwards(app, user);
    FailedRows(app, user);
    FirstIsHeir(ListStatus(After(run, 2).rows, app, user, "login"), After(run, 2), app, user);
    AlwaysDated(run, 2, 1);
    InheritedVerdict(After(run, 2), 2, STRICT, StrictRequest(app, user, "login"), "otp");
    StrictOpens(After(run, 2), 2, app, user, "login");
    OpenLogsIn(After(run, 2), 2, app, user);
  }

  lemma StartsEmpty(run: seq<Event>)
    ensures After(run, 0) == EMPTY
  {
  }

  lemma NothingListed(app: string, user: string)
    ensures ListStatus(EMPTY.rows, app, user, "login") == []
  {
  }

  lemma FirstIsHeir(rows: seq<StatusRow>, t: Tables, app: string, user: string)
    requires rows == ListStatus(t.rows, app, user, "login") && |rows| == 2
    requires rows[0].status == COMPLETED && rows[0].updatedAt == 0 && rows[1].status == FAILED
    ensures Heir(t, 2, AS_INSERTED, app, user, "login") == Some(rows[0])
  {
    assert rows[0] in rows;
    assert rows == [rows[0], rows[1]];
    var r := RecentCompleted(rows).value;
    assert r in rows;
  }
}
