/** Login and Register of internal/service/auth_account.go as gates in front of token
    issue, and what any run of the workflow guarantees about them. */
module LoginGate {
  import opened Common
  import opened VerificationTables
  import opened VerificationFlow
  import opened PluginChecks

  // ---------- the gate ----------

  datatype GateAnswer = GateAnswer(session: Session, plugins: seq<Requirement>, status: VerificationStatus)

  /** The plugin manager is asked twice in one gate: for the list of requirements, and
      again when the session is checked. Its answers may differ. */
  datatype Worlds = Worlds(first: World, second: World)

  /** handleVerification. */
  function Gate(t: Tables, now: int, d: Database, ws: Worlds, q: Request)
    : (Tables, Result<GateAnswer, VerificationError>)
  {
    var (t1, created) := CreateSession(t, now, d, q.app, q.user, q.action, q.context);
    match created
    case Err(e) => (t1, Err(e))
    case Ok(session) =>
      match GetRequired(ws.first, q)
      case Err(e) => (t1, Err(e))
      case Ok(plugins) =>
        match ValidateActive(t1, now, d, ws.second, q.app, q.user)
        case Err(e) => (t1, Err(e))
        case Ok(status) => (t1, Ok(GateAnswer(session, plugins, status)))
  }

  predicate Blocked(a: GateAnswer) {
    |a.plugins| > 0 && !a.status.completed
  }

  predicate Opens(t: Tables, now: int, d: Database, ws: Worlds, q: Request) {
    var r := Gate(t, now, d, ws, q).1;
    r.Ok? && !Blocked(r.value)
  }

  /** No call that the gate makes to the tables fails. */
  predicate CallsWork(t: Tables, now: int, d: Database, q: Request) {
    && CreateSession(t, now, d, q.app, q.user, q.action, q.context).1.Ok?
    && CheckActive !in d.failing && CheckSession !in d.failing && CheckRows !in d.failing
  }

  /** The case that a gate judges: the session it has just created, over the rows it left,
      as the database lists them. */
  function GateCase(t: Tables, now: int, order: Order, w: World, q: Request): Case {
    var (t1, created) := CreateSession(t, now, Database({}, order), q.app, q.user, q.action, q.context);
    Case(w, created.value, Listing(order, t1.rows, q.app, q.user, q.action))
  }

  /** A session that could be created is the one that would be created without faults. */
  lemma FaultsChangeNothing(t: Tables, now: int, d: Database, q: Request)
    requires CreateSession(t, now, d, q.app, q.user, q.action, q.context).1.Ok?
    ensures CreateSession(t, now, d, q.app, q.user, q.action, q.context)
         == CreateSession(t, now, Database({}, d.order), q.app, q.user, q.action, q.context)
  {
  }

  /** The session just created is the active one, and is found by its id. */
  lemma OwnSessionActive(t: Tables, now: int, d: Database, q: Request)
    requires Dated(t, now - 1) && CreateSession(t, now, d, q.app, q.user, q.action, q.context).1.Ok?
    ensures var (t1, created) := CreateSession(t, now, d, q.app, q.user, q.action, q.context);
            && ActiveSession(t1.sessions, now, q.app, q.user) == Some(created.value)
            && FindSession(t1.sessions, now, created.value.id) == Some(created.value)
            && created.value.userId == Some(q.user) && created.value.app == q.app && created.value.action == q.action
            && RequestOf(created.value) == q
  {
    hide Inherit, Heir, Keep;
    InheritDated(t, now - 1, now, d.order, q.app, q.user, q.action);
    var t0 := Inherit(t, now, d.order, q.app, q.user, q.action);
    var (t1, created) := CreateSession(t, now, d, q.app, q.user, q.action, q.context);
    var session := created.value;
    var kept := WithoutSession(t0.sessions, ActiveSession(t0.sessions, now, q.app, q.user));
    assert t1.sessions == kept + [session];
    DroppedExact(t0.sessions, ActiveSession(t0.sessions, now, q.app, q.user));
    forall x | x in kept ensures x.createdAt < now && x.id < session.id {
      assert x in t0.sessions;
    }
    assert session in t1.sessions && SessionOf(session, now, q.app, q.user);
    NewestExact(t1.sessions, x => SessionOf(x, now, q.app, q.user));
    FindExact(t1.sessions, now, session.id);
  }

  lemma GateJudgesOwnSession(t: Tables, now: int, d: Database, ws: Worlds, q: Request)
    requires Dated(t, now - 1) && CallsWork(t, now, d, q)
    ensures var first, second := GetRequired(ws.first, q), GetRequired(ws.second, q);
            Gate(t, now, d, ws, q).1 ==
            if first.Err? then Err(first.error)
            else if second.Err? then Err(second.error)
            else
              var c := GateCase(t, now, d.order, ws.second, q);
              var s := Validate(c, second.value);
              if s.Err? then Err(s.error) else Ok(GateAnswer(c.session, first.value, s.value))
  {
    hide CreateSession, ActiveSession, FindSession, GetRequired, Validate, ListStatus, Dated;
    FaultsChangeNothing(t, now, d, q);
    OwnSessionActive(t, now, d, q);
  }

  lemma BrokenCallsClose(t: Tables, now: int, d: Database, ws: Worlds, q: Request)
    requires !CallsWork(t, now, d, q)
    ensures !Opens(t, now, d, ws, q)
  {
    hide CreateSession, GetRequired, Validate;
  }

  /** The second list could be drawn up, and checking it did not fail. */
  predicate Checks(t: Tables, now: int, d: Database, w: World, q: Request) {
    GetRequired(w, q).Ok? && Validate(GateCase(t, now, d.order, w, q), GetRequired(w, q).value).Ok?
  }

  /** A gate opens exactly when its calls to the tables work, both lists can be drawn up,
      the check of the second does not fail, and either the first list is empty or
      everything on the second is satisfied. */
  lemma OpensExactly(t: Tables, now: int, d: Database, ws: Worlds, q: Request)
    requires Dated(t, now - 1)
    ensures Opens(t, now, d, ws, q) <==>
            && CallsWork(t, now, d, q) && GetRequired(ws.first, q).Ok? && Checks(t, now, d, ws.second, q)
            && (|| GetRequired(ws.first, q).value == []
                || AllSatisfied(GateCase(t, now, d.order, ws.second, q), GetRequired(ws.second, q).value))
  {
    if !CallsWork(t, now, d, q) {
      BrokenCallsClose(t, now, d, ws, q);
    } else {
      hide CallsWork, GateCase, GetRequired, Validate;
      GateJudgesOwnSession(t, now, d, ws, q);
      if Checks(t, now, d, ws.second, q) {
        CompletedExactly(GateCase(t, now, d.order, ws.second, q), GetRequired(ws.second, q).value);
      }
    }
  }

  /** When the manager answers alike both times, the gate opens exactly when its list can
      be drawn up and everything on it is satisfied. */
  lemma OpensAlike(t: Tables, now: int, d: Database, w: World, q: Request)
    requires Dated(t, now - 1)
    ensures var reqs := GetRequired(w, q);
            Opens(t, now, d, Worlds(w, w), q)
            <==> CallsWork(t, now, d, q) && reqs.Ok? && AllSatisfied(GateCase(t, now, d.order, w, q), reqs.value)
  {
    hide CallsWork, GateCase, GetRequired, Validate;
    OpensExactly(t, now, d, Worlds(w, w), q);
    var reqs := GetRequired(w, q);
    if reqs.Ok? {
      var c := GateCase(t, now, d.order, w, q);
      FailsExactly(c, reqs.value);
      if Validate(c, reqs.value).Ok? { CompletedExactly(c, reqs.value); }
    }
  }

  /** One failed query of the plugin list is enough. If the first fails, the gate opens
      exactly when its calls work and the check of the second list does not fail, whatever
      the check finds; if the second fails, exactly when its calls work and the first list
      can be drawn up. */
  lemma UnlistedOpens(t: Tables, now: int, d: Database, ws: Worlds, q: Request)
    requires Dated(t, now - 1)
    ensures ws.first.listFails
            ==> (Opens(t, now, d, ws, q) <==> CallsWork(t, now, d, q) && Checks(t, now, d, ws.second, q))
    ensures ws.second.listFails
            ==> (Opens(t, now, d, ws, q) <==> CallsWork(t, now, d, q) && GetRequired(ws.first, q).Ok?)
  {
    hide CallsWork, GateCase;
    OpensExactly(t, now, d, ws, q);
    if ws.second.listFails {
      assert GetRequired(ws.second, q) == Ok([]);
      NothingToCheck(GateCase(t, now, d.order, ws.second, q));
    }
  }

  lemma NothingToCheck(c: Case)
    ensures Validate(c, []).Ok? && AllSatisfied(c, [])
  {
  }

  /** An enabled, running plugin that must be passed for this action, where the list of
      plugins can be read. */
  ghost predicate Demanded(w: World, q: Request, name: string) {
    && !w.listFails && PluginConfig(name, true) in w.configs
    && var p := FindPlugin(w, q.app, name);
       p.Some? && p.value.required && q.action in p.value.actions
  }

  lemma DemandedIsListed(w: World, q: Request, name: string)
    requires GetRequired(w, q).Ok? && Demanded(w, q, name)
    ensures exists i: nat :: i < |GetRequired(w, q).value| && GetRequired(w, q).value[i].name == name
  {
    GetRequiredExact(w, q);
    RequiredExact(w, q, w.configs);
    var wanted := WantedOf(w, q, w.configs);
    assert PluginConfig(name, true) in wanted;
    var i: nat :| i < |wanted| && wanted[i] == PluginConfig(name, true);
    assert GetRequired(w, q).value[i].name == name;
  }

  /** The list asks for something. */
  predicate Asks(w: World, q: Request) {
    GetRequired(w, q) != Ok([])
  }

  lemma DemandedAsks(w: World, q: Request, name: string)
    requires Demanded(w, q, name)
    ensures Asks(w, q)
  {
    if GetRequired(w, q).Ok? { DemandedIsListed(w, q, name); }
  }

  /** The plugin itself let the gate open: it is not Verifiable, or accepted its record. */
  ghost predicate Vouched(t: Tables, now: int, order: Order, w: World, q: Request, name: string) {
    var p := FindPlugin(w, q.app, name);
    p.Some? && Vouches(GateCase(t, now, order, w, q), p.value) == Yes
  }

  function KeyOf(q: Request, name: string): Key {
    Key(q.app, q.user, q.action, name)
  }

  /** No gate whose first list asks for anything opens past a plugin that the second
      demands, unless it has a completed record or gives its own consent. */
  lemma OpenNeedsRecord(t: Tables, now: int, d: Database, ws: Worlds, q: Request, name: string)
    requires Dated(t, now - 1) && Opens(t, now, d, ws, q)
    requires Asks(ws.first, q) && Demanded(ws.second, q, name)
    ensures HasCompleted(t, KeyOf(q, name)) || Vouched(t, now, d.order, ws.second, q, name)
  {
    hide CallsWork;
    OpensExactly(t, now, d, ws, q);
    DemandedIsListed(ws.second, q, name);
    var c := GateCase(t, now, d.order, ws.second, q);
    assert Judge(c, name).Satisfied?;
    if Recorded(c, name) {
      var t0 := Inherit(t, now, d.order, q.app, q.user, q.action);
      ListingExact(d.order, t0.rows, q.app, q.user, q.action);
      assert LastOf(c.rows, name).value in t0.rows;
      assert HasCompleted(t0, KeyOf(q, name));
      InheritConserves(t, now, d.order, q.app, q.user, q.action, KeyOf(q, name));
    }
  }

  /** So a plugin that both lists demand is enough: neither of them asks for nothing. */
  lemma DemandedTwiceNeedsRecord(t: Tables, now: int, d: Database, ws: Worlds, q: Request, name: string)
    requires Dated(t, now - 1) && Opens(t, now, d, ws, q)
    requires Demanded(ws.first, q, name) && Demanded(ws.second, q, name)
    ensures HasCompleted(t, KeyOf(q, name)) || Vouched(t, now, d.order, ws.second, q, name)
  {
    hide Opens, HasCompleted, Vouched;
    DemandedAsks(ws.first, q, name);
    OpenNeedsRecord(t, now, d, ws, q, name);
  }

  // ---------- login and registration ----------

  /** What the user and super-admin tables and bcrypt say of a login. */
  datatype Account = Account(id: string, passwordMatches: bool, disabled: bool, superAdmin: bool, firstLogin: bool)

  datatype Reply =
    | InvalidCredentials | UserDisabled | AppNotFound | UserExists | QueryFailed | CreateFailed | TokenFailed
    | GateFailed(why: VerificationError)
    | ClearFailed(why: VerificationError)
    | PluginRequired(answer: GateAnswer)
    | Issued

  predicate Skips(a: Account) {
    a.superAdmin && a.firstLogin
  }

  /** What fails in one login or registration: the queries of apps and users, making the
      tokens, and calls to the two tables in the gate, in giving the session its user and
      in the clean-up. */
  datatype Mishaps = Mishaps(query: bool, tokens: bool, gate: Database, assign: Database, clear: Database)

  const NONE := Mishaps(false, false, CALM, CALM, CALM)

  function LoginRequest(app: string, user: string, context: Context): Request {
    Request(app, user, "login", context)
  }

  /** A clean-up that fails after the tokens were issued is only logged. */
  function Login(t: Tables, now: int, app: string, account: Option<Account>, ws: Worlds, context: Context, m: Mishaps)
    : (Tables, Reply)
  {
    if m.query then (t, QueryFailed)
    else if account.None? || !account.value.passwordMatches then (t, InvalidCredentials)
    else if account.value.disabled then (t, UserDisabled)
    else if Skips(account.value) then (t, if m.tokens then TokenFailed else Issued)
    else
      var user := account.value.id;
      var (t1, r) := Gate(t, now, m.gate, ws, LoginRequest(app, user, context));
      if r.Err? then (t1, GateFailed(r.error))
      else if Blocked(r.value) then (t1, PluginRequired(r.value))
      else if m.tokens then (t1, TokenFailed)
      else (Clear(t1, now, m.clear, app, user, "login").0, Issued)
  }

  function RegisterRequest(app: string, context: Context): Request {
    Request(app, TEMPORARY, "register", context)
  }

  /** created is the id of the new user row, if it could be written. */
  function Register(t: Tables, now: int, app: string, appExists: bool, taken: bool, created: Option<string>,
                    ws: Worlds, context: Context, m: Mishaps): (Tables, Reply)
  {
    if m.query then (t, QueryFailed)
    else if !appExists then (t, AppNotFound)
    else if taken then (t, UserExists)
    else
      var (t1, r) := Gate(t, now, m.gate, ws, RegisterRequest(app, context));
      if r.Err? then (t1, GateFailed(r.error))
      else if Blocked(r.value) then (t1, PluginRequired(r.value))
      else if created.None? then (t1, CreateFailed)
      else
        var t2 := SetSessionUser(t1, now, m.assign, r.value.session.id, created.value).0;
        var (t3, cleared) := Clear(t2, now, m.clear, app, created.value, "register");
        (t3, if cleared.Err? then ClearFailed(cleared.error) else if m.tokens then TokenFailed else Issued)
  }

  // ---------- whom the gates let in ----------

  /** The user exists, gave the right password and is not disabled. */
  predicate Recognised(account: Option<Account>) {
    account.Some? && account.value.passwordMatches && !account.value.disabled
  }

  /** A login hands out tokens exactly to a user who exists, gave the right password, is
      not disabled, and is a super administrator logging in for the first time or finds
      the gate open, if the user query and the tokens work. Whoever is refused before the
      gate, or skips it, leaves the tables as they were. */
  lemma LoginIssuesExactly(t: Tables, now: int, app: string, account: Option<Account>, ws: Worlds, context: Context,
                           m: Mishaps)
    ensures var (t1, r) := Login(t, now, app, account, ws, context, m);
            && (r == Issued <==>
                && !m.query && account.Some? && account.value.passwordMatches && !account.value.disabled && !m.tokens
                && (|| (account.value.superAdmin && account.value.firstLogin)
                    || Opens(t, now, m.gate, ws, LoginRequest(app, account.value.id, context))))
            && (r == InvalidCredentials <==> !m.query && (account.None? || !account.value.passwordMatches))
            && (r == UserDisabled <==>
                !m.query && account.Some? && account.value.passwordMatches && account.value.disabled)
            && (r.GateFailed? || r.PluginRequired? <==>
                && !m.query && Recognised(account) && !(account.value.superAdmin && account.value.firstLogin)
                && !Opens(t, now, m.gate, ws, LoginRequest(app, account.value.id, context)))
            && (m.query || !Recognised(account) || (account.value.superAdmin && account.value.firstLogin) ==> t1 == t)
  {
    hide Gate, Clear;
  }

  /** So, past the gate, tokens go to no one who leaves something on the second list
      unsatisfied, unless the first list was empty; and to everyone else who is recognised,
      if the calls involved work. */
  lemma GatedLoginExactly(t: Tables, now: int, app: string, account: Option<Account>, ws: Worlds, context: Context,
                          m: Mishaps)
    requires Dated(t, now - 1) && Recognised(account) && !(account.value.superAdmin && account.value.firstLogin)
    ensures var q := LoginRequest(app, account.value.id, context);
            Login(t, now, app, account, ws, context, m).1 == Issued <==>
            && !m.query && !m.tokens && CallsWork(t, now, m.gate, q)
            && GetRequired(ws.first, q).Ok? && Checks(t, now, m.gate, ws.second, q)
            && (|| GetRequired(ws.first, q).value == []
                || AllSatisfied(GateCase(t, now, m.gate.order, ws.second, q), GetRequired(ws.second, q).value))
  {
    hide Opens, CallsWork, Checks, GateCase, GetRequired, AllSatisfied;
    LoginIssuesExactly(t, now, app, account, ws, context, m);
    OpensExactly(t, now, m.gate, ws, LoginRequest(app, account.value.id, context));
  }

  /** The tables as the clean-up of a registration finds them. */
  function Assigned(t: Tables, now: int, app: string, user: string, ws: Worlds, context: Context, m: Mishaps): Tables
    requires Opens(t, now, m.gate, ws, RegisterRequest(app, context))
  {
    var (t1, r) := Gate(t, now, m.gate, ws, RegisterRequest(app, context));
    SetSessionUser(t1, now, m.assign, r.value.session.id, user).0
  }

  /** A registration hands out tokens exactly when the app is known, the name is free, the
      gate opens for the temporary user, the user can be created and cleaned up after, and
      queries and tokens work; a refusal before the gate changes nothing. */
  lemma RegisterIssuesExactly(t: Tables, now: int, app: string, appExists: bool, taken: bool, created: Option<string>,
                              ws: Worlds, context: Context, m: Mishaps)
    ensures var (t1, r) := Register(t, now, app, appExists, taken, created, ws, context, m);
            && (r == Issued <==>
                && !m.query && appExists && !taken && created.Some? && !m.tokens
                && Opens(t, now, m.gate, ws, RegisterRequest(app, context))
                && Clear(Assigned(t, now, app, created.value, ws, context, m), now, m.clear, app, created.value,
                         "register").1.Ok?)
            && (r == AppNotFound <==> !m.query && !appExists)
            && (r == UserExists <==> !m.query && appExists && taken)
            && (r.GateFailed? || r.PluginRequired? <==>
                && !m.query && appExists && !taken
                && !Opens(t, now, m.gate, ws, RegisterRequest(app, context)))
            && (m.query || !appExists || taken ==> t1 == t)
  {
    hide Gate, Clear, SetSessionUser;
    if Opens(t, now, m.gate, ws, RegisterRequest(app, context)) && created.Some? {
      var cleared: Result<(), VerificationError> :=
        Clear(Assigned(t, now, app, created.value, ws, context, m), now, m.clear, app, created.value, "register").1;
      assert cleared.Ok? || cleared.Err?;
    }
  }

  // ---------- runs ----------

  datatype Event =
    | DoLogin(now: int, app: string, account: Option<Account>, worlds: Worlds, context: Context, mishaps: Mishaps)
    | DoRegister(now: int, app: string, appExists: bool, taken: bool, created: Option<string>,
                 worlds: Worlds, context: Context, mishaps: Mishaps)
    | DoUpdate(now: int, app: string, user: string, action: string, plugin: string, status: string,
               world: World, context: Context, database: Database)
    | DoUpdateBySession(now: int, id: nat, plugin: string, status: string, world: World, database: Database)
    | DoCreateSession(now: int, app: string, user: string, action: string, context: Context, database: Database)
    | DoCreateByIdentifier(now: int, app: string, identifier: string, kind: string, action: string, context: Context,
                           database: Database)
    | DoSetSessionUser(now: int, id: nat, user: string, database: Database)
    | DoClear(now: int, app: string, user: string, action: string, database: Database)

  function Step(t: Tables, e: Event): Tables {
    match e
    case DoLogin(now, app, account, ws, context, m) => Login(t, now, app, account, ws, context, m).0
    case DoRegister(now, app, known, taken, created, ws, context, m) =>
      Register(t, now, app, known, taken, created, ws, context, m).0
    case DoUpdate(now, app, user, action, plugin, status, w, context, d) =>
      UpdateStatus(t, now, d, w, app, user, action, plugin, status, context).0
    case DoUpdateBySession(now, id, plugin, status, w, d) => UpdateBySession(t, now, d, w, id, plugin, status).0
    case DoCreateSession(now, app, user, action, context, d) => CreateSession(t, now, d, app, user, action, context).0
    case DoCreateByIdentifier(now, app, identifier, kind, action, context, d) =>
      CreateByIdentifier(t, now, d, app, identifier, kind, action, context).0
    case DoSetSessionUser(now, id, user, d) => SetSessionUser(t, now, d, id, user).0
    case DoClear(now, app, user, action, d) => Clear(t, now, d, app, user, action).0
  }

  function After(run: seq<Event>, n: nat): Tables
    requires n <= |run|
  {
    if n == 0 then EMPTY else Step(After(run, n - 1), run[n - 1])
  }

  /** No two events share an instant. */
  ghost predicate Clocked(run: seq<Event>) {
    forall i, j :: 0 <= i < j < |run| ==> run[i].now < run[j].now
  }

  lemma {:induction false} AlwaysDated(run: seq<Event>, n: nat, now: int)
    requires n <= |run| && Clocked(run) && forall i :: 0 <= i < n ==> run[i].now <= now
    ensures Dated(After(run, n), now)
  {
    if n > 0 {
      hide Step;
      AlwaysDated(run, n - 1, run[n - 1].now);
      StepDated(After(run, n - 1), run[n - 1]);
    }
  }

  lemma GateDated(t: Tables, now: int, d: Database, ws: Worlds, q: Request)
    requires Dated(t, now)
    ensures Dated(Gate(t, now, d, ws, q).0, now)
  {
    CreateDated(t, now, d, q.app, q.user, q.action, q.context);
  }

  lemma StepDated(t: Tables, e: Event)
    requires Dated(t, e.now)
    ensures Dated(Step(t, e), e.now)
  {
    hide Gate, CreateSession, CreateByIdentifier, SetSessionUser, Clear, Dated;
    match e
    case DoLogin(now, app, account, ws, context, m) =>
      if account.Some? {
        var q := LoginRequest(app, account.value.id, context);
        GateDated(t, now, m.gate, ws, q);
        ClearDated(Gate(t, now, m.gate, ws, q).0, now, m.clear, app, account.value.id, "login");
      }
    case DoRegister(now, app, _, _, created, ws, context, m) =>
      var (t1, r) := Gate(t, now, m.gate, ws, RegisterRequest(app, context));
      GateDated(t, now, m.gate, ws, RegisterRequest(app, context));
      if r.Ok? && created.Some? {
        var t2 := SetSessionUser(t1, now, m.assign, r.value.session.id, created.value).0;
        SetUserDated(t1, now, m.assign, r.value.session.id, created.value);
        ClearDated(t2, now, m.clear, app, created.value, "register");
      }
    case DoUpdate(now, app, user, action, plugin, status, _, _, _) =>
        SaveDated(t, now, UserRow(app, user, action, plugin, status));
    case DoUpdateBySession(now, id, plugin, status, _, _) =>
      var x := FindSession(t.sessions, now, id);
      if x.Some? { SaveDated(t, now, SessionRow(x.value, plugin, status)); }
    case DoCreateSession(now, app, user, action, context, d) => CreateDated(t, now, d, app, user, action, context);
    case DoCreateByIdentifier(now, app, identifier, kind, action, context, d) =>
      CreateByIdentifierDated(t, now, d, app, identifier, kind, action, context);
    case DoSetSessionUser(now, id, user, d) => SetUserDated(t, now, d, id, user);
    case DoClear(now, app, user, action, d) => ClearDated(t, now, d, app, user, action);
  }

  // ---------- completions ----------

  /** The event records a completion for this key. */
  ghost predicate Completes(t: Tables, e: Event, k: Key) {
    match e
    case DoUpdate(_, app, user, action, plugin, status, _, _, d) =>
      SaveRow !in d.failing && status == COMPLETED && k == Key(app, user, action, plugin)
    case DoUpdateBySession(now, id, plugin, status, _, d) =>
      var x := FindSession(t.sessions, now, id);
      && FindById !in d.failing && SaveRow !in d.failing && status == COMPLETED && x.Some? && x.value.userId.Some?
      && k == Key(x.value.app, x.value.userId.value, x.value.action, plugin)
    case _ => false
  }

  /** A login that went through the gate and got its tokens. */
  ghost predicate GatedLogin(t: Tables, e: Event) {
    e.DoLogin? && Login(t, e.now, e.app, e.account, e.worlds, e.context, e.mishaps).1 == Issued
        && !Skips(e.account.value)
  }

  /** The tables as a login's gate leaves them to its clean-up. */
  function GatedTables(t: Tables, e: Event): Tables
    requires e.DoLogin? && e.account.Some?
  {
    Gate(t, e.now, e.mishaps.gate, e.worlds, LoginRequest(e.app, e.account.value.id, e.context)).0
  }

  ghost predicate CleanLogin(t: Tables, e: Event) {
    && GatedLogin(t, e)
    && Clear(GatedTables(t, e), e.now, e.mishaps.clear, e.app, e.account.value.id, "login").1.Ok?
  }

  /** A registration that created its user and cleaned up. */
  ghost predicate Registered(t: Tables, e: Event) {
    && e.DoRegister?
    && var r := Register(t, e.now, e.app, e.appExists, e.taken, e.created, e.worlds, e.context, e.mishaps).1;
       r == Issued || r == TokenFailed
  }

  /** A registration that created its user, whether or not it could clean up. */
  ghost predicate CreatesUser(t: Tables, e: Event) {
    && e.DoRegister?
    && var r := Register(t, e.now, e.app, e.appExists, e.taken, e.created, e.worlds, e.context, e.mishaps).1;
       r == Issued || r == TokenFailed || r.ClearFailed?
  }

  /** The tables as a registration leaves them to its clean-up. */
  function RegisteredTables(t: Tables, e: Event): Tables
    requires e.DoRegister? && e.created.Some?
  {
    var (t1, r) := Gate(t, e.now, e.mishaps.gate, e.worlds, RegisterRequest(e.app, e.context));
    if r.Err? then t1 else SetSessionUser(t1, e.now, e.mishaps.assign, r.value.session.id, e.created.value).0
  }

  ghost predicate Clears(t: Tables, e: Event, k: Key) {
    || (GatedLogin(t, e) && ClearsKey(GatedTables(t, e), e.now, e.mishaps.clear, e.app, e.account.value.id, "login", k))
    || (CreatesUser(t, e)
        && ClearsKey(RegisteredTables(t, e), e.now, e.mishaps.clear, e.app, e.created.value, "register", k))
    || (e.DoClear? && ClearsKey(t, e.now, e.database, e.app, e.user, e.action, k))
  }

  lemma GateConserves(t: Tables, now: int, d: Database, ws: Worlds, q: Request, k: Key)
    ensures HasCompleted(Gate(t, now, d, ws, q).0, k) <==> HasCompleted(t, k)
  {
    CreateConserves(t, now, d, q.app, q.user, q.action, q.context, k);
  }

  lemma CreateConserves(t: Tables, now: int, d: Database, app: string, user: string, action: string, context: Context,
                        k: Key)
    ensures HasCompleted(CreateSession(t, now, d, app, user, action, context).0, k) <==> HasCompleted(t, k)
  {
    hide HasCompleted, Inherit, Heir;
    InheritConserves(t, now, d.order, app, user, action, k);
    var t1, t2 := Inherit(t, now, d.order, app, user, action), CreateSession(t, now, d, app, user, action, context).0;
    if t2.rows == t1.rows { SameRows(t1, t2, k); }
  }

  /** Every step: a completed record is there afterwards exactly if the step records the
      completion, or the record was there and the step does not clear it. */
  lemma StepRecords(t: Tables, e: Event, k: Key)
    ensures HasCompleted(Step(t, e), k) <==> Completes(t, e, k) || (HasCompleted(t, k) && !Clears(t, e, k))
  {
    hide Gate, Clear, CreateSession, SetSessionUser, HasCompleted, ClearsKey;
    match e
    case DoLogin(now, app, account, ws, context, m) =>
      if account.Some? {
        GateConserves(t, now, m.gate, ws, LoginRequest(app, account.value.id, context), k);
        ClearExact(GatedTables(t, e), now, m.clear, app, account.value.id, "login", k);
      }
    case DoRegister(_, _, _, _, _, _, _, _) => RegisterRecords(t, e, k);
    case DoUpdate(now, app, user, action, plugin, status, _, _, _) =>
        SaveExact(t, now, UserRow(app, user, action, plugin, status), k);
    case DoUpdateBySession(now, id, plugin, status, _, _) =>
      var x := FindSession(t.sessions, now, id);
      if x.Some? { SaveExact(t, now, SessionRow(x.value, plugin, status), k); }
    case DoCreateSession(now, app, user, action, context, d) =>
        CreateConserves(t, now, d, app, user, action, context, k);
    case DoCreateByIdentifier(now, app, identifier, kind, action, context, _) => SameRows(t, Step(t, e), k);
    case DoSetSessionUser(now, id, user, d) => SetUserConserves(t, now, d, id, user, k);
    case DoClear(now, app, user, action, d) => ClearExact(t, now, d, app, user, action, k);
  }

  lemma SetUserConserves(t: Tables, now: int, d: Database, id: nat, user: string, k: Key)
    ensures HasCompleted(SetSessionUser(t, now, d, id, user).0, k) <==> HasCompleted(t, k)
  {
    SameRows(t, SetSessionUser(t, now, d, id, user).0, k);
  }

  lemma RegisterRecords(t: Tables, e: Event, k: Key)
    requires e.DoRegister?
    ensures HasCompleted(Step(t, e), k) <==> HasCompleted(t, k) && !Clears(t, e, k)
    ensures Registered(t, e) && Covers(e.app, e.created.value, "register", k) ==> !HasCompleted(Step(t, e), k)
  {
    hide Gate, Clear, SetSessionUser, HasCompleted, ClearsKey;
    var q := RegisterRequest(e.app, e.context);
    var (t1, r) := Gate(t, e.now, e.mishaps.gate, e.worlds, q);
    GateConserves(t, e.now, e.mishaps.gate, e.worlds, q, k);
    if r.Ok? && e.created.Some? {
      SetUserConserves(t1, e.now, e.mishaps.assign, r.value.session.id, e.created.value, k);
      ClearExact(RegisteredTables(t, e), e.now, e.mishaps.clear, e.app, e.created.value, "register", k);
      var cleared: Result<(), VerificationError> :=
          Clear(RegisteredTables(t, e), e.now, e.mishaps.clear, e.app, e.created.value, "register").1;
      assert cleared.Ok? || cleared.Err?;
    }
  }

  ghost predicate CompletesAt(run: seq<Event>, i: nat, k: Key)
    requires i < |run|
  {
    Completes(After(run, i), run[i], k)
  }

  ghost predicate ClearsAt(run: seq<Event>, i: nat, k: Key)
    requires i < |run|
  {
    Clears(After(run, i), run[i], k)
  }

  /** Event i completed the key, and nothing cleared it from then up to n. */
  ghost predicate StandsFrom(run: seq<Event>, i: nat, n: nat, k: Key)
    requires n <= |run|
  {
    i < n && CompletesAt(run, i, k) && forall m: nat :: i < m < n ==> !ClearsAt(run, m, k)
  }

  /** In any run a completed record stands exactly when a completion was recorded and not
      cleared since: inherited rows neither add nor keep one. */
  lemma {:induction false} RecordsExactly(run: seq<Event>, n: nat, k: Key)
    requires n <= |run|
    ensures HasCompleted(After(run, n), k) <==> exists i: nat :: StandsFrom(run, i, n, k)
  {
    hide Step, Completes, Clears, HasCompleted;
    if n == 0 {
      assert !HasCompleted(EMPTY, k) by { EmptyHasNone(k); }
    } else {
      RecordsExactly(run, n - 1, k);
      StepRecords(After(run, n - 1), run[n - 1], k);
      if HasCompleted(After(run, n), k) {
        if CompletesAt(run, n - 1, k) {
          assert StandsFrom(run, n - 1, n, k);
        } else {
          var i: nat :| StandsFrom(run, i, n - 1, k);
          assert !ClearsAt(run, n - 1, k);
          assert StandsFrom(run, i, n, k);
        }
      }
      if i: nat :| StandsFrom(run, i, n, k) {
        if i < n - 1 {
          assert StandsFrom(run, i, n - 1, k);
          assert !ClearsAt(run, n - 1, k);
        }
      }
    }
  }

  lemma EmptyHasNone(k: Key)
    ensures !HasCompleted(EMPTY, k)
  {
  }

  // ---------- what the gates guarantee ----------

  ghost predicate LogsIn(run: seq<Event>, i: nat, app: string, user: string)
    requires i < |run|
  {
    GatedLogin(After(run, i), run[i]) && run[i].app == app && run[i].account.value.id == user
  }

  /** A login that also cleaned up after itself. */
  ghost predicate LogsInCleanly(run: seq<Event>, i: nat, app: string, user: string)
    requires i < |run|
  {
    CleanLogin(After(run, i), run[i]) && run[i].app == app && run[i].account.value.id == user
  }

  ghost predicate RegistersIn(run: seq<Event>, i: nat, app: string)
    requires i < |run|
  {
    Registered(After(run, i), run[i]) && run[i].app == app
  }

  /** A record that was not there at i and is there at j was completed in between. */
  lemma CompletedSince(run: seq<Event>, i: nat, j: nat, k: Key)
    requires i <= j <= |run| && !HasCompleted(After(run, i), k) && HasCompleted(After(run, j), k)
    ensures exists m: nat :: i <= m < j && CompletesAt(run, m, k)
  {
    hide After, HasCompleted, Completes, Clears;
    RecordsExactly(run, j, k);
    var m: nat :| StandsFrom(run, m, j, k);
    assert m < i ==> StandsFrom(run, m, i, k);
    RecordsExactly(run, i, k);
  }

  lemma CleanLoginLeavesNone(t: Tables, e: Event, k: Key)
    requires CleanLogin(t, e) && k.app == e.app && k.user == e.account.value.id && k.action == "login"
    ensures !HasCompleted(Step(t, e), k)
  {
    hide Gate, Clear, HasCompleted, ClearsKey;
    ClearExact(GatedTables(t, e), e.now, e.mishaps.clear, e.app, e.account.value.id, "login", k);
  }

  lemma OpensOnLogin(t: Tables, e: Event)
    requires GatedLogin(t, e)
    ensures e.DoLogin? && e.account.Some?
    ensures Opens(t, e.now, e.mishaps.gate, e.worlds, LoginRequest(e.app, e.account.value.id, e.context))
  {
    hide Gate;
  }

  lemma OpensOnRegister(t: Tables, e: Event)
    requires Registered(t, e)
    ensures e.DoRegister? && e.created.Some?
    ensures Opens(t, e.now, e.mishaps.gate, e.worlds, RegisterRequest(e.app, e.context))
  {
    hide Gate;
  }

  lemma AfterMore(run: seq<Event>, i: nat)
    requires i < |run|
    ensures After(run, i + 1) == Step(After(run, i), run[i])
  {
  }

  /** Between two logins of a user in an app, the first of which cleaned up, every plugin
      that the second one demands has had a new completion recorded, unless the plugin
      itself vouched for the user, or the second login read an empty list first. */
  lemma CompletedBetweenLogins(run: seq<Event>, i: nat, j: nat, app: string, user: string, name: string)
    requires Clocked(run) && i < j < |run|
    requires LogsInCleanly(run, i, app, user) && LogsIn(run, j, app, user)
    requires Asks(run[j].worlds.first, LoginRequest(app, user, run[j].context))
    requires Demanded(run[j].worlds.second, LoginRequest(app, user, run[j].context), name)
    ensures || (exists m: nat :: i < m < j && CompletesAt(run, m, Key(app, user, "login", name)))
            || Vouched(After(run, j), run[j].now, run[j].mishaps.gate.order, run[j].worlds.second,
                       LoginRequest(app, user, run[j].context), name)
  {
    hide After, Step, Vouched, Opens, Asks, Demanded, HasCompleted, CleanLogin, GatedLogin, Completes;
    var e := run[j];
    OpensOnLogin(After(run, j), e);
    var q := LoginRequest(app, user, e.context);
    AlwaysDated(run, j, e.now - 1);
    OpenNeedsRecord(After(run, j), e.now, e.mishaps.gate, e.worlds, q, name);
    var k := KeyOf(q, name);
    if HasCompleted(After(run, j), k) {
      CleanIsLogin(After(run, i), run[i]);
      OpensOnLogin(After(run, i), run[i]);
      CleanLoginLeavesNone(After(run, i), run[i], k);
      AfterMore(run, i);
      CompletedSince(run, i + 1, j, k);
    }
  }

  lemma CleanIsLogin(t: Tables, e: Event)
    requires CleanLogin(t, e)
    ensures GatedLogin(t, e)
  {
  }

  /** The same between two users registered in an app, who share the temporary user. */
  lemma CompletedBetweenRegistrations(run: seq<Event>, i: nat, j: nat, app: string, name: string)
    requires Clocked(run) && i < j < |run|
    requires RegistersIn(run, i, app) && RegistersIn(run, j, app)
    requires Asks(run[j].worlds.first, RegisterRequest(app, run[j].context))
    requires Demanded(run[j].worlds.second, RegisterRequest(app, run[j].context), name)
    ensures || (exists m: nat :: i < m < j && CompletesAt(run, m, Key(app, TEMPORARY, "register", name)))
            || Vouched(After(run, j), run[j].now, run[j].mishaps.gate.order, run[j].worlds.second,
                       RegisterRequest(app, run[j].context), name)
  {
    hide After, Step, Vouched, Opens, Asks, Demanded, HasCompleted, Registered, Completes;
    var e := run[j];
    OpensOnRegister(After(run, j), e);
    var q := RegisterRequest(app, e.context);
    AlwaysDated(run, j, e.now - 1);
    OpenNeedsRecord(After(run, j), e.now, e.mishaps.gate, e.worlds, q, name);
    var k := KeyOf(q, name);
    if HasCompleted(After(run, j), k) {
      OpensOnRegister(After(run, i), run[i]);
      RegisterRecords(After(run, i), run[i], k);
      AfterMore(run, i);
      CompletedSince(run, i + 1, j, k);
    }
  }

  /** What inheritance does change, where rows are listed as they were inserted: a plugin
      whose latest row says otherwise counts as completed again if it has the most recent
      completion of all and that is fresh. */
  lemma InheritedVerdict(t: Tables, now: int, w: World, q: Request, name: string)
    ensures var listed := ListStatus(t.rows, q.app, q.user, q.action);
            var heir := Heir(t, now, AS_INSERTED, q.app, q.user, q.action);
            var c := GateCase(t, now, AS_INSERTED, w, q);
            Recorded(c, name) <==>
              || Recorded(Case(w, c.session, listed), name)
              || (heir.Some? && heir.value.plugin == name)
  {
    hide WithoutSession, Newest, RecentCompleted, Keep;
    var listed := ListStatus(t.rows, q.app, q.user, q.action);
    var heir := Heir(t, now, AS_INSERTED, q.app, q.user, q.action);
    if heir.Some? {
      var x := UserRow(q.app, q.user, q.action, heir.value.plugin, COMPLETED).(id := t.nextId, updatedAt := now);
      KeepMore(t.rows, x, (r: StatusRow) => RowOf(r, q.app, q.user, q.action));
      assert (listed + [x])[..|listed|] == listed;
      assert GateCase(t, now, AS_INSERTED, w, q).rows == listed + [x];
    } else {
      assert GateCase(t, now, AS_INSERTED, w, q).rows == listed;
    }
  }

  /** A gate opens for anyone whose last listed row for every required plugin says completed. */
  lemma RecordsOpen(t: Tables, now: int, d: Database, w: World, q: Request)
    requires Dated(t, now - 1) && CallsWork(t, now, d, q) && GetRequired(w, q).Ok?
    requires forall x :: x in GetRequired(w, q).value ==> Recorded(GateCase(t, now, d.order, w, q), x.name)
    ensures Opens(t, now, d, Worlds(w, w), q)
  {
    hide CallsWork, GateCase, Recorded;
    OpensAlike(t, now, d, w, q);
    var reqs := GetRequired(w, q).value;
    forall i: nat | i < |reqs| ensures Judge(GateCase(t, now, d.order, w, q), reqs[i].name).Satisfied? {
      assert reqs[i] in reqs;
      RecordedSatisfies(GateCase(t, now, d.order, w, q), reqs[i].name);
    }
  }

  lemma RecordedSatisfies(c: Case, name: string)
    requires Recorded(c, name)
    ensures Judge(c, name).Satisfied?
  {
  }

  /** In whatever order rows are listed, a plugin that has rows and only completed ones is
      recorded at the gate. */
  lemma OnlyCompletedIsRecorded(t: Tables, now: int, order: Order, w: World, q: Request, name: string)
    requires HasCompleted(t, KeyOf(q, name))
    requires forall r :: r in t.rows && RowOf(r, q.app, q.user, q.action) && r.plugin == name ==> r.status == COMPLETED
    ensures Recorded(GateCase(t, now, order, w, q), name)
  {
    hide Heir, Keep, Newest;
    var t0 := Inherit(t, now, order, q.app, q.user, q.action);
    var c := GateCase(t, now, order, w, q);
    ListingExact(order, t0.rows, q.app, q.user, q.action);
    var r :| r in t.rows && CompletedRow(r, KeyOf(q, name));
    assert r in t0.rows && r in c.rows;
  }
}
