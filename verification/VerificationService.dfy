/** The verification and account services step by step over the two tables. Every method
    is tied to the function of VerificationFlow or LoginGate that the run theorems are about. */
module VerificationService {
  import opened Common
  import opened VerificationTables
  import opened VerificationFlow
  import opened PluginChecks
  import opened LoginGate

  lemma SurvivingMore(rows: seq<StatusRow>, app: string, user: string, action: string, plugins: set<string>,
                      plugin: string)
    ensures Surviving(Surviving(rows, app, user, action, plugins), app, user, action, {plugin})
         == Surviving(rows, app, user, action, plugins + {plugin})
  {
    var one, more := {plugin}, plugins + {plugin};
    KeepTwice(rows, (r: StatusRow) => !(RowOf(r, app, user, action) && r.plugin in plugins),
                    (r: StatusRow) => !(RowOf(r, app, user, action) && r.plugin in one),
                    (r: StatusRow) => !(RowOf(r, app, user, action) && r.plugin in more));
  }

  lemma SurvivingAll(rows: seq<StatusRow>, app: string, user: string, action: string)
    ensures Surviving(rows, app, user, action, {}) == rows
  {
    var none: set<string> := {};
    KeepAll(rows, (r: StatusRow) => !(RowOf(r, app, user, action) && r.plugin in none));
  }

  lemma {:induction false} ReachedAt(d: Database, temporary: bool, n: nat, k: nat)
    requires k <= n && (forall i: nat :: i < k ==> !DeleteFails(d, temporary, i))
             && (k < n ==> DeleteFails(d, temporary, k))
    ensures Reached(d, temporary, n) == k
  {
    if n > 0 && k < n { ReachedAt(d, temporary, n - 1, k); } else if n > 0 { ReachedAt(d, temporary, n - 1, n - 1); }
  }

  class Service {
    var rows: seq<StatusRow>
    var sessions: seq<Session>
    var nextId: nat

    constructor ()
      ensures Contents() == EMPTY
    {
      rows, sessions, nextId := [], [], 0;
    }

    function Contents(): Tables
      reads this
    {
      Tables(rows, sessions, nextId)
    }

    // ---------- repositories ----------

    method InsertRow(now: int, r: StatusRow)
      modifies this
      ensures Contents() == SaveStatus(old(Contents()), now, r)
    {
      rows := rows + [r.(id := nextId, updatedAt := now)];
      nextId := nextId + 1;
    }

    method DeleteStatus(app: string, user: string, action: string, plugin: string)
      modifies this`rows
      ensures rows == Surviving(old(rows), app, user, action, {plugin})
    {
      ghost var before, one := rows, {plugin};
      rows := Keep(rows, (r: StatusRow) => !(RowOf(r, app, user, action) && r.plugin == plugin));
      KeepSame(before, (r: StatusRow) => !(RowOf(r, app, user, action) && r.plugin == plugin),
                       (r: StatusRow) => !(RowOf(r, app, user, action) && r.plugin in one));
    }

    method DeleteSession(x: Session)
      modifies this`sessions
      ensures sessions == WithoutSession(old(sessions), Some(x))
    {
      sessions := Keep(sessions, (y: Session) => y.id != x.id);
    }

    // ---------- sessions ----------

    method MostRecentCompleted(statuses: seq<StatusRow>) returns (recent: Option<StatusRow>)
      ensures recent == RecentCompleted(statuses)
    {
      recent := None;
      for i := 0 to |statuses|
        invariant recent == RecentCompleted(statuses[..i])
      {
        assert statuses[..i + 1][..i] == statuses[..i];
        if statuses[i].status == COMPLETED {
          if recent.None? || statuses[i].updatedAt > recent.value.updatedAt { recent := Some(statuses[i]); }
        }
      }
      assert statuses[..|statuses|] == statuses;
    }

    /** Drops the session found to be active, and stores the new one. */
    method ReplaceSession(now: int, d: Database, existing: Option<Session>, x: Session)
      returns (r: Result<Session, VerificationError>)
      modifies this`sessions, this`nextId
      ensures (Contents(), r) == Replace(old(Contents()), now, d, existing, x)
    {
      if FindActive in d.failing { return Err(DatabaseFailed); }
      if existing.Some? {
        if DropSession in d.failing { return Err(DatabaseFailed); }
        DeleteSession(existing.value);
      }
      if StoreSession in d.failing { return Err(DatabaseFailed); }
      var session := x.(id := nextId, createdAt := now, expiredAt := now + HALF_HOUR);
      sessions := sessions + [session];
      nextId := nextId + 1;
      return Ok(session);
    }

    method CreateUserSession(now: int, d: Database, app: string, user: string, action: string, context: Context)
      returns (r: Result<Session, VerificationError>)
      modifies this
      ensures (Contents(), r) == CreateSession(old(Contents()), now, d, app, user, action, context)
    {
      hide Listing, RecentCompleted, ActiveSession, WithoutSession, Replace;
      if ListRows in d.failing { return Err(DatabaseFailed); }
      var recent := MostRecentCompleted(Listing(d.order, rows, app, user, action));
      if recent.Some? && now - recent.value.updatedAt < HALF_HOUR {
        if SaveRow in d.failing { return Err(DatabaseFailed); }
        InsertRow(now, UserRow(app, user, action, recent.value.plugin, COMPLETED));
      }
      assert Contents() == Inherit(old(Contents()), now, d.order, app, user, action);
      r := ReplaceSession(now, d, ActiveSession(sessions, now, app, user), UserSession(app, user, action, context));
    }

    method CreateIdentifierSession(now: int, d: Database, app: string, identifier: string, kind: string,
                                   action: string, context: Context)
      returns (r: Result<Session, VerificationError>)
      modifies this
      ensures (Contents(), r) == CreateByIdentifier(old(Contents()), now, d, app, identifier, kind, action, context)
    {
      r := ReplaceSession(now, d, ActiveByIdentifier(sessions, now, app, identifier, kind),
                          Session(0, app, None, identifier, kind, action, PENDING, context, 0, 0));
    }

    method UpdateSessionUserID(now: int, d: Database, id: nat, user: string) returns (r: Result<(), VerificationError>)
      modifies this
      ensures (Contents(), r) == SetSessionUser(old(Contents()), now, d, id, user)
    {
      if FindById in d.failing { return Err(DatabaseFailed); }
      var found := FindSession(sessions, now, id);
      if found.None? { return Err(SessionNotFound); }
      if SaveSession in d.failing { return Err(DatabaseFailed); }
      sessions := Saved(sessions, found.value.(userId := Some(user)));
      return Ok(());
    }

    // ---------- statuses ----------

    method UpdatePluginStatus(now: int, d: Database, w: World, app: string, user: string, action: string,
                              plugin: string,
                              status: string, context: Context) returns (r: Result<(), VerificationError>)
      modifies this
      ensures (Contents(), r) == UpdateStatus(old(Contents()), now, d, w, app, user, action, plugin, status, context)
    {
      if SaveRow in d.failing { return Err(DatabaseFailed); }
      InsertRow(now, UserRow(app, user, action, plugin, status));
      if status == COMPLETED {
        var p := FindPlugin(w, app, plugin);
        if p.Some? && p.value.oracle.Some? {
          var asked := p.value.oracle.value.needs(user, action, context);
          if asked.Fails? { return Err(FollowUpFailed); }
        }
      }
      return Ok(());
    }

    method UpdatePluginStatusBySession(now: int, d: Database, w: World, id: nat, plugin: string, status: string)
      returns (r: Result<(), VerificationError>)
      modifies this
      ensures (Contents(), r) == UpdateBySession(old(Contents()), now, d, w, id, plugin, status)
    {
      if FindById in d.failing { return Err(DatabaseFailed); }
      var found := FindSession(sessions, now, id);
      if found.None? { return Err(SessionNotFound); }
      if SaveRow in d.failing { return Err(DatabaseFailed); }
      var x := found.value;
      InsertRow(now, SessionRow(x, plugin, status));
      if status == COMPLETED {
        var p := FindPlugin(w, x.app, plugin);
        if p.Some? && x.userId.Some? && p.value.oracle.Some? {
          var welcomed := p.value.oracle.value.welcomes(x.userId.value, x.action, x.context);
          if !welcomed { return Err(FollowUpFailed); }
        }
      }
      return Ok(());
    }

    /** Deleting plugin by plugin, until a delete fails. */
    method DeleteStatuses(d: Database, temporary: bool, app: string, user: string, action: string) returns (done: bool)
      modifies this`rows
      ensures (rows, done) == DeleteListed(old(rows), d, temporary, app, user, action)
    {
      hide Surviving, Listing, Reached;
      ghost var before := rows;
      var statuses := Listing(d.order, rows, app, user, action);
      SurvivingAll(rows, app, user, action);
      assert PluginsOf(statuses[..0]) == {};
      for i := 0 to |statuses|
        invariant rows == Surviving(before, app, user, action, PluginsOf(statuses[..i]))
        invariant forall j: nat :: j < i ==> !DeleteFails(d, temporary, j)
      {
        if DeleteFails(d, temporary, i) {
          assert Reached(d, temporary, |statuses|) == i by { ReachedAt(d, temporary, |statuses|, i); }
          return false;
        }
        DeleteStatus(app, user, action, statuses[i].plugin);
        SurvivingMore(before, app, user, action, PluginsOf(statuses[..i]), statuses[i].plugin);
        assert PluginsOf(statuses[..i + 1]) == PluginsOf(statuses[..i]) + {statuses[i].plugin};
      }
      ReachedAt(d, temporary, |statuses|, |statuses|);
      return true;
    }

    /** Deletes the active session of the user, if there is one. */
    method DropSessionOf(now: int, d: Database, find: Call, drop: Call, app: string, user: string)
      returns (r: Result<(), VerificationError>)
      modifies this`sessions
      ensures var left := DropActive(old(sessions), now, d, find, drop, app, user);
              && sessions == (if left.Ok? then left.value else old(sessions))
              && r == (if left.Ok? then Ok(()) else Err(left.error))
    {
      if find in d.failing { return Err(DatabaseFailed); }
      var session := ActiveSession(sessions, now, app, user);
      if session.Some? {
        if drop in d.failing { return Err(DatabaseFailed); }
        DeleteSession(session.value);
      }
      return Ok(());
    }

    method ClearVerification(now: int, d: Database, app: string, user: string, action: string)
      returns (r: Result<(), VerificationError>)
      modifies this
      ensures (Contents(), r) == Clear(old(Contents()), now, d, app, user, action)
    {
      hide DropActive, DeleteListed;
      r := DropSessionOf(now, d, FindActive, DropSession, app, user);
      if r.Err? { return; }
      r := DropSessionOf(now, d, FindTemporary, DropTemporary, app, TEMPORARY);
      if r.Err? { return; }
      if ListRows in d.failing { return Err(DatabaseFailed); }
      var done := DeleteStatuses(d, false, app, user, action);
      if !done || ListTemporary in d.failing { return Err(DatabaseFailed); }
      done := DeleteStatuses(d, true, app, TEMPORARY, action);
      return if done then Ok(()) else Err(DatabaseFailed);
    }

    // ---------- accounts ----------

    method HandleVerification(now: int, d: Database, ws: Worlds, q: Request)
      returns (r: Result<GateAnswer, VerificationError>)
      modifies this
      ensures (Contents(), r) == Gate(old(Contents()), now, d, ws, q)
    {
      hide CreateSession, GetRequired, ValidateBySession;
      var created := CreateUserSession(now, d, q.app, q.user, q.action, q.context);
      if created.Err? { return Err(created.error); }
      var plugins := GetRequiredPlugins(ws.first, q);
      if plugins.Err? { return Err(plugins.error); }
      if CheckActive in d.failing { return Err(DatabaseFailed); }
      var active := ActiveSession(sessions, now, q.app, q.user);
      if active.None? { return Err(NoActiveSession); }
      var status := ValidatePluginStatusBySession(Contents(), now, d, ws.second, active.value.id);
      if status.Err? { return Err(status.error); }
      return Ok(GateAnswer(created.value, plugins.value, status.value));
    }

    method LoginUser(now: int, app: string, account: Option<Account>, ws: Worlds, context: Context, m: Mishaps)
      returns (r: Reply)
      modifies this
      ensures (Contents(), r) == Login(old(Contents()), now, app, account, ws, context, m)
    {
      hide Gate, Clear;
      if m.query { return QueryFailed; }
      if account.None? || !account.value.passwordMatches { return InvalidCredentials; }
      var user := account.value;
      if user.disabled { return UserDisabled; }
      var skipVerification := user.superAdmin && user.firstLogin;
      if !skipVerification {
        var gate := HandleVerification(now, m.gate, ws, LoginRequest(app, user.id, context));
        if gate.Err? { return GateFailed(gate.error); }
        if |gate.value.plugins| > 0 && !gate.value.status.completed { return PluginRequired(gate.value); }
      }
      if m.tokens { return TokenFailed; }
      if !skipVerification {
        var _ := ClearVerification(now, m.clear, app, user.id, "login");
      }
      return Issued;
    }

    method RegisterUser(now: int, app: string, appExists: bool, taken: bool, created: Option<string>,
                        ws: Worlds, context: Context, m: Mishaps) returns (r: Reply)
      modifies this
      ensures (Contents(), r) == Register(old(Contents()), now, app, appExists, taken, created, ws, context, m)
    {
      hide Gate, Clear, SetSessionUser;
      if m.query { return QueryFailed; }
      if !appExists { return AppNotFound; }
      if taken { return UserExists; }
      var gate := HandleVerification(now, m.gate, ws, RegisterRequest(app, context));
      if gate.Err? { return GateFailed(gate.error); }
      if |gate.value.plugins| > 0 && !gate.value.status.completed { return PluginRequired(gate.value); }
      if created.None? { return CreateFailed; }
      var _ := UpdateSessionUserID(now, m.assign, gate.value.session.id, created.value);
      var cleared := ClearVerification(now, m.clear, app, created.value, "register");
      if cleared.Err? { return ClearFailed(cleared.error); }
      return if m.tokens then TokenFailed else Issued;
    }
  }
}
