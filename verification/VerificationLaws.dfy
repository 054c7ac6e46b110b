/** What each operation on sessions and statuses leaves for the queries that follow it
    (internal/service/verification_session.go, verification_status.go). */
module VerificationLaws {
  import opened Common
  import opened VerificationTables
  import opened VerificationFlow
  import opened PluginChecks

  // ---------- sessions ----------

  /** No stored session bears an id that is still to be given out. */
  ghost predicate IdsUsed(t: Tables) {
    forall x :: x in t.sessions ==> x.id < t.nextId
  }

  lemma {:induction false} FindAppended(sessions: seq<Session>, x: Session, at: int, id: nat)
    requires forall y :: y in sessions ==> y.id != x.id
    ensures FindSession(sessions + [x], at, id)
         == if id != x.id then FindSession(sessions, at, id) else if at < x.expiredAt then Some(x) else None
  {
    var all := sessions + [x];
    if sessions == [] {
      assert all == [x] && all[1..] == [];
    } else {
      assert sessions == [sessions[0]] + sessions[1..];
      assert all[1..] == sessions[1..] + [x];
      FindAppended(sessions[1..], x, at, id);
    }
  }

  /** A session for a user is found under its id for half an hour, and is what was asked for. */
  lemma UserSessionLives(t: Tables, now: int, d: Database, app: string, user: string, action: string, context: Context,
                         at: int)
    requires IdsUsed(t)
    ensures var (t1, r) := CreateSession(t, now, d, app, user, action, context);
            r.Ok? ==>
              && FindSession(t1.sessions, at, r.value.id) == (if at < now + HALF_HOUR then Some(r.value) else None)
              && r.value.app == app && r.value.userId == Some(user) && r.value.action == action
              && r.value.context == context
  {
    hide Inherit, Heir, ActiveSession;
    InheritFrame(t, now, d, app, user, action);
    var t0 := Inherit(t, now, d.order, app, user, action);
    StoredLives(t0, now, d, ActiveSession(t0.sessions, now, app, user), UserSession(app, user, action, context), at);
  }

  lemma InheritFrame(t: Tables, now: int, d: Database, app: string, user: string, action: string)
    ensures var t0 := Inherit(t, now, d.order, app, user, action);
            t0.sessions == t.sessions && t0.nextId >= t.nextId
  {
  }

  lemma StoredLives(t: Tables, now: int, d: Database, existing: Option<Session>, x: Session, at: int)
    requires IdsUsed(t)
    ensures var (t1, r) := Replace(t, now, d, existing, x);
            r.Ok? ==> FindSession(t1.sessions, at, r.value.id) == if at < now + HALF_HOUR then Some(r.value) else None
  {
    DroppedExact(t.sessions, existing);
    FindAppended(WithoutSession(t.sessions, existing), Created(t, now, x), at, t.nextId);
  }

  /** A session by identifier has no user, is found under its id for half an hour, and is
      the one active for its identifier. */
  lemma IdentifierSessionLives(t: Tables, now: int, d: Database, app: string, identifier: string, kind: string,
                               action: string, context: Context, at: int)
    requires Dated(t, now - 1)
    ensures var (t1, r) := CreateByIdentifier(t, now, d, app, identifier, kind, action, context);
            r.Ok? ==>
              && FindSession(t1.sessions, at, r.value.id) == (if at < now + HALF_HOUR then Some(r.value) else None)
              && ActiveByIdentifier(t1.sessions, now, app, identifier, kind) == Some(r.value)
              && r.value.userId == None && r.value.action == action && r.value.context == context
  {
    var existing := ActiveByIdentifier(t.sessions, now, app, identifier, kind);
    var (t1, r) := CreateByIdentifier(t, now, d, app, identifier, kind, action, context);
    if r.Ok? {
      StoredLives(t, now, d, existing, Session(0, app, None, identifier, kind, action, PENDING, context, 0, 0), at);
      DroppedExact(t.sessions, existing);
      var kept := WithoutSession(t.sessions, existing);
      assert t1.sessions == kept + [r.value];
      forall y | y in kept ensures y.createdAt < now { assert y in t.sessions; }
      assert r.value in t1.sessions && SessionOfIdentifier(r.value, now, app, identifier, kind);
      NewestExact(t1.sessions, y => SessionOfIdentifier(y, now, app, identifier, kind));
    }
  }

  /** The session that is found for a user, or for an identifier of one type, is one of the app
      that has not expired, and no such session is newer. */
  lemma ActiveExactly(sessions: seq<Session>, now: int, app: string, name: string, kind: string)
    ensures match ActiveSession(sessions, now, app, name)
            case None => forall x :: x in sessions ==> !(x.app == app && x.userId == Some(name) && now < x.expiredAt)
            case Some(r) =>
              && r in sessions && r.app == app && r.userId == Some(name) && now < r.expiredAt
              && forall x :: x in sessions && x.app == app && x.userId == Some(name) && now < x.expiredAt
                             ==> x.createdAt <= r.createdAt
    ensures match ActiveByIdentifier(sessions, now, app, name, kind)
            case None =>
              forall x :: x in sessions ==>
                            !(x.app == app && x.identifier == name && x.identifierType == kind && now < x.expiredAt)
            case Some(r) =>
              && r in sessions && r.app == app && r.identifier == name && r.identifierType == kind && now < r.expiredAt
              && forall x :: (x in sessions && x.app == app && x.identifier == name && x.identifierType == kind
                              && now < x.expiredAt) ==> x.createdAt <= r.createdAt
  {
    NewestExact(sessions, x => SessionOf(x, now, app, name));
    NewestExact(sessions, x => SessionOfIdentifier(x, now, app, name, kind));
  }

  lemma {:induction false} FindSaved(sessions: seq<Session>, x: Session, at: int, id: nat)
    requires x.expiredAt > at
    ensures FindSession(Saved(sessions, x), at, id)
         == if id != x.id then FindSession(sessions, at, id)
            else if exists y :: y in sessions && y.id == id then Some(x) else None
  {
    if sessions != [] {
      assert sessions == [sessions[0]] + sessions[1..];
      assert Saved(sessions, x)[1..] == Saved(sessions[1..], x);
      FindSaved(sessions[1..], x, at, id);
    }
  }

  /** Giving a session its user succeeds exactly when the calls work and a session that has
      not expired bears the id. Afterwards that session has the user and is otherwise as it
      was, and what other ids lead to is unchanged. */
  lemma SetUserExactly(t: Tables, now: int, d: Database, id: nat, user: string, other: nat)
    ensures var (t1, r) := SetSessionUser(t, now, d, id, user);
            var found := FindSession(t.sessions, now, id);
            && (r.Ok? <==> found.Some? && FindById !in d.failing && SaveSession !in d.failing)
            && (r.Ok? ==> FindSession(t1.sessions, now, id) == Some(found.value.(userId := Some(user))))
            && (r.Err? || other != id ==> FindSession(t1.sessions, now, other) == FindSession(t.sessions, now, other))
  {
    FindExact(t.sessions, now, id);
    var found := FindSession(t.sessions, now, id);
    if found.Some? {
      FindSaved(t.sessions, found.value.(userId := Some(user)), now, id);
      FindSaved(t.sessions, found.value.(userId := Some(user)), now, other);
    }
  }

  // ---------- statuses ----------

  /** The status of a plugin where rows are listed as they were inserted: that of its last row. */
  function Latest(t: Tables, k: Key): Option<string> {
    match LastOf(ListStatus(t.rows, k.app, k.user, k.action), k.plugin)
    case None => None
    case Some(r) => Some(r.status)
  }

  lemma SavedIsLatest(t: Tables, now: int, r: StatusRow, k: Key)
    ensures Latest(SaveStatus(t, now, r), k)
         == if RowOf(r, k.app, k.user, k.action) && r.plugin == k.plugin then Some(r.status) else Latest(t, k)
  {
    var x := r.(id := t.nextId, updatedAt := now);
    var listed := ListStatus(t.rows, k.app, k.user, k.action);
    var after := ListStatus(SaveStatus(t, now, r).rows, k.app, k.user, k.action);
    KeepMore(t.rows, x, (y: StatusRow) => RowOf(y, k.app, k.user, k.action));
    if RowOf(r, k.app, k.user, k.action) {
      assert after == listed + [x];
      LastAppended(listed, x, k.plugin);
    } else {
      assert after == listed + [] == listed;
    }
  }

  lemma LastAppended(rows: seq<StatusRow>, x: StatusRow, plugin: string)
    ensures LastOf(rows + [x], plugin) == if x.plugin == plugin then Some(x) else LastOf(rows, plugin)
  {
    assert (rows + [x])[..|rows|] == rows;
  }

  /** The plugin as it runs in the app. */
  ghost predicate Runs(w: World, app: string, plugin: string) {
    app != "" && plugin != "" && plugin in w.running
  }

  /** An update makes the given status the latest of that user, action and plugin and of no
      other, if the row can be saved, whatever the plugin says afterwards. It succeeds
      unless that save fails, or a running Verifiable plugin that has just been completed
      cannot say whether it is needed. */
  lemma UpdateIsLatest(t: Tables, now: int, d: Database, w: World, app: string, user: string, action: string,
                       plugin: string, status: string, context: Context, k: Key)
    ensures var (t1, r) := UpdateStatus(t, now, d, w, app, user, action, plugin, status, context);
            && Latest(t1, k) == (if SaveRow !in d.failing && k == Key(app, user, action, plugin) then Some(status)
                                 else Latest(t, k))
            && (r.Err? <==>
                || SaveRow in d.failing
                || (&& status == COMPLETED && Runs(w, app, plugin) && w.running[plugin].oracle.Some?
                    && w.running[plugin].oracle.value.needs(user, action, context) == Fails))
  {
    hide Latest;
    SavedIsLatest(t, now, UserRow(app, user, action, plugin, status), k);
  }

  /** The same through a session that is alive and has its user; it succeeds unless a call
      fails, there is no such session, or the running plugin that has just been completed
      fails to welcome its user. */
  lemma SessionUpdateIsLatest(t: Tables, now: int, d: Database, w: World, id: nat, plugin: string, status: string,
                              k: Key)
    ensures var (t1, r) := UpdateBySession(t, now, d, w, id, plugin, status);
            var x := FindSession(t.sessions, now, id);
            var saves := SaveRow !in d.failing && FindById !in d.failing && x.Some?;
            && Latest(t1, k) == (if && saves && x.value.userId.Some?
                                    && k == Key(x.value.app, x.value.userId.value, x.value.action, plugin)
                                 then Some(status) else Latest(t, k))
            && (r.Err? <==>
                || !saves
                || (&& status == COMPLETED && Runs(w, x.value.app, plugin) && w.running[plugin].oracle.Some?
                    && x.value.userId.Some?
                    && !w.running[plugin].oracle.value.welcomes(x.value.userId.value, x.value.action, x.value.context)))
  {
    hide Latest;
    var x := FindSession(t.sessions, now, id);
    if x.Some? { SavedIsLatest(t, now, SessionRow(x.value, plugin, status), k); }
  }

  /** The status of a plugin that the check of a session sees. */
  function Seen(t: Tables, y: Session, plugin: string): Option<string> {
    match LastOf(RowsOf(t, AS_INSERTED, y), plugin)
    case None => None
    case Some(r) => Some(r.status)
  }

  /** Sessions that share their statuses: of one app and action, for one user, or for one
      identifier where the second has no user. A session with a user writes no identifier. */
  predicate Shares(x: Session, y: Session) {
    && x.app == y.app && x.action == y.action
    && (if y.userId.Some? then x.userId == y.userId
        else if x.userId.Some? then y.identifier == "" && y.identifierType == ""
        else x.identifier == y.identifier && x.identifierType == y.identifierType)
  }

  lemma RowIsSeen(t: Tables, now: int, r: StatusRow, y: Session, plugin: string)
    ensures var mine := if y.userId.Some? then RowOf(r, y.app, y.userId.value, y.action)
                        else && r.app == y.app && r.action == y.action
                             && r.identifier == y.identifier && r.identifierType == y.identifierType;
            Seen(SaveStatus(t, now, r), y, plugin)
            == if mine && r.plugin == plugin then Some(r.status) else Seen(t, y, plugin)
  {
    var x := r.(id := t.nextId, updatedAt := now);
    var listed, after := RowsOf(t, AS_INSERTED, y), RowsOf(SaveStatus(t, now, r), AS_INSERTED, y);
    if y.userId.Some? {
      KeepMore(t.rows, x, (z: StatusRow) => RowOf(z, y.app, y.userId.value, y.action));
    } else {
      KeepMore(t.rows, x, (z: StatusRow) => RowOfIdentifier(z, y.app, y.identifier, y.identifierType, y.action));
    }
    LastAppended(listed, x, plugin);
    assert after == listed + [x] || after == listed + [] == listed;
  }

  /** An update through a session is what the checks of all sessions sharing its statuses
      see from then on, and no other check sees it. */
  lemma SessionUpdateIsSeen(t: Tables, now: int, d: Database, w: World, id: nat, plugin: string, status: string,
                            y: Session, other: string)
    ensures var t1 := UpdateBySession(t, now, d, w, id, plugin, status).0;
            var x := FindSession(t.sessions, now, id);
            Seen(t1, y, other) == if && SaveRow !in d.failing && FindById !in d.failing && x.Some?
                                     && Shares(x.value, y) && other == plugin
                                  then Some(status) else Seen(t, y, other)
  {
    hide Seen;
    var x := FindSession(t.sessions, now, id);
    if x.Some? { RowIsSeen(t, now, SessionRow(x.value, plugin, status), y, other); }
  }

  // ---------- what a new session inherits ----------

  /** A completed row of the user for the action that is less than half an hour old. */
  ghost predicate FreshCompletion(r: StatusRow, now: int, app: string, user: string, action: string) {
    RowOf(r, app, user, action) && r.status == COMPLETED && now < r.updatedAt + HALF_HOUR
  }

  /** A session inherits a completion exactly when there is a fresh one, and then one that no
      other is newer than: it is written again as the last row, dated now. */
  lemma InheritsExactly(t: Tables, now: int, order: Order, app: string, user: string, action: string)
    ensures var t1 := Inherit(t, now, order, app, user, action);
            && (t1 == t <==> forall r :: r in t.rows ==> !FreshCompletion(r, now, app, user, action))
            && (t1 != t ==>
                  exists r :: && r in t.rows && FreshCompletion(r, now, app, user, action)
                              && (forall x :: x in t.rows && RowOf(x, app, user, action) && x.status == COMPLETED
                                              ==> x.updatedAt <= r.updatedAt)
                              && t1 == SaveStatus(t, now, UserRow(app, user, action, r.plugin, COMPLETED)))
  {
    ListingExact(order, t.rows, app, user, action);
    var heir := Heir(t, now, order, app, user, action);
    if heir.Some? {
      assert heir.value in t.rows && FreshCompletion(heir.value, now, app, user, action);
      assert |SaveStatus(t, now, UserRow(app, user, action, heir.value.plugin, COMPLETED)).rows| == |t.rows| + 1;
    }
  }
}
