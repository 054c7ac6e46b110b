/** Sessions, statuses and their clean-up (internal/service/verification_session.go,
    verification_status.go) as functions of the two tables. An operation stops at the
    first call to them that fails, and what it has done so far stays. */
module VerificationFlow {
  import opened Common
  import opened VerificationTables
  import opened PluginChecks

  function SaveStatus(t: Tables, now: int, r: StatusRow): Tables {
    t.(rows := t.rows + [r.(id := t.nextId, updatedAt := now)], nextId := t.nextId + 1)
  }

  function UserRow(app: string, user: string, action: string, plugin: string, status: string): StatusRow {
    StatusRow(0, app, Some(user), "", "", action, plugin, status, 0)
  }

  /** The completed row updated last, the first listed among equals. */
  function RecentCompleted(rows: seq<StatusRow>): (r: Option<StatusRow>)
    ensures r.None? <==> forall x :: x in rows ==> x.status != COMPLETED
    ensures r.Some? ==> r.value in rows && r.value.status == COMPLETED
    ensures r.Some? ==> forall x :: x in rows && x.status == COMPLETED ==> x.updatedAt <= r.value.updatedAt
  {
    if rows == [] then None
    else
      var n := |rows| - 1;
      assert rows == rows[..n] + [rows[n]];
      var r := RecentCompleted(rows[..n]);
      if rows[n].status == COMPLETED && (r.None? || rows[n].updatedAt > r.value.updatedAt) then Some(rows[n]) else r
  }

  /** The completion that a new session inherits: the most recent one, while it is less
      than half an hour old. */
  function Heir(t: Tables, now: int, order: Order, app: string, user: string, action: string): Option<StatusRow> {
    match RecentCompleted(Listing(order, t.rows, app, user, action))
    case None => None
    case Some(r) => if now - r.updatedAt < HALF_HOUR then Some(r) else None
  }

  /** It is written again as a new row. */
  function Inherit(t: Tables, now: int, order: Order, app: string, user: string, action: string): Tables {
    match Heir(t, now, order, app, user, action)
    case None => t
    case Some(r) => SaveStatus(t, now, UserRow(app, user, action, r.plugin, COMPLETED))
  }

  function Created(t: Tables, now: int, x: Session): Session {
    x.(id := t.nextId, createdAt := now, expiredAt := now + HALF_HOUR)
  }

  /** Drops the existing session, if there is one, and stores a new one under the next id. */
  function Replace(t: Tables, now: int, d: Database, existing: Option<Session>, x: Session)
    : (Tables, Result<Session, VerificationError>)
  {
    if FindActive in d.failing || (existing.Some? && DropSession in d.failing) then (t, Err(DatabaseFailed))
    else
      var t1 := t.(sessions := WithoutSession(t.sessions, existing));
      if StoreSession in d.failing then (t1, Err(DatabaseFailed))
      else (t1.(sessions := t1.sessions + [Created(t, now, x)], nextId := t.nextId + 1), Ok(Created(t, now, x)))
  }

  function UserSession(app: string, user: string, action: string, context: Context): Session {
    Session(0, app, Some(user), "", "", action, PENDING, context, 0, 0)
  }

  function CreateSession(t: Tables, now: int, d: Database, app: string, user: string, action: string, context: Context)
    : (Tables, Result<Session, VerificationError>)
  {
    var heir := Heir(t, now, d.order, app, user, action);
    if ListRows in d.failing || (heir.Some? && SaveRow in d.failing) then (t, Err(DatabaseFailed))
    else
      var t1 := Inherit(t, now, d.order, app, user, action);
      Replace(t1, now, d, ActiveSession(t1.sessions, now, app, user), UserSession(app, user, action, context))
  }

  function CreateByIdentifier(t: Tables, now: int, d: Database, app: string, identifier: string, kind: string,
                              action: string, context: Context): (Tables, Result<Session, VerificationError>) {
    Replace(t, now, d, ActiveByIdentifier(t.sessions, now, app, identifier, kind),
            Session(0, app, None, identifier, kind, action, PENDING, context, 0, 0))
  }

  function SetSessionUser(t: Tables, now: int, d: Database, id: nat, user: string)
    : (Tables, Result<(), VerificationError>)
  {
    if FindById in d.failing then (t, Err(DatabaseFailed))
    else
      match FindSession(t.sessions, now, id)
      case None => (t, Err(SessionNotFound))
      case Some(x) =>
        if SaveSession in d.failing then (t, Err(DatabaseFailed))
        else (t.(sessions := Saved(t.sessions, x.(userId := Some(user)))), Ok(()))
  }

  /** A plugin that is asked whether it needs verification may fail to answer. */
  predicate AskFails(w: World, app: string, user: string, action: string, plugin: string, context: Context) {
    var p := FindPlugin(w, app, plugin);
    p.Some? && p.value.oracle.Some? && p.value.oracle.value.needs(user, action, context).Fails?
  }

  /** The plugin is asked once a completion has been saved. */
  function UpdateStatus(t: Tables, now: int, d: Database, w: World, app: string, user: string, action: string,
                        plugin: string, status: string, context: Context): (Tables, Result<(), VerificationError>) {
    if SaveRow in d.failing then (t, Err(DatabaseFailed))
    else
      (SaveStatus(t, now, UserRow(app, user, action, plugin, status)),
       if status == COMPLETED && AskFails(w, app, user, action, plugin, context) then Err(FollowUpFailed) else Ok(()))
  }

  /** The row a session's update writes. */
  function SessionRow(x: Session, plugin: string, status: string): StatusRow {
    if x.userId.Some? then UserRow(x.app, x.userId.value, x.action, plugin, status)
    else StatusRow(0, x.app, None, x.identifier, x.identifierType, x.action, plugin, status, 0)
  }

  /** The success callback of the plugin may fail, for a session that has a user. */
  predicate WelcomeFails(w: World, x: Session, plugin: string) {
    var p := FindPlugin(w, x.app, plugin);
    && p.Some? && x.userId.Some? && p.value.oracle.Some?
    && !p.value.oracle.value.welcomes(x.userId.value, x.action, x.context)
  }

  function UpdateBySession(t: Tables, now: int, d: Database, w: World, id: nat, plugin: string, status: string)
    : (Tables, Result<(), VerificationError>)
  {
    if FindById in d.failing then (t, Err(DatabaseFailed))
    else
      match FindSession(t.sessions, now, id)
      case None => (t, Err(SessionNotFound))
      case Some(x) =>
        if SaveRow in d.failing then (t, Err(DatabaseFailed))
        else
          (SaveStatus(t, now, SessionRow(x, plugin, status)),
           if status == COMPLETED && WelcomeFails(w, x, plugin) then Err(FollowUpFailed) else Ok(()))
  }

  // ---------- clean-up ----------

  predicate DeleteFails(d: Database, temporary: bool, i: nat) {
    (if temporary then DeleteTemporary(i) else DeleteRow(i)) in d.failing
  }

  /** How many of n deletes are made before one fails. */
  function Reached(d: Database, temporary: bool, n: nat): (k: nat)
    ensures k <= n
    ensures forall i: nat :: i < k ==> !DeleteFails(d, temporary, i)
    ensures k < n ==> DeleteFails(d, temporary, k)
  {
    if n == 0 then 0
    else
      var k := Reached(d, temporary, n - 1);
      if k == n - 1 && !DeleteFails(d, temporary, k) then n else k
  }

  /** The plugins whose rows are deleted, of those listed for the user. */
  function DeletedPlugins(rows: seq<StatusRow>, d: Database, temporary: bool, app: string, user: string,
                          action: string): set<string>
  {
    var listed := Listing(d.order, rows, app, user, action);
    PluginsOf(listed[..Reached(d, temporary, |listed|)])
  }

  /** Deleting the listed statuses plugin by plugin. */
  function DeleteListed(rows: seq<StatusRow>, d: Database, temporary: bool, app: string, user: string, action: string)
    : (seq<StatusRow>, bool)
  {
    var listed := Listing(d.order, rows, app, user, action);
    (Surviving(rows, app, user, action, DeletedPlugins(rows, d, temporary, app, user, action)),
     Reached(d, temporary, |listed|) == |listed|)
  }

  /** The sessions that dropping the user's active one leaves. */
  function DropActive(sessions: seq<Session>, now: int, d: Database, find: Call, drop: Call, app: string, user: string)
    : Result<seq<Session>, VerificationError>
  {
    var existing := ActiveSession(sessions, now, app, user);
    if find in d.failing || (existing.Some? && drop in d.failing) then Err(DatabaseFailed)
    else Ok(WithoutSession(sessions, existing))
  }

  function ClearRows(t: Tables, d: Database, app: string, user: string, action: string)
    : (Tables, Result<(), VerificationError>)
  {
    if ListRows in d.failing then (t, Err(DatabaseFailed))
    else
      var (rows, done) := DeleteListed(t.rows, d, false, app, user, action);
      var t1 := t.(rows := rows);
      if !done || ListTemporary in d.failing then (t1, Err(DatabaseFailed))
      else
        var (rows2, done2) := DeleteListed(rows, d, true, app, TEMPORARY, action);
        (t1.(rows := rows2), if done2 then Ok(()) else Err(DatabaseFailed))
  }

  function ClearSessions(t: Tables, now: int, d: Database, app: string, user: string)
    : (Tables, Result<(), VerificationError>)
  {
    match DropActive(t.sessions, now, d, FindActive, DropSession, app, user)
    case Err(e) => (t, Err(e))
    case Ok(sessions) =>
      var t1 := t.(sessions := sessions);
      match DropActive(sessions, now, d, FindTemporary, DropTemporary, app, TEMPORARY)
      case Err(e) => (t1, Err(e))
      case Ok(sessions2) => (t1.(sessions := sessions2), Ok(()))
  }

  /** ClearVerification of a user also clears the temporary user. */
  function Clear(t: Tables, now: int, d: Database, app: string, user: string, action: string)
    : (Tables, Result<(), VerificationError>)
  {
    var (t1, r) := ClearSessions(t, now, d, app, user);
    if r.Err? then (t1, r) else ClearRows(t1, d, app, user, action)
  }

  // ---------- completed records ----------

  datatype Key = Key(app: string, user: string, action: string, plugin: string)

  predicate CompletedRow(r: StatusRow, k: Key) {
    RowOf(r, k.app, k.user, k.action) && r.plugin == k.plugin && r.status == COMPLETED
  }

  ghost predicate HasCompleted(t: Tables, k: Key) {
    exists r :: r in t.rows && CompletedRow(r, k)
  }

  lemma SaveExact(t: Tables, now: int, r: StatusRow, k: Key)
    ensures HasCompleted(SaveStatus(t, now, r), k) <==> HasCompleted(t, k) || CompletedRow(r, k)
  {
    var x := r.(id := t.nextId, updatedAt := now);
    assert x in SaveStatus(t, now, r).rows;
    assert CompletedRow(x, k) == CompletedRow(r, k);
    forall y ensures y in SaveStatus(t, now, r).rows <==> y in t.rows || y == x {}
  }

  /** Inheritance never completes a plugin that had no completed row of its own. */
  lemma InheritConserves(t: Tables, now: int, order: Order, app: string, user: string, action: string, k: Key)
    ensures HasCompleted(Inherit(t, now, order, app, user, action), k) <==> HasCompleted(t, k)
  {
    ListingExact(order, t.rows, app, user, action);
    match Heir(t, now, order, app, user, action)
    case None =>
    case Some(r) =>
      SaveExact(t, now, UserRow(app, user, action, r.plugin, COMPLETED), k);
      assert r in t.rows;
      if CompletedRow(UserRow(app, user, action, r.plugin, COMPLETED), k) {
        assert CompletedRow(r, k);
      }
  }

  predicate Covers(app: string, user: string, action: string, k: Key) {
    k.app == app && k.action == action && (k.user == user || k.user == TEMPORARY)
  }

  predicate Deletes(rows: seq<StatusRow>, d: Database, temporary: bool, app: string, user: string, action: string,
                    k: Key)
  {
    k.app == app && k.user == user && k.action == action
        && k.plugin in DeletedPlugins(rows, d, temporary, app, user, action)
  }

  /** A clean-up gets as far as deleting the rows of this key. */
  predicate ClearsKey(t: Tables, now: int, d: Database, app: string, user: string, action: string, k: Key) {
    var (rows, done) := DeleteListed(t.rows, d, false, app, user, action);
    && ClearSessions(t, now, d, app, user).1.Ok? && ListRows !in d.failing
    && (|| Deletes(t.rows, d, false, app, user, action, k)
        || (done && ListTemporary !in d.failing && Deletes(rows, d, true, app, TEMPORARY, action, k)))
  }

  lemma DeleteExact(t: Tables, d: Database, temporary: bool, app: string, user: string, action: string, k: Key)
    ensures var (rows, done) := DeleteListed(t.rows, d, temporary, app, user, action);
            && (HasCompleted(t.(rows := rows), k)
                <==> HasCompleted(t, k) && !Deletes(t.rows, d, temporary, app, user, action, k))
            && (done && k.app == app && k.user == user && k.action == action ==> !HasCompleted(t.(rows := rows), k))
  {
    var (rows, done) := DeleteListed(t.rows, d, temporary, app, user, action);
    var deleted := DeletedPlugins(t.rows, d, temporary, app, user, action);
    SurvivingExact(t.rows, app, user, action, deleted);
    if HasCompleted(t, k) && !Deletes(t.rows, d, temporary, app, user, action, k) {
      var r :| r in t.rows && CompletedRow(r, k);
      assert r in rows;
    }
    ListingExact(d.order, t.rows, app, user, action);
    var listed := Listing(d.order, t.rows, app, user, action);
    assert listed[..|listed|] == listed;
  }

  lemma SessionsKeepRows(t: Tables, now: int, d: Database, app: string, user: string)
    ensures ClearSessions(t, now, d, app, user).0.rows == t.rows
  {
  }

  /** A clean-up removes exactly the completed records it gets to; if it reports success,
      none of the user or of the temporary user is left for the action. */
  lemma ClearExact(t: Tables, now: int, d: Database, app: string, user: string, action: string, k: Key)
    ensures var (t1, r) := Clear(t, now, d, app, user, action);
            && (HasCompleted(t1, k) <==> HasCompleted(t, k) && !ClearsKey(t, now, d, app, user, action, k))
            && (r.Ok? && Covers(app, user, action, k) ==> !HasCompleted(t1, k))
  {
    hide HasCompleted, DeleteListed, Deletes, ClearSessions;
    var t0 := ClearSessions(t, now, d, app, user).0;
    SessionsKeepRows(t, now, d, app, user);
    SameRows(t, t0, k);
    var (rows, done) := DeleteListed(t.rows, d, false, app, user, action);
    DeleteExact(t0, d, false, app, user, action, k);
    DeleteExact(t0.(rows := rows), d, true, app, TEMPORARY, action, k);
  }

  lemma SameRows(t: Tables, t1: Tables, k: Key)
    requires t.rows == t1.rows
    ensures HasCompleted(t, k) <==> HasCompleted(t1, k)
  {
  }

  // ---------- when a clean-up succeeds ----------

  lemma ReachesAll(d: Database, temporary: bool, n: nat)
    ensures Reached(d, temporary, n) == n <==> forall i: nat :: i < n ==> !DeleteFails(d, temporary, i)
  {
  }

  lemma ListedCount(order: Order, rows: seq<StatusRow>, app: string, user: string, action: string)
    ensures |Listing(order, rows, app, user, action)| == |ListStatus(rows, app, user, action)|
  {
    var listed := ListStatus(rows, app, user, action);
    assert Permutes(order);
    assert |multiset(order(listed))| == |multiset(listed)|;
  }

  /** Once all rows of the user are deleted, those of the temporary user are still there,
      unless they are the same. */
  lemma TemporaryRowsLeft(rows: seq<StatusRow>, d: Database, app: string, user: string, action: string)
    requires DeleteListed(rows, d, false, app, user, action).1
    ensures ListStatus(DeleteListed(rows, d, false, app, user, action).0, app, TEMPORARY, action)
         == if user == TEMPORARY then [] else ListStatus(rows, app, TEMPORARY, action)
  {
    hide RowOf, Reached;
    var left := DeleteListed(rows, d, false, app, user, action).0;
    var plugins := DeletedPlugins(rows, d, false, app, user, action);
    var listed := Listing(d.order, rows, app, user, action);
    assert listed[..|listed|] == listed;
    if user == TEMPORARY {
      ListingExact(d.order, rows, app, user, action);
      SurvivingExact(rows, app, user, action, plugins);
      ListExact(left, app, user, action);
      HasMember(ListStatus(left, app, user, action));
    } else {
      OtherRows(rows, app, user, action, plugins);
    }
  }

  lemma OtherRows(rows: seq<StatusRow>, app: string, user: string, action: string, plugins: set<string>)
    requires user != TEMPORARY
    ensures ListStatus(Surviving(rows, app, user, action, plugins), app, TEMPORARY, action)
         == ListStatus(rows, app, TEMPORARY, action)
  {
    KeepTwice(rows, (r: StatusRow) => !(RowOf(r, app, user, action) && r.plugin in plugins),
              (r: StatusRow) => RowOf(r, app, TEMPORARY, action), (r: StatusRow) => RowOf(r, app, TEMPORARY, action));
  }

  /** The session of the user that a clean-up drops, and that of the temporary user. */
  function Dropped(t: Tables, now: int, app: string, user: string): (Option<Session>, Option<Session>) {
    var mine := ActiveSession(t.sessions, now, app, user);
    (mine, ActiveSession(WithoutSession(t.sessions, mine), now, app, TEMPORARY))
  }

  lemma SessionsDropped(t: Tables, now: int, d: Database, app: string, user: string)
    ensures var (t1, r) := ClearSessions(t, now, d, app, user);
            var (mine, shared) := Dropped(t, now, app, user);
            && (r.Ok? <==> && FindActive !in d.failing && FindTemporary !in d.failing
                           && (mine.Some? ==> DropSession !in d.failing)
                           && (shared.Some? ==> DropTemporary !in d.failing))
            && (r.Ok? ==> forall x :: x in t1.sessions <==>
                                      && x in t.sessions && (mine.Some? ==> x.id != mine.value.id)
                                      && (shared.Some? ==> x.id != shared.value.id))
  {
    var (mine, shared) := Dropped(t, now, app, user);
    DroppedExact(t.sessions, mine);
    DroppedExact(WithoutSession(t.sessions, mine), shared);
  }

  /** No delete fails: one for each row of the user and, apart from those, of the temporary
      user. */
  predicate DeletesWork(rows: seq<StatusRow>, d: Database, app: string, user: string, action: string) {
    && (forall i | 0 <= i < |ListStatus(rows, app, user, action)| :: DeleteRow(i) !in d.failing)
    && (user != TEMPORARY ==>
          forall i | 0 <= i < |ListStatus(rows, app, TEMPORARY, action)| :: DeleteTemporary(i) !in d.failing)
  }

  lemma RowsDeleted(t: Tables, d: Database, app: string, user: string, action: string)
    ensures var (t1, r) := ClearRows(t, d, app, user, action);
            && t1.sessions == t.sessions
            && (r.Ok? <==> && ListRows !in d.failing && ListTemporary !in d.failing
                           && DeletesWork(t.rows, d, app, user, action))
  {
    hide Reached, Surviving, ListStatus;
    var (rows, done) := DeleteListed(t.rows, d, false, app, user, action);
    var n, m := |ListStatus(t.rows, app, user, action)|, |ListStatus(rows, app, TEMPORARY, action)|;
    ListedCount(d.order, t.rows, app, user, action);
    ListedCount(d.order, rows, app, TEMPORARY, action);
    ReachesAll(d, false, n);
    ReachesAll(d, true, m);
    assert forall i: nat :: DeleteFails(d, false, i) <==> DeleteRow(i) in d.failing;
    assert forall i: nat :: DeleteFails(d, true, i) <==> DeleteTemporary(i) in d.failing;
    if done { TemporaryRowsLeft(t.rows, d, app, user, action); }
  }

  /** A clean-up succeeds exactly when none of the calls it makes fails, and then drops the
      active session of the user and that of the temporary user and no other. */
  lemma ClearSucceedsExactly(t: Tables, now: int, d: Database, app: string, user: string, action: string)
    ensures var (t1, r) := Clear(t, now, d, app, user, action);
            var (mine, shared) := Dropped(t, now, app, user);
            && (r.Ok? <==>
                && FindActive !in d.failing && FindTemporary !in d.failing
                && (mine.Some? ==> DropSession !in d.failing) && (shared.Some? ==> DropTemporary !in d.failing)
                && ListRows !in d.failing && ListTemporary !in d.failing
                && DeletesWork(t.rows, d, app, user, action))
            && (r.Ok? ==> forall x :: x in t1.sessions <==>
                                      && x in t.sessions && (mine.Some? ==> x.id != mine.value.id)
                                      && (shared.Some? ==> x.id != shared.value.id))
  {
    hide ClearSessions, ClearRows, Dropped, DeletesWork;
    SessionsDropped(t, now, d, app, user);
    SessionsKeepRows(t, now, d, app, user);
    RowsDeleted(ClearSessions(t, now, d, app, user).0, d, app, user, action);
  }

  // ---------- sessions ----------

  /** No session is newer than at, and ids are used up to nextId. */
  ghost predicate Dated(t: Tables, at: int) {
    forall x :: x in t.sessions ==> x.createdAt <= at && x.id < t.nextId
  }

  lemma SaveDated(t: Tables, now: int, r: StatusRow)
    requires Dated(t, now)
    ensures Dated(SaveStatus(t, now, r), now)
  {
  }

  lemma InheritDated(t: Tables, at: int, now: int, order: Order, app: string, user: string, action: string)
    requires Dated(t, at)
    ensures Dated(Inherit(t, now, order, app, user, action), at)
  {
  }

  lemma ReplaceDated(t: Tables, now: int, d: Database, existing: Option<Session>, x: Session)
    requires Dated(t, now)
    ensures Dated(Replace(t, now, d, existing, x).0, now)
  {
    DroppedExact(t.sessions, existing);
  }

  lemma CreateDated(t: Tables, now: int, d: Database, app: string, user: string, action: string, context: Context)
    requires Dated(t, now)
    ensures Dated(CreateSession(t, now, d, app, user, action, context).0, now)
  {
    InheritDated(t, now, now, d.order, app, user, action);
    var t1 := Inherit(t, now, d.order, app, user, action);
    ReplaceDated(t1, now, d, ActiveSession(t1.sessions, now, app, user), UserSession(app, user, action, context));
  }

  lemma CreateByIdentifierDated(t: Tables, now: int, d: Database, app: string, identifier: string, kind: string,
                                action: string, context: Context)
    requires Dated(t, now)
    ensures Dated(CreateByIdentifier(t, now, d, app, identifier, kind, action, context).0, now)
  {
    DroppedExact(t.sessions, ActiveByIdentifier(t.sessions, now, app, identifier, kind));
  }

  lemma SetUserDated(t: Tables, now: int, d: Database, id: nat, user: string)
    requires Dated(t, now)
    ensures Dated(SetSessionUser(t, now, d, id, user).0, now)
  {
    FindExact(t.sessions, now, id);
    match FindSession(t.sessions, now, id)
    case None =>
    case Some(x) =>
      var saved := Saved(t.sessions, x.(userId := Some(user)));
      forall y | y in saved ensures y.createdAt <= now && y.id < t.nextId {
        var i :| 0 <= i < |saved| && saved[i] == y;
        assert t.sessions[i] in t.sessions;
      }
  }

  lemma DropDated(t: Tables, now: int, d: Database, find: Call, drop: Call, app: string, user: string)
    requires Dated(t, now)
    ensures var r := DropActive(t.sessions, now, d, find, drop, app, user);
            r.Ok? ==> Dated(t.(sessions := r.value), now)
  {
    DroppedExact(t.sessions, ActiveSession(t.sessions, now, app, user));
  }

  lemma ClearDated(t: Tables, now: int, d: Database, app: string, user: string, action: string)
    requires Dated(t, now)
    ensures Dated(Clear(t, now, d, app, user, action).0, now)
  {
    hide DropActive, DeleteListed;
    DropDated(t, now, d, FindActive, DropSession, app, user);
    var r := DropActive(t.sessions, now, d, FindActive, DropSession, app, user);
    if r.Ok? { DropDated(t.(sessions := r.value), now, d, FindTemporary, DropTemporary, app, TEMPORARY); }
  }
}
