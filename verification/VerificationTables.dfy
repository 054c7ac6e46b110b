/** The two tables behind verification, sessions and plugin statuses, with the queries of
    internal/repository. Instants and durations are nanoseconds. */
module VerificationTables {
  import opened Common

  const PENDING := "pending"
  const COMPLETED := "completed"
  const FAILED := "failed"
  const TEMPORARY := "pending"  // the user id that registrations share until they have their own
  const HALF_HOUR := 30 * 60 * 1_000_000_000

  datatype VerificationError = NoActiveSession | SessionNotFound | CheckFailed | DatabaseFailed | FollowUpFailed

  /** The calls to the two tables, in one operation, that may fail; deletes are numbered in
      the order they are made. */
  datatype Call = ListRows | SaveRow | FindActive | DropSession | StoreSession | FindById | SaveSession
                | FindTemporary | DropTemporary | ListTemporary | DeleteRow(i: nat) | DeleteTemporary(i: nat)
                | CheckActive | CheckSession | CheckRows

  /** The order in which the database lists rows is its own affair. */
  ghost predicate Permutes(order: seq<StatusRow> -> seq<StatusRow>) {
    forall s :: multiset(order(s)) == multiset(s)
  }

  type Order = order: seq<StatusRow> -> seq<StatusRow> | Permutes(order) witness (s: seq<StatusRow>) => s

  const AS_INSERTED: Order := (s: seq<StatusRow>) => s

  /** What the database does in one operation: the calls that fail, and its order. */
  datatype Database = Database(failing: set<Call>, order: Order)

  const CALM := Database({}, AS_INSERTED)

  type Context = map<string, string>

  datatype StatusRow = StatusRow(id: nat, app: string, userId: Option<string>, identifier: string,
                                 identifierType: string, action: string, plugin: string, status: string, updatedAt: int)

  datatype Session = Session(id: nat, app: string, userId: Option<string>, identifier: string, identifierType: string,
                             action: string, status: string, context: Context, createdAt: int, expiredAt: int)

  /** Ids are never used twice. */
  datatype Tables = Tables(rows: seq<StatusRow>, sessions: seq<Session>, nextId: nat)

  const EMPTY := Tables([], [], 0)

  predicate RowOf(r: StatusRow, app: string, user: string, action: string) {
    r.app == app && r.userId == Some(user) && r.action == action
  }

  predicate RowOfIdentifier(r: StatusRow, app: string, identifier: string, kind: string, action: string) {
    r.app == app && r.identifier == identifier && r.identifierType == kind && r.action == action
  }

  function ListStatus(rows: seq<StatusRow>, app: string, user: string, action: string): seq<StatusRow> {
    Keep(rows, (r: StatusRow) => RowOf(r, app, user, action))
  }

  /** The user's rows for an action as the database lists them. */
  function Listing(order: Order, rows: seq<StatusRow>, app: string, user: string, action: string): seq<StatusRow> {
    order(ListStatus(rows, app, user, action))
  }

  function ListByIdentifier(rows: seq<StatusRow>, app: string, identifier: string, kind: string, action: string)
    : seq<StatusRow>
  {
    Keep(rows, (r: StatusRow) => RowOfIdentifier(r, app, identifier, kind, action))
  }

  /** The rows left when those of (app, user, action) for some plugins are deleted. */
  function Surviving(rows: seq<StatusRow>, app: string, user: string, action: string, plugins: set<string>)
    : seq<StatusRow>
  {
    Keep(rows, (r: StatusRow) => !(RowOf(r, app, user, action) && r.plugin in plugins))
  }

  function PluginsOf(rows: seq<StatusRow>): set<string> {
    set r | r in rows :: r.plugin
  }

  predicate SessionOf(x: Session, now: int, app: string, user: string) {
    x.app == app && x.userId == Some(user) && x.expiredAt > now
  }

  predicate SessionOfIdentifier(x: Session, now: int, app: string, identifier: string, kind: string) {
    x.app == app && x.identifier == identifier && x.identifierType == kind && x.expiredAt > now
  }

  /** The first row in descending order of creation among those that satisfy p. */
  function Newest(sessions: seq<Session>, p: Session -> bool): Option<Session> {
    if sessions == [] then None
    else
      var n := |sessions| - 1;
      var r := Newest(sessions[..n], p);
      if p(sessions[n]) && (r.None? || sessions[n].createdAt > r.value.createdAt) then Some(sessions[n]) else r
  }

  lemma {:induction false} NewestExact(sessions: seq<Session>, p: Session -> bool)
    ensures match Newest(sessions, p)
            case None => forall x :: x in sessions ==> !p(x)
            case Some(r) => r in sessions && p(r) && forall x :: x in sessions && p(x) ==> x.createdAt <= r.createdAt
  {
    if sessions != [] {
      var n := |sessions| - 1;
      NewestExact(sessions[..n], p);
      assert sessions == sessions[..n] + [sessions[n]];
    }
  }

  function ActiveSession(sessions: seq<Session>, now: int, app: string, user: string): Option<Session> {
    Newest(sessions, x => SessionOf(x, now, app, user))
  }

  function ActiveByIdentifier(sessions: seq<Session>, now: int, app: string, identifier: string, kind: string)
    : Option<Session>
  {
    Newest(sessions, x => SessionOfIdentifier(x, now, app, identifier, kind))
  }

  function FindSession(sessions: seq<Session>, now: int, id: nat): Option<Session> {
    if sessions == [] then None
    else if sessions[0].id == id && sessions[0].expiredAt > now then Some(sessions[0])
    else FindSession(sessions[1..], now, id)
  }

  lemma {:induction false} FindExact(sessions: seq<Session>, now: int, id: nat)
    ensures match FindSession(sessions, now, id)
            case None => forall x :: x in sessions ==> !(x.id == id && x.expiredAt > now)
            case Some(r) => r in sessions && r.id == id && r.expiredAt > now
  {
    if sessions != [] {
      FindExact(sessions[1..], now, id);
      assert sessions == [sessions[0]] + sessions[1..];
    }
  }

  function WithoutSession(sessions: seq<Session>, x: Option<Session>): seq<Session> {
    if x.None? then sessions else Keep(sessions, (y: Session) => y.id != x.value.id)
  }

  lemma ListExact(rows: seq<StatusRow>, app: string, user: string, action: string)
    ensures forall r :: r in ListStatus(rows, app, user, action) <==> r in rows && RowOf(r, app, user, action)
  {
    KeepExact(rows, (r: StatusRow) => RowOf(r, app, user, action));
  }

  lemma ListingExact(order: Order, rows: seq<StatusRow>, app: string, user: string, action: string)
    ensures forall r :: r in Listing(order, rows, app, user, action) <==> r in rows && RowOf(r, app, user, action)
  {
    var listed := ListStatus(rows, app, user, action);
    ListExact(rows, app, user, action);
    assert Permutes(order);
    forall r ensures r in order(listed) <==> r in listed {
      assert r in order(listed) <==> r in multiset(order(listed));
      assert r in listed <==> r in multiset(listed);
    }
  }

  lemma SurvivingExact(rows: seq<StatusRow>, app: string, user: string, action: string, plugins: set<string>)
    ensures forall r :: r in Surviving(rows, app, user, action, plugins)
                        <==> r in rows && !(RowOf(r, app, user, action) && r.plugin in plugins)
  {
    KeepExact(rows, (r: StatusRow) => !(RowOf(r, app, user, action) && r.plugin in plugins));
  }

  lemma DroppedExact(sessions: seq<Session>, x: Option<Session>)
    ensures forall y :: y in WithoutSession(sessions, x) <==> y in sessions && (x.Some? ==> y.id != x.value.id)
  {
    if x.Some? { KeepExact(sessions, (y: Session) => y.id != x.value.id); }
  }

  /** Save overwrites the rows that bear its id. */
  function Saved(sessions: seq<Session>, x: Session): (r: seq<Session>)
    ensures |r| == |sessions|
    ensures forall i :: 0 <= i < |r| ==> r[i] == if sessions[i].id == x.id then x else sessions[i]
  {
    seq(|sessions|, i requires 0 <= i < |sessions| => if sessions[i].id == x.id then x else sessions[i])
  }
}
