/** The token lifecycle of internal/service/token.go and auth_token.go on values:
    every operation as a function of the Redis store and the instant it runs at,
    and what holds over whole runs of them. Instants and durations are nanoseconds. */
module Tokens {
  import opened Common

  datatype TokenType = Access | Refresh

  /** A signed token. The signed text encodes exactly these claims, so two tokens
      with equal claims are the same text. */
  datatype Token = Token(userId: string, appId: string, username: string,
                         typ: TokenType, expiresAt: int, scope: string)

  datatype Claims = Claims(userId: string, appId: string, username: string,
                           typ: TokenType, expiresAt: int, scope: string)

  datatype Pair = Pair(access: Token, refresh: Token)

  datatype User = User(id: string, appId: string, username: string)

  datatype TokenError = ParseFailed | InvalidToken | TokenExpired | TokenRevoked | RedisFailed
                      | UserNotFound | UserDisabled | UserQueryFailed

  datatype Lifetimes = Lifetimes(access: int, refresh: int)

  const SECOND := 1_000_000_000

  function Life(cfg: Lifetimes, typ: TokenType): int {
    if typ == Access then cfg.access else cfg.refresh
  }

  /** The exp claim is whole seconds; this is the instant it names. */
  function Exp(t: Token): int {
    t.expiresAt / SECOND * SECOND
  }

  // ---------- Redis ----------

  datatype Key = RefreshKey(userId: string) | RevokedKey(token: Token)

  datatype Entry = Stored(token: Token, deadline: Option<int>) | Mark(deadline: Option<int>)

  type Redis = map<Key, Entry>

  /** go-redis sets no expiry for a duration that is not positive. */
  function Deadline(now: int, ttl: int): Option<int> {
    if ttl > 0 then Some(now + ttl) else None
  }

  predicate Live(r: Redis, k: Key, now: int) {
    k in r && (r[k].deadline.None? || now < r[k].deadline.value)
  }

  /** The Redis calls of one operation that fail. */
  datatype Call = Exists | Get | SetRefresh | SetRevoked | Del

  type Faults = set<Call>

  // ---------- the operations ----------

  /** Redis and the set of texts whose signature verifies: those ever signed. */
  datatype Store = Store(redis: Redis, signed: set<Token>)

  const EMPTY := Store(map[], {})

  function NewToken(cfg: Lifetimes, now: int, user: User, typ: TokenType, scope: string): Token {
    Token(user.id, user.appId, user.username, typ, now + Life(cfg, typ), scope)
  }

  function Generate(s: Store, cfg: Lifetimes, now: int, user: User, scope: string, faults: Faults)
    : (Store, Result<Pair, TokenError>)
  {
    var pair := Pair(NewToken(cfg, now, user, Access, scope), NewToken(cfg, now, user, Refresh, scope));
    var s1 := s.(signed := s.signed + {pair.access, pair.refresh});
    if SetRefresh in faults then (s1, Err(RedisFailed))
    else (s1.(redis := s.redis[RefreshKey(user.id) := Stored(pair.refresh, Deadline(now, cfg.refresh))]), Ok(pair))
  }

  /** The parser refuses an unknown signature, and a token from its exp on
      (section 4.1.4 of RFC 7519). */
  function Validate(s: Store, now: int, t: Token, typ: TokenType, faults: Faults): Result<Claims, TokenError> {
    if t !in s.signed || now >= Exp(t) then Err(ParseFailed)
    else if t.typ != typ then Err(InvalidToken)
    else if Exists in faults then Err(RedisFailed)
    else if Live(s.redis, RevokedKey(t), now) then Err(TokenRevoked)
    else if now > Exp(t) then Err(TokenExpired)
    else Ok(Claims(t.userId, t.appId, t.username, t.typ, Exp(t), t.scope))
  }

  function GetRefresh(s: Store, now: int, userId: string, faults: Faults): Result<Token, TokenError> {
    var k := RefreshKey(userId);
    if Get in faults || !Live(s.redis, k, now) || !s.redis[k].Stored? then Err(RedisFailed)
    else Ok(s.redis[k].token)
  }

  function Exchange(s: Store, cfg: Lifetimes, now: int, t: Token, faults: Faults): (Store, Result<Pair, TokenError>) {
    match Validate(s, now, t, Refresh, faults)
    case Err(e) => (s, Err(e))
    case Ok(c) =>
      match GetRefresh(s, now, c.userId, faults)
      case Err(e) => (s, Err(e))
      case Ok(stored) =>
        if stored != t then (s, Err(InvalidToken))
        else Generate(s, cfg, now, User(c.userId, c.appId, c.username), c.scope, faults)
  }

  function Revoke(s: Store, cfg: Lifetimes, now: int, t: Token, typ: TokenType, faults: Faults)
    : (Store, Result<(), TokenError>)
  {
    match Validate(s, now, t, typ, faults)
    case Err(e) => (s, Err(e))
    case Ok(c) =>
      if SetRevoked in faults then (s, Err(RedisFailed))
      else
        var s1 := s.(redis := s.redis[RevokedKey(t) := Mark(Deadline(now, Life(cfg, typ)))]);
        if typ == Access then (s1, Ok(()))
        else if Del in faults then (s1, Err(RedisFailed))
        else (s1.(redis := s1.redis - {RefreshKey(c.userId)}), Ok(()))
  }

  /** The faults of the four calls Logout makes, in order. */
  datatype LogoutFaults = LogoutFaults(check: Faults, access: Faults, get: Faults, refresh: Faults)

  const NO_FAULTS := LogoutFaults({}, {}, {}, {})

  function Logout(s: Store, cfg: Lifetimes, now: int, t: Token, f: LogoutFaults): (Store, Result<(), TokenError>) {
    match Validate(s, now, t, Access, f.check)
    case Err(e) => (s, Err(e))
    case Ok(c) =>
      var (s1, r) := Revoke(s, cfg, now, t, Access, f.access);
      if r.Err? then (s1, r)
      else
        match GetRefresh(s1, now, c.userId, f.get)
        case Err(_) => (s1, Ok(()))
        case Ok(stored) => (Revoke(s1, cfg, now, stored, Refresh, f.refresh).0, Ok(()))
  }

  /** What the user table says of the refreshed user. */
  datatype Account = QueryFails | Missing | Disabled | Enabled

  /** The refresh endpoint looks the user up only after the pair has been exchanged. */
  function RefreshLogin(s: Store, cfg: Lifetimes, now: int, t: Token, faults: Faults, recheck: Faults, account: Account)
    : (Store, Result<Pair, TokenError>)
  {
    var (s1, r) := Exchange(s, cfg, now, t, faults);
    if r.Err? then (s1, r)
    else
      match Validate(s1, now, r.value.refresh, Refresh, recheck)
      case Err(e) => (s1, Err(e))
      case Ok(_) =>
        if account.QueryFails? then (s1, Err(UserQueryFailed))
        else if account.Missing? then (s1, Err(UserNotFound))
        else if account.Disabled? then (s1, Err(UserDisabled))
        else (s1, r)
  }

  // ---------- runs ----------

  datatype Event =
    | DoIssue(now: int, user: User, scope: string, faults: Faults)
    | DoExchange(now: int, token: Token, faults: Faults)
    | DoRefreshLogin(now: int, token: Token, faults: Faults, recheck: Faults, account: Account)
    | DoRevoke(now: int, token: Token, typ: TokenType, faults: Faults)
    | DoLogout(now: int, token: Token, logoutFaults: LogoutFaults)

  function Step(s: Store, cfg: Lifetimes, e: Event): Store {
    match e
    case DoIssue(now, user, scope, f) => Generate(s, cfg, now, user, scope, f).0
    case DoExchange(now, t, f) => Exchange(s, cfg, now, t, f).0
    case DoRefreshLogin(now, t, f, f2, a) => RefreshLogin(s, cfg, now, t, f, f2, a).0
    case DoRevoke(now, t, typ, f) => Revoke(s, cfg, now, t, typ, f).0
    case DoLogout(now, t, f) => Logout(s, cfg, now, t, f).0
  }

  /** The store after the first n events of a run that starts empty. */
  function After(cfg: Lifetimes, run: seq<Event>, n: nat): Store
    requires n <= |run|
  {
    if n == 0 then EMPTY else Step(After(cfg, run, n - 1), cfg, run[n - 1])
  }

  /** The clock never goes back. */
  ghost predicate Clocked(run: seq<Event>) {
    forall i, j :: 0 <= i < j < |run| ==> run[i].now <= run[j].now
  }

  /** The pair, if any, that an event stores for its user. */
  ghost function Mint(s: Store, cfg: Lifetimes, e: Event): Option<Pair> {
    match e
    case DoIssue(now, user, scope, f) => OkPair(Generate(s, cfg, now, user, scope, f).1)
    case DoExchange(now, t, f) => OkPair(Exchange(s, cfg, now, t, f).1)
    case DoRefreshLogin(now, t, f, _, _) => OkPair(Exchange(s, cfg, now, t, f).1)
    case _ => None
  }

  ghost function Minted(cfg: Lifetimes, run: seq<Event>, i: nat): Option<Pair>
    requires i < |run|
  {
    Mint(After(cfg, run, i), cfg, run[i])
  }

  ghost function OkPair(r: Result<Pair, TokenError>): Option<Pair> {
    if r.Ok? then Some(r.value) else None
  }

  ghost predicate MintsFor(cfg: Lifetimes, run: seq<Event>, i: nat, userId: string)
    requires i < |run|
  {
    var m := Minted(cfg, run, i);
    m.Some? && m.value.refresh.userId == userId
  }

  /** Event i gave a new pair in return for t. */
  ghost predicate Exchanged(cfg: Lifetimes, run: seq<Event>, i: nat, t: Token)
    requires i < |run|
  {
    (run[i].DoExchange? || run[i].DoRefreshLogin?) && run[i].token == t && Minted(cfg, run, i).Some?
  }

  /** No two pairs hold the same refresh token text. */
  ghost predicate DistinctTokens(cfg: Lifetimes, run: seq<Event>) {
    forall i, j :: 0 <= i < j < |run| && Minted(cfg, run, i).Some? && Minted(cfg, run, j).Some?
                   ==> Minted(cfg, run, i).value.refresh != Minted(cfg, run, j).value.refresh
  }

  /** Event i minted t, and nothing was minted for its user from there up to n. */
  ghost predicate LatestMint(cfg: Lifetimes, run: seq<Event>, n: nat, i: nat, t: Token)
    requires n <= |run|
  {
    && i < n && Minted(cfg, run, i).Some? && Minted(cfg, run, i).value.refresh == t
    && forall k :: i < k < n ==> !MintsFor(cfg, run, k, t.userId)
  }

  // ---------- only the latest refresh token, once ----------

  lemma RevokeFrame(s: Store, cfg: Lifetimes, now: int, t: Token, typ: TokenType, f: Faults)
    ensures var s1 := Revoke(s, cfg, now, t, typ, f).0;
            && s1.signed == s.signed
            && (forall u :: RefreshKey(u) in s1.redis ==>
                              RefreshKey(u) in s.redis && s1.redis[RefreshKey(u)] == s.redis[RefreshKey(u)])
  {
  }

  lemma LogoutFrame(s: Store, cfg: Lifetimes, now: int, t: Token, f: LogoutFaults)
    ensures var s1 := Logout(s, cfg, now, t, f).0;
            && s1.signed == s.signed
            && (forall u :: RefreshKey(u) in s1.redis ==>
                              RefreshKey(u) in s.redis && s1.redis[RefreshKey(u)] == s.redis[RefreshKey(u)])
  {
    RevokeFrame(s, cfg, now, t, Access, f.access);
    var s1 := Revoke(s, cfg, now, t, Access, f.access).0;
    forall x { RevokeFrame(s1, cfg, now, x, Refresh, f.refresh); }
  }

  /** A refresh key that an event leaves behind is the one before it, or holds the
      refresh token the event minted for that user. */
  lemma StepRefreshKey(s: Store, cfg: Lifetimes, e: Event, u: string)
    requires RefreshKey(u) in Step(s, cfg, e).redis
    ensures var entry := Step(s, cfg, e).redis[RefreshKey(u)];
            var m := Mint(s, cfg, e);
            if m.Some? && m.value.refresh.userId == u
            then entry == Stored(m.value.refresh, Deadline(e.now, cfg.refresh))
            else RefreshKey(u) in s.redis && entry == s.redis[RefreshKey(u)]
  {
    match e
    case DoIssue(_, _, _, _) =>
    case DoExchange(_, _, _) =>
    case DoRefreshLogin(_, _, _, _, _) =>
    case DoRevoke(now, t, typ, f) => RevokeFrame(s, cfg, now, t, typ, f);
    case DoLogout(now, t, f) => LogoutFrame(s, cfg, now, t, f);
  }

  /** What the refresh key of a user holds is what was minted last for that user. */
  lemma {:induction false} StoredIsLatest(cfg: Lifetimes, run: seq<Event>, n: nat, u: string) returns (i: nat)
    requires n <= |run| && RefreshKey(u) in After(cfg, run, n).redis
    ensures var e := After(cfg, run, n).redis[RefreshKey(u)];
            e.Stored? && e.token.userId == u && LatestMint(cfg, run, n, i, e.token)
  {
    StepRefreshKey(After(cfg, run, n - 1), cfg, run[n - 1], u);
    if MintsFor(cfg, run, n - 1, u) {
      i := n - 1;
    } else {
      i := StoredIsLatest(cfg, run, n - 1, u);
    }
  }

  /** Only the refresh token of the user's latest pair can be exchanged. */
  lemma OnlyLatestExchanged(cfg: Lifetimes, run: seq<Event>, j: nat, t: Token) returns (i: nat)
    requires j < |run| && Exchanged(cfg, run, j, t)
    ensures LatestMint(cfg, run, j, i, t)
  {
    i := StoredIsLatest(cfg, run, j, t.userId);
  }

  /** After an exchange, the same token is exchangeable at a later instant exactly when
      it has not expired by then and the exchange came at the very instant it was minted:
      only then is the new text the old one. */
  lemma SecondExchangeExactly(s: Store, cfg: Lifetimes, now: int, later: int, t: Token, f: Faults)
    requires Exchange(s, cfg, now, t, f).1.Ok? && now <= later
    ensures Exchange(Exchange(s, cfg, now, t, f).0, cfg, later, t, {}).1.Ok?
            <==> later < Exp(t) && t.expiresAt == now + cfg.refresh
  {
  }

  /** A refresh token is exchanged at most once, unless it was exchanged at the instant
      it was minted. */
  lemma ExchangedAtMostOnce(cfg: Lifetimes, run: seq<Event>, i: nat, j: nat, t: Token)
    requires Clocked(run) && i < j < |run|
    requires Exchanged(cfg, run, i, t) && t.expiresAt != run[i].now + cfg.refresh
    ensures !Exchanged(cfg, run, j, t)
  {
    hide After, Exchange, Generate, RefreshLogin, Validate;
    if Exchanged(cfg, run, j, t) {
      var m := OnlyLatestExchanged(cfg, run, i, t);
      var l := OnlyLatestExchanged(cfg, run, j, t);
      ExchangeMintsFor(cfg, run, i, t);
      MintedAt(cfg, run, m);
      MintedAt(cfg, run, l);
    }
  }

  lemma ExchangeMintsFor(cfg: Lifetimes, run: seq<Event>, i: nat, t: Token)
    requires i < |run| && Exchanged(cfg, run, i, t)
    ensures MintsFor(cfg, run, i, t.userId)
  {
  }

  lemma MintedAt(cfg: Lifetimes, run: seq<Event>, i: nat)
    requires i < |run| && Minted(cfg, run, i).Some?
    ensures Minted(cfg, run, i).value.refresh.expiresAt == run[i].now + cfg.refresh
  {
  }

  /** Event j of some clocked continuation of the run exchanges t. */
  ghost predicate ExchangedIn(cfg: Lifetimes, run: seq<Event>, more: seq<Event>, j: nat, t: Token) {
    |run| <= j < |run + more| && Clocked(run + more) && Exchanged(cfg, run + more, j, t)
  }

  /** So the guard is exact: a token that the last event exchanged can ever be exchanged
      again if and only if that event came at the instant the token was minted. */
  lemma ExchangedTwiceExactly(cfg: Lifetimes, run: seq<Event>, t: Token)
    requires Clocked(run) && run != [] && Exchanged(cfg, run, |run| - 1, t)
    ensures (exists more, j :: ExchangedIn(cfg, run, more, j, t)) <==> t.expiresAt == run[|run| - 1].now + cfg.refresh
  {
    var n := |run| - 1;
    if more, j :| ExchangedIn(cfg, run, more, j, t) {
      SameStart(cfg, run, more, n);
      if t.expiresAt != run[n].now + cfg.refresh { ExchangedAtMostOnce(cfg, run + more, n, j, t); }
    }
    if t.expiresAt == run[n].now + cfg.refresh {
      ExchangeAgain(cfg, run, t);
    }
  }

  lemma {:induction false} SameStart(cfg: Lifetimes, run: seq<Event>, more: seq<Event>, n: nat)
    requires n <= |run|
    ensures After(cfg, run + more, n) == After(cfg, run, n)
  {
    if n > 0 { SameStart(cfg, run, more, n - 1); }
  }

  lemma ExchangeAgain(cfg: Lifetimes, run: seq<Event>, t: Token)
    requires Clocked(run) && run != [] && Exchanged(cfg, run, |run| - 1, t)
    requires t.expiresAt == run[|run| - 1].now + cfg.refresh
    ensures exists more, j :: ExchangedIn(cfg, run, more, j, t)
  {
    var n := |run| - 1;
    var e := run[n];
    var s := After(cfg, run, n);
    SecondExchangeExactly(s, cfg, e.now, e.now, t, e.faults);
    ExchangeNeeds(s, cfg, e.now, t, e.faults);
    var more := [DoExchange(e.now, t, {})];
    SameStart(cfg, run, more, |run|);
    StepExchanges(s, cfg, e, t);
    assert ExchangedIn(cfg, run, more, |run|, t);
  }

  /** Both ways to exchange leave the store that the exchange left. */
  lemma StepExchanges(s: Store, cfg: Lifetimes, e: Event, t: Token)
    requires (e.DoExchange? || e.DoRefreshLogin?) && e.token == t
    ensures Step(s, cfg, e) == Exchange(s, cfg, e.now, t, e.faults).0
  {
  }

  /** Without a clock: nothing is exchanged twice as long as no text is minted twice. */
  lemma DistinctTextsOnce(cfg: Lifetimes, run: seq<Event>, i: nat, j: nat, t: Token)
    requires DistinctTokens(cfg, run)
    requires i < j < |run| && Exchanged(cfg, run, i, t)
    ensures !Exchanged(cfg, run, j, t)
  {
    hide After, Exchange, Generate, RefreshLogin, Validate;
    if Exchanged(cfg, run, j, t) {
      var m := OnlyLatestExchanged(cfg, run, i, t);
      var l := OnlyLatestExchanged(cfg, run, j, t);
      ExchangeMintsFor(cfg, run, i, t);
    }
  }

  /** Tokens are distinct whenever pairs for one user are minted at distinct instants. */
  lemma DistinctInstants(cfg: Lifetimes, run: seq<Event>)
    requires forall i, j :: 0 <= i < j < |run| && Minted(cfg, run, i).Some? && Minted(cfg, run, j).Some?
                            && Minted(cfg, run, i).value.refresh.userId == Minted(cfg, run, j).value.refresh.userId
                            ==> run[i].now != run[j].now
    ensures DistinctTokens(cfg, run)
  {
    forall i | 0 <= i < |run| && Minted(cfg, run, i).Some?
      ensures Minted(cfg, run, i).value.refresh.expiresAt == run[i].now + cfg.refresh
    {
    }
  }

  /** Such a run exists: a token exchanged at the instant it was minted comes back as
      the same text and is exchanged again. */
  lemma SameInstantExchangesTwice()
    ensures exists cfg, run, t :: |run| == 3 && Clocked(run)
                                  && Exchanged(cfg, run, 1, t) && Exchanged(cfg, run, 2, t)
  {
    var cfg := Lifetimes(SECOND, SECOND);
    var u := User("u", "a", "n");
    var t := NewToken(cfg, 0, u, Refresh, "read");
    var run := [DoIssue(0, u, "read", {}), DoExchange(0, t, {}), DoExchange(0, t, {})];
    assert After(cfg, run, 0) == EMPTY;
    assert After(cfg, run, 1) == Step(EMPTY, cfg, run[0]);
    assert After(cfg, run, 2) == Step(After(cfg, run, 1), cfg, run[1]);
    assert Exchanged(cfg, run, 1, t) && Exchanged(cfg, run, 2, t);
  }

  // ---------- revocation is permanent ----------

  /** t is on the revocation list until its own exp at least. */
  ghost predicate RevokedForGood(s: Store, t: Token) {
    var k := RevokedKey(t);
    k in s.redis && s.redis[k].Mark? && (s.redis[k].deadline.None? || Exp(t) <= s.redis[k].deadline.value)
  }

  ghost predicate SignedBy(s: Store, cfg: Lifetimes, now: int) {
    forall t :: t in s.signed ==> t.expiresAt - Life(cfg, t.typ) <= now
  }

  /** Event e put t on the revocation list, and reported success. */
  ghost predicate Revokes(s: Store, cfg: Lifetimes, e: Event, t: Token) {
    || (e.DoRevoke? && e.token == t && Revoke(s, cfg, e.now, t, e.typ, e.faults).1.Ok?)
    || (e.DoLogout? && e.token == t && Logout(s, cfg, e.now, t, e.logoutFaults).1.Ok?)
  }

  lemma RevokeMarks(s: Store, cfg: Lifetimes, now: int, t: Token, typ: TokenType, f: Faults, x: Token)
    requires SignedBy(s, cfg, now)
    ensures var (s1, r) := Revoke(s, cfg, now, t, typ, f);
            && (RevokedForGood(s, x) ==> RevokedForGood(s1, x))
            && (r.Ok? ==> RevokedForGood(s1, t))
  {
  }

  lemma LogoutMarks(s: Store, cfg: Lifetimes, now: int, t: Token, f: LogoutFaults, x: Token)
    requires SignedBy(s, cfg, now)
    ensures var (s1, r) := Logout(s, cfg, now, t, f);
            && (RevokedForGood(s, x) ==> RevokedForGood(s1, x))
            && (r.Ok? ==> RevokedForGood(s1, t))
  {
    RevokeMarks(s, cfg, now, t, Access, f.access, x);
    RevokeFrame(s, cfg, now, t, Access, f.access);
    var s1 := Revoke(s, cfg, now, t, Access, f.access).0;
    var g := GetRefresh(s1, now, t.userId, f.get);
    if g.Ok? {
      RevokeMarks(s1, cfg, now, g.value, Refresh, f.refresh, x);
      RevokeMarks(s1, cfg, now, g.value, Refresh, f.refresh, t);
    }
  }

  lemma StepMarks(s: Store, cfg: Lifetimes, e: Event, t: Token)
    requires SignedBy(s, cfg, e.now)
    requires RevokedForGood(s, t) || Revokes(s, cfg, e, t)
    ensures RevokedForGood(Step(s, cfg, e), t)
  {
    match e
    case DoRevoke(now, x, typ, f) => RevokeMarks(s, cfg, now, x, typ, f, t);
    case DoLogout(now, x, f) => LogoutMarks(s, cfg, now, x, f, t);
    case _ =>
  }

  lemma StepSigned(s: Store, cfg: Lifetimes, e: Event)
    requires SignedBy(s, cfg, e.now)
    ensures SignedBy(Step(s, cfg, e), cfg, e.now)
  {
    match e
    case DoRevoke(now, x, typ, f) => RevokeFrame(s, cfg, now, x, typ, f);
    case DoLogout(now, x, f) => LogoutFrame(s, cfg, now, x, f);
    case _ =>
  }

  lemma {:induction false} SignedInPast(cfg: Lifetimes, run: seq<Event>, n: nat, now: int)
    requires n <= |run| && Clocked(run) && (n > 0 ==> run[n - 1].now <= now)
    ensures SignedBy(After(cfg, run, n), cfg, now)
  {
    if n > 0 {
      SignedInPast(cfg, run, n - 1, run[n - 1].now);
      StepSigned(After(cfg, run, n - 1), cfg, run[n - 1]);
    }
  }

  lemma {:induction false} MarkKept(cfg: Lifetimes, run: seq<Event>, m: nat, n: nat, t: Token)
    requires Clocked(run) && m <= n <= |run| && RevokedForGood(After(cfg, run, m), t)
    ensures RevokedForGood(After(cfg, run, n), t)
  {
    if m < n {
      MarkKept(cfg, run, m, n - 1, t);
      SignedInPast(cfg, run, n - 1, run[n - 1].now);
      StepMarks(After(cfg, run, n - 1), cfg, run[n - 1], t);
    }
  }

  /** Once a revocation of t has succeeded, no later validation accepts t, whatever
      runs in between and whichever Redis calls fail. */
  lemma RevocationPermanent(cfg: Lifetimes, run: seq<Event>, k: nat, n: nat, t: Token, now: int, typ: TokenType,
                            f: Faults)
    requires Clocked(run) && k < n <= |run| && run[n - 1].now <= now
    requires Revokes(After(cfg, run, k), cfg, run[k], t)
    ensures Validate(After(cfg, run, n), now, t, typ, f).Err?
  {
    SignedInPast(cfg, run, k, run[k].now);
    StepMarks(After(cfg, run, k), cfg, run[k], t);
    MarkKept(cfg, run, k + 1, n, t);
  }

  // ---------- logout ----------

  lemma {:induction false} KeyUnchanged(cfg: Lifetimes, run: seq<Event>, m: nat, n: nat, u: string)
    requires m <= n <= |run| && RefreshKey(u) in After(cfg, run, n).redis
    requires forall k :: m <= k < n ==> !MintsFor(cfg, run, k, u)
    ensures RefreshKey(u) in After(cfg, run, m).redis
    ensures After(cfg, run, m).redis[RefreshKey(u)] == After(cfg, run, n).redis[RefreshKey(u)]
  {
    if m < n {
      StepRefreshKey(After(cfg, run, n - 1), cfg, run[n - 1], u);
      assert !MintsFor(cfg, run, n - 1, u);
      KeyUnchanged(cfg, run, m, n - 1, u);
    }
  }

  /** Every mark on the revocation list outlives its token. */
  ghost predicate MarksHold(s: Store) {
    forall t :: RevokedKey(t) in s.redis ==> RevokedForGood(s, t)
  }

  lemma RevokeMarksHold(s: Store, cfg: Lifetimes, now: int, t: Token, typ: TokenType, f: Faults)
    requires SignedBy(s, cfg, now) && MarksHold(s)
    ensures MarksHold(Revoke(s, cfg, now, t, typ, f).0)
  {
    var s1 := Revoke(s, cfg, now, t, typ, f).0;
    forall x | RevokedKey(x) in s1.redis ensures RevokedForGood(s1, x) {
      RevokeMarks(s, cfg, now, t, typ, f, x);
    }
  }

  lemma StepMarksHold(s: Store, cfg: Lifetimes, e: Event)
    requires SignedBy(s, cfg, e.now) && MarksHold(s)
    ensures MarksHold(Step(s, cfg, e))
  {
    match e
    case DoRevoke(now, t, typ, f) => RevokeMarksHold(s, cfg, now, t, typ, f);
    case DoLogout(now, t, f) =>
      RevokeMarksHold(s, cfg, now, t, Access, f.access);
      RevokeFrame(s, cfg, now, t, Access, f.access);
      var s1 := Revoke(s, cfg, now, t, Access, f.access).0;
      var g := GetRefresh(s1, now, t.userId, f.get);
      if g.Ok? { RevokeMarksHold(s1, cfg, now, g.value, Refresh, f.refresh); }
    case _ =>
      forall t | RevokedKey(t) in Step(s, cfg, e).redis ensures RevokedForGood(Step(s, cfg, e), t) {
        assert RevokedForGood(s, t);
      }
  }

  lemma {:induction false} MarksAlwaysHold(cfg: Lifetimes, run: seq<Event>, n: nat)
    requires Clocked(run) && n <= |run|
    ensures MarksHold(After(cfg, run, n))
  {
    if n > 0 {
      MarksAlwaysHold(cfg, run, n - 1);
      SignedInPast(cfg, run, n - 1, run[n - 1].now);
      StepMarksHold(After(cfg, run, n - 1), cfg, run[n - 1]);
    }
  }

  lemma {:induction false} SignedStays(cfg: Lifetimes, run: seq<Event>, m: nat, n: nat)
    requires m <= n <= |run|
    ensures After(cfg, run, m).signed <= After(cfg, run, n).signed
  {
    if m < n {
      SignedStays(cfg, run, m, n - 1);
      var s, e := After(cfg, run, n - 1), run[n - 1];
      match e
      case DoRevoke(now, x, typ, f) => RevokeFrame(s, cfg, now, x, typ, f);
      case DoLogout(now, x, f) => LogoutFrame(s, cfg, now, x, f);
      case _ =>
    }
  }

  /** Logout reports success even when it could not reach the refresh token. A refresh
      token that was exchangeable is still so right after a successful logout exactly
      when reading it, checking it or marking it failed. */
  lemma LogoutExact(s: Store, cfg: Lifetimes, now: int, a: Token, f: LogoutFaults, t: Token)
    requires Logout(s, cfg, now, a, f).1.Ok? && a.userId == t.userId
    requires Exchange(s, cfg, now, t, {}).1.Ok?
    ensures Exchange(Logout(s, cfg, now, a, f).0, cfg, now, t, {}).1.Ok?
            <==> Get in f.get || Exists in f.refresh || SetRevoked in f.refresh
  {
    var s1 := Revoke(s, cfg, now, a, Access, f.access).0;
    assert s1.redis == s.redis[RevokedKey(a) := Mark(Deadline(now, cfg.access))];
    assert a != t;
    assert Exchange(s1, cfg, now, t, {}).1.Ok?;
    if Get !in f.get {
      assert GetRefresh(s1, now, a.userId, f.get) == Ok(t);
    }
  }

  /** Such a logout exists: it cannot read the refresh key, reports success, and the
      refresh token is exchanged afterwards. */
  lemma LogoutLeavesToken()
    ensures exists cfg: Lifetimes, run: seq<Event>, a: Token, t: Token ::
            |run| == 3 && Clocked(run) && run[1].DoLogout? && run[1].token == a
              && Logout(After(cfg, run, 1), cfg, run[1].now, a, run[1].logoutFaults).1.Ok?
              && a.userId == t.userId && Exchanged(cfg, run, 2, t)
  {
    var cfg := Lifetimes(SECOND, SECOND);
    var u := User("u", "a", "n");
    var a, t := NewToken(cfg, 0, u, Access, "read"), NewToken(cfg, 0, u, Refresh, "read");
    var run := [DoIssue(0, u, "read", {}), DoLogout(0, a, LogoutFaults({}, {}, {Get}, {})), DoExchange(1, t, {})];
    assert After(cfg, run, 0) == EMPTY;
    assert After(cfg, run, 1) == Step(EMPTY, cfg, run[0]);
    assert After(cfg, run, 2) == Step(After(cfg, run, 1), cfg, run[1]);
    assert Exchanged(cfg, run, 2, t);
  }

  lemma LogoutClears(s: Store, cfg: Lifetimes, now: int, a: Token, t: Token)
    requires MarksHold(s) && Logout(s, cfg, now, a, NO_FAULTS).1.Ok?
    requires a.userId == t.userId && GetRefresh(s, now, t.userId, {}) == Ok(t)
    requires t in s.signed && t.typ == Refresh && now < Exp(t)
    ensures var s2 := Logout(s, cfg, now, a, NO_FAULTS).0;
            RefreshKey(t.userId) in s2.redis ==> RevokedForGood(s, t)
  {
    var s1 := Revoke(s, cfg, now, a, Access, {}).0;
    assert s1.redis == s.redis[RevokedKey(a) := Mark(Deadline(now, cfg.access))];
    assert GetRefresh(s1, now, t.userId, {}) == Ok(t);
    assert a != t;
  }

  /** A logout in which every Redis call works leaves nothing exchangeable: a refresh
      token of that user exchanged later was minted after it. */
  lemma LogoutFinal(cfg: Lifetimes, run: seq<Event>, k: nat, j: nat, t: Token) returns (i: nat)
    requires Clocked(run) && k < j < |run|
    requires run[k].DoLogout? && run[k].logoutFaults == NO_FAULTS && run[k].token.userId == t.userId
    requires Logout(After(cfg, run, k), cfg, run[k].now, run[k].token, NO_FAULTS).1.Ok?
    requires Exchanged(cfg, run, j, t)
    ensures k < i && LatestMint(cfg, run, j, i, t)
  {
    hide After, Logout, Exchange;
    i := OnlyLatestExchanged(cfg, run, j, t);
    if i <= k { LogoutKills(cfg, run, i, k, j, t); }
  }

  lemma LogoutKills(cfg: Lifetimes, run: seq<Event>, i: nat, k: nat, j: nat, t: Token)
    requires Clocked(run) && i <= k < j < |run| && LatestMint(cfg, run, j, i, t)
    requires run[k].DoLogout? && run[k].logoutFaults == NO_FAULTS && run[k].token.userId == t.userId
    requires Logout(After(cfg, run, k), cfg, run[k].now, run[k].token, NO_FAULTS).1.Ok?
    ensures !Exchanged(cfg, run, j, t)
  {
    hide After, Logout, Exchange, Generate, RevokedForGood;
    var s, e := After(cfg, run, k), run[k];
    assert Minted(cfg, run, k) == None;
    if Exchanged(cfg, run, j, t) {
      ExchangeNeeds(After(cfg, run, j), cfg, run[j].now, t, run[j].faults);
      KeyUnchanged(cfg, run, k + 1, j, t.userId);
      KeyUnchanged(cfg, run, k, j, t.userId);
      SignedStays(cfg, run, i + 1, k);
      MintSigns(cfg, run, i);
      MarksAlwaysHold(cfg, run, k);
      assert After(cfg, run, k + 1) == Step(s, cfg, e) by { AfterMore(cfg, run, k); }
      LogoutClears(s, cfg, e.now, e.token, t);
      MarkKept(cfg, run, k, j, t);
    }
  }

  lemma AfterMore(cfg: Lifetimes, run: seq<Event>, k: nat)
    requires k < |run|
    ensures After(cfg, run, k + 1) == Step(After(cfg, run, k), cfg, run[k])
  {
  }

  /** What an exchange of t takes, whichever calls failed. */
  lemma ExchangeNeeds(s: Store, cfg: Lifetimes, now: int, t: Token, f: Faults)
    requires Exchange(s, cfg, now, t, f).1.Ok?
    ensures t in s.signed && t.typ == Refresh && now < Exp(t) && !RevokedForGood(s, t)
    ensures Live(s.redis, RefreshKey(t.userId), now)
    ensures s.redis[RefreshKey(t.userId)].Stored? && s.redis[RefreshKey(t.userId)].token == t
  {
  }

  lemma MintSigns(cfg: Lifetimes, run: seq<Event>, i: nat)
    requires i < |run| && Minted(cfg, run, i).Some?
    ensures Minted(cfg, run, i).value.refresh in After(cfg, run, i + 1).signed
  {
  }
}
