/** Exactly which tokens are accepted, exchanged and revoked, in terms of what happened
    earlier in the run (internal/service/token.go, auth_token.go). */
module TokenLaws {
  import opened Common
  import opened Tokens

  // ---------- one step ----------

  /** A check of t finds a valid signature, the type asked for, time left, and no mark. */
  predicate Accepts(s: Store, now: int, t: Token, typ: TokenType, f: Faults) {
    t in s.signed && t.typ == typ && now < Exp(t) && Exists !in f && !Live(s.redis, RevokedKey(t), now)
  }

  /** t is the refresh token held for the user. */
  predicate HeldFor(s: Store, now: int, userId: string, t: Token) {
    var k := RefreshKey(userId);
    Live(s.redis, k, now) && s.redis[k].Stored? && s.redis[k].token == t
  }

  predicate Trades(s: Store, now: int, t: Token, f: Faults) {
    Accepts(s, now, t, Refresh, f) && Get !in f && HeldFor(s, now, t.userId, t)
  }

  /** t is one of the two tokens that a pair for this user made now consists of. */
  predicate OfPair(cfg: Lifetimes, now: int, u: User, scope: string, t: Token) {
    && t.userId == u.id && t.appId == u.appId && t.username == u.username && t.scope == scope
    && t.expiresAt == now + if t.typ.Access? then cfg.access else cfg.refresh
  }

  /** Event e signs t. */
  ghost predicate Signs(s: Store, cfg: Lifetimes, e: Event, t: Token) {
    match e
    case DoIssue(now, u, scope, _) => OfPair(cfg, now, u, scope, t)
    case DoExchange(now, x, f) =>
      Trades(s, now, x, f) && OfPair(cfg, now, User(x.userId, x.appId, x.username), x.scope, t)
    case DoRefreshLogin(now, x, f, _, _) =>
      Trades(s, now, x, f) && OfPair(cfg, now, User(x.userId, x.appId, x.username), x.scope, t)
    case _ => false
  }

  /** A logout gets past its access token. */
  predicate EndsAccess(s: Store, now: int, a: Token, f: LogoutFaults) {
    Accepts(s, now, a, Access, f.check) && Accepts(s, now, a, Access, f.access) && SetRevoked !in f.access
  }

  /** A logout finds t as the user's refresh token and puts it on the revocation list. */
  predicate EndsRefresh(s: Store, now: int, a: Token, f: LogoutFaults, t: Token) {
    && EndsAccess(s, now, a, f) && Get !in f.get && HeldFor(s, now, a.userId, t)
    && Accepts(s, now, t, Refresh, f.refresh) && SetRevoked !in f.refresh
  }

  /** Event e puts t on the revocation list. */
  ghost predicate Marks(s: Store, e: Event, t: Token) {
    match e
    case DoRevoke(now, x, typ, f) => x == t && Accepts(s, now, t, typ, f) && SetRevoked !in f
    case DoLogout(now, a, f) => (EndsAccess(s, now, a, f) && t == a) || EndsRefresh(s, now, a, f, t)
    case _ => false
  }

  /** Event e deletes the refresh key of the user. */
  ghost predicate Drops(s: Store, e: Event, userId: string) {
    match e
    case DoRevoke(now, x, typ, f) =>
      typ.Refresh? && x.userId == userId && Accepts(s, now, x, typ, f) && SetRevoked !in f && Del !in f
    case DoLogout(now, a, f) =>
      exists t :: EndsRefresh(s, now, a, f, t) && t.userId == userId && Del !in f.refresh
    case _ => false
  }

  lemma ValidateState(s: Store, now: int, t: Token, typ: TokenType, f: Faults)
    ensures Validate(s, now, t, typ, f).Ok? <==> Accepts(s, now, t, typ, f)
    ensures Accepts(s, now, t, typ, f)
            ==> Validate(s, now, t, typ, f).value == Claims(t.userId, t.appId, t.username, t.typ, Exp(t), t.scope)
  {
  }

  lemma StepSigns(s: Store, cfg: Lifetimes, e: Event, t: Token)
    ensures t in Step(s, cfg, e).signed <==> t in s.signed || Signs(s, cfg, e, t)
  {
    match e
    case DoRevoke(now, x, typ, f) => RevokeFrame(s, cfg, now, x, typ, f);
    case DoLogout(now, x, f) => LogoutFrame(s, cfg, now, x, f);
    case _ =>
  }

  lemma RevokeWrites(s: Store, cfg: Lifetimes, now: int, x: Token, typ: TokenType, f: Faults, t: Token, u: string)
    ensures var s1 := Revoke(s, cfg, now, x, typ, f).0;
            && (RevokedKey(t) in s1.redis <==>
                RevokedKey(t) in s.redis || (x == t && Accepts(s, now, x, typ, f) && SetRevoked !in f))
            && (RefreshKey(u) in s1.redis <==>
                && RefreshKey(u) in s.redis
                && !(typ.Refresh? && x.userId == u && Accepts(s, now, x, typ, f) && SetRevoked !in f && Del !in f))
  {
  }

  lemma LogoutWrites(s: Store, cfg: Lifetimes, now: int, a: Token, f: LogoutFaults, t: Token, u: string)
    ensures var s1 := Logout(s, cfg, now, a, f).0;
            && (RevokedKey(t) in s1.redis <==> RevokedKey(t) in s.redis || Marks(s, DoLogout(now, a, f), t))
            && (RefreshKey(u) in s1.redis <==> RefreshKey(u) in s.redis && !Drops(s, DoLogout(now, a, f), u))
  {
    RevokeWrites(s, cfg, now, a, Access, f.access, t, u);
    if EndsAccess(s, now, a, f) {
      var s1 := Revoke(s, cfg, now, a, Access, f.access).0;
      var g := GetRefresh(s1, now, a.userId, f.get);
      if g.Ok? {
        RevokeWrites(s1, cfg, now, g.value, Refresh, f.refresh, t, u);
        assert Accepts(s1, now, g.value, Refresh, f.refresh) <==> Accepts(s, now, g.value, Refresh, f.refresh);
      }
    }
  }

  lemma StepWrites(s: Store, cfg: Lifetimes, e: Event, t: Token, u: string)
    ensures RevokedKey(t) in Step(s, cfg, e).redis <==> RevokedKey(t) in s.redis || Marks(s, e, t)
    ensures RefreshKey(u) in Step(s, cfg, e).redis <==>
            || (RefreshKey(u) in s.redis && !Drops(s, e, u))
            || (Mint(s, cfg, e).Some? && Mint(s, cfg, e).value.refresh.userId == u)
  {
    match e
    case DoRevoke(now, x, typ, f) => RevokeWrites(s, cfg, now, x, typ, f, t, u);
    case DoLogout(now, a, f) => LogoutWrites(s, cfg, now, a, f, t, u);
    case _ =>
  }

  // ---------- whole runs ----------

  ghost predicate SignsAt(cfg: Lifetimes, run: seq<Event>, i: nat, t: Token)
    requires i < |run|
  {
    Signs(After(cfg, run, i), cfg, run[i], t)
  }

  ghost predicate MarksAt(cfg: Lifetimes, run: seq<Event>, i: nat, t: Token)
    requires i < |run|
  {
    Marks(After(cfg, run, i), run[i], t)
  }

  ghost predicate DropsAt(cfg: Lifetimes, run: seq<Event>, i: nat, u: string)
    requires i < |run|
  {
    Drops(After(cfg, run, i), run[i], u)
  }

  ghost predicate SignedEarlier(cfg: Lifetimes, run: seq<Event>, n: nat, t: Token)
    requires n <= |run|
  {
    exists i: nat :: i < n && SignsAt(cfg, run, i, t)
  }

  ghost predicate MarkedEarlier(cfg: Lifetimes, run: seq<Event>, n: nat, t: Token)
    requires n <= |run|
  {
    exists i: nat :: i < n && MarksAt(cfg, run, i, t)
  }

  lemma {:induction false} SignedExactly(cfg: Lifetimes, run: seq<Event>, n: nat, t: Token)
    requires n <= |run|
    ensures t in After(cfg, run, n).signed <==> SignedEarlier(cfg, run, n, t)
  {
    if n > 0 {
      hide Step, Signs;
      SignedExactly(cfg, run, n - 1, t);
      StepSigns(After(cfg, run, n - 1), cfg, run[n - 1], t);
      assert SignedEarlier(cfg, run, n, t) <==> SignedEarlier(cfg, run, n - 1, t) || SignsAt(cfg, run, n - 1, t);
    }
  }

  lemma {:induction false} MarkedExactly(cfg: Lifetimes, run: seq<Event>, n: nat, t: Token)
    requires n <= |run|
    ensures RevokedKey(t) in After(cfg, run, n).redis <==> MarkedEarlier(cfg, run, n, t)
  {
    if n > 0 {
      hide Step, Marks;
      MarkedExactly(cfg, run, n - 1, t);
      StepWrites(After(cfg, run, n - 1), cfg, run[n - 1], t, "");
      assert MarkedEarlier(cfg, run, n, t) <==> MarkedEarlier(cfg, run, n - 1, t) || MarksAt(cfg, run, n - 1, t);
    }
  }

  /** A token is accepted exactly when some earlier event signed it, none put it on the
      revocation list, it is of the type asked for, it has not expired, and the list could
      be read; what is answered are its claims. */
  lemma AcceptedExactly(cfg: Lifetimes, run: seq<Event>, n: nat, now: int, t: Token, typ: TokenType, f: Faults)
    requires Clocked(run) && n <= |run| && (n > 0 ==> run[n - 1].now <= now)
    ensures var r := Validate(After(cfg, run, n), now, t, typ, f);
            && (r.Ok? <==>
                && SignedEarlier(cfg, run, n, t) && !MarkedEarlier(cfg, run, n, t)
                && t.typ == typ && now < Exp(t) && Exists !in f)
            && (r.Ok? ==> r.value == Claims(t.userId, t.appId, t.username, t.typ, Exp(t), t.scope))
  {
    hide After, SignedEarlier, MarkedEarlier;
    var s := After(cfg, run, n);
    ValidateState(s, now, t, typ, f);
    SignedExactly(cfg, run, n, t);
    MarkedExactly(cfg, run, n, t);
    MarksAlwaysHold(cfg, run, n);
    if RevokedKey(t) in s.redis { assert RevokedForGood(s, t); }
  }

  /** Event i minted t as the latest for its user, and its key was not deleted since. */
  ghost predicate StandsSince(cfg: Lifetimes, run: seq<Event>, n: nat, i: nat, t: Token)
    requires n <= |run|
  {
    LatestMint(cfg, run, n, i, t) && forall k: nat :: i < k < n ==> !DropsAt(cfg, run, k, t.userId)
  }

  /** What an event leaves under the refresh key of a user. */
  lemma StepKey(s: Store, cfg: Lifetimes, e: Event, u: string)
    ensures var s1, m, k := Step(s, cfg, e), Mint(s, cfg, e), RefreshKey(u);
            if m.Some? && m.value.refresh.userId == u
            then k in s1.redis && s1.redis[k] == Stored(m.value.refresh, Deadline(e.now, cfg.refresh))
            else (k in s1.redis <==> k in s.redis && !Drops(s, e, u)) && (k in s1.redis ==> s1.redis[k] == s.redis[k])
  {
    hide Step, Mint, Drops;
    StepWrites(s, cfg, e, Token("", "", "", Access, 0, ""), u);
    if RefreshKey(u) in Step(s, cfg, e).redis { StepRefreshKey(s, cfg, e, u); }
  }

  lemma StandsMore(cfg: Lifetimes, run: seq<Event>, n: nat, i: nat, t: Token)
    requires n < |run|
    ensures StandsSince(cfg, run, n + 1, i, t) <==>
            if MintsFor(cfg, run, n, t.userId) then i == n && Minted(cfg, run, n).value.refresh == t
            else StandsSince(cfg, run, n, i, t) && !DropsAt(cfg, run, n, t.userId)
  {
    hide After, Minted, DropsAt;
  }

  /** The refresh key of t's user holds t, expired or not. */
  predicate HasKey(s: Store, t: Token) {
    var k := RefreshKey(t.userId);
    k in s.redis && s.redis[k].Stored? && s.redis[k].token == t
  }

  lemma AfterStep(cfg: Lifetimes, run: seq<Event>, n: nat, u: string)
    requires n < |run|
    ensures var s, s1, m, k := After(cfg, run, n), After(cfg, run, n + 1), Minted(cfg, run, n), RefreshKey(u);
            if MintsFor(cfg, run, n, u)
            then k in s1.redis && s1.redis[k] == Stored(m.value.refresh, Deadline(run[n].now, cfg.refresh))
            else (k in s1.redis <==> k in s.redis && !DropsAt(cfg, run, n, u))
                 && (k in s1.redis ==> s1.redis[k] == s.redis[k])
  {
    hide Step, Mint, Drops;
    StepKey(After(cfg, run, n), cfg, run[n], u);
  }

  lemma {:induction false} StoredStands(cfg: Lifetimes, run: seq<Event>, n: nat, t: Token) returns (i: nat)
    requires n <= |run| && HasKey(After(cfg, run, n), t)
    ensures StandsSince(cfg, run, n, i, t)
  {
    if n > 0 {
      hide After, DropsAt, Minted, StandsSince;
      AfterStep(cfg, run, n - 1, t.userId);
      i := n - 1;
      if !MintsFor(cfg, run, n - 1, t.userId) { i := StoredStands(cfg, run, n - 1, t); }
      StandsMore(cfg, run, n - 1, i, t);
    }
  }

  lemma {:induction false} StandingIsStored(cfg: Lifetimes, run: seq<Event>, n: nat, i: nat, t: Token)
    requires n <= |run| && StandsSince(cfg, run, n, i, t)
    ensures HasKey(After(cfg, run, n), t)
    ensures After(cfg, run, n).redis[RefreshKey(t.userId)].deadline == Deadline(run[i].now, cfg.refresh)
  {
    if n > 0 {
      hide After, DropsAt, Minted, StandsSince;
      StandsMore(cfg, run, n - 1, i, t);
      AfterStep(cfg, run, n - 1, t.userId);
      if !MintsFor(cfg, run, n - 1, t.userId) { StandingIsStored(cfg, run, n - 1, i, t); }
    }
  }

  lemma MintedIsRefresh(cfg: Lifetimes, run: seq<Event>, i: nat)
    requires i < |run| && Minted(cfg, run, i).Some?
    ensures var t := Minted(cfg, run, i).value.refresh; t.typ.Refresh? && t.expiresAt == run[i].now + cfg.refresh
  {
  }

  lemma StandingIsHeld(cfg: Lifetimes, run: seq<Event>, n: nat, i: nat, t: Token, now: int)
    requires n <= |run| && StandsSince(cfg, run, n, i, t) && now < Exp(t)
    ensures t in After(cfg, run, n).signed && t.typ.Refresh? && HeldFor(After(cfg, run, n), now, t.userId, t)
  {
    hide After, Minted;
    MintedIsRefresh(cfg, run, i);
    MintSigns(cfg, run, i);
    SignedStays(cfg, run, i + 1, n);
    StandingIsStored(cfg, run, n, i, t);
  }

  /** A refresh token is exchanged exactly when it was minted last for its user, its key
      was not deleted since, no event put it on the revocation list, it has not expired, and
      the calls to Redis work. */
  lemma ExchangedExactly(cfg: Lifetimes, run: seq<Event>, n: nat, now: int, t: Token, f: Faults)
    requires Clocked(run) && n <= |run| && (n > 0 ==> run[n - 1].now <= now)
    ensures Exchange(After(cfg, run, n), cfg, now, t, f).1.Ok? <==>
            && (exists i: nat :: StandsSince(cfg, run, n, i, t)) && !MarkedEarlier(cfg, run, n, t) && now < Exp(t)
            && Exists !in f && Get !in f && SetRefresh !in f
  {
    hide After, StandsSince, SignedEarlier, MarkedEarlier;
    var s := After(cfg, run, n);
    ExchangeState(s, cfg, now, t, f);
    AcceptedExactly(cfg, run, n, now, t, Refresh, f);
    ValidateState(s, now, t, Refresh, f);
    SignedExactly(cfg, run, n, t);
    if HasKey(s, t) { var _ := StoredStands(cfg, run, n, t); }
    if now < Exp(t) && exists i: nat :: StandsSince(cfg, run, n, i, t) {
      var i: nat :| StandsSince(cfg, run, n, i, t);
      StandingIsHeld(cfg, run, n, i, t, now);
    }
  }

  lemma ExchangeState(s: Store, cfg: Lifetimes, now: int, t: Token, f: Faults)
    ensures Exchange(s, cfg, now, t, f).1.Ok? <==> Trades(s, now, t, f) && SetRefresh !in f
  {
  }

  /** A revocation succeeds exactly when the token is accepted and the calls to Redis work:
      a refresh token also needs its key deleted. */
  lemma RevokedExactly(cfg: Lifetimes, run: seq<Event>, n: nat, now: int, t: Token, typ: TokenType, f: Faults)
    requires Clocked(run) && n <= |run| && (n > 0 ==> run[n - 1].now <= now)
    ensures Revoke(After(cfg, run, n), cfg, now, t, typ, f).1.Ok? <==>
            && SignedEarlier(cfg, run, n, t) && !MarkedEarlier(cfg, run, n, t) && t.typ == typ && now < Exp(t)
            && Exists !in f && SetRevoked !in f && (typ.Refresh? ==> Del !in f)
  {
    hide After, SignedEarlier, MarkedEarlier, Validate;
    AcceptedExactly(cfg, run, n, now, t, typ, f);
  }

  /** A logout reports success exactly when its access token is accepted and could be put
      on the revocation list, whatever happens to the refresh token. */
  lemma LoggedOutExactly(cfg: Lifetimes, run: seq<Event>, n: nat, now: int, t: Token, f: LogoutFaults)
    requires Clocked(run) && n <= |run| && (n > 0 ==> run[n - 1].now <= now)
    ensures Logout(After(cfg, run, n), cfg, now, t, f).1.Ok? <==>
            && SignedEarlier(cfg, run, n, t) && !MarkedEarlier(cfg, run, n, t) && t.typ.Access? && now < Exp(t)
            && Exists !in f.check && Exists !in f.access && SetRevoked !in f.access
  {
    hide After, SignedEarlier, MarkedEarlier, Validate, Revoke;
    AcceptedExactly(cfg, run, n, now, t, Access, f.check);
    RevokedExactly(cfg, run, n, now, t, Access, f.access);
  }

  /** The refresh endpoint hands the new pair out exactly when the exchange succeeds, the
      new token is accepted, and the account is there and enabled. When it does not, the
      exchange stands all the same. */
  lemma RefreshedExactly(s: Store, cfg: Lifetimes, now: int, t: Token, f: Faults, recheck: Faults, account: Account)
    ensures var (s1, r) := RefreshLogin(s, cfg, now, t, f, recheck, account);
            var (s2, pair) := Exchange(s, cfg, now, t, f);
            && s1 == s2
            && (r.Ok? <==> pair.Ok? && account.Enabled? && now < Exp(pair.value.refresh) && Exists !in recheck
                           && !Live(s1.redis, RevokedKey(pair.value.refresh), now))
            && (r.Ok? ==> r.value == pair.value)
            && (r == Err(UserDisabled) ==> account.Disabled?) && (r == Err(UserNotFound) ==> account.Missing?)
  {
  }
}
