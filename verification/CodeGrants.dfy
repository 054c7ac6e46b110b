/** Exactly which authorization and token requests succeed, in terms of what happened
    earlier in the run (internal/service/authorization.go). */
module CodeGrants {
  import opened Common
  import opened Tokens
  import opened Base64Url
  import opened Authorization
  import TokenLaws

  // ---------- authorization ----------

  /** The client is known and enabled, may use codes, and has registered this redirect URI
      and every part of the scope. */
  ghost predicate Entitled(s: State, req: AuthRequest) {
    && req.clientId in s.clients
    && var c := s.clients[req.clientId];
       && c.status && CODE_GRANT in c.grantTypes && req.redirectURI in c.redirectURIs
       && forall part :: part in Split(req.scope, ' ') ==> part in c.scopes
  }

  /** The event stores a new code row. */
  ghost predicate StoresCode(s: State, e: AuthEvent) {
    && e.DoAuthorize? && Entitled(s, e.req)
    && ClientQuery !in e.draw.failing && CodeSave !in e.draw.failing && Encode(e.draw.bytes) !in s.codes
  }

  /** The row of an Authorize call: good for ten minutes, under the text of its draw. */
  function RowOf(e: AuthEvent): AuthCode
    requires e.DoAuthorize?
  {
    AuthCode(e.draw.id, Encode(e.draw.bytes), e.req.clientId, e.userId, e.req.redirectURI, e.req.scope,
             e.at + 600 * SECOND)
  }

  /** Authorize stores a row exactly for a request that the client is entitled to, and
      answers its text exactly when the URI can also be parsed and the id token made. */
  lemma AuthorizesExactly(w: World, s: State, e: AuthEvent)
    requires e.DoAuthorize?
    ensures var (s1, r) := Authorize(w, s, e.at, e.userId, e.req, e.draw);
            && s1 == (if StoresCode(s, e) then s.(codes := s.codes[Encode(e.draw.bytes) := RowOf(e)]) else s)
            && (r.Ok? <==> StoresCode(s, e) && w.baseOf(e.req.redirectURI).Some?
                           && (e.req.wantsIdToken ==> e.draw.idTokenOk))
            && (r.Ok? ==> r.value == Encode(e.draw.bytes))
  {
    hide Encode, Split;
  }

  // ---------- rows stay ----------

  lemma StepKeepsRow(w: World, run: seq<AuthEvent>, n: nat, key: string)
    requires n < |run| && Drawn(run) && key in AuthAfter(w, run, n).codes
    ensures var s, s1 := AuthAfter(w, run, n), AuthAfter(w, run, n + 1);
            key in s1.codes && s1.codes[key] == s.codes[key]
  {
    hide Encode, LookupKey, Spells;
    var s, e := AuthAfter(w, run, n), run[n];
    var _ := RowOrigin(w, run, n, key);
    forall c | c in s.codes ensures |s.codes[c].id| == 36 { var _ := RowOrigin(w, run, n, c); }
    if e.DoIssueToken? { IssueKeepsRow(w, s, e, key); }
  }

  /** A redeemed row is deleted by its id, which is no code text. */
  lemma IssueKeepsRow(w: World, s: State, e: AuthEvent, key: string)
    requires e.DoIssueToken? && key in s.codes && |key| == 44 && forall c :: c in s.codes ==> |s.codes[c].id| == 36
    ensures var s1 := IssueToken(w, s, e.at, e.treq, e.answers).0; key in s1.codes && s1.codes[key] == s.codes[key]
  {
  }

  lemma {:induction false} RowStays(w: World, run: seq<AuthEvent>, m: nat, n: nat, key: string)
    requires m <= n <= |run| && Drawn(run) && key in AuthAfter(w, run, m).codes
    ensures key in AuthAfter(w, run, n).codes && AuthAfter(w, run, n).codes[key] == AuthAfter(w, run, m).codes[key]
  {
    if m < n {
      hide AuthAfter;
      RowStays(w, run, m, n - 1, key);
      StepKeepsRow(w, run, n - 1, key);
    }
  }

  /** A code row is in the table exactly when some earlier event stored it: it names a URI
      that the client had registered, and the client was enabled, with the grant type for
      codes and every part of the scope, at the time. */
  lemma RowsExactly(w: World, run: seq<AuthEvent>, n: nat, row: AuthCode)
    requires n <= |run| && Drawn(run)
    ensures row.code in AuthAfter(w, run, n).codes && AuthAfter(w, run, n).codes[row.code] == row
            <==> exists k: nat :: StoredAt(w, run, k, n, row)
  {
    hide AuthAfter, StoresCode, Encode;
    if row.code in AuthAfter(w, run, n).codes && AuthAfter(w, run, n).codes[row.code] == row {
      var k := RowOrigin(w, run, n, row.code);
      StepStores(w, run, k);
      assert StoredAt(w, run, k, n, row);
    }
    if k: nat :| StoredAt(w, run, k, n, row) {
      StoresIsAuthorize(w, run, k);
      StepStores(w, run, k);
      RowStays(w, run, k + 1, n, row.code);
    }
  }

  ghost predicate StoredAt(w: World, run: seq<AuthEvent>, k: nat, n: nat, row: AuthCode)
    requires n <= |run|
  {
    k < n && StoresCode(AuthAfter(w, run, k), run[k]) && row == RowOf(run[k])
  }

  lemma StoresIsAuthorize(w: World, run: seq<AuthEvent>, k: nat)
    requires k < |run| && StoresCode(AuthAfter(w, run, k), run[k])
    ensures run[k].DoAuthorize? && run[k].req.clientId in AuthAfter(w, run, k).clients
  {
  }

  lemma StepStores(w: World, run: seq<AuthEvent>, k: nat)
    requires k < |run| && run[k].DoAuthorize?
    ensures var s := AuthAfter(w, run, k);
            AuthAfter(w, run, k + 1).codes
            == if StoresCode(s, run[k]) then s.codes[Encode(run[k].draw.bytes) := RowOf(run[k])] else s.codes
  {
    hide StoresCode, Authorize;
    AuthorizesExactly(w, AuthAfter(w, run, k), run[k]);
  }

  // ---------- the code grant ----------

  ghost predicate SameBase(w: World, a: string, b: string) {
    w.baseOf(a).Some? && w.baseOf(a) == w.baseOf(b)
  }

  /** The code as it was handed out, with any characters percent-encoded, with or without
      its pad. */
  ghost predicate SpellsCode(received: string, text: string) {
    Spells(received, text) || (|text| == 44 && Spells(received, text[..43]))
  }

  /** Event k stored the code that this request spells, for the same client and the same
      redirect URI up to its query, and less than ten minutes ago. */
  ghost predicate RedeemsOf(w: World, run: seq<AuthEvent>, k: nat, n: nat, now: int, req: TokenRequest)
    requires n <= |run|
  {
    && k < n && StoresCode(AuthAfter(w, run, k), run[k])
    && run[k].req.clientId == req.clientId && SpellsCode(req.code, Encode(run[k].draw.bytes))
    && SameBase(w, req.redirectURI, run[k].req.redirectURI) && now < run[k].at + 600 * SECOND
  }

  predicate CallsWork(a: Answers, scope: string) {
    && ClientQuery !in a.failing && SecretQuery !in a.failing && CodeQuery !in a.failing && SetRefresh !in a.faults
    && (OPENID in Split(scope, ' ') ==> a.idTokenOk)
  }

  /** The response names this scope, and has an id token if a part of it is openid. */
  predicate Names(r: TokenResponse, scope: string) {
    r.scope == scope && (r.idToken <==> OPENID in Split(scope, ' '))
  }

  /** The row that a received code leads to, where a code grant would succeed. */
  ghost predicate Redeems(w: World, s: State, now: int, req: TokenRequest, row: AuthCode) {
    && LookupKey(req.code) == Some(row.code) && row.code in s.codes && s.codes[row.code] == row
    && row.clientId == req.clientId && SameBase(w, req.redirectURI, row.redirectURI) && now < row.expiresAt
  }

  lemma GrantState(w: World, s: State, now: int, req: TokenRequest, a: Answers)
    requires req.grantType == CODE_GRANT
    requires forall c :: c in s.clients ==> s.clients[c].clientId == c
    requires forall c :: c in s.codes ==> s.codes[c].code == c
    ensures var r := IssueToken(w, s, now, req, a).1;
            && (r.Ok? <==> req.clientId in s.clients && a.secretOk
                           && exists row :: Redeems(w, s, now, req, row) && CallsWork(a, row.scope))
            && (r.Ok? ==> forall row :: Redeems(w, s, now, req, row) ==> Names(r.value, row.scope))
  {
    hide LookupKey, Split;
    var key := LookupKey(req.code);
    if key.Some? && key.value in s.codes {
      var row := s.codes[key.value];
      assert forall x :: Redeems(w, s, now, req, x) ==> x == row;
      assert IssueToken(w, s, now, req, a).1.Ok? ==> Redeems(w, s, now, req, row);
    }
  }

  lemma RowsKeyed(w: World, run: seq<AuthEvent>, n: nat)
    requires n <= |run| && Drawn(run)
    ensures forall c :: c in AuthAfter(w, run, n).codes ==> AuthAfter(w, run, n).codes[c].code == c
  {
    hide AuthAfter;
    forall c | c in AuthAfter(w, run, n).codes ensures AuthAfter(w, run, n).codes[c].code == c {
      var _ := RowOrigin(w, run, n, c);
    }
  }

  lemma RedeemsSpelled(w: World, run: seq<AuthEvent>, n: nat, now: int, req: TokenRequest, k: nat, row: AuthCode)
    requires Drawn(run) && n <= |run| && StoredAt(w, run, k, n, row)
    ensures Redeems(w, AuthAfter(w, run, n), now, req, row) <==> RedeemsOf(w, run, k, n, now, req)
  {
    hide AuthAfter, StoresCode, Encode, Spells, LookupKey;
    assert StoresCode(AuthAfter(w, run, k), run[k]) ==> run[k].DoAuthorize? by { StoresIsAuthorize(w, run, k); }
    CodeRecovered(run[k].draw.bytes, req.code);
    RowsExactly(w, run, n, row);
  }

  /** In every run, a code grant succeeds exactly when the client's secret is right, the
      calls involved work, and the code spells the text drawn by an earlier Authorize call of
      the same client, whose redirect URI is that of the request up to the query, less than
      ten minutes ago. The response names the scope of that call, and has an id token if
      the scope asks for openid. */
  lemma CodeGrantExactly(w: World, run: seq<AuthEvent>, n: nat, now: int, req: TokenRequest, a: Answers)
    requires n <= |run| && Drawn(run) && req.grantType == CODE_GRANT
    ensures var r := IssueToken(w, AuthAfter(w, run, n), now, req, a).1;
            && (r.Ok? <==>
                a.secretOk && exists k: nat :: RedeemsOf(w, run, k, n, now, req) && CallsWork(a, run[k].req.scope))
            && (r.Ok? ==> forall k: nat :: RedeemsOf(w, run, k, n, now, req) ==> Names(r.value, run[k].req.scope))
  {
    hide AuthAfter, IssueToken, StoresCode, SpellsCode, SameBase, Redeems, CallsWork, Names, Encode;
    var s := AuthAfter(w, run, n);
    ClientKept(w, run, n, n, req.clientId);
    RowsKeyed(w, run, n);
    GrantState(w, s, now, req, a);
    forall k: nat | k < n && RedeemsOf(w, run, k, n, now, req)
      ensures run[k].DoAuthorize? && Redeems(w, s, now, req, RowOf(run[k])) && req.clientId in s.clients
    {
      KnownClient(w, run, k, n, now, req);
      RedeemsSpelled(w, run, n, now, req, k, RowOf(run[k]));
    }
    forall row | Redeems(w, s, now, req, row)
      ensures exists k: nat :: k < n && RedeemsOf(w, run, k, n, now, req) && RowOf(run[k]) == row
    {
      var _ := RowFound(w, run, n, now, req, row);
    }
  }

  lemma KnownClient(w: World, run: seq<AuthEvent>, k: nat, n: nat, now: int, req: TokenRequest)
    requires n <= |run| && RedeemsOf(w, run, k, n, now, req)
    ensures run[k].DoAuthorize? && StoredAt(w, run, k, n, RowOf(run[k])) && req.clientId in AuthAfter(w, run, n).clients
  {
    hide AuthAfter;
    ClientKept(w, run, k, n, req.clientId);
  }

  lemma RowFound(w: World, run: seq<AuthEvent>, n: nat, now: int, req: TokenRequest, row: AuthCode) returns (k: nat)
    requires n <= |run| && Drawn(run) && Redeems(w, AuthAfter(w, run, n), now, req, row)
    ensures StoredAt(w, run, k, n, row) && RedeemsOf(w, run, k, n, now, req)
  {
    hide AuthAfter, StoredAt, RedeemsOf;
    RowsExactly(w, run, n, row);
    k :| StoredAt(w, run, k, n, row);
    RedeemsSpelled(w, run, n, now, req, k, row);
  }

  // ---------- the refresh grant ----------

  lemma RefreshState(w: World, s: State, now: int, req: TokenRequest, a: Answers)
    requires req.grantType == REFRESH_GRANT
    ensures IssueToken(w, s, now, req, a).1.Ok? <==>
            && ClientQuery !in a.failing && SecretQuery !in a.failing && req.clientId in s.clients && a.secretOk
            && req.refreshToken.appId == s.clients[req.clientId].appId
            && Exists !in a.check && Exchange(s.store, w.cfg, now, req.refreshToken, a.faults).1.Ok?
  {
  }

  /** In every clocked run, a refresh grant succeeds exactly when the client is known and its
      secret right, the token is of the client's app, was minted last for its user by any
      grant or login, is neither dropped nor revoked since, has not expired, and the calls
      involved work. */
  lemma RefreshGrantExactly(w: World, run: seq<AuthEvent>, n: nat, now: int, req: TokenRequest, a: Answers)
    requires AuthClocked(run) && n <= |run| && req.grantType == REFRESH_GRANT
    requires forall i :: 0 <= i < n && InstantOf(run[i]).Some? ==> InstantOf(run[i]).value <= now
    ensures var s, ts, t := AuthAfter(w, run, n), TokenRun(w, run, n), req.refreshToken;
            IssueToken(w, s, now, req, a).1.Ok? <==>
            && ClientQuery !in a.failing && SecretQuery !in a.failing && req.clientId in s.clients && a.secretOk
            && t.appId == s.clients[req.clientId].appId
            && (exists i: nat :: TokenLaws.StandsSince(w.cfg, ts, |ts|, i, t))
            && !TokenLaws.MarkedEarlier(w.cfg, ts, |ts|, t) && now < Exp(t)
            && Exists !in a.check && Exists !in a.faults && Get !in a.faults && SetRefresh !in a.faults
  {
    hide AuthAfter, IssueToken, Exchange, TokenLaws.StandsSince, TokenLaws.MarkedEarlier, After;
    var s, ts := AuthAfter(w, run, n), TokenRun(w, run, n);
    RefreshState(w, s, now, req, a);
    StoreIsTokens(w, run, n);
    TokensClocked(w, run, n);
    LastTokenInstant(w, run, n, now);
    TokenLaws.ExchangedExactly(w.cfg, ts, |ts|, now, req.refreshToken, a.faults);
  }

  /** No other grant type is ever answered with tokens, nor changes anything. */
  lemma OnlyTwoGrants(w: World, s: State, now: int, req: TokenRequest, a: Answers)
    requires req.grantType != CODE_GRANT && req.grantType != REFRESH_GRANT
    ensures IssueToken(w, s, now, req, a).1.Err? && IssueToken(w, s, now, req, a).0 == s
  {
  }
}
