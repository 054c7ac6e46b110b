/** The OAuth code flow of internal/service/authorization.go on values, and what every
    token that descends from an authorization code carries. */
module Authorization {
  import opened Common
  import opened Tokens
  import opened Base64Url

  datatype Client = Client(clientId: string, appId: string, grantTypes: seq<string>,
                           redirectURIs: seq<string>, scopes: seq<string>, status: bool)

  datatype AuthCode = AuthCode(id: string, code: string, clientId: string, userId: string,
                               redirectURI: string, scope: string, expiresAt: int)

  datatype AuthRequest = AuthRequest(clientId: string, redirectURI: string, scope: string, wantsIdToken: bool)

  datatype TokenRequest = TokenRequest(grantType: string, code: string, redirectURI: string,
                                       clientId: string, refreshToken: Token)

  datatype TokenResponse = TokenResponse(pair: Pair, scope: string, idToken: bool)

  datatype AuthError = InvalidClient | UnsupportedGrantType | InvalidRedirectURI | InvalidScope | InvalidGrant
                     | BadURI | BadCode | QueryFailed | StoreFailed | IdTokenFailed | TokenFailed(cause: TokenError)

  /** The database calls that may fail. */
  datatype Query = ClientQuery | SecretQuery | CodeSave | CodeQuery | CodeDelete

  /** The client table, the code table keyed by code text, and the token store. */
  datatype State = State(clients: map<string, Client>, codes: map<string, AuthCode>, store: Store)

  /** What this component does not decide: the configured token lifetimes, and how
      url.Parse reads a URI, as its text without the query, if it parses at all. */
  datatype World = World(cfg: Lifetimes, baseOf: string -> Option<string>)

  const CODE_LIFE := 600 * SECOND
  const CODE_GRANT := "authorization_code"
  const REFRESH_GRANT := "refresh_token"
  const OPENID := "openid"

  predicate ScopeAllowed(allowed: seq<string>, scope: string) {
    forall part | part in Split(scope, ' ') :: part in allowed
  }

  /** The inputs of one Authorize call that other parts choose: the row id, the 32
      random bytes, whether the id token could be made, and the calls that fail. */
  datatype Draw = Draw(id: string, bytes: seq<Byte>, idTokenOk: bool, failing: set<Query>)

  function Authorize(w: World, s: State, now: int, userId: string, req: AuthRequest, d: Draw)
    : (State, Result<string, AuthError>)
  {
    if ClientQuery in d.failing then (s, Err(QueryFailed))
    else if req.clientId !in s.clients || !s.clients[req.clientId].status then (s, Err(InvalidClient))
    else
      var client := s.clients[req.clientId];
      if CODE_GRANT !in client.grantTypes then (s, Err(UnsupportedGrantType))
      else if req.redirectURI !in client.redirectURIs then (s, Err(InvalidRedirectURI))
      else if !ScopeAllowed(client.scopes, req.scope) then (s, Err(InvalidScope))
      else
        var row := AuthCode(d.id, Encode(d.bytes), req.clientId, userId, req.redirectURI, req.scope, now + CODE_LIFE);
        if row.code in s.codes || CodeSave in d.failing then (s, Err(StoreFailed))
        else
          var s1 := s.(codes := s.codes[row.code := row]);
          if w.baseOf(req.redirectURI).None? then (s1, Err(BadURI))
          else if req.wantsIdToken && !d.idTokenOk then (s1, Err(IdTokenFailed))
          else (s1, Ok(row.code))
  }

  /** processAuthorizationCode. */
  function FindCode(s: State, now: int, received: string): Result<AuthCode, AuthError> {
    match LookupKey(received)
    case None => Err(BadCode)
    case Some(key) =>
      if key in s.codes && s.codes[key].expiresAt > now then Ok(s.codes[key]) else Err(InvalidGrant)
  }

  /** validateAuthCodeRequest. */
  function CheckCode(w: World, now: int, row: AuthCode, req: TokenRequest, client: Client): Option<AuthError> {
    if row.clientId != client.clientId then Some(InvalidGrant)
    else
      match (w.baseOf(req.redirectURI), w.baseOf(row.redirectURI))
      case (Some(requested), Some(stored)) =>
        if requested != stored then Some(InvalidGrant)
        else if row.expiresAt < now then Some(InvalidGrant) else None
      case _ => Some(BadURI)
  }

  /** How the parts outside this component answer one token request. */
  datatype Answers = Answers(secretOk: bool, idTokenOk: bool, check: Faults, faults: Faults, failing: set<Query>)

  /** generateTokenResponse, then the delete that passes the row id where the code
      text is compared; if it fails, the grant succeeds all the same. */
  function RedeemCode(w: World, s: State, now: int, req: TokenRequest, client: Client, a: Answers)
    : (State, Result<TokenResponse, AuthError>)
  {
    if LookupKey(req.code).Some? && CodeQuery in a.failing then (s, Err(QueryFailed))
    else
      match FindCode(s, now, req.code)
      case Err(e) => (s, Err(e))
      case Ok(row) =>
        match CheckCode(w, now, row, req, client)
        case Some(e) => (s, Err(e))
        case None => Grant(w, s, now, row, client, a)
  }

  function Grant(w: World, s: State, now: int, row: AuthCode, client: Client, a: Answers)
    : (State, Result<TokenResponse, AuthError>)
  {
    var (store, r) := Generate(s.store, w.cfg, now, User(row.userId, client.appId, ""), row.scope, a.faults);
    var s1 := s.(store := store);
    match r
    case Err(e) => (s1, Err(TokenFailed(e)))
    case Ok(pair) =>
      var openid := OPENID in Split(row.scope, ' ');
      if openid && !a.idTokenOk then (s1, Err(IdTokenFailed))
      else (if CodeDelete in a.failing then s1 else s1.(codes := s1.codes - {row.id}),
            Ok(TokenResponse(pair, row.scope, openid)))
  }

  function RedeemRefresh(w: World, s: State, now: int, req: TokenRequest, client: Client, check: Faults, faults: Faults)
    : (State, Result<TokenResponse, AuthError>)
  {
    match Validate(s.store, now, req.refreshToken, Refresh, check)
    case Err(_) => (s, Err(InvalidGrant))
    case Ok(claims) =>
      if claims.appId != client.appId then (s, Err(InvalidGrant))
      else
        var (store, r) := Exchange(s.store, w.cfg, now, req.refreshToken, faults);
        var s1 := s.(store := store);
        match r
        case Err(e) => (s1, Err(TokenFailed(e)))
        case Ok(pair) => (s1, Ok(TokenResponse(pair, Join(client.scopes, ' '), false)))
  }

  function IssueToken(w: World, s: State, now: int, req: TokenRequest, a: Answers)
    : (State, Result<TokenResponse, AuthError>)
  {
    if ClientQuery in a.failing then (s, Err(QueryFailed))
    else if req.clientId !in s.clients then (s, Err(InvalidClient))
    else if SecretQuery in a.failing then (s, Err(QueryFailed))
    else if !a.secretOk then (s, Err(InvalidClient))
    else
      var client := s.clients[req.clientId];
      if req.grantType == CODE_GRANT then RedeemCode(w, s, now, req, client, a)
      else if req.grantType == REFRESH_GRANT then RedeemRefresh(w, s, now, req, client, a.check, a.faults)
      else (s, Err(UnsupportedGrantType))
  }

  // ---------- runs ----------

  datatype AuthEvent =
    | DoAuthorize(at: int, userId: string, req: AuthRequest, draw: Draw)
    | DoIssueToken(at: int, treq: TokenRequest, answers: Answers)
    | DoSaveClient(client: Client)  // a new client, or new settings for one
    | DoToken(event: Event)         // any other use of the token service

  /** An update changes a client's settings, never the app it belongs to. */
  function SaveClient(s: State, c: Client): State {
    if c.clientId in s.clients && s.clients[c.clientId].appId != c.appId then s
    else s.(clients := s.clients[c.clientId := c])
  }

  function AuthStep(w: World, s: State, e: AuthEvent): State {
    match e
    case DoAuthorize(at, u, req, d) => Authorize(w, s, at, u, req, d).0
    case DoIssueToken(at, req, a) => IssueToken(w, s, at, req, a).0
    case DoSaveClient(c) => SaveClient(s, c)
    case DoToken(ev) => s.(store := Step(s.store, w.cfg, ev))
  }

  function AuthAfter(w: World, run: seq<AuthEvent>, n: nat): State
    requires n <= |run|
  {
    if n == 0 then State(map[], map[], EMPTY) else AuthStep(w, AuthAfter(w, run, n - 1), run[n - 1])
  }

  /** Row ids are UUID texts of 36 characters, and codes are drawn from 32 bytes. */
  ghost predicate Drawn(run: seq<AuthEvent>) {
    forall i :: 0 <= i < |run| && run[i].DoAuthorize? ==> |run[i].draw.id| == 36 && |run[i].draw.bytes| == 32
  }

  /** The pair that an event hands out. */
  ghost function NewPair(w: World, s: State, e: AuthEvent): Option<Pair> {
    match e
    case DoIssueToken(at, req, a) =>
      var r := IssueToken(w, s, at, req, a).1;
      if r.Ok? then Some(r.value.pair) else None
    case DoToken(ev) => Mint(s.store, w.cfg, ev)
    case _ => None
  }

  ghost predicate HandsOut(w: World, s: State, e: AuthEvent, t: Token) {
    var p := NewPair(w, s, e);
    p.Some? && (t == p.value.access || t == p.value.refresh)
  }

  /** The refresh token that an event trades in. */
  ghost function TradedIn(e: AuthEvent): Option<Token> {
    match e
    case DoIssueToken(_, req, _) => if req.grantType == REFRESH_GRANT then Some(req.refreshToken) else None
    case DoToken(DoExchange(_, t, _)) => Some(t)
    case DoToken(DoRefreshLogin(_, t, _, _, _)) => Some(t)
    case _ => None
  }

  /** Event e, leading from s to s1, put this row into the table. */
  ghost predicate Authorizes(s: State, s1: State, e: AuthEvent, row: AuthCode) {
    && e.DoAuthorize?
    && row.code !in s.codes && row.code in s1.codes && s1.codes[row.code] == row
  }

  /** t descends from the code authorized by event k: it was handed out for that
      code, or in return for a refresh token that descends from it. */
  ghost predicate Descends(w: World, run: seq<AuthEvent>, n: nat, t: Token, k: nat)
    requires n <= |run|
    decreases n
  {
    n > 0 &&
    (|| Descends(w, run, n - 1, t, k)
     || (k < n - 1 && HandsOut(w, AuthAfter(w, run, n - 1), run[n - 1], t) &&
         (|| RedeemsCodeOf(w, run, n - 1, k)
          || (TradedIn(run[n - 1]).Some? && Descends(w, run, n - 1, TradedIn(run[n - 1]).value, k)))))
  }

  /** Event i is a code grant for the row that event k put there. */
  ghost predicate RedeemsCodeOf(w: World, run: seq<AuthEvent>, i: nat, k: nat)
    requires k < i < |run|
  {
    var s, e := AuthAfter(w, run, i), run[i];
    && e.DoIssueToken? && e.treq.grantType == CODE_GRANT
    && FindCode(s, e.at, e.treq.code).Ok?
    && Authorizes(AuthAfter(w, run, k), AuthAfter(w, run, k + 1), run[k], FindCode(s, e.at, e.treq.code).value)
  }

  // ---------- the tables ----------

  /** Rows come only from Authorize, and are never changed. */
  lemma StepCodes(w: World, s: State, e: AuthEvent, key: string)
    requires key in AuthStep(w, s, e).codes
    ensures var row := AuthStep(w, s, e).codes[key];
            if key in s.codes then row == s.codes[key]
            else e.DoAuthorize? && key == row.code == Encode(e.draw.bytes) && row.id == e.draw.id
                 && Authorizes(s, AuthStep(w, s, e), e, row)
  {
  }

  lemma StepClients(w: World, s: State, e: AuthEvent, c: string)
    requires forall x :: x in s.clients ==> s.clients[x].clientId == x
    ensures var s1 := AuthStep(w, s, e);
            && (forall x :: x in s1.clients ==> s1.clients[x].clientId == x)
            && (c in s.clients ==> c in s1.clients && s1.clients[c].appId == s.clients[c].appId)
  {
    if !e.DoSaveClient? { assert AuthStep(w, s, e).clients == s.clients; }
  }

  /** Every row was put there by an Authorize call. */
  lemma {:induction false} RowOrigin(w: World, run: seq<AuthEvent>, n: nat, key: string) returns (k: nat)
    requires n <= |run| && Drawn(run) && key in AuthAfter(w, run, n).codes
    ensures var row := AuthAfter(w, run, n).codes[key];
            && |key| == 44 && row.code == key && |row.id| == 36
            && k < n && Authorizes(AuthAfter(w, run, k), AuthAfter(w, run, k + 1), run[k], row)
  {
    var s, e := AuthAfter(w, run, n - 1), run[n - 1];
    StepCodes(w, s, e, key);
    if key in s.codes {
      k := RowOrigin(w, run, n - 1, key);
    } else {
      k := n - 1;
      CodeText(e.draw.bytes);
    }
  }

  lemma {:induction false} ClientKept(w: World, run: seq<AuthEvent>, m: nat, n: nat, c: string)
    requires m <= n <= |run|
    ensures forall x :: x in AuthAfter(w, run, n).clients ==> AuthAfter(w, run, n).clients[x].clientId == x
    ensures c in AuthAfter(w, run, m).clients ==>
              c in AuthAfter(w, run, n).clients
              && AuthAfter(w, run, n).clients[c].appId == AuthAfter(w, run, m).clients[c].appId
  {
    if n > 0 {
      ClientKept(w, run, if m < n then m else n - 1, n - 1, c);
      StepClients(w, AuthAfter(w, run, n - 1), run[n - 1], c);
    }
  }

  // ---------- conservation ----------

  /** t carries what Authorize granted at event k: the user and the scope asked for,
      the client's app, and only scopes the client then allowed. */
  ghost predicate Carries(w: World, run: seq<AuthEvent>, k: nat, t: Token)
    requires k < |run| && run[k].DoAuthorize?
  {
    var s, req := AuthAfter(w, run, k), run[k].req;
    && req.clientId in s.clients
    && t.userId == run[k].userId
    && t.scope == req.scope
    && t.appId == s.clients[req.clientId].appId
    && ScopeAllowed(s.clients[req.clientId].scopes, t.scope)
  }

  lemma ExchangeKeepsClaims(s: Store, cfg: Lifetimes, now: int, t: Token, f: Faults)
    requires Exchange(s, cfg, now, t, f).1.Ok?
    ensures var p := Exchange(s, cfg, now, t, f).1.value;
            && p.access.userId == p.refresh.userId == t.userId
            && p.access.appId == p.refresh.appId == t.appId
            && p.access.scope == p.refresh.scope == t.scope
  {
  }

  /** A pair handed out in return for a token keeps the token's user, app and scope. */
  lemma TradeKeepsClaims(w: World, s: State, e: AuthEvent, t: Token)
    requires HandsOut(w, s, e, t) && TradedIn(e).Some?
    ensures var given := TradedIn(e).value;
            t.userId == given.userId && t.appId == given.appId && t.scope == given.scope
  {
    match e
    case DoIssueToken(at, req, a) => ExchangeKeepsClaims(s.store, w.cfg, at, req.refreshToken, a.faults);
    case DoToken(ev) => ExchangeKeepsClaims(s.store, w.cfg, ev.now, ev.token, ev.faults);
    case _ =>
  }

  lemma CodeGrantCarries(w: World, run: seq<AuthEvent>, i: nat, k: nat, t: Token)
    requires k < i < |run| && RedeemsCodeOf(w, run, i, k) && HandsOut(w, AuthAfter(w, run, i), run[i], t)
    ensures run[k].DoAuthorize? && Carries(w, run, k, t)
  {
    ClientKept(w, run, k, i, run[k].req.clientId);
  }

  lemma SameClaimsCarry(w: World, run: seq<AuthEvent>, k: nat, given: Token, t: Token)
    requires k < |run| && run[k].DoAuthorize? && Carries(w, run, k, given)
    requires t.userId == given.userId && t.appId == given.appId && t.scope == given.scope
    ensures Carries(w, run, k, t)
  {
  }

  /** Every token that descends from a code, through any number of refreshes, carries
      the code's user and scope, the issuing client's app, and only allowed scopes. */
  lemma {:induction false} ScopeConserved(w: World, run: seq<AuthEvent>, n: nat, t: Token, k: nat)
    requires n <= |run| && Descends(w, run, n, t, k)
    ensures k < n && run[k].DoAuthorize? && Carries(w, run, k, t)
    decreases n
  {
    hide AuthAfter, HandsOut, Carries, RedeemsCodeOf, TradedIn;
    if Descends(w, run, n - 1, t, k) {
      ScopeConserved(w, run, n - 1, t, k);
    } else if RedeemsCodeOf(w, run, n - 1, k) {
      CodeGrantCarries(w, run, n - 1, k, t);
    } else {
      ScopeConserved(w, run, n - 1, TradedIn(run[n - 1]).value, k);
      TradeKeepsClaims(w, AuthAfter(w, run, n - 1), run[n - 1], t);
      SameClaimsCarry(w, run, k, TradedIn(run[n - 1]).value, t);
    }
  }

  /** Every token the code grant hands out descends from some Authorize call. */
  lemma CodeGrantDescends(w: World, run: seq<AuthEvent>, i: nat, t: Token) returns (k: nat)
    requires i < |run| && Drawn(run) && HandsOut(w, AuthAfter(w, run, i), run[i], t)
    requires run[i].DoIssueToken? && run[i].treq.grantType == CODE_GRANT
    ensures Descends(w, run, i + 1, t, k)
  {
    var s, e := AuthAfter(w, run, i), run[i];
    var row := FindCode(s, e.at, e.treq.code).value;
    k := RowOrigin(w, run, i, LookupKey(e.treq.code).value);
    assert RedeemsCodeOf(w, run, i, k);
  }

  // ---------- where the code does less than RFC 6749 asks ----------

  /** Section 4.1.2 of RFC 6749 wants a code used once. The delete compares the code
      text with the row id, so nothing is deleted: a code that was redeemed can be
      redeemed again by the same request exactly until it expires. */
  lemma CodeRedeemableUntilExpiry(w: World, run: seq<AuthEvent>, n: nat, now: int, later: int, req: TokenRequest,
                                  a: Answers)
    requires n <= |run| && Drawn(run) && req.grantType == CODE_GRANT && now <= later
    requires IssueToken(w, AuthAfter(w, run, n), now, req, a).1.Ok?
    ensures var s := AuthAfter(w, run, n);
            var s1 := IssueToken(w, s, now, req, a).0;
            && s1.codes == s.codes
            && (IssueToken(w, s1, later, req, a).1.Ok? <==> later < FindCode(s, now, req.code).value.expiresAt)
  {
    var s := AuthAfter(w, run, n);
    var row := FindCode(s, now, req.code).value;
    if row.id in s.codes {
      var _ := RowOrigin(w, run, n, row.id);
      var _ := RowOrigin(w, run, n, LookupKey(req.code).value);
    }
    assert s.codes - {row.id} == s.codes;
  }

  /** The refresh response names all of the client's scopes; it names the scope of the
      tokens it hands out exactly when those are the same text. */
  lemma RefreshResponseScope(w: World, s: State, now: int, req: TokenRequest, a: Answers)
    requires req.grantType == REFRESH_GRANT && IssueToken(w, s, now, req, a).1.Ok?
    ensures var r := IssueToken(w, s, now, req, a).1.value;
            && r.pair.access.scope == r.pair.refresh.scope == req.refreshToken.scope
            && (r.scope == r.pair.access.scope <==> Join(s.clients[req.clientId].scopes, ' ') == req.refreshToken.scope)
  {
    ExchangeKeepsClaims(s.store, w.cfg, now, req.refreshToken, a.faults);
  }

  // ---------- runs in which this happens ----------

  const SAMPLE_WORLD := World(Lifetimes(SECOND, SECOND), (uri: string) => Some(uri))
  const SAMPLE_CLIENT := Client("c", "app", [CODE_GRANT, REFRESH_GRANT], ["uri"], ["read", "write"], true)
  const ALL_WELL := Answers(true, true, {}, {}, {})

  function SampleRequest(bytes: seq<Byte>): TokenRequest {
    TokenRequest(CODE_GRANT, Encode(bytes), "uri", "c", Token("", "", "", Refresh, 0, ""))
  }

  /** A client registers, a user authorizes it, and the code is redeemed twice. */
  function TwoRedemptions(id: string, bytes: seq<Byte>): seq<AuthEvent> {
    [DoSaveClient(SAMPLE_CLIENT),
     DoAuthorize(0, "u", AuthRequest("c", "uri", "read", false), Draw(id, bytes, true, {})),
     DoIssueToken(1, SampleRequest(bytes), ALL_WELL),
     DoIssueToken(2, SampleRequest(bytes), ALL_WELL)]
  }

  lemma SampleAuthorizes(id: string, bytes: seq<Byte>)
    requires |bytes| == 32
    ensures var s := AuthAfter(SAMPLE_WORLD, TwoRedemptions(id, bytes), 2);
            && s.clients == map["c" := SAMPLE_CLIENT]
            && Encode(bytes) in s.codes
            && s.codes[Encode(bytes)] == AuthCode(id, Encode(bytes), "c", "u", "uri", "read", CODE_LIFE)
  {
    var run := TwoRedemptions(id, bytes);
    hide Encode;
    SplitWhole("read", ' ');
    assert AuthAfter(SAMPLE_WORLD, run, 0) == State(map[], map[], EMPTY);
    assert AuthAfter(SAMPLE_WORLD, run, 1) == AuthStep(SAMPLE_WORLD, AuthAfter(SAMPLE_WORLD, run, 0), run[0]);
    assert AuthAfter(SAMPLE_WORLD, run, 2) == AuthStep(SAMPLE_WORLD, AuthAfter(SAMPLE_WORLD, run, 1), run[1]);
  }

  lemma SampleRedeems(s: State, id: string, bytes: seq<Byte>, now: int)
    requires |bytes| == 32 && now < CODE_LIFE
    requires s.clients == map["c" := SAMPLE_CLIENT] && Encode(bytes) in s.codes
    requires s.codes[Encode(bytes)] == AuthCode(id, Encode(bytes), "c", "u", "uri", "read", CODE_LIFE)
    ensures IssueToken(SAMPLE_WORLD, s, now, SampleRequest(bytes), ALL_WELL).1.Ok?
  {
    hide Encode, Spells;
    CodeText(bytes);
    AlphabetSpellsItself(Encode(bytes));
    CodeRecovered(bytes, Encode(bytes));
  }

  /** A code that is redeemed twice. */
  lemma CodeRedeemedTwice(id: string, bytes: seq<Byte>)
    requires |id| == 36 && |bytes| == 32
    ensures var run, w, req := TwoRedemptions(id, bytes), SAMPLE_WORLD, SampleRequest(bytes);
            && Drawn(run)
            && IssueToken(w, AuthAfter(w, run, 2), 1, req, ALL_WELL).1.Ok?
            && IssueToken(w, AuthAfter(w, run, 3), 2, req, ALL_WELL).1.Ok?
  {
    hide Encode, IssueToken;
    var run, w, req := TwoRedemptions(id, bytes), SAMPLE_WORLD, SampleRequest(bytes);
    SampleAuthorizes(id, bytes);
    SampleRedeems(AuthAfter(w, run, 2), id, bytes, 1);
    assert AuthAfter(w, run, 3) == IssueToken(w, AuthAfter(w, run, 2), 1, req, ALL_WELL).0;
    CodeRedeemableUntilExpiry(w, run, 2, 1, 1, req, ALL_WELL);
    assert AuthAfter(w, run, 3).clients == AuthAfter(w, run, 2).clients
        by { IssueKeepsClients(w, AuthAfter(w, run, 2), 1, req, ALL_WELL); }
    SampleRedeems(AuthAfter(w, run, 3), id, bytes, 2);
  }

  lemma IssueKeepsClients(w: World, s: State, now: int, req: TokenRequest, a: Answers)
    ensures IssueToken(w, s, now, req, a).0.clients == s.clients
  {
  }

  /** A refresh response that names a scope its tokens do not carry. */
  lemma RefreshNamesMore()
    ensures exists w, run, req, a ::
            |run| == 2 && IssueToken(w, AuthAfter(w, run, 2), 0, req, a).1.Ok? && req.grantType == REFRESH_GRANT
              && var r := IssueToken(w, AuthAfter(w, run, 2), 0, req, a).1.value;
                 r.pair.access.scope == "read" && r.scope == "read write"
  {
    var w, user := SAMPLE_WORLD, User("u", "app", "n");
    var t := NewToken(w.cfg, 0, user, Refresh, "read");
    var run := [DoSaveClient(SAMPLE_CLIENT), DoToken(DoIssue(0, user, "read", {}))];
    var req := TokenRequest(REFRESH_GRANT, "", "", "c", t);
    assert AuthAfter(w, run, 0) == State(map[], map[], EMPTY);
    assert AuthAfter(w, run, 1) == AuthStep(w, AuthAfter(w, run, 0), run[0]);
    assert AuthAfter(w, run, 2) == AuthStep(w, AuthAfter(w, run, 1), run[1]);
    RefreshResponseScope(w, AuthAfter(w, run, 2), 0, req, ALL_WELL);
    assert Join(["write"], ' ') == "write";
    assert ["read", "write"][1..] == ["write"];
    assert Join(["read", "write"], ' ') == "read write";
  }

  // ---------- the token theorems carry over ----------

  /** What an event does to the token store, as events of the token service. */
  function TokenEvents(w: World, s: State, e: AuthEvent): seq<Event> {
    match e
    case DoIssueToken(at, req, a) =>
      if ClientQuery in a.failing || req.clientId !in s.clients || SecretQuery in a.failing || !a.secretOk then []
      else if req.grantType == CODE_GRANT then
        if LookupKey(req.code).None? || CodeQuery in a.failing || FindCode(s, at, req.code).Err? then []
        else
          var row, client := FindCode(s, at, req.code).value, s.clients[req.clientId];
          if CheckCode(w, at, row, req, client).Some? then []
          else [DoIssue(at, User(row.userId, client.appId, ""), row.scope, a.faults)]
      else if req.grantType == REFRESH_GRANT then
        match Validate(s.store, at, req.refreshToken, Refresh, a.check)
        case Err(_) => []
        case Ok(claims) =>
          if claims.appId != s.clients[req.clientId].appId then [] else [DoExchange(at, req.refreshToken, a.faults)]
      else []
    case DoToken(ev) => [ev]
    case _ => []
  }

  function TokenRun(w: World, run: seq<AuthEvent>, n: nat): seq<Event>
    requires n <= |run|
  {
    if n == 0 then [] else TokenRun(w, run, n - 1) + TokenEvents(w, AuthAfter(w, run, n - 1), run[n - 1])
  }

  lemma StepIsTokens(w: World, s: State, e: AuthEvent)
    ensures var es := TokenEvents(w, s, e);
            && |es| <= 1
            && AuthStep(w, s, e).store == if es == [] then s.store else Step(s.store, w.cfg, es[0])
  {
  }

  lemma AuthAfterMore(w: World, run: seq<AuthEvent>, n: nat)
    requires n < |run|
    ensures AuthAfter(w, run, n + 1) == AuthStep(w, AuthAfter(w, run, n), run[n])
  {
  }

  lemma AuthAfterNone(w: World, run: seq<AuthEvent>)
    ensures AuthAfter(w, run, 0).store == After(w.cfg, [], 0)
  {
  }

  /** The store of any OAuth run is the store of a run of the token service alone, so
      every theorem on token runs holds of it. */
  lemma {:induction false} StoreIsTokens(w: World, run: seq<AuthEvent>, n: nat)
    requires n <= |run|
    ensures var ts := TokenRun(w, run, n); AuthAfter(w, run, n).store == After(w.cfg, ts, |ts|)
  {
    if n == 0 {
      AuthAfterNone(w, run);
    } else {
      hide AuthStep, AuthAfter, TokenEvents, Step, After;
      var s, before := AuthAfter(w, run, n - 1), TokenRun(w, run, n - 1);
      var es := TokenEvents(w, s, run[n - 1]);
      StoreIsTokens(w, run, n - 1);
      StepIsTokens(w, s, run[n - 1]);
      AuthAfterMore(w, run, n - 1);
      if es == [] {
        assert before + es == before;
      } else {
        SameStart(w.cfg, before, es, |before|);
        AfterMore(w.cfg, before + es, |before|);
        assert |before + es| == |before| + 1 && (before + es)[|before|] == es[0];
      }
    }
  }

  /** The instant of an event; changes to clients have none that matters. */
  function InstantOf(e: AuthEvent): Option<int> {
    match e
    case DoAuthorize(at, _, _, _) => Some(at)
    case DoIssueToken(at, _, _) => Some(at)
    case DoSaveClient(_) => None
    case DoToken(ev) => Some(ev.now)
  }

  ghost predicate AuthClocked(run: seq<AuthEvent>) {
    forall i, j :: 0 <= i < j < |run| && InstantOf(run[i]).Some? && InstantOf(run[j]).Some?
                   ==> InstantOf(run[i]).value <= InstantOf(run[j]).value
  }

  /** The token run of a clocked run is clocked, and none of its events is later. */
  lemma {:induction false} TokensClocked(w: World, run: seq<AuthEvent>, n: nat)
    requires n <= |run| && AuthClocked(run)
    ensures Clocked(TokenRun(w, run, n))
    ensures forall i, e :: 0 <= i < |TokenRun(w, run, n)| && n <= e < |run| && InstantOf(run[e]).Some?
                           ==> TokenRun(w, run, n)[i].now <= InstantOf(run[e]).value
  {
    if n > 0 {
      TokensClocked(w, run, n - 1);
      hide TokenEvents, AuthAfter;
      TokenEventInstant(w, AuthAfter(w, run, n - 1), run[n - 1]);
    }
  }

  lemma TokenEventInstant(w: World, s: State, e: AuthEvent)
    ensures var es := TokenEvents(w, s, e); |es| <= 1 && (es != [] ==> InstantOf(e) == Some(es[0].now))
  {
  }

  lemma {:induction false} TokenRunGrows(w: World, run: seq<AuthEvent>, m: nat, n: nat)
    requires m <= n <= |run|
    ensures TokenRun(w, run, m) <= TokenRun(w, run, n)
  {
    if m < n { TokenRunGrows(w, run, m, n - 1); }
  }

  /** So a revocation stays permanent among code and refresh grants. */
  lemma RevocationPermanentInGrants(w: World, run: seq<AuthEvent>, k: nat, n: nat, t: Token, now: int, typ: TokenType,
                                    f: Faults)
    requires AuthClocked(run) && k < n <= |run|
    requires forall i :: 0 <= i < n && InstantOf(run[i]).Some? ==> InstantOf(run[i]).value <= now
    requires run[k].DoToken? && Revokes(AuthAfter(w, run, k).store, w.cfg, run[k].event, t)
    ensures Validate(AuthAfter(w, run, n).store, now, t, typ, f).Err?
  {
    hide AuthStep, TokenEvents, Step, Revokes, Validate, After;
    var ts, at := TokenRun(w, run, n), |TokenRun(w, run, k)|;
    StoreIsTokens(w, run, k);
    StoreIsTokens(w, run, n);
    TokensClocked(w, run, n);
    TokenRunGrows(w, run, k + 1, n);
    assert TokenRun(w, run, k + 1) == TokenRun(w, run, k) + [run[k].event] by { TokenEventIs(w, run, k); }
    assert ts[at] == run[k].event;
    var before := TokenRun(w, run, k);
    assert ts == before + ts[at..];
    SameStart(w.cfg, before, ts[at..], at);
    LastTokenInstant(w, run, n, now);
    RevocationPermanent(w.cfg, ts, at, |ts|, t, now, typ, f);
  }

  lemma TokenEventIs(w: World, run: seq<AuthEvent>, k: nat)
    requires k < |run| && run[k].DoToken?
    ensures TokenRun(w, run, k + 1) == TokenRun(w, run, k) + [run[k].event]
  {
  }

  lemma {:induction false} LastTokenInstant(w: World, run: seq<AuthEvent>, n: nat, now: int)
    requires n <= |run| && forall i :: 0 <= i < n && InstantOf(run[i]).Some? ==> InstantOf(run[i]).value <= now
    ensures forall i :: 0 <= i < |TokenRun(w, run, n)| ==> TokenRun(w, run, n)[i].now <= now
  {
    if n > 0 {
      hide TokenEvents, AuthAfter;
      LastTokenInstant(w, run, n - 1, now);
      TokenEventInstant(w, AuthAfter(w, run, n - 1), run[n - 1]);
    }
  }

  /** And a refresh token traded in by any grant is the one minted last for its user by
      any grant or login. */
  lemma OnlyLatestTraded(w: World, run: seq<AuthEvent>, n: nat, t: Token) returns (i: nat)
    requires n < |run| && TradedIn(run[n]) == Some(t) && NewPair(w, AuthAfter(w, run, n), run[n]).Some?
    ensures var ts := TokenRun(w, run, n); i < |ts| && LatestMint(w.cfg, ts, |ts|, i, t)
  {
    var ts, s := TokenRun(w, run, n), AuthAfter(w, run, n);
    StoreIsTokens(w, run, n);
    TradeNeedsStored(w, s, run[n], t);
    i := StoredIsLatest(w.cfg, ts, |ts|, t.userId);
  }

  lemma TradeNeedsStored(w: World, s: State, e: AuthEvent, t: Token)
    requires TradedIn(e) == Some(t) && NewPair(w, s, e).Some?
    ensures var k := RefreshKey(t.userId); k in s.store.redis && s.store.redis[k].Stored? && s.store.redis[k].token == t
  {
  }
}
