/** The authorization service step by step over its client and code tables and the
    token service it calls, tied to the operations of module Authorization. */
module AuthorizationService {
  import opened Common
  import opened Tokens
  import opened Base64Url
  import opened Authorization
  import TokenService

  class Service {
    const w: World
    const tokens: TokenService.Service
    var clients: map<string, Client>
    var codes: map<string, AuthCode>

    constructor (w: World, tokens: TokenService.Service)
      requires tokens.cfg == w.cfg
      ensures this.w == w && this.tokens == tokens && clients == map[] && codes == map[]
    {
      this.w, this.tokens, clients, codes := w, tokens, map[], map[];
    }

    ghost predicate Valid() {
      tokens.cfg == w.cfg
    }

    function Contents(): State
      reads this, tokens
    {
      State(clients, codes, tokens.Contents())
    }

    /** validateScope: every requested part must be found in the allowed list. */
    method ValidateScope(allowed: seq<string>, scope: string) returns (ok: bool)
      ensures ok <==> ScopeAllowed(allowed, scope)
    {
      var requested := Split(scope, ' ');
      for i := 0 to |requested|
        invariant forall m :: 0 <= m < i ==> requested[m] in allowed
      {
        var found := false;
        for j := 0 to |allowed|
          invariant !found && forall m :: 0 <= m < j ==> allowed[m] != requested[i]
        {
          if requested[i] == allowed[j] {
            found := true;
            break;
          }
        }
        if !found {
          assert requested[i] in Split(scope, ' ') && requested[i] !in allowed;
          return false;
        }
      }
      return true;
    }

    method Authorize(now: int, userId: string, req: AuthRequest, d: Draw) returns (r: Result<string, AuthError>)
      requires Valid()
      modifies this`codes
      ensures (Contents(), r) == Authorization.Authorize(w, old(Contents()), now, userId, req, d)
    {
      if ClientQuery in d.failing { return Err(QueryFailed); }
      if req.clientId !in clients || !clients[req.clientId].status { return Err(InvalidClient); }
      var client := clients[req.clientId];
      if CODE_GRANT !in client.grantTypes { return Err(UnsupportedGrantType); }
      if req.redirectURI !in client.redirectURIs { return Err(InvalidRedirectURI); }
      var allowed := ValidateScope(client.scopes, req.scope);
      if !allowed { return Err(InvalidScope); }
      var row := AuthCode(d.id, Encode(d.bytes), req.clientId, userId, req.redirectURI, req.scope, now + CODE_LIFE);
      if row.code in codes || CodeSave in d.failing { return Err(StoreFailed); }
      codes := codes[row.code := row];
      if w.baseOf(req.redirectURI).None? { return Err(BadURI); }
      if req.wantsIdToken && !d.idTokenOk { return Err(IdTokenFailed); }
      return Ok(row.code);
    }

    method HandleCodeGrant(now: int, req: TokenRequest, client: Client, a: Answers)
      returns (r: Result<TokenResponse, AuthError>)
      requires Valid()
      modifies this`codes, tokens
      ensures (Contents(), r) == RedeemCode(w, old(Contents()), now, req, client, a)
    {
      if LookupKey(req.code).None? { return Err(BadCode); }
      if CodeQuery in a.failing { return Err(QueryFailed); }
      var found := FindCode(Contents(), now, req.code);
      if found.Err? { return Err(found.error); }
      var row := found.value;
      var problem := CheckCode(w, now, row, req, client);
      if problem.Some? { return Err(problem.value); }
      var pair := tokens.GenerateTokenPair(now, User(row.userId, client.appId, ""), row.scope, a.faults);
      if pair.Err? { return Err(TokenFailed(pair.error)); }
      var openid := OPENID in Split(row.scope, ' ');
      if openid && !a.idTokenOk { return Err(IdTokenFailed); }
      if CodeDelete !in a.failing { codes := codes - {row.id}; }  // the row id, where the table compares the code text
      return Ok(TokenResponse(pair.value, row.scope, openid));
    }

    method HandleRefreshGrant(now: int, req: TokenRequest, client: Client, check: Faults, faults: Faults)
      returns (r: Result<TokenResponse, AuthError>)
      requires Valid()
      modifies tokens
      ensures (Contents(), r) == RedeemRefresh(w, old(Contents()), now, req, client, check, faults)
    {
      var claims := tokens.ValidateToken(now, req.refreshToken, Refresh, check);
      if claims.Err? { return Err(InvalidGrant); }
      if claims.value.appId != client.appId { return Err(InvalidGrant); }
      var pair := tokens.RefreshToken(now, req.refreshToken, faults);
      if pair.Err? { return Err(TokenFailed(pair.error)); }
      return Ok(TokenResponse(pair.value, Join(client.scopes, ' '), false));
    }

    method IssueToken(now: int, req: TokenRequest, a: Answers) returns (r: Result<TokenResponse, AuthError>)
      requires Valid()
      modifies this`codes, tokens
      ensures (Contents(), r) == Authorization.IssueToken(w, old(Contents()), now, req, a)
    {
      if ClientQuery in a.failing { return Err(QueryFailed); }
      if req.clientId !in clients { return Err(InvalidClient); }
      if SecretQuery in a.failing { return Err(QueryFailed); }
      if !a.secretOk { return Err(InvalidClient); }
      var client := clients[req.clientId];
      if req.grantType == CODE_GRANT {
        r := HandleCodeGrant(now, req, client, a);
      } else if req.grantType == REFRESH_GRANT {
        r := HandleRefreshGrant(now, req, client, a.check, a.faults);
      } else {
        r := Err(UnsupportedGrantType);
      }
    }
  }
}
