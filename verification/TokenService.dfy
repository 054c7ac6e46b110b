/** The token service step by step over its Redis keys. Every method is tied to the
    operation of module Tokens that the run theorems are about. */
module TokenService {
  import opened Common
  import opened Tokens

  class Service {
    const cfg: Lifetimes
    var redis: Redis
    var signed: set<Token>  // the texts that bear a valid signature

    constructor (cfg: Lifetimes)
      ensures this.cfg == cfg && Contents() == EMPTY
    {
      this.cfg, redis, signed := cfg, map[], {};
    }

    function Contents(): Store
      reads this
    {
      Store(redis, signed)
    }

    method GenerateToken(now: int, user: User, typ: TokenType, scope: string, expiry: int) returns (t: Token)
      modifies this`signed
      ensures t == Token(user.id, user.appId, user.username, typ, now + expiry, scope)
      ensures signed == old(signed) + {t}
    {
      var expiresAt := now + expiry;
      t := Token(user.id, user.appId, user.username, typ, expiresAt, scope);
      signed := signed + {t};
    }

    method GenerateTokenPair(now: int, user: User, scope: string, faults: Faults) returns (r: Result<Pair, TokenError>)
      modifies this
      ensures (Contents(), r) == Generate(old(Contents()), cfg, now, user, scope, faults)
    {
      var access := GenerateToken(now, user, Access, scope, cfg.access);
      var refresh := GenerateToken(now, user, Refresh, scope, cfg.refresh);
      assert signed == old(signed) + {access, refresh};
      if SetRefresh in faults { return Err(RedisFailed); }
      redis := redis[RefreshKey(user.id) := Stored(refresh, Deadline(now, cfg.refresh))];
      return Ok(Pair(access, refresh));
    }

    method ValidateToken(now: int, t: Token, typ: TokenType, faults: Faults) returns (r: Result<Claims, TokenError>)
      ensures r == Validate(Contents(), now, t, typ, faults)
    {
      if t !in signed || now >= Exp(t) { return Err(ParseFailed); }
      if t.typ != typ { return Err(InvalidToken); }
      if Exists in faults { return Err(RedisFailed); }
      if Live(redis, RevokedKey(t), now) { return Err(TokenRevoked); }
      if now > Exp(t) { return Err(TokenExpired); }
      return Ok(Claims(t.userId, t.appId, t.username, t.typ, Exp(t), t.scope));
    }

    method RefreshToken(now: int, t: Token, faults: Faults) returns (r: Result<Pair, TokenError>)
      modifies this
      ensures (Contents(), r) == Exchange(old(Contents()), cfg, now, t, faults)
    {
      var v := ValidateToken(now, t, Refresh, faults);
      if v.Err? { return Err(v.error); }
      var stored := GetRefresh(Contents(), now, v.value.userId, faults);
      if stored.Err? { return Err(stored.error); }
      if stored.value != t { return Err(InvalidToken); }
      var user := User(v.value.userId, v.value.appId, v.value.username);
      r := GenerateTokenPair(now, user, v.value.scope, faults);
    }

    method RevokeToken(now: int, t: Token, typ: TokenType, faults: Faults) returns (r: Result<(), TokenError>)
      modifies this
      ensures (Contents(), r) == Revoke(old(Contents()), cfg, now, t, typ, faults)
    {
      var v := ValidateToken(now, t, typ, faults);
      if v.Err? { return Err(v.error); }
      var expiry := if typ == Access then cfg.access else cfg.refresh;
      if SetRevoked in faults { return Err(RedisFailed); }
      redis := redis[RevokedKey(t) := Mark(Deadline(now, expiry))];
      if typ == Refresh {
        if Del in faults { return Err(RedisFailed); }
        redis := redis - {RefreshKey(v.value.userId)};
      }
      return Ok(());
    }

    /** authTokenService.RefreshToken: the account is looked up after the exchange. */
    method RefreshLoginToken(now: int, t: Token, faults: Faults, recheck: Faults, account: Account)
      returns (r: Result<Pair, TokenError>)
      modifies this
      ensures (Contents(), r) == RefreshLogin(old(Contents()), cfg, now, t, faults, recheck, account)
    {
      r := RefreshToken(now, t, faults);
      if r.Err? { return; }
      var v := ValidateToken(now, r.value.refresh, Refresh, recheck);
      if v.Err? { return Err(v.error); }
      match account
      case QueryFails => return Err(UserQueryFailed);
      case Missing => return Err(UserNotFound);
      case Disabled => return Err(UserDisabled);
      case Enabled =>
    }

    /** authTokenService.Logout: failures on the refresh token are swallowed. */
    method LogoutUser(now: int, t: Token, faults: LogoutFaults) returns (r: Result<(), TokenError>)
      modifies this
      ensures (Contents(), r) == Logout(old(Contents()), cfg, now, t, faults)
    {
      var v := ValidateToken(now, t, Access, faults.check);
      if v.Err? { return Err(v.error); }
      r := RevokeToken(now, t, Access, faults.access);
      if r.Err? { return; }
      var stored := GetRefresh(Contents(), now, v.value.userId, faults.get);
      if stored.Ok? {
        var _ := RevokeToken(now, stored.value, Refresh, faults.refresh);
      }
    }
  }
}
