/** The service objects. Every method works step by step on the Redis client and on the
    repositories; what it answers and leaves behind is its step of the service machine. */
module Services {
  import opened Ints
  import opened Outcome
  import opened Decimal
  import opened Users
  import opened RedisClients
  import opened Keys
  import opened Database
  import opened Repositories
  import opened SmsServices
  import opened Service
  import G = LoginGate
  import C = Captcha
  import P = Paging

  class AuthService {
    const env: Env
    const redis: RedisClient
    const userDb: UserDB
    const tokenRepo: TokenRepository
    const sms: SmsService

    /** One Redis and one database behind all the parts. */
    predicate Wired() {
      sms.redis == redis && sms.cfg == env.sms && tokenRepo.mysql == userDb.mysql
    }

    function State(): World
      reads redis, userDb.mysql
    {
      World(redis.State(), userDb.mysql.State())
    }

    constructor (env: Env, redis: RedisClient, userDb: UserDB, tokenRepo: TokenRepository, sms: SmsService)
      requires sms.redis == redis && sms.cfg == env.sms && tokenRepo.mysql == userDb.mysql
      ensures Wired() && this.env == env && this.redis == redis && this.userDb == userDb
    {
      this.env, this.redis, this.userDb, this.tokenRepo, this.sms := env, redis, userDb, tokenRepo, sms;
    }

    /** The remaining lock time, which only the message shows, is not read. */
    method CheckLoginFailedAttempts(mobile: string) returns (gate: G.Gate)
      modifies redis
      ensures (redis.State(), gate) == G.Check(old(redis.State()), env.login, mobile)
    {
      hide Redis.Get, Text, Stoi;
      var count := redis.Get(G.FailKey(mobile));
      if count.Fail? || count.value.None? { return G.Open; }
      var n := Stoi(count.value.value);
      if n.None? { return G.Thrown; }
      gate := if n.value >= env.login.maxAttempts then G.Locked else G.Open;
    }

    method RecordLoginFailure(mobile: string)
      modifies redis
      ensures redis.State() == G.Record(old(redis.State()), env.login, mobile)
    {
      hide Redis.Incr, Redis.PExpire, Redis.PTTL, Text, Millis;
      var key := G.FailKey(mobile);
      var count := redis.Incr(key);
      if count.Fail? { return; }
      if count.value == env.login.maxAttempts {
        var locked := redis.PExpire(key, Millis(env.login.lockSeconds));
      } else if count.value < env.login.maxAttempts {
        var ttl := redis.PTTL(key);
        if ttl.Fail? || ttl.value < 0 {
          var started := redis.PExpire(key, Millis(env.login.windowSeconds));
        }
      }
    }

    method ClearLoginFailure(mobile: string)
      modifies redis
      ensures redis.State() == G.Clear(old(redis.State()), mobile)
    {
      hide Redis.Del, Text;
      var deleted := redis.Del(G.FailKey(mobile));
    }

    method StoreRefreshToken(userId: int, token: string, seconds: int)
      modifies tokenRepo.mysql
      ensures tokenRepo.mysql.State()
           == Service.StoreRefreshToken(env, old(tokenRepo.mysql.State()), userId, token, seconds)
    {
      hide Database.SaveRefreshToken;
      var stored := tokenRepo.SaveRefreshToken(userId, env.hash(token), env.refreshTtl, seconds);
    }

    method SendVerifyCode(scene: Scene, mobile: string, code: string, delivered: bool) returns (r: Answer)
      requires Wired()
      modifies redis, userDb.mysql
      ensures (State(), r) == SendStep(env, old(State()), scene, mobile, code, delivered)
    {
      hide C.Send, ExistsBy;
      if !env.validMobile(mobile) { return Failed(InvalidArgument); }
      if !scene.Unknown? {
        var found := userDb.ExistsByField(Mobile(mobile));
        if found.Fail? { return Failed(found.code); }
        if scene.Register? && found.value { return Failed(MobileTaken); }
        if !scene.Register? && !found.value { return Failed(UserNotFound); }
      }
      var sent := sms.SendCaptcha(scene, mobile, code, delivered);
      r := match sent case Ok(seconds) => Sent(seconds) case Fail(code) => Failed(code);
    }

    method Register(mobile: string, code: string, password: string, name: string, uuid: string, salt: string,
                    draws: (int, int))
      returns (r: Answer)
      requires Wired()
      modifies redis, userDb.mysql
      ensures (State(), r)
           == RegisterStep(env, old(State()), RegisterUser(mobile, code, password, name, uuid, salt, draws))
    {
      hide C.Verify, Database.Create, Service.StoreRefreshToken;
      var now := redis.now;
      if !env.validMobile(mobile) || !env.validPassword(password) || !env.validCode(code) || !env.validName(name) {
        return Failed(InvalidArgument);
      }
      var verified := sms.VerifyCaptcha(Scene.Register, mobile, code);
      if verified.Fail? { return Failed(verified.code); }
      var row := UserEntity(0, uuid, mobile, name, env.hashPassword(salt, password), User, false, 0);
      var created := userDb.Create(row, now / 1000);
      if created.Fail? { return Failed(created.code); }
      var tokens := GenerateTokenPair(env, created.value, now, draws);
      StoreRefreshToken(created.value.id, tokens.refresh, now / 1000);
      r := LoggedIn(Hidden(created.value), tokens);
    }

    method LoginByPassword(mobile: string, password: string, draws: (int, int)) returns (r: Answer)
      requires Wired()
      modifies redis, userDb.mysql
      ensures (State(), r) == PasswordStep(env, old(State()), mobile, password, draws)
    {
      hide G.Check, G.Record, G.Clear, FindBy, Service.StoreRefreshToken;
      var now := redis.now;
      if !env.validMobile(mobile) || !env.validPassword(password) { return Failed(InvalidArgument); }
      var gate := CheckLoginFailedAttempts(mobile);
      if gate == G.Locked { return Failed(AccountLocked); }
      if gate == G.Thrown { return Thrown; }
      var found := userDb.FindByField(Mobile(mobile));
      if found.Fail? {
        if found.code == UserNotFound {
          RecordLoginFailure(mobile);
          return Failed(WrongPassword);
        }
        return Failed(found.code);
      }
      var user := found.value;
      if user.disabled { return Failed(UserDisabled); }
      if !env.verifyPassword(password, user.passwordHash) {
        RecordLoginFailure(mobile);
        return Failed(WrongPassword);
      }
      ClearLoginFailure(mobile);
      var tokens := GenerateTokenPair(env, user, now, draws);
      StoreRefreshToken(user.id, tokens.refresh, now / 1000);
      r := LoggedIn(Hidden(user), tokens);
    }

    method LoginByCode(mobile: string, code: string, draws: (int, int)) returns (r: Answer)
      requires Wired()
      modifies redis, userDb.mysql
      ensures (State(), r) == CodeStep(env, old(State()), mobile, code, draws)
    {
      hide C.Verify, G.Clear, FindBy, Service.StoreRefreshToken;
      var now := redis.now;
      if !env.validMobile(mobile) || !env.validCode(code) { return Failed(InvalidArgument); }
      var verified := sms.VerifyCaptcha(Login, mobile, code);
      if verified.Fail? { return Failed(verified.code); }
      var found := userDb.FindByField(Mobile(mobile));
      if found.Fail? { return Failed(found.code); }
      var user := found.value;
      if user.disabled { return Failed(UserDisabled); }
      ClearLoginFailure(mobile);
      var tokens := GenerateTokenPair(env, user, now, draws);
      StoreRefreshToken(user.id, tokens.refresh, now / 1000);
      r := LoggedIn(Hidden(user), tokens);
    }

    method ResetPassword(mobile: string, code: string, password: string, salt: string) returns (r: Answer)
      requires Wired()
      modifies redis, userDb.mysql
      ensures (State(), r) == ResetStep(env, old(State()), mobile, code, password, salt)
    {
      hide C.Verify, G.Clear, FindBy, Database.Update, Database.DeleteByUserId;
      if !env.validMobile(mobile) || !env.validCode(code)
        || !env.validPassword(password) { return Failed(InvalidArgument); }
      var verified := sms.VerifyCaptcha(Scene.ResetPassword, mobile, code);
      if verified.Fail? { return Failed(verified.code); }
      var found := userDb.FindByField(Mobile(mobile));
      if found.Fail? { return Failed(found.code); }
      var user := found.value;
      user := user.(passwordHash := env.hashPassword(salt, password));
      var updated := userDb.Update(user);
      if updated.Fail? { return Failed(updated.code); }
      var revoked := tokenRepo.DeleteByUserId(user.id);
      ClearLoginFailure(mobile);
      r := Done;
    }

    method RefreshToken(token: string, draws: (int, int)) returns (r: Answer)
      requires Wired()
      modifies userDb.mysql
      ensures (State(), r) == RefreshStep(env, old(State()), token, draws)
    {
      hide FindBy, Database.IsTokenValid, Database.DeleteByTokenHash, Service.StoreRefreshToken, Stoll;
      var now := redis.now;
      if token == "" { return Failed(InvalidArgument); }
      var subject := env.parse(token, now);
      if subject.Fail? { return Failed(subject.code); }
      var userId := Stoll(subject.value);
      if userId.None? { return Thrown; }
      var found := userDb.FindByField(Id(userId.value));
      if found.Fail? { return Failed(found.code); }
      var user := found.value;
      if user.disabled { return Failed(UserDisabled); }
      var hash := env.hash(token);
      var valid := tokenRepo.IsTokenValid(hash, now / 1000);
      if valid.Fail? { return Failed(valid.code); }
      if !valid.value { return Failed(TokenRevoked); }
      var deleted := tokenRepo.DeleteByTokenHash(hash);
      var tokens := GenerateTokenPair(env, user, now, draws);
      StoreRefreshToken(userId.value, tokens.refresh, now / 1000);
      r := Refreshed(tokens);
    }

    method Logout(token: string) returns (r: Answer)
      requires Wired()
      modifies userDb.mysql
      ensures (State(), r) == LogoutStep(env, old(State()), token)
    {
      hide Database.DeleteByTokenHash;
      if token == "" { return Done; }
      var deleted := tokenRepo.DeleteByTokenHash(env.hash(token));
      r := Done;
    }

    method LogoutAll(uuid: string) returns (r: Answer)
      requires Wired()
      modifies userDb.mysql
      ensures (State(), r) == LogoutAllStep(env, old(State()), uuid)
    {
      hide FindBy, Database.DeleteByUserId;
      var found := userDb.FindByField(Uuid(uuid));
      if found.Fail? { return Failed(found.code); }
      var deleted := tokenRepo.DeleteByUserId(found.value.id);
      r := Done;
    }
  }

  class UserService {
    const env: Env
    const redis: RedisClient
    const userDb: UserDB
    const tokenRepo: TokenRepository
    const sms: SmsService

    predicate Wired() {
      sms.redis == redis && sms.cfg == env.sms && tokenRepo.mysql == userDb.mysql
    }

    function State(): World
      reads redis, userDb.mysql
    {
      World(redis.State(), userDb.mysql.State())
    }

    constructor (env: Env, redis: RedisClient, userDb: UserDB, tokenRepo: TokenRepository, sms: SmsService)
      requires sms.redis == redis && sms.cfg == env.sms && tokenRepo.mysql == userDb.mysql
      ensures Wired() && this.env == env && this.redis == redis && this.userDb == userDb
    {
      this.env, this.redis, this.userDb, this.tokenRepo, this.sms := env, redis, userDb, tokenRepo, sms;
    }

    method UpdateUser(uuid: string, name: Option<string>) returns (r: Answer)
      requires Wired()
      modifies userDb.mysql
      ensures (State(), r) == UpdateStep(env, old(State()), uuid, name)
    {
      hide FindBy, Database.Update;
      if uuid == "" { return Failed(InvalidArgument); }
      var found := userDb.FindByField(Uuid(uuid));
      if found.Fail? { return Failed(found.code); }
      var user := found.value;
      if user.disabled { return Failed(UserDisabled); }
      var hasUpdate := false;
      if name.Some? {
        if !env.validName(name.value) { return Failed(InvalidArgument); }
        user := user.(displayName := name.value);
        hasUpdate := true;
      }
      if !hasUpdate { return Updated(Hidden(user)); }
      var updated := userDb.Update(user);
      if updated.Fail? { return Failed(updated.code); }
      r := Updated(Hidden(user));
    }

    method ChangePassword(uuid: string, oldPassword: string, password: string, salt: string) returns (r: Answer)
      requires Wired()
      modifies userDb.mysql
      ensures (State(), r) == ChangeStep(env, old(State()), uuid, oldPassword, password, salt)
    {
      hide FindBy, Database.Update;
      if uuid == "" || !env.validPassword(oldPassword) || !env.validPassword(password) || oldPassword == password {
        return Failed(InvalidArgument);
      }
      var found := userDb.FindByField(Uuid(uuid));
      if found.Fail? { return Failed(found.code); }
      var user := found.value;
      if user.disabled { return Failed(UserDisabled); }
      if !env.verifyPassword(oldPassword, user.passwordHash) { return Failed(WrongPassword); }
      user := user.(passwordHash := env.hashPassword(salt, password));
      var updated := userDb.Update(user);
      if updated.Fail? { return Failed(updated.code); }
      r := Done;
    }

    method DeleteUser(uuid: string, code: string) returns (r: Answer)
      requires Wired()
      modifies redis, userDb.mysql
      ensures (State(), r) == DeleteStep(env, old(State()), uuid, code)
    {
      hide C.Verify, FindBy, Database.Update, Database.DeleteByUserId, ToString;
      if uuid == "" || !env.validCode(code) { return Failed(InvalidArgument); }
      var found := userDb.FindByField(Uuid(uuid));
      if found.Fail? { return Failed(found.code); }
      var user := found.value;
      var verified := sms.VerifyCaptcha(Scene.DeleteUser, user.mobile, code);
      if verified.Fail? { return Failed(verified.code); }
      var revoked := tokenRepo.DeleteByUserId(user.id);
      user := user.(disabled := true, mobile := "deleted_" + ToString(user.id) + "_" + user.mobile);
      var updated := userDb.Update(user);
      if updated.Fail? { return Failed(updated.code); }
      r := Done;
    }

    method SetUserDisabled(uuid: string, disabled: bool) returns (r: Answer)
      requires Wired()
      modifies userDb.mysql
      ensures (State(), r) == DisableStep(env, old(State()), uuid, disabled)
    {
      hide FindBy, Database.Update, Database.DeleteByUserId;
      if uuid == "" { return Failed(InvalidArgument); }
      var found := userDb.FindByField(Uuid(uuid));
      if found.Fail? { return Failed(found.code); }
      var user := found.value;
      if user.disabled == disabled { return Done; }
      user := user.(disabled := disabled);
      var updated := userDb.Update(user);
      if updated.Fail? { return Failed(updated.code); }
      if disabled {
        var revoked := tokenRepo.DeleteByUserId(user.id);
      }
      r := Done;
    }

    method ClearPasswords(rows: seq<UserEntity>) returns (users: seq<UserEntity>)
      ensures users == P.AllHidden(rows)
    {
      users := rows;
      for i := 0 to |users|
        invariant |users| == |rows|
        invariant forall j :: 0 <= j < |users| ==> users[j] == if j < i then Hidden(rows[j]) else rows[j]
      {
        users := users[i := users[i].(passwordHash := "")];
      }
    }

    method ListUsers(mobileFilter: Option<string>, disabledFilter: Option<bool>, page: int, pageSize: int)
      returns (r: Result<P.Listing>)
      requires Wired()
      modifies userDb.mysql
      ensures (userDb.mysql.State(), r)
           == P.ListUsers(userDb.mysql.like, old(userDb.mysql.State()), mobileFilter, disabledFilter, page, pageSize)
    {
      hide P.CountUsers, P.FindUsers, P.AllHidden, P.PageCount, Wrap32;
      var pageNo := if page > 0 then page else 1;
      var size := if pageSize > 0 then pageSize else 20;
      if size > 100 { size := 100; }
      var mobileLike: Option<string> := None;
      if mobileFilter.Some? && mobileFilter.value != "" { mobileLike := mobileFilter; }
      var q := P.Query(mobileLike, disabledFilter, pageNo, size);
      var count := userDb.Count(q);
      if count.Fail? { return Fail(count.code); }
      var found := userDb.FindAll(q);
      if found.Fail? { return Fail(found.code); }
      var users := ClearPasswords(found.value);
      r := Ok(P.Listing(users, Wrap32(count.value), Wrap32(P.PageCount(count.value, size)), pageNo, size));
    }
  }
}
