/** Whom the tokens handed out speak for. */
module TokenTheorems {
  import opened Ints
  import opened Outcome
  import opened Decimal
  import opened Users
  import opened Database
  import opened Service
  import opened AccountTheorems
  import opened RotationTheorems
  import opened CredentialTheorems
  import G = LoginGate
  import C = Captcha
  import Jwt

  /** The row of the table the call is about. */
  predicate Concerns(env: Env, w: World, op: Op, u: UserEntity) {
    match op
    case LoginByPassword(mobile, _, _) => u in w.db.users && u.mobile == mobile
    case LoginByCode(mobile, _, _) => u in w.db.users && u.mobile == mobile
    case RefreshToken(token, _) =>
      var subject := env.parse(token, w.redis.now);
      u in w.db.users && subject.Ok? && Stoll(subject.value) == Some(u.id)
    case RegisterUser(mobile, _, password, name, uuid, salt, _) =>
      u == UserEntity(w.db.nextId, uuid, mobile, name, env.hashPassword(salt, password), User, false, Seconds(w))
    case _ => false
  }

  /** A pair made for this user at this instant. */
  predicate IsPairFor(env: Env, tokens: TokenPair, u: UserEntity, now: int, draws: (int, int)) {
    && tokens.access == env.access(u, now, draws.0)
    && tokens.refresh == env.refresh(u.id, now, draws.1)
    && tokens.expiresIn == env.accessTtl
  }

  lemma LoginTokens(env: Env, w: World, call: Call, u: UserEntity)
    requires (call.op.LoginByPassword? || call.op.LoginByCode?) && Step(env, w, call).1.LoggedIn?
    requires WellKept(w.db) && Concerns(env, w, call.op, u)
    ensures IsPairFor(env, Step(env, w, call).1.tokens, u, w.redis.now, call.op.draws)
    ensures Step(env, w, call).1.user == Hidden(u)
  {
    hide G.Check, G.Record, G.Clear, C.Verify, FindBy, StoreRefreshToken, WellKept;
    var w0 := Begun(w, call);
    SameTablesSame(w.db, w0.db);
    FoundRow(w0.db, Mobile(u.mobile), u);
  }

  lemma RedeemTokens(env: Env, w: World, token: string, draws: (int, int), u: UserEntity)
    requires RedeemStep(env, w, token, u.id, draws).1.Refreshed? && WellKept(w.db) && u in w.db.users
    ensures IsPairFor(env, RedeemStep(env, w, token, u.id, draws).1.tokens, u, w.redis.now, draws)
  {
    hide FindBy, StoreRefreshToken, IsTokenValid, DeleteByTokenHash, WellKept;
    FoundRow(w.db, Id(u.id), u);
  }

  lemma RefreshTokens(env: Env, w: World, call: Call, u: UserEntity)
    requires call.op.RefreshToken? && Step(env, w, call).1.Refreshed?
    requires WellKept(w.db) && Concerns(env, w, call.op, u)
    ensures IsPairFor(env, Step(env, w, call).1.tokens, u, w.redis.now, call.op.draws)
  {
    hide RedeemStep, Stoll, WellKept, IsPairFor;
    var w0 := Begun(w, call);
    SameTablesSame(w.db, w0.db);
    RedeemTokens(env, w0, call.op.token, call.op.draws, u);
  }

  /** A registered user is the last row of the table. */
  lemma CreatedRow(db: Db, row: UserEntity, now: int)
    requires Create(db, row, now).1.Ok?
    ensures Create(db, row, now).1.value == row.(id := db.nextId, disabled := false, createdAt := now)
    ensures Create(db, row, now).0.users == db.users + [Create(db, row, now).1.value]
    ensures Create(db, row, now).0.sessions == db.sessions
  {
    hide First;
    FirstIsLast(db.users, row.(id := db.nextId, disabled := false, createdAt := now), Uuid(row.uuid));
  }

  lemma StoringKeepsUsers(env: Env, db: Db, userId: int, token: string, now: int)
    ensures StoreRefreshToken(env, db, userId, token, now).users == db.users
  {
    hide First;
  }

  lemma RegistrationTokens(env: Env, w: World, call: Call, u: UserEntity)
    requires call.op.RegisterUser? && Step(env, w, call).1.LoggedIn? && Concerns(env, w, call.op, u)
    ensures IsPairFor(env, Step(env, w, call).1.tokens, u, w.redis.now, call.op.draws)
    ensures Step(env, w, call).1.user == Hidden(u) && Step(env, w, call).0.db.users == w.db.users + [u]
  {
    hide C.Verify, Create, StoreRefreshToken;
    var op, w0 := call.op, Begun(w, call);
    var row := UserEntity(0, op.uuid, op.mobile, op.name, env.hashPassword(op.salt, op.password), User, false, 0);
    CreatedRow(w0.db, row, Seconds(w));
    StoringKeepsUsers(env, Create(w0.db, row, Seconds(w)).0, u.id, env.refresh(u.id, w.redis.now, op.draws.1),
                      Seconds(w));
  }

  lemma OnlyTheseHandOut(env: Env, w: World, call: Call)
    requires Step(env, w, call).1.LoggedIn? || Step(env, w, call).1.Refreshed?
    ensures call.op.LoginByPassword? || call.op.LoginByCode? || call.op.RegisterUser? || call.op.RefreshToken?
    ensures Step(env, w, call).1.Refreshed? <==> call.op.RefreshToken?
  {
    hide G.Check, G.Record, G.Clear, C.Verify, C.Send, FindBy, ExistsBy, Create, Update, StoreRefreshToken,
         DeleteByUserId, DeleteByTokenHash, IsTokenValid, CountActiveSessionsByUserId, CleanExpiredTokens, Stoll,
         ToString;
  }

  /** Whatever fails, tokens are made for the row of the user concerned, with its own draws. */
  lemma TokensAreForTheUser(env: Env, w: World, call: Call, u: UserEntity)
    requires Step(env, w, call).1.LoggedIn? || Step(env, w, call).1.Refreshed?
    requires WellKept(w.db) && Concerns(env, w, call.op, u)
    ensures IsPairFor(env, Step(env, w, call).1.tokens, u, w.redis.now, call.op.draws)
    ensures Step(env, w, call).1.LoggedIn? ==> Step(env, w, call).1.user == Hidden(u)
  {
    hide Step, WellKept, Stoll, IsPairFor;
    OnlyTheseHandOut(env, w, call);
    match call.op {
      case RegisterUser(_, _, _, _, _, _, _) => RegistrationTokens(env, w, call, u);
      case RefreshToken(_, _) => RefreshTokens(env, w, call, u);
      case _ => LoginTokens(env, w, call, u);
    }
  }

  // ---------------------------------------------------------------------
  // Signed tokens.
  // ---------------------------------------------------------------------

  lemma ExpiryInSeconds(ms: int, ttl: int)
    ensures Jwt.Expiry(ms * 1_000_000, ttl) == ms / 1000 + ttl
  {
    assert (ms * 1_000_000 + ttl * Jwt.SECOND) / Jwt.SECOND == ms / 1000 + ttl by {
      assert ms == ms / 1000 * 1000 + ms % 1000;
      assert ms * 1_000_000 + ttl * Jwt.SECOND == (ms / 1000 + ttl) * Jwt.SECOND + ms % 1000 * 1_000_000;
    }
  }

  /** The user a pair was made for can be carried by its claims. */
  predicate Carried(cfg: Jwt.Security, u: UserEntity, ms: int) {
    && Jwt.PrintableUser(cfg, u) && u.uuid != "" && MIN64 <= u.id <= MAX64
    && Jwt.ClockInRange(ms * 1_000_000, cfg.accessTtl) && Jwt.ClockInRange(ms * 1_000_000, cfg.refreshTtl)
  }

  /** With the real tokens: up to and including the end of its lifetime, which falls on a whole
      second, the access token of an answer verifies to exactly the id, uuid, mobile and role of
      the row of the user concerned, and afterwards it has expired; the refresh token names the
      same user for its own lifetime; and neither passes for the other. */
  lemma AnsweredTokensNameTheUser(env0: Env, hmac: Jwt.Hmac, cfg: Jwt.Security, w: World, call: Call, u: UserEntity,
                                  later: int)
    requires var answer := Step(Signing(env0, hmac, cfg), w, call).1; answer.LoggedIn? || answer.Refreshed?
    requires WellKept(w.db) && Concerns(Signing(env0, hmac, cfg), w, call.op, u) && Carried(cfg, u, w.redis.now)
    ensures var tokens := Step(Signing(env0, hmac, cfg), w, call).1.tokens;
            var accessEnds := (w.redis.now / 1000 + cfg.accessTtl) * Jwt.SECOND;
            var refreshEnds := (w.redis.now / 1000 + cfg.refreshTtl) * Jwt.SECOND;
            && Jwt.VerifyAccessToken(hmac, cfg, tokens.access, later)
               == (if later > accessEnds then Fail(TokenExpired)
                   else Ok(Jwt.AccessPayload(u.id, u.uuid, u.mobile, u.role, accessEnds)))
            && Jwt.ParseRefreshToken(hmac, cfg, tokens.refresh, later)
               == (if later > refreshEnds then Fail(TokenExpired) else Ok(ToString(u.id)))
            && Jwt.ParseRefreshToken(hmac, cfg, tokens.access, later).Fail?
            && Jwt.VerifyAccessToken(hmac, cfg, tokens.refresh, later).Fail?
            && tokens.expiresIn == cfg.accessTtl
  {
    hide Step, WellKept, Concerns, Jwt.GenerateAccessToken, Jwt.GenerateRefreshToken, Jwt.VerifyAccessToken,
         Jwt.ParseRefreshToken, Jwt.Expiry, ToString, Jwt.Printable;
    var env, ms := Signing(env0, hmac, cfg), w.redis.now;
    OnlyTheseHandOut(env, w, call);
    TokensAreForTheUser(env, w, call, u);
    Jwt.AccessRoundTrip(hmac, cfg, u, ms * 1_000_000, call.op.draws.0, later);
    Jwt.RefreshRoundTrip(hmac, cfg, u.id, ms * 1_000_000, call.op.draws.1, later);
    ExpiryInSeconds(ms, cfg.accessTtl);
    ExpiryInSeconds(ms, cfg.refreshTtl);
  }
}
