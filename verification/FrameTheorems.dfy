/** Which calls may end a session. Every other call leaves it as it is, whatever fails. */
module FrameTheorems {
  import opened Decimal
  import opened Users
  import opened Keys
  import opened Database
  import opened Service
  import opened SessionTheorems
  import opened RevocationTheorems
  import opened CredentialTheorems
  import G = LoginGate
  import C = Captcha

  /** A call that got as far as ending the sessions of user u. */
  predicate EndsAllOf(env: Env, w: World, op: Op, answer: Answer, u: UserEntity) {
    && Revokes(op, u)
    && match op
       case DeleteAccount(uuid, code) => uuid != "" && env.validCode(code)
         && CaptchaLive(w.redis, DeleteUser, u.mobile, code)
       case SetUserDisabled(uuid, _) => uuid != "" && answer.Done? && !u.disabled
       case _ => answer.Done?
  }

  predicate EndsItsUser(env: Env, w: World, op: Op, answer: Answer, userId: int) {
    exists u :: u in w.db.users && u.id == userId && EndsAllOf(env, w, op, answer, u)
  }

  /** The only ways for a session to end: its token is redeemed or logged out, its user's
      sessions are revoked, or it has expired and is cleaned away. */
  predicate MayEnd(env: Env, w: World, call: Call, h: string, s: Session) {
    var answer := Step(env, w, call).1;
    match call.op
    case RefreshToken(token, _) => h == env.hash(token) && answer.Refreshed?
    case Logout(token) => h == env.hash(token) && token != ""
    case Cleanup => s.expiresAt <= Seconds(w)
    case _ => EndsItsUser(env, w, call.op, answer, s.userId)
  }

  /** The session is stored, for this user and until this instant. */
  predicate Stands(db: Db, h: string, s: Session) {
    h in db.sessions && db.sessions[h] == s
  }

  // ---------------------------------------------------------------------
  // Repository calls.
  // ---------------------------------------------------------------------

  lemma FindStands(db: Db, f: Field, h: string, s: Session)
    ensures Stands(FindBy(db, f).0, h, s) <==> Stands(db, h, s)
    ensures Stands(ExistsBy(db, f).0, h, s) <==> Stands(db, h, s)
    ensures FindBy(db, f).0.users == db.users
    ensures FindBy(db, f).1.Ok? ==> FindBy(db, f).1.value in db.users && Matches(FindBy(db, f).1.value, f)
  {
    hide First;
  }

  lemma UpdateStands(db: Db, user: UserEntity, h: string, s: Session)
    ensures Stands(Update(db, user).0, h, s) <==> Stands(db, h, s)
  {
    hide First, Replace;
  }

  lemma CreateStands(db: Db, row: UserEntity, now: int, h: string, s: Session)
    ensures Stands(Create(db, row, now).0, h, s) <==> Stands(db, h, s)
  {
    hide First;
  }

  lemma StoreStands(env: Env, db: Db, userId: int, token: string, now: int, h: string, s: Session)
    requires Stands(db, h, s)
    ensures Stands(StoreRefreshToken(env, db, userId, token, now), h, s)
  {
    hide First;
  }

  lemma DeletionStands(db: Db, id: int, h: string, s: Session)
    requires Stands(db, h, s) && s.userId != id
    ensures Stands(DeleteByUserId(db, id).0, h, s)
  {
  }

  lemma RemovalStands(db: Db, hash: string, h: string, s: Session)
    requires Stands(db, h, s) && h != hash
    ensures Stands(DeleteByTokenHash(db, hash).0, h, s)
  {
  }

  lemma QueriesStand(db: Db, hash: string, id: int, now: int, h: string, s: Session)
    ensures Stands(IsTokenValid(db, hash, now).0, h, s) <==> Stands(db, h, s)
    ensures Stands(CountActiveSessionsByUserId(db, id, now).0, h, s) <==> Stands(db, h, s)
    ensures Stands(db, h, s) && s.expiresAt > now ==> Stands(CleanExpiredTokens(db, now).0, h, s)
  {
    hide ActiveSessions;
  }

  // ---------------------------------------------------------------------
  // Operations.
  // ---------------------------------------------------------------------

  lemma LoginsStand(env: Env, w: World, op: Op, h: string, s: Session)
    requires (op.LoginByPassword? || op.LoginByCode?) && Stands(w.db, h, s)
    ensures Stands(Act(env, w, op).0.db, h, s)
  {
    hide G.Check, G.Record, G.Clear, C.Verify, FindBy, StoreRefreshToken, Stands;
    FindStands(w.db, Mobile(op.mobile), h, s);
    var (db, found) := FindBy(w.db, Mobile(op.mobile));
    if found.Ok? {
      StoreStands(env, db, found.value.id, env.refresh(found.value.id, w.redis.now, op.draws.1), Seconds(w), h, s);
    }
  }

  lemma RegisterStands(env: Env, w: World, op: Op, h: string, s: Session)
    requires op.RegisterUser? && Stands(w.db, h, s)
    ensures Stands(Act(env, w, op).0.db, h, s)
  {
    hide C.Verify, Create, StoreRefreshToken, Stands;
    var row := UserEntity(0, op.uuid, op.mobile, op.name, env.hashPassword(op.salt, op.password), User, false, 0);
    CreateStands(w.db, row, Seconds(w), h, s);
    var (db, created) := Create(w.db, row, Seconds(w));
    if created.Ok? {
      StoreStands(env, db, created.value.id, env.refresh(created.value.id, w.redis.now, op.draws.1), Seconds(w), h, s);
    }
  }

  lemma RedeemStands(env: Env, w: World, token: string, userId: int, draws: (int, int), h: string, s: Session)
    requires Stands(w.db, h, s)
    requires h != env.hash(token) || !RedeemStep(env, w, token, userId, draws).1.Refreshed?
    ensures Stands(RedeemStep(env, w, token, userId, draws).0.db, h, s)
  {
    hide FindBy, IsTokenValid, DeleteByTokenHash, StoreRefreshToken, Stands;
    FindStands(w.db, Id(userId), h, s);
    var (db1, found) := FindBy(w.db, Id(userId));
    var db2 := IsTokenValid(db1, env.hash(token), Seconds(w)).0;
    QueriesStand(db1, env.hash(token), 0, Seconds(w), h, s);
    if h != env.hash(token) && found.Ok? {
      RemovalStands(db2, env.hash(token), h, s);
      StoreStands(env, DeleteByTokenHash(db2, env.hash(token)).0, userId,
                  env.refresh(found.value.id, w.redis.now, draws.1), Seconds(w), h, s);
    }
  }

  lemma RefreshStands(env: Env, w: World, op: Op, h: string, s: Session)
    requires op.RefreshToken? && Stands(w.db, h, s) && (h != env.hash(op.token) || !Act(env, w, op).1.Refreshed?)
    ensures Stands(Act(env, w, op).0.db, h, s)
  {
    hide RedeemStep, Stoll, Stands;
    if op.token != "" && env.parse(op.token, w.redis.now).Ok? && Stoll(env.parse(op.token, w.redis.now).value).Some? {
      RedeemStands(env, w, op.token, Stoll(env.parse(op.token, w.redis.now).value).value, op.draws, h, s);
    }
  }

  lemma ProfileStands(env: Env, w: World, op: Op, h: string, s: Session)
    requires (op.UpdateUser? || op.ChangePassword?) && Stands(w.db, h, s)
    ensures Stands(Act(env, w, op).0.db, h, s)
  {
    hide FindBy, Update, Stands;
    FindStands(w.db, Uuid(op.uuid), h, s);
    var (db1, found) := FindBy(w.db, Uuid(op.uuid));
    if found.Ok? {
      var u := found.value;
      UpdateStands(db1, u.(passwordHash := env.hashPassword(if op.ChangePassword? then op.salt else "",
                     if op.ChangePassword? then op.password else "")), h, s);
      if op.UpdateUser? && op.newName.Some? { UpdateStands(db1, u.(displayName := op.newName.value), h, s); }
    }
  }

  // The user a revoking operation found is not the session's.
  predicate Spares(env: Env, w: World, op: Op, answer: Answer, s: Session) {
    forall u :: u in w.db.users && u.id == s.userId ==> !EndsAllOf(env, w, op, answer, u)
  }

  lemma ResetStands(env: Env, w: World, op: Op, h: string, s: Session)
    requires op.ResetUserPassword? && Stands(w.db, h, s) && Spares(env, w, op, Act(env, w, op).1, s)
    ensures Stands(Act(env, w, op).0.db, h, s)
  {
    hide C.Verify, G.Clear, FindBy, Update, DeleteByUserId, Stands, CaptchaLive;
    FindStands(w.db, Mobile(op.mobile), h, s);
    var (db1, found) := FindBy(w.db, Mobile(op.mobile));
    if found.Ok? {
      var user := found.value.(passwordHash := env.hashPassword(op.salt, op.password));
      UpdateStands(db1, user, h, s);
      if found.value.id != s.userId { DeletionStands(Update(db1, user).0, user.id, h, s); }
    }
  }

  lemma LogoutAllStands(env: Env, w: World, op: Op, h: string, s: Session)
    requires op.LogoutAll? && Stands(w.db, h, s) && Spares(env, w, op, Act(env, w, op).1, s)
    ensures Stands(Act(env, w, op).0.db, h, s)
  {
    hide FindBy, DeleteByUserId, Stands, CaptchaLive;
    FindStands(w.db, Uuid(op.uuid), h, s);
    var (db1, found) := FindBy(w.db, Uuid(op.uuid));
    if found.Ok? && found.value.id != s.userId { DeletionStands(db1, found.value.id, h, s); }
  }

  lemma DeleteStands(env: Env, w: World, op: Op, h: string, s: Session)
    requires op.DeleteAccount? && Stands(w.db, h, s) && Spares(env, w, op, Act(env, w, op).1, s)
    ensures Stands(Act(env, w, op).0.db, h, s)
  {
    hide C.Verify, FindBy, Update, DeleteByUserId, Stands, CaptchaLive, ToString;
    FindStands(w.db, Uuid(op.uuid), h, s);
    var (db1, found) := FindBy(w.db, Uuid(op.uuid));
    if found.Ok? && op.uuid != "" && env.validCode(op.code) {
      var u := found.value;
      assert w.redis.(faults := w.redis.faults) == w.redis;
      if C.Verify(w.redis, env.sms, DeleteUser, u.mobile, op.code).1.Ok? {
        VerifiedIsLive(w.redis, w.redis.faults, env.sms, DeleteUser, u.mobile, op.code);
        DeletionStands(db1, u.id, h, s);
        UpdateStands(DeleteByUserId(db1, u.id).0,
                     u.(disabled := true, mobile := "deleted_" + ToString(u.id) + "_" + u.mobile), h, s);
      }
    }
  }

  lemma SwitchStands(env: Env, w: World, op: Op, h: string, s: Session)
    requires op.SetUserDisabled? && Stands(w.db, h, s) && Spares(env, w, op, Act(env, w, op).1, s)
    ensures Stands(Act(env, w, op).0.db, h, s)
  {
    hide FindBy, Update, DeleteByUserId, Stands, CaptchaLive;
    FindStands(w.db, Uuid(op.uuid), h, s);
    var (db1, found) := FindBy(w.db, Uuid(op.uuid));
    if found.Ok? {
      var user := found.value.(disabled := op.disabled);
      UpdateStands(db1, user, h, s);
      if found.value.id != s.userId { DeletionStands(Update(db1, user).0, user.id, h, s); }
    }
  }

  lemma OthersStand(env: Env, w: World, op: Op, h: string, s: Session)
    requires op.Tick? || op.SendVerifyCode? || op.Logout? || op.QueryToken? || op.QueryCount? || op.Cleanup?
    requires op.Logout? ==> op.token == "" || h != env.hash(op.token)
    requires op.Cleanup? ==> s.expiresAt > Seconds(w)
    requires Stands(w.db, h, s)
    ensures Stands(Act(env, w, op).0.db, h, s)
  {
    hide ExistsBy, C.Send, IsTokenValid, CountActiveSessionsByUserId, CleanExpiredTokens, DeleteByTokenHash, Stands;
    match op {
      case Tick(_) =>
      case SendVerifyCode(_, mobile, _, _) => FindStands(w.db, Mobile(mobile), h, s);
      case Logout(token) => if token != "" { RemovalStands(w.db, env.hash(token), h, s); }
      case QueryToken(hash) => QueriesStand(w.db, hash, 0, Seconds(w), h, s);
      case QueryCount(id) => QueriesStand(w.db, "", id, Seconds(w), h, s);
      case Cleanup => QueriesStand(w.db, "", 0, Seconds(w), h, s);
    }
  }

  // ---------------------------------------------------------------------
  // Calls and runs.
  // ---------------------------------------------------------------------

  lemma FaultsDoNotMatter(a: Db, b: Db, h: string, s: Session)
    requires a.sessions == b.sessions
    ensures Stands(a, h, s) <==> Stands(b, h, s)
  {
  }

  lemma SparesOf(env: Env, w: World, w0: World, op: Op, answer: Answer, s: Session)
    requires w.db.users == w0.db.users && w0.redis == w.redis.(faults := w0.redis.faults)
    requires !EndsItsUser(env, w, op, answer, s.userId)
    ensures Spares(env, w0, op, answer, s)
  {
    hide C.CaptchaKey, C.LockKey, Revokes;
  }

  /** Whatever fails, a call leaves every session unchanged that it may not end. */
  lemma SessionsStand(env: Env, w: World, call: Call, h: string, s: Session)
    requires Stands(w.db, h, s) && !MayEnd(env, w, call, h, s)
    ensures Stands(Step(env, w, call).0.db, h, s)
  {
    hide Act, Stands, EndsItsUser, Spares;
    var w0 := Begun(w, call);
    FaultsDoNotMatter(w.db, w0.db, h, s);
    var (w', answer) := Act(env, w0, call.op);
    FaultsDoNotMatter(w'.db, Step(env, w, call).0.db, h, s);
    if call.op.ResetUserPassword? || call.op.LogoutAll? || call.op.DeleteAccount? || call.op.SetUserDisabled? {
      SparesOf(env, w, w0, call.op, answer, s);
    }
    match call.op {
      case RegisterUser(_, _, _, _, _, _, _) => RegisterStands(env, w0, call.op, h, s);
      case LoginByPassword(_, _, _) => LoginsStand(env, w0, call.op, h, s);
      case LoginByCode(_, _, _) => LoginsStand(env, w0, call.op, h, s);
      case RefreshToken(_, _) => RefreshStands(env, w0, call.op, h, s);
      case ResetUserPassword(_, _, _, _) => ResetStands(env, w0, call.op, h, s);
      case UpdateUser(_, _) => ProfileStands(env, w0, call.op, h, s);
      case ChangePassword(_, _, _, _) => ProfileStands(env, w0, call.op, h, s);
      case DeleteAccount(_, _) => DeleteStands(env, w0, call.op, h, s);
      case SetUserDisabled(_, _) => SwitchStands(env, w0, call.op, h, s);
      case LogoutAll(_) => LogoutAllStands(env, w0, call.op, h, s);
      case _ => OthersStand(env, w0, call.op, h, s);
    }
  }

  /** No call from i to j may end the session. */
  predicate NeverEnded(env: Env, w: World, calls: seq<Call>, h: string, s: Session, i: nat, j: nat)
    requires i <= j <= |calls|
  {
    forall k :: i <= k < j ==> !MayEnd(env, Before(env, w, calls, k), calls[k], h, s)
  }

  /** A session lasts, unchanged, until a call of the run may end it. */
  lemma {:induction false} SessionsLast(env: Env, w: World, calls: seq<Call>, h: string, s: Session, i: nat, j: nat)
    requires i <= j <= |calls| && NeverEnded(env, w, calls, h, s, i, j) && Stands(Before(env, w, calls, i).db, h, s)
    ensures Stands(Before(env, w, calls, j).db, h, s)
    decreases j
  {
    hide Step, MayEnd, Before, Stands;
    if i < j {
      assert NeverEnded(env, w, calls, h, s, i, j - 1);
      SessionsLast(env, w, calls, h, s, i, j - 1);
      NextOf(env, w, calls, {}, j - 1);
      SessionsStand(env, Before(env, w, calls, j - 1), calls[j - 1], h, s);
    }
  }
}
