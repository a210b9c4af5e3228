/** The services on the Redis machine: every service call is at most two of its operations,
    so its bounds hold for whole runs of the services, whatever the database does. */
module ServiceOnStore {
  import opened Outcome
  import opened Decimal
  import opened Users
  import opened Redis
  import opened Keys
  import opened Database
  import opened Service
  import G = LoginGate
  import C = Captcha
  import R = StoreRuns
  import T = StoreTheorems

  function ConfigOf(env: Env): R.Config {
    R.Config(env.login, env.sms)
  }

  /** What a password login finds out about the user. */
  function VerdictOf(env: Env, db: Db, mobile: string, password: string): G.Verdict {
    match FindBy(db, Mobile(mobile)).1
    case Fail(code) => if code == UserNotFound then G.NoSuchUser else G.LookupFailed
    case Ok(user) =>
      if user.disabled then G.UserIsDisabled
      else if !env.verifyPassword(password, user.passwordHash) then G.Mismatch
      else G.Match
  }

  predicate ReachesSend(env: Env, db: Db, scene: Scene, mobile: string) {
    && env.validMobile(mobile)
    && (scene.Unknown? || ExistsBy(db, Mobile(mobile)).1 == Ok(!scene.Register?))
  }

  /** A captcha check, and the clear that follows when the call goes through. */
  function VerifyAnd(scene: Scene, mobile: string, code: string, through: bool): seq<R.Op> {
    if through then [R.VerifyCode(scene, mobile, code), R.ClearLogin(mobile)] else [R.VerifyCode(scene, mobile, code)]
  }

  /** The store operations of a service operation. */
  function StoreOps(env: Env, w: World, op: Op): (r: seq<R.Op>)
    ensures |r| <= 2
  {
    match op
    case Tick(ms) => [R.Tick(ms)]
    case SendVerifyCode(scene, mobile, code, delivered) =>
      if ReachesSend(env, w.db, scene, mobile) then [R.SendCode(scene, mobile, code, delivered)] else []
    case RegisterUser(mobile, code, password, name, _, _, _) =>
      if env.validMobile(mobile) && env.validPassword(password) && env.validCode(code) && env.validName(name)
      then [R.VerifyCode(Register, mobile, code)] else []
    case LoginByPassword(mobile, password, _) =>
      if env.validMobile(mobile) && env.validPassword(password)
      then [R.PasswordLogin(mobile, VerdictOf(env, w.db, mobile, password))] else []
    case LoginByCode(mobile, code, _) =>
      if env.validMobile(mobile) && env.validCode(code)
      then VerifyAnd(Login, mobile, code, Act(env, w, op).1.LoggedIn?) else []
    case ResetUserPassword(mobile, code, password, _) =>
      if env.validMobile(mobile) && env.validCode(code) && env.validPassword(password)
      then VerifyAnd(ResetPassword, mobile, code, Act(env, w, op).1.Done?) else []
    case DeleteAccount(uuid, code) =>
      if uuid != "" && env.validCode(code) && FindBy(w.db, Uuid(uuid)).1.Ok?
      then [R.VerifyCode(DeleteUser, FindBy(w.db, Uuid(uuid)).1.value.mobile, code)] else []
    case _ => []
  }

  function Plain(ops: seq<R.Op>): (r: seq<R.Call>)
    ensures |r| == |ops| && forall i :: 0 <= i < |r| ==> r[i] == R.Call(ops[i], [])
  {
    seq(|ops|, i requires 0 <= i < |ops| => R.Call(ops[i], []))
  }

  // The world a call starts in.
  function Start(w: World, call: Call): World {
    World(w.redis.(faults := call.redisFaults), w.db.(faults := call.dbFaults))
  }

  // ---------------------------------------------------------------------
  // One call.
  // ---------------------------------------------------------------------

  lemma CommandsStayWorking()
    ensures forall r: Store, key :: r.faults == [] ==>
              Redis.Get(r, key).0.faults == [] && Exists(r, key).0.faults == [] && Del(r, key).0.faults == []
    ensures forall r: Store, key :: r.faults == [] ==> Incr(r, key).0.faults == [] && PTTL(r, key).0.faults == []
    ensures forall r: Store, key, value, ttl :: r.faults == [] ==> SetPx(r, key, value, ttl).0.faults == []
    ensures forall r: Store, key, ttl :: r.faults == [] ==> PExpire(r, key, ttl).0.faults == []
  {
    hide Live;
  }

  lemma SendStaysWorking(r: Store, cfg: C.SmsConfig, scene: Scene, mobile: string, code: string, delivered: bool)
    requires r.faults == []
    ensures C.Send(r, cfg, scene, mobile, code, delivered).0.faults == []
  {
    hide Text, Exists, SetPx, Del, Incr, PExpire, Redis.Get;
    CommandsStayWorking();
  }

  lemma VerifyStaysWorking(r: Store, cfg: C.SmsConfig, scene: Scene, mobile: string, code: string)
    requires r.faults == []
    ensures C.Verify(r, cfg, scene, mobile, code).0.faults == []
  {
    hide Text, Exists, SetPx, Del, Incr, PExpire, Redis.Get;
    CommandsStayWorking();
  }

  lemma GateStaysWorking(r: Store, cfg: G.LoginConfig, mobile: string)
    requires r.faults == []
    ensures G.Check(r, cfg, mobile).0.faults == [] && G.Record(r, cfg, mobile).faults == []
            && G.Clear(r, mobile).faults == []
  {
    hide Text, Del, Incr, PExpire, PTTL, Redis.Get, Stoi;
    CommandsStayWorking();
  }

  lemma OneCall(cfg: R.Config, s: Store, op: R.Op)
    ensures R.After(cfg, s, Plain([op])) == R.Step(cfg, s, R.Call(op, [])).0
  {
    hide R.Step;
    assert Plain([op])[..0] == [];
  }

  lemma TwoCalls(cfg: R.Config, s: Store, a: R.Op, b: R.Op)
    ensures R.After(cfg, s, Plain([a, b])) == R.Step(cfg, R.Step(cfg, s, R.Call(a, [])).0, R.Call(b, [])).0
  {
    hide R.Step;
    assert Plain([a, b])[..1] == Plain([a]);
    OneCall(cfg, s, a);
  }

  /** The redis half of an operation, on a working store, is its store operations. */
  predicate OnStore(env: Env, w: World, op: Op) {
    R.After(ConfigOf(env), w.redis, Plain(StoreOps(env, w, op))) == Act(env, w, op).0.redis.(faults := [])
  }

  lemma PasswordOnStore(env: Env, w: World, op: Op)
    requires op.LoginByPassword? && w.redis.faults == []
    ensures OnStore(env, w, op)
    ensures StoreOps(env, w, op) == [] ==> Act(env, w, op).1 == Failed(InvalidArgument)
    ensures StoreOps(env, w, op) != [] ==>
              var reply := R.Step(ConfigOf(env), w.redis, R.Call(StoreOps(env, w, op)[0], [])).1;
              && (Act(env, w, op).1 == Failed(WrongPassword) <==> reply == R.LoginReply(G.Refused(WrongPassword)))
              && (Act(env, w, op).1.LoggedIn? <==> reply == R.LoginReply(G.Accepted))
  {
    hide FindBy, StoreRefreshToken, G.Check, G.Record, G.Clear, R.After;
    var cfg := ConfigOf(env);
    GateStaysWorking(w.redis, env.login, op.mobile);
    GateStaysWorking(G.Check(w.redis, env.login, op.mobile).0, env.login, op.mobile);
    OneCall(cfg, w.redis, R.PasswordLogin(op.mobile, VerdictOf(env, w.db, op.mobile, op.password)));
    NoCalls(cfg, w.redis);
    assert w.redis.(faults := []) == w.redis;
    FindCodes(w.db, Mobile(op.mobile));
  }

  lemma FindCodes(db: Db, f: Field)
    ensures var r := FindBy(db, f).1; r.Fail? ==> r.code == UserNotFound || r.code == ServiceUnavailable
  {
    hide First;
  }

  lemma NoCalls(cfg: R.Config, s: Store)
    ensures R.After(cfg, s, Plain([])) == s
  {
  }

  /** The operations that check a captcha. */
  predicate Guesses(op: Op) {
    op.RegisterUser? || op.LoginByCode? || op.ResetUserPassword? || op.DeleteAccount?
  }

  predicate WrongCode(answer: Answer) {
    answer == Failed(CaptchaWrong) || answer == Failed(AccountLocked)
  }

  /** The captcha was not accepted. */
  predicate Rejected(answer: Answer) {
    WrongCode(answer) || answer == Failed(CaptchaExpired) || answer == Failed(RateLimited)
  }

  /** The service's answer tells what the captcha check replied. */
  predicate TellsReply(env: Env, w: World, op: Op) {
    var ops, answer := StoreOps(env, w, op), Act(env, w, op).1;
    if ops == [] then !WrongCode(answer)
    else
      && ops[0].VerifyCode?
      && (|ops| == 2 ==> ops[1].ClearLogin?)
      && var reply := R.Step(ConfigOf(env), w.redis, R.Call(ops[0], [])).1;
         (WrongCode(answer) <==> T.WrongGuessReply(reply)) && (reply == R.VerifyReply(Ok(())) ==> !Rejected(answer))
  }

  lemma WritesFailPlainly(db: Db, row: UserEntity, now: int)
    ensures !Rejected(match Create(db, row, now).1 case Ok(_) => Done case Fail(code) => Failed(code))
    ensures !Rejected(match Update(db, row).1 case Ok(_) => Done case Fail(code) => Failed(code))
  {
    hide First, Replace;
  }

  // A captcha check on a working store, alone and followed by a clear.
  lemma VerifyCalls(cfg: R.Config, s: Store, scene: Scene, mobile: string, code: string)
    requires s.faults == []
    ensures var (s1, r) := C.Verify(s, cfg.sms, scene, mobile, code);
            && s1.(faults := []) == s1 && G.Clear(s1, mobile).(faults := []) == G.Clear(s1, mobile)
            && R.Step(cfg, s, R.Call(R.VerifyCode(scene, mobile, code), [])) == (s1, R.VerifyReply(r))
            && R.After(cfg, s, Plain(VerifyAnd(scene, mobile, code, false))) == s1
            && R.After(cfg, s, Plain(VerifyAnd(scene, mobile, code, true))) == G.Clear(s1, mobile)
  {
    hide C.Verify, G.Clear, R.After;
    var s1 := C.Verify(s, cfg.sms, scene, mobile, code).0;
    VerifyStaysWorking(s, cfg.sms, scene, mobile, code);
    GateStaysWorking(s1, cfg.login, mobile);
    OneCall(cfg, s, R.VerifyCode(scene, mobile, code));
    TwoCalls(cfg, s, R.VerifyCode(scene, mobile, code), R.ClearLogin(mobile));
    assert s.(faults := []) == s;
  }

  lemma RegisterOnStore(env: Env, w: World, op: Op)
    requires op.RegisterUser? && w.redis.faults == []
    ensures OnStore(env, w, op) && TellsReply(env, w, op)
  {
    hide Create, StoreRefreshToken, C.Verify, G.Clear, R.After, R.Step, Plain;
    VerifyCalls(ConfigOf(env), w.redis, Register, op.mobile, op.code);
    NoCalls(ConfigOf(env), w.redis);
    assert w.redis.(faults := []) == w.redis;
    var row := UserEntity(0, op.uuid, op.mobile, op.name, env.hashPassword(op.salt, op.password), User, false, 0);
    WritesFailPlainly(w.db, row, Seconds(w));
  }

  lemma CodeOnStore(env: Env, w: World, op: Op)
    requires op.LoginByCode? && w.redis.faults == []
    ensures OnStore(env, w, op) && TellsReply(env, w, op)
  {
    hide FindBy, StoreRefreshToken, C.Verify, G.Clear, R.After, R.Step, Plain;
    VerifyCalls(ConfigOf(env), w.redis, Login, op.mobile, op.code);
    NoCalls(ConfigOf(env), w.redis);
    assert w.redis.(faults := []) == w.redis;
    FindCodes(w.db, Mobile(op.mobile));
  }

  lemma ResetOnStore(env: Env, w: World, op: Op)
    requires op.ResetUserPassword? && w.redis.faults == []
    ensures OnStore(env, w, op) && TellsReply(env, w, op)
  {
    hide FindBy, Update, DeleteByUserId, C.Verify, G.Clear, R.After, R.Step, Plain;
    VerifyCalls(ConfigOf(env), w.redis, ResetPassword, op.mobile, op.code);
    NoCalls(ConfigOf(env), w.redis);
    assert w.redis.(faults := []) == w.redis;
    FindCodes(w.db, Mobile(op.mobile));
    var (db1, found) := FindBy(w.db, Mobile(op.mobile));
    if found.Ok? { WritesFailPlainly(db1, found.value.(passwordHash := env.hashPassword(op.salt, op.password)), 0); }
  }

  lemma DeleteOnStore(env: Env, w: World, op: Op)
    requires op.DeleteAccount? && w.redis.faults == []
    ensures OnStore(env, w, op) && TellsReply(env, w, op)
  {
    hide FindBy, Update, DeleteByUserId, C.Verify, G.Clear, ToString, R.After, R.Step, Plain;
    NoCalls(ConfigOf(env), w.redis);
    assert w.redis.(faults := []) == w.redis;
    FindCodes(w.db, Uuid(op.uuid));
    var (db1, found) := FindBy(w.db, Uuid(op.uuid));
    if found.Ok? {
      var user := found.value;
      VerifyCalls(ConfigOf(env), w.redis, DeleteUser, user.mobile, op.code);
      WritesFailPlainly(DeleteByUserId(db1, user.id).0,
                        user.(disabled := true, mobile := "deleted_" + ToString(user.id) + "_" + user.mobile), 0);
    }
  }

  lemma SendOnStore(env: Env, w: World, op: Op)
    requires op.SendVerifyCode? && w.redis.faults == []
    ensures OnStore(env, w, op)
  {
    hide ExistsBy, C.Send, R.After;
    var cfg := ConfigOf(env);
    SendStaysWorking(w.redis, env.sms, op.scene, op.mobile, op.code, op.delivered);
    OneCall(cfg, w.redis, R.SendCode(op.scene, op.mobile, op.code, op.delivered));
    NoCalls(cfg, w.redis);
    assert w.redis.(faults := []) == w.redis;
  }

  lemma OthersOnStore(env: Env, w: World, op: Op)
    requires !Guesses(op) && !op.SendVerifyCode? && !op.LoginByPassword? && w.redis.faults == []
    ensures OnStore(env, w, op)
  {
    hide FindBy, Update, DeleteByUserId, DeleteByTokenHash, StoreRefreshToken, IsTokenValid,
         CountActiveSessionsByUserId,
         CleanExpiredTokens, Stoll, R.After;
    var cfg := ConfigOf(env);
    NoCalls(cfg, w.redis);
    assert w.redis.(faults := []) == w.redis;
    if op.Tick? { OneCall(cfg, w.redis, R.Tick(op.ms)); }
  }

  /** Every service operation on a working store is its store operations. */
  lemma OperationIsOnStore(env: Env, w: World, op: Op)
    requires w.redis.faults == []
    ensures R.After(ConfigOf(env), w.redis, Plain(StoreOps(env, w, op))) == Act(env, w, op).0.redis.(faults := [])
  {
    hide Act, StoreOps, R.After, TellsReply;
    assert OnStore(env, w, op) by {
      match op {
        case RegisterUser(_, _, _, _, _, _, _) => RegisterOnStore(env, w, op);
        case LoginByPassword(_, _, _) => PasswordOnStore(env, w, op);
        case LoginByCode(_, _, _) => CodeOnStore(env, w, op);
        case ResetUserPassword(_, _, _, _) => ResetOnStore(env, w, op);
        case DeleteAccount(_, _) => DeleteOnStore(env, w, op);
        case SendVerifyCode(_, _, _, _) => SendOnStore(env, w, op);
        case _ => OthersOnStore(env, w, op);
      }
    }
  }
}
