/** The background cleanup cannot be noticed: a run with cleanups anywhere in it answers as
    the same run without them. */
module CleanupTheorems {
  import opened Decimal
  import opened Users
  import opened Redis
  import opened Keys
  import opened Database
  import opened Service
  import opened SessionTheorems
  import G = LoginGate
  import C = Captcha

  /** The cleaned tables are the full ones with none but expired sessions missing. */
  predicate Cleaned(a: Db, b: Db, now: int) {
    && a.users == b.users && a.nextId == b.nextId
    && (forall h :: h in a.sessions ==> h in b.sessions && a.sessions[h] == b.sessions[h])
    && (forall h :: h in b.sessions && Unexpired(b.sessions[h], now) ==> h in a.sessions)
  }

  predicate Agree(a: Db, b: Db, now: int) {
    Cleaned(a, b, now) && a.faults == b.faults
  }

  // ---------------------------------------------------------------------
  // Repository calls on both tables.
  // ---------------------------------------------------------------------

  lemma FindAgrees(a: Db, b: Db, now: int, f: Field)
    requires Agree(a, b, now)
    ensures FindBy(a, f).1 == FindBy(b, f).1 && Agree(FindBy(a, f).0, FindBy(b, f).0, now)
    ensures ExistsBy(a, f).1 == ExistsBy(b, f).1 && Agree(ExistsBy(a, f).0, ExistsBy(b, f).0, now)
    ensures FindBy(b, f).0.sessions == b.sessions
  {
    hide First;
  }

  lemma UpdateAgrees(a: Db, b: Db, now: int, user: UserEntity)
    requires Agree(a, b, now)
    ensures Update(a, user).1 == Update(b, user).1 && Agree(Update(a, user).0, Update(b, user).0, now)
  {
    hide First, Replace;
  }

  lemma CreateAgrees(a: Db, b: Db, now: int, row: UserEntity)
    requires Agree(a, b, now)
    ensures Create(a, row, now).1 == Create(b, row, now).1 && Agree(Create(a, row, now).0, Create(b, row, now).0, now)
    ensures Create(b, row, now).0.sessions == b.sessions
  {
    hide First, FindBy;
    if !Database.Faulty(a) && First(a.users, Uuid(row.uuid)).None? && First(a.users, Mobile(row.mobile)).None? {
      var users' := a.users + [row.(id := a.nextId, disabled := false, createdAt := now)];
      FindAgrees(Database.Issue(a).(users := users', nextId := a.nextId + 1),
                 Database.Issue(b).(users := users', nextId := b.nextId + 1), now, Uuid(row.uuid));
    }
  }

  lemma SaveAgrees(env: Env, a: Db, b: Db, now: int, userId: int, token: string)
    requires Agree(a, b, now) && env.hash(token) !in b.sessions
    ensures Agree(StoreRefreshToken(env, a, userId, token, now), StoreRefreshToken(env, b, userId, token, now), now)
  {
    hide First;
  }

  lemma DeleteAgrees(a: Db, b: Db, now: int, hash: string, id: int)
    requires Agree(a, b, now)
    ensures Agree(DeleteByTokenHash(a, hash).0, DeleteByTokenHash(b, hash).0, now)
    ensures Agree(DeleteByUserId(a, id).0, DeleteByUserId(b, id).0, now)
  {
  }

  lemma QueriesAgree(a: Db, b: Db, now: int, hash: string, id: int)
    requires Agree(a, b, now)
    ensures IsTokenValid(a, hash, now).1 == IsTokenValid(b, hash, now).1
    ensures Agree(IsTokenValid(a, hash, now).0, IsTokenValid(b, hash, now).0, now)
    ensures CountActiveSessionsByUserId(a, id, now).1 == CountActiveSessionsByUserId(b, id, now).1
    ensures Agree(CountActiveSessionsByUserId(a, id, now).0, CountActiveSessionsByUserId(b, id, now).0, now)
  {
    assert ActiveSessions(a, id, now) == ActiveSessions(b, id, now);
  }

  lemma CleaningAgrees(a: Db, b: Db, now: int)
    requires Cleaned(a, b, now)
    ensures Cleaned(CleanExpiredTokens(a, now).0, b, now)
  {
  }

  lemma LaterAgrees(a: Db, b: Db, now: int, later: int)
    requires Cleaned(a, b, now) && now <= later
    ensures Cleaned(a, b, later)
  {
  }

  // ---------------------------------------------------------------------
  // Operations on both.
  // ---------------------------------------------------------------------

  predicate SameResult(x: (World, Answer), y: (World, Answer), now: int) {
    x.0.redis == y.0.redis && x.1 == y.1 && Agree(x.0.db, y.0.db, now)
  }

  lemma SendAgrees(env: Env, v: World, w: World, op: Op)
    requires v.redis == w.redis && Agree(v.db, w.db, Seconds(w)) && op.SendVerifyCode?
    ensures SameResult(Act(env, v, op), Act(env, w, op), Seconds(w))
  {
    hide C.Send, ExistsBy, Cleaned;
    FindAgrees(v.db, w.db, Seconds(w), Mobile(op.mobile));
  }

  lemma RegisterAgrees(env: Env, v: World, w: World, op: Op)
    requires v.redis == w.redis && Agree(v.db, w.db, Seconds(w)) && op.RegisterUser?
    requires IssuedBy(env, Act(env, w, op).1) !! w.db.sessions.Keys
    ensures SameResult(Act(env, v, op), Act(env, w, op), Seconds(w))
  {
    hide C.Verify, Create, StoreRefreshToken, Cleaned;
    var row := UserEntity(0, op.uuid, op.mobile, op.name, env.hashPassword(op.salt, op.password), User, false, 0);
    CreateAgrees(v.db, w.db, Seconds(w), row);
    var (db, created) := Create(w.db, row, Seconds(w));
    if created.Ok? && Act(env, w, op).1.LoggedIn? {
      var tokens := GenerateTokenPair(env, created.value, w.redis.now, op.draws);
      SaveAgrees(env, Create(v.db, row, Seconds(w)).0, db, Seconds(w), created.value.id, tokens.refresh);
    }
  }

  lemma LoginAgrees(env: Env, v: World, w: World, op: Op)
    requires v.redis == w.redis && Agree(v.db, w.db, Seconds(w)) && (op.LoginByPassword? || op.LoginByCode?)
    requires IssuedBy(env, Act(env, w, op).1) !! w.db.sessions.Keys
    ensures SameResult(Act(env, v, op), Act(env, w, op), Seconds(w))
  {
    hide C.Verify, G.Check, G.Record, G.Clear, FindBy, StoreRefreshToken, Cleaned;
    FindAgrees(v.db, w.db, Seconds(w), Mobile(op.mobile));
    var (db, found) := FindBy(w.db, Mobile(op.mobile));
    if found.Ok? && Act(env, w, op).1.LoggedIn? {
      var tokens := GenerateTokenPair(env, found.value, w.redis.now, op.draws);
      SaveAgrees(env, FindBy(v.db, Mobile(op.mobile)).0, db, Seconds(w), found.value.id, tokens.refresh);
    }
  }

  lemma ResetAgrees(env: Env, v: World, w: World, op: Op)
    requires v.redis == w.redis && Agree(v.db, w.db, Seconds(w)) && op.ResetUserPassword?
    ensures SameResult(Act(env, v, op), Act(env, w, op), Seconds(w))
  {
    hide C.Verify, G.Clear, FindBy, Update, DeleteByUserId, Cleaned;
    FindAgrees(v.db, w.db, Seconds(w), Mobile(op.mobile));
    var (b, found) := FindBy(w.db, Mobile(op.mobile));
    var a := FindBy(v.db, Mobile(op.mobile)).0;
    if found.Ok? {
      var user' := found.value.(passwordHash := env.hashPassword(op.salt, op.password));
      UpdateAgrees(a, b, Seconds(w), user');
      DeleteAgrees(Update(a, user').0, Update(b, user').0, Seconds(w), "", found.value.id);
    }
  }

  lemma RedeemAgrees(env: Env, v: World, w: World, token: string, userId: int, draws: (int, int))
    requires v.redis == w.redis && Agree(v.db, w.db, Seconds(w))
    requires IssuedBy(env, RedeemStep(env, w, token, userId, draws).1) !! w.db.sessions.Keys
    ensures SameResult(RedeemStep(env, v, token, userId, draws), RedeemStep(env, w, token, userId, draws), Seconds(w))
  {
    hide FindBy, StoreRefreshToken, Cleaned;
    var now, h := Seconds(w), env.hash(token);
    FindAgrees(v.db, w.db, now, Id(userId));
    var (b, found) := FindBy(w.db, Id(userId));
    var a := FindBy(v.db, Id(userId)).0;
    QueriesAgree(a, b, now, h, 0);
    var a2, b2 := IsTokenValid(a, h, now).0, IsTokenValid(b, h, now).0;
    DeleteAgrees(a2, b2, now, h, 0);
    if RedeemStep(env, w, token, userId, draws).1.Refreshed? {
      var tokens := GenerateTokenPair(env, found.value, w.redis.now, draws);
      SaveAgrees(env, DeleteByTokenHash(a2, h).0, DeleteByTokenHash(b2, h).0, now, userId, tokens.refresh);
    }
  }

  lemma RefreshAgrees(env: Env, v: World, w: World, op: Op)
    requires v.redis == w.redis && Agree(v.db, w.db, Seconds(w)) && op.RefreshToken?
    requires IssuedBy(env, Act(env, w, op).1) !! w.db.sessions.Keys
    ensures SameResult(Act(env, v, op), Act(env, w, op), Seconds(w))
  {
    hide RedeemStep, Stoll, Cleaned;
    if op.token != "" && env.parse(op.token, w.redis.now).Ok? && Stoll(env.parse(op.token, w.redis.now).value).Some? {
      RedeemAgrees(env, v, w, op.token, Stoll(env.parse(op.token, w.redis.now).value).value, op.draws);
    }
  }

  lemma LogoutAgrees(env: Env, v: World, w: World, op: Op)
    requires v.redis == w.redis && Agree(v.db, w.db, Seconds(w)) && (op.Logout? || op.LogoutAll?)
    ensures SameResult(Act(env, v, op), Act(env, w, op), Seconds(w))
  {
    hide FindBy, DeleteByTokenHash, DeleteByUserId, Cleaned;
    if op.Logout? {
      DeleteAgrees(v.db, w.db, Seconds(w), env.hash(op.token), 0);
    } else {
      FindAgrees(v.db, w.db, Seconds(w), Uuid(op.uuid));
      var (b, found) := FindBy(w.db, Uuid(op.uuid));
      if found.Ok? { DeleteAgrees(FindBy(v.db, Uuid(op.uuid)).0, b, Seconds(w), "", found.value.id); }
    }
  }

  lemma ProfileAgrees(env: Env, v: World, w: World, op: Op)
    requires v.redis == w.redis && Agree(v.db, w.db, Seconds(w)) && (op.UpdateUser? || op.ChangePassword?)
    ensures SameResult(Act(env, v, op), Act(env, w, op), Seconds(w))
  {
    hide FindBy, Update, Cleaned;
    FindAgrees(v.db, w.db, Seconds(w), Uuid(op.uuid));
    var (b, found) := FindBy(w.db, Uuid(op.uuid));
    var a := FindBy(v.db, Uuid(op.uuid)).0;
    if found.Ok? {
      if op.UpdateUser? {
        if op.newName.Some? { UpdateAgrees(a, b, Seconds(w), found.value.(displayName := op.newName.value)); }
      } else {
        UpdateAgrees(a, b, Seconds(w), found.value.(passwordHash := env.hashPassword(op.salt, op.password)));
      }
    }
  }

  lemma DeletionAgrees(env: Env, v: World, w: World, op: Op)
    requires v.redis == w.redis && Agree(v.db, w.db, Seconds(w)) && op.DeleteAccount?
    ensures SameResult(Act(env, v, op), Act(env, w, op), Seconds(w))
  {
    hide C.Verify, FindBy, Update, DeleteByUserId, ToString, Cleaned;
    FindAgrees(v.db, w.db, Seconds(w), Uuid(op.uuid));
    var (b, found) := FindBy(w.db, Uuid(op.uuid));
    var a := FindBy(v.db, Uuid(op.uuid)).0;
    if found.Ok? {
      var user := found.value;
      DeleteAgrees(a, b, Seconds(w), "", user.id);
      UpdateAgrees(DeleteByUserId(a, user.id).0, DeleteByUserId(b, user.id).0, Seconds(w),
                   user.(disabled := true, mobile := "deleted_" + ToString(user.id) + "_" + user.mobile));
    }
  }

  lemma DisableAgrees(env: Env, v: World, w: World, op: Op)
    requires v.redis == w.redis && Agree(v.db, w.db, Seconds(w)) && op.SetUserDisabled?
    ensures SameResult(Act(env, v, op), Act(env, w, op), Seconds(w))
  {
    hide FindBy, Update, DeleteByUserId, Cleaned;
    FindAgrees(v.db, w.db, Seconds(w), Uuid(op.uuid));
    var (b, found) := FindBy(w.db, Uuid(op.uuid));
    var a := FindBy(v.db, Uuid(op.uuid)).0;
    if found.Ok? {
      var user' := found.value.(disabled := op.disabled);
      UpdateAgrees(a, b, Seconds(w), user');
      DeleteAgrees(Update(a, user').0, Update(b, user').0, Seconds(w), "", found.value.id);
    }
  }

  lemma AskAgrees(env: Env, v: World, w: World, op: Op)
    requires v.redis == w.redis && Agree(v.db, w.db, Seconds(w)) && (op.QueryToken? || op.QueryCount? || op.Tick?)
    ensures SameResult(Act(env, v, op), Act(env, w, op), Seconds(w))
  {
    hide IsTokenValid, CountActiveSessionsByUserId, Cleaned;
    QueriesAgree(v.db, w.db, Seconds(w), if op.QueryToken? then op.hash else "",
      if op.QueryCount? then op.userId else 0);
  }

  lemma ActAgrees(env: Env, v: World, w: World, op: Op)
    requires v.redis == w.redis && Agree(v.db, w.db, Seconds(w)) && !op.Cleanup?
    requires IssuedBy(env, Act(env, w, op).1) !! w.db.sessions.Keys
    ensures SameResult(Act(env, v, op), Act(env, w, op), Seconds(w))
  {
    hide Act, SameResult, Agree;
    match op {
      case SendVerifyCode(_, _, _, _) => SendAgrees(env, v, w, op);
      case RegisterUser(_, _, _, _, _, _, _) => RegisterAgrees(env, v, w, op);
      case LoginByPassword(_, _, _) => LoginAgrees(env, v, w, op);
      case LoginByCode(_, _, _) => LoginAgrees(env, v, w, op);
      case ResetUserPassword(_, _, _, _) => ResetAgrees(env, v, w, op);
      case RefreshToken(_, _) => RefreshAgrees(env, v, w, op);
      case Logout(_) => LogoutAgrees(env, v, w, op);
      case LogoutAll(_) => LogoutAgrees(env, v, w, op);
      case UpdateUser(_, _) => ProfileAgrees(env, v, w, op);
      case ChangePassword(_, _, _, _) => ProfileAgrees(env, v, w, op);
      case DeleteAccount(_, _) => DeletionAgrees(env, v, w, op);
      case SetUserDisabled(_, _) => DisableAgrees(env, v, w, op);
      case _ => AskAgrees(env, v, w, op);
    }
  }

  // ---------------------------------------------------------------------
  // Runs.
  // ---------------------------------------------------------------------

  /** Two worlds that differ in expired sessions and pending faults only. */
  predicate AlikeButExpired(v: World, w: World) {
    v.redis.(faults := []) == w.redis.(faults := []) && Cleaned(v.db, w.db, Seconds(w))
  }

  lemma CommandsKeepTime()
    ensures forall r: Store, key :: Redis.Get(r, key).0.now == r.now && Exists(r, key).0.now == r.now
    ensures forall r: Store, key :: Del(r, key).0.now == r.now
    ensures forall r: Store, key :: Incr(r, key).0.now == r.now && PTTL(r, key).0.now == r.now
    ensures forall r: Store, key, value, ttl :: SetPx(r, key, value, ttl).0.now == r.now
    ensures forall r: Store, key, ttl :: PExpire(r, key, ttl).0.now == r.now
  {
    hide Live;
  }

  lemma SendKeepsTime(r: Store, cfg: C.SmsConfig, scene: Scene, mobile: string, code: string, delivered: bool)
    ensures C.Send(r, cfg, scene, mobile, code, delivered).0.now == r.now
  {
    hide Text, Exists, SetPx, Del, Incr, PExpire, Redis.Get;
    CommandsKeepTime();
  }

  lemma VerifyKeepsTime(r: Store, cfg: C.SmsConfig, scene: Scene, mobile: string, code: string)
    ensures C.Verify(r, cfg, scene, mobile, code).0.now == r.now
  {
    hide Text, Exists, SetPx, Del, Incr, PExpire, Redis.Get;
    CommandsKeepTime();
  }

  lemma GateKeepsTime(r: Store, cfg: G.LoginConfig, mobile: string)
    ensures G.Check(r, cfg, mobile).0.now == r.now && G.Record(r, cfg, mobile).now == r.now
            && G.Clear(r, mobile).now == r.now
  {
    hide Text, Del, Incr, PExpire, PTTL, Redis.Get, Stoi;
    CommandsKeepTime();
  }

  lemma TimePasses(env: Env, w: World, op: Op)
    ensures w.redis.now <= Act(env, w, op).0.redis.now
  {
    hide First, Stoll, SaveRefreshToken, DeleteByUserId, DeleteByTokenHash, FindBy, ExistsBy, Create, Update,
         IsTokenValid,
         CountActiveSessionsByUserId, CleanExpiredTokens, ToString, StoreRefreshToken, C.Send, C.Verify, G.Check,
           G.Record, G.Clear;
    match op {
      case SendVerifyCode(scene, mobile, code, delivered) =>
        SendKeepsTime(w.redis, env.sms, scene, mobile, code, delivered);
      case RegisterUser(mobile, code, _, _, _, _, _) => VerifyKeepsTime(w.redis, env.sms, Register, mobile, code);
      case LoginByPassword(mobile, _, _) =>
        GateKeepsTime(w.redis, env.login, mobile);
        GateKeepsTime(G.Check(w.redis, env.login, mobile).0, env.login, mobile);
      case LoginByCode(mobile, code, _) =>
        VerifyKeepsTime(w.redis, env.sms, Login, mobile, code);
        GateKeepsTime(C.Verify(w.redis, env.sms, Login, mobile, code).0, env.login, mobile);
      case ResetUserPassword(mobile, code, _, _) =>
        VerifyKeepsTime(w.redis, env.sms, ResetPassword, mobile, code);
        GateKeepsTime(C.Verify(w.redis, env.sms, ResetPassword, mobile, code).0, env.login, mobile);
      case DeleteAccount(uuid, code) =>
        var (_, found) := FindBy(w.db, Uuid(uuid));
        if found.Ok? { VerifyKeepsTime(w.redis, env.sms, DeleteUser, found.value.mobile, code); }
      case _ =>
    }
  }

  lemma StepAgrees(env: Env, v: World, w: World, call: Call)
    requires AlikeButExpired(v, w) && !call.op.Cleanup?
    requires IssuedBy(env, Step(env, w, call).1) !! w.db.sessions.Keys
    ensures Step(env, v, call).1 == Step(env, w, call).1
    ensures AlikeButExpired(Step(env, v, call).0, Step(env, w, call).0)
  {
    hide Act, Cleaned, IssuedBy;
    var v0 := World(v.redis.(faults := call.redisFaults), v.db.(faults := call.dbFaults));
    var w0 := World(w.redis.(faults := call.redisFaults), w.db.(faults := call.dbFaults));
    assert Cleaned(v0.db, w0.db, Seconds(w0)) by { CleanedTables(v.db, w.db, v0.db, w0.db, Seconds(w)); }
    ActAgrees(env, v0, w0, call.op);
    TimePasses(env, w0, call.op);
    var v1, w1 := Act(env, v0, call.op).0, Act(env, w0, call.op).0;
    LaterAgrees(v1.db, w1.db, Seconds(w0), Seconds(w1));
    CleanedTables(v1.db, w1.db, v1.db.(faults := []), w1.db.(faults := []), Seconds(w1));
  }

  lemma CleanedTables(a: Db, b: Db, a': Db, b': Db, now: int)
    requires a.(faults := []) == a'.(faults := []) && b.(faults := []) == b'.(faults := [])
    ensures Cleaned(a, b, now) <==> Cleaned(a', b', now)
  {
  }

  /** The run without its cleanups. */
  function Uncleaned(calls: seq<Call>): (r: seq<Call>)
    ensures forall i :: 0 <= i < |r| ==> !r[i].op.Cleanup?
  {
    if calls == [] then []
    else
      var rest := Uncleaned(calls[..|calls| - 1]);
      if calls[|calls| - 1].op.Cleanup? then rest else rest + [calls[|calls| - 1]]
  }

  /** What the run answers, cleanups left out. */
  function Answers(env: Env, w: World, calls: seq<Call>): seq<Answer> {
    if calls == [] then []
    else
      var n := |calls| - 1;
      Answers(env, w, calls[..n]) + if calls[n].op.Cleanup? then [] else [AnswerAt(env, w, calls, n)]
  }

  lemma FreshPrefix(env: Env, w: World, calls: seq<Call>, known: set<string>, n: nat)
    requires n <= |calls| && FreshRun(env, w, calls, known)
    ensures FreshRun(env, w, calls[..n], known)
  {
    hide Step, Known, IssuedBy;
    forall i | 0 <= i < n ensures FreshAt(env, w, calls[..n], known, i) {
      assert FreshAt(env, w, calls, known, i);
      assert calls[..n][..i] == calls[..i];
    }
  }

  /** Cleanups at any points of any run, under any faults, change no answer. */
  lemma {:induction false} CleanupIsTransparent(env: Env, w: World, calls: seq<Call>, known: set<string>)
    requires FreshRun(env, w, Uncleaned(calls), known) && w.db.sessions.Keys <= known
    ensures Answers(env, w, calls) == Answers(env, w, Uncleaned(calls))
    ensures AlikeButExpired(After(env, w, calls), After(env, w, Uncleaned(calls)))
  {
    hide Step, FreshRun, AlikeButExpired, Known;
    if calls == [] {
      assert AlikeButExpired(w, w) by { AlikeToItself(w); }
    } else {
      var n := |calls| - 1;
      var rest, call := Uncleaned(calls[..n]), calls[n];
      var v, w1 := After(env, w, calls[..n]), After(env, w, rest);
      if call.op.Cleanup? {
        CleanupIsTransparent(env, w, calls[..n], known);
        CleanupAgrees(env, v, w1, call);
      } else {
        var all := Uncleaned(calls);
        assert all[..|rest|] == rest;
        FreshPrefix(env, w, all, known, |rest|);
        CleanupIsTransparent(env, w, calls[..n], known);
        SessionsAreKnown(env, w, all, known, |rest|);
        FreshNow(env, w, all, known, |rest|);
        StepAgrees(env, v, w1, call);
      }
    }
  }

  lemma FreshNow(env: Env, w: World, calls: seq<Call>, known: set<string>, i: nat)
    requires i < |calls| && FreshRun(env, w, calls, known) && w.db.sessions.Keys <= known
    ensures IssuedBy(env, AnswerAt(env, w, calls, i)) !! Before(env, w, calls, i).db.sessions.Keys
  {
    hide Step, IssuedBy, Known;
    SessionsAreKnown(env, w, calls, known, i);
    assert FreshAt(env, w, calls, known, i);
  }

  lemma AlikeToItself(w: World)
    ensures AlikeButExpired(w, w)
  {
  }

  lemma CleanupAgrees(env: Env, v: World, w: World, call: Call)
    requires AlikeButExpired(v, w) && call.op.Cleanup?
    ensures AlikeButExpired(Step(env, v, call).0, w)
  {
    CleaningAgrees(v.db, w.db, Seconds(w));
  }
}
