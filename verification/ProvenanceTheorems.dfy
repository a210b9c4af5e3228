/** Where the captchas come from that open the services: over runs of all services, whatever
    the database does. Redis works. */
module ProvenanceTheorems {
  import opened Outcome
  import opened Users
  import opened Redis
  import opened Keys
  import opened Timed
  import opened Database
  import opened Service
  import opened SessionTheorems
  import opened AccountTheorems
  import opened CredentialTheorems
  import opened AnswerTheorems
  import opened CounterTheorems
  import G = LoginGate
  import C = Captcha
  import R = StoreRuns
  import S = ServiceOnStore
  import B = ServiceBounds

  function CodeOf(w: World, scene: Scene, mobile: string): Option<Timed<string>> {
    C.RecordOf(w.redis, scene, mobile).code
  }

  /** The call sent a code for the scene and mobile. */
  predicate Sends(op: Op, answer: Answer, scene: Scene, mobile: string) {
    op.SendVerifyCode? && op.scene == scene && op.mobile == mobile && answer.Sent?
  }

  /** The call checks captchas of the scene and mobile. */
  predicate About(db: Db, op: Op, scene: Scene, mobile: string) {
    match op
    case RegisterUser(m, _, _, _, _, _, _) => scene == Register && m == mobile
    case LoginByCode(m, _, _) => scene == Login && m == mobile
    case ResetUserPassword(m, _, _, _) => scene == ResetPassword && m == mobile
    case DeleteAccount(uuid, _) =>
      scene == DeleteUser && exists u :: u in db.users && u.uuid == uuid && u.mobile == mobile
    case _ => false
  }

  /** The call withdrew the code: its delivery failed, or a wrong guess reached the limit. */
  predicate Withdraws(db: Db, call: Call, answer: Answer, scene: Scene, mobile: string) {
    if call.op.SendVerifyCode? then
      && call.op.scene == scene && call.op.mobile == mobile && answer == Failed(ServiceUnavailable)
      && (scene.Unknown? || !FailsAt(call.dbFaults, 0))
    else About(db, call.op, scene, mobile) && answer == Failed(AccountLocked)
  }

  // ---------------------------------------------------------------------
  // What one call does to the stored code.
  // ---------------------------------------------------------------------

  // What a checking operation leaves: nothing new before the check, then the check and maybe a clear.
  predicate LeavesCheck(env: Env, w: World, op: Op, scene: Scene, mobile: string, code: string) {
    var (w', answer) := Act(env, w, op);
    var (r, verified) := C.Verify(w.redis, env.sms, scene, mobile, code);
    || (w'.redis == w.redis && answer != Failed(AccountLocked))
    || ((w'.redis == r || w'.redis == G.Clear(r, mobile))
        && (answer == Failed(AccountLocked) <==> verified == Fail(AccountLocked)))
  }

  lemma LoginLeaves(env: Env, w: World, op: Op)
    requires op.LoginByCode?
    ensures LeavesCheck(env, w, op, Login, op.mobile, op.code)
  {
    hide C.Verify, G.Clear, FindBy, StoreRefreshToken;
    FindKeeps(w.db, Mobile(op.mobile));
    var found := FindBy(w.db, Mobile(op.mobile)).1;
    assert found.Fail? ==> Failed(found.code) != Failed(AccountLocked);
  }

  lemma RegistrationLeaves(env: Env, w: World, op: Op)
    requires op.RegisterUser?
    ensures LeavesCheck(env, w, op, Register, op.mobile, op.code)
  {
    hide C.Verify, Create, StoreRefreshToken;
    var row := UserEntity(0, op.uuid, op.mobile, op.name, env.hashPassword(op.salt, op.password), User, false, 0);
    S.WritesFailPlainly(w.db, row, Seconds(w));
  }

  lemma ResetLeaves(env: Env, w: World, op: Op)
    requires op.ResetUserPassword?
    ensures LeavesCheck(env, w, op, ResetPassword, op.mobile, op.code)
  {
    hide C.Verify, G.Clear, FindBy, Update, DeleteByUserId;
    FindKeeps(w.db, Mobile(op.mobile));
    var (db1, found) := FindBy(w.db, Mobile(op.mobile));
    if found.Ok? { S.WritesFailPlainly(db1, found.value.(passwordHash := env.hashPassword(op.salt, op.password)), 0); }
  }

  lemma DeletionLeaves(env: Env, w: World, op: Op, u: UserEntity)
    requires op.DeleteAccount? && WellKept(w.db) && u in w.db.users && u.uuid == op.uuid
    ensures LeavesCheck(env, w, op, DeleteUser, u.mobile, op.code)
  {
    hide C.Verify, G.Clear, FindBy, Update, DeleteByUserId, WellKept, Decimal.ToString;
    FindKeeps(w.db, Uuid(op.uuid));
    FoundRow(w.db, Uuid(op.uuid), u);
    var db1 := FindBy(w.db, Uuid(op.uuid)).0;
    S.WritesFailPlainly(DeleteByUserId(db1, u.id).0,
                        u.(disabled := true, mobile := "deleted_" + Decimal.ToString(u.id) + "_" + u.mobile), 0);
  }

  lemma UnknownDeletionLeaves(env: Env, w: World, op: Op)
    requires op.DeleteAccount? && forall u :: u in w.db.users ==> u.uuid != op.uuid
    ensures Act(env, w, op).0.redis == w.redis
  {
    hide C.Verify, FindBy, Update, DeleteByUserId;
    FindKeeps(w.db, Uuid(op.uuid));
  }

  // The code after a call, in terms of its answer.
  predicate CodeFollows(env: Env, w: World, call: Call, w': World, answer: Answer, scene: Scene, mobile: string) {
    && w'.redis.now == w.redis.now + (if call.op.Tick? then call.op.ms else 0)
    && CodeOf(w', scene, mobile)
       == if Sends(call.op, answer, scene, mobile)
          then Some(Timed(call.op.code, w.redis.now + 1000 * env.sms.codeTtlSeconds))
          else if Withdraws(w.db, call, answer, scene, mobile) then None
          else At(CodeOf(w, scene, mobile), w'.redis.now)
  }

  lemma CodeIsFresh(env: Env, w: World, scene: Scene, mobile: string)
    ensures At(CodeOf(w, scene, mobile), w.redis.now) == CodeOf(w, scene, mobile)
  {
    hide TextAt, NumberAt;
  }

  lemma CheckMoves(env: Env, w: World, sc: Scene, m: string, code: string, scene: Scene, mobile: string)
    requires Regular(env, w)
    ensures var (r, verified) := C.Verify(w.redis, env.sms, sc, m, code);
            && r.now == w.redis.now && r.faults == []
            && C.RecordOf(r, scene, mobile).code
               == if sc == scene && m == mobile && verified == Fail(AccountLocked) then None
                  else CodeOf(w, scene, mobile)
  {
    hide C.Verify, C.RecordOf, C.Tidy, C.Sound, G.Tidy, WellKept, C.Own, G.FailuresOf, SameAt;
    assert R.TidyFor(S.ConfigOf(env), w.redis, sc, m);
    C.VerifyOnPlainValues(w.redis, env.sms, sc, m, code);
    VerifyKeepsOthers(env, w, sc, m, code, scene, mobile);
  }

  lemma ClearMoves(env: Env, r: Store, m: string, scene: Scene, mobile: string)
    requires r.faults == []
    ensures C.RecordOf(G.Clear(r, m), scene, mobile) == C.RecordOf(r, scene, mobile) && G.Clear(r, m).now == r.now
  {
    hide G.Clear, C.RecordOf, G.FailuresOf;
    ClearLeaves(env, r, m, scene, mobile);
    G.ClearOnPlainValues(r, env.login, m);
  }

  lemma CheckFollows(env: Env, w: World, call: Call, w0: World, sc: Scene, m: string, code: string, scene: Scene,
                     mobile: string)
    requires Regular(env, w) && w0.redis == w.redis && LeavesCheck(env, w0, call.op, sc, m, code)
    requires S.Guesses(call.op) && (About(w.db, call.op, scene, mobile) <==> sc == scene && m == mobile)
    ensures var (w', answer) := Act(env, w0, call.op); CodeFollows(env, w, call, w', answer, scene, mobile)
  {
    hide Act, C.Verify, C.RecordOf, G.Clear, About, Regular;
    var r := C.Verify(w.redis, env.sms, sc, m, code).0;
    CheckMoves(env, w, sc, m, code, scene, mobile);
    ClearMoves(env, r, m, scene, mobile);
    CodeIsFresh(env, w, scene, mobile);
  }

  lemma SameCodeFollows(env: Env, w: World, call: Call, w': World, answer: Answer, scene: Scene, mobile: string)
    requires !Sends(call.op, answer, scene, mobile) && !Withdraws(w.db, call, answer, scene, mobile) && !call.op.Tick?
    requires w'.redis.now == w.redis.now
    requires C.RecordOf(w'.redis, scene, mobile) == C.RecordOf(w.redis, scene, mobile)
    ensures CodeFollows(env, w, call, w', answer, scene, mobile)
  {
    hide C.RecordOf;
    CodeIsFresh(env, w, scene, mobile);
  }

  lemma KeptTables(env: Env, w: World, call: Call)
    requires Regular(env, w) && call.redisFaults == []
    ensures Begun(w, call).redis == w.redis && WellKept(Begun(w, call).db) && Begun(w, call).db.users == w.db.users
  {
    hide WellKept;
    SameTablesSame(w.db, Begun(w, call).db);
  }

  lemma AboutRow(db: Db, op: Op, u: UserEntity, scene: Scene, mobile: string)
    requires op.DeleteAccount? && WellKept(db) && u in db.users && u.uuid == op.uuid
    ensures About(db, op, scene, mobile) <==> scene == DeleteUser && mobile == u.mobile
  {
  }

  lemma UnknownDeletionFollows(env: Env, w: World, call: Call, scene: Scene, mobile: string)
    requires Regular(env, w) && call.redisFaults == [] && call.op.DeleteAccount?
    requires forall u :: u in w.db.users ==> u.uuid != call.op.uuid
    ensures var (w', answer) := Act(env, Begun(w, call), call.op); CodeFollows(env, w, call, w', answer, scene, mobile)
  {
    hide Act, Regular, C.RecordOf, CodeFollows;
    KeptTables(env, w, call);
    UnknownDeletionLeaves(env, Begun(w, call), call.op);
    var (w', answer) := Act(env, Begun(w, call), call.op);
    SameCodeFollows(env, w, call, w', answer, scene, mobile);
  }

  lemma GuessFollows(env: Env, w: World, call: Call, scene: Scene, mobile: string)
    requires Regular(env, w) && call.redisFaults == [] && S.Guesses(call.op)
    ensures var (w', answer) := Act(env, Begun(w, call), call.op); CodeFollows(env, w, call, w', answer, scene, mobile)
  {
    hide Act, LeavesCheck, CodeFollows, WellKept, R.AllTidy;
    var w0, op := Begun(w, call), call.op;
    KeptTables(env, w, call);
    match op {
      case RegisterUser(m, code, _, _, _, _, _) =>
        RegistrationLeaves(env, w0, op);
        CheckFollows(env, w, call, w0, Register, m, code, scene, mobile);
      case LoginByCode(m, code, _) =>
        LoginLeaves(env, w0, op);
        CheckFollows(env, w, call, w0, Login, m, code, scene, mobile);
      case ResetUserPassword(m, code, _, _) =>
        ResetLeaves(env, w0, op);
        CheckFollows(env, w, call, w0, ResetPassword, m, code, scene, mobile);
      case DeleteAccount(uuid, code) =>
        if u :| u in w.db.users && u.uuid == uuid {
          DeletionLeaves(env, w0, op, u);
          AboutRow(w.db, op, u, scene, mobile);
          CheckFollows(env, w, call, w0, DeleteUser, u.mobile, code, scene, mobile);
        } else {
          UnknownDeletionFollows(env, w, call, scene, mobile);
        }
    }
  }

  // A send that reaches the captcha service, or not.
  lemma SendLeaves(env: Env, w: World, op: Op)
    requires op.SendVerifyCode?
    ensures var (w', answer) := Act(env, w, op);
            var (r, sent) := C.Send(w.redis, env.sms, op.scene, op.mobile, op.code, op.delivered);
            || (w'.redis == w.redis && !answer.Sent?
                && (answer == Failed(ServiceUnavailable) ==> !op.scene.Unknown? && FailsAt(w.db.faults, 0)))
            || (w'.redis == r && (op.scene.Unknown? || !FailsAt(w.db.faults, 0))
                && answer == match sent case Ok(seconds) => Sent(seconds) case Fail(code) => Failed(code))
  {
    hide C.Send, First;
  }

  lemma SendMoves(env: Env, w: World, op: Op, scene: Scene, mobile: string)
    requires Regular(env, w) && op.SendVerifyCode?
    ensures var (r, sent) := C.Send(w.redis, env.sms, op.scene, op.mobile, op.code, op.delivered);
            && r.now == w.redis.now
            && C.RecordOf(r, scene, mobile).code
               == (if scene != op.scene || mobile != op.mobile then CodeOf(w, scene, mobile)
                   else if sent.Ok? then Some(Timed(op.code, w.redis.now + 1000 * env.sms.codeTtlSeconds))
                   else if sent.code == ServiceUnavailable then None
                   else CodeOf(w, scene, mobile))
  {
    hide C.Send, C.RecordOf, C.IntervalOf, C.Tidy, C.Sound, G.Tidy, WellKept, C.Own, G.FailuresOf, SameAt,
         C.CaptchaKey, C.CountKey, C.LockKey, C.IntervalKey, TidyText;
    var cfg := S.ConfigOf(env);
    assert R.TidyFor(cfg, w.redis, op.scene, op.mobile) && R.TidyFor(cfg, w.redis, scene, mobile);
    C.SendOnPlainValues(w.redis, env.sms, op.scene, op.mobile, op.code, op.delivered);
    var r := C.Send(w.redis, env.sms, op.scene, op.mobile, op.code, op.delivered).0;
    if scene != op.scene || mobile != op.mobile {
      OwnKeys(op.scene, op.mobile);
      R.RefineRecord(cfg, w.redis, r, op.scene, op.mobile, true, scene, mobile);
    }
  }

  lemma OwnKeys(scene: Scene, mobile: string)
    ensures C.Own(C.CaptchaKey(scene, mobile), scene, mobile)
  {
    hide C.CaptchaKey, C.CountKey, C.LockKey;
  }

  lemma SendFollows(env: Env, w: World, call: Call, scene: Scene, mobile: string)
    requires Regular(env, w) && call.redisFaults == [] && call.op.SendVerifyCode?
    ensures var (w', answer) := Act(env, Begun(w, call), call.op); CodeFollows(env, w, call, w', answer, scene, mobile)
  {
    hide Act, Regular, C.RecordOf, C.Send, FailsAt;
    KeptTables(env, w, call);
    SendLeaves(env, Begun(w, call), call.op);
    SendMoves(env, w, call.op, scene, mobile);
    CodeIsFresh(env, w, scene, mobile);
  }

  lemma PasswordFollows(env: Env, w: World, call: Call, scene: Scene, mobile: string)
    requires Regular(env, w) && call.redisFaults == [] && call.op.LoginByPassword?
    ensures var (w', answer) := Act(env, Begun(w, call), call.op); CodeFollows(env, w, call, w', answer, scene, mobile)
  {
    hide PasswordStep, G.Check, G.Record, G.Clear, C.RecordOf, C.IntervalOf, G.FailuresOf, C.Tidy, C.Sound, G.Tidy,
         WellKept, SameAt, G.FailKey, G.IsLocked, CodeFollows;
    var w0, op, cfg, s := Begun(w, call), call.op, S.ConfigOf(env), w.redis;
    KeptTables(env, w, call);
    assert R.TidyFor(cfg, s, scene, op.mobile) && R.TidyFor(cfg, s, scene, mobile);
    G.CheckOnPlainValues(s, env.login, op.mobile);
    var locked := G.IsLocked(G.FailuresOf(s, op.mobile), env.login);
    PasswordLeaves(env, w0, op.mobile, op.password, op.draws, locked);
    if !locked {
      G.RecordOnPlainValues(s, env.login, op.mobile);
      R.RefineFailures(cfg, s, G.Record(s, env.login, op.mobile), op.mobile, scene, mobile);
    }
    ClearMoves(env, s, op.mobile, scene, mobile);
    var (w', answer) := Act(env, w0, op);
    SameCodeFollows(env, w, call, w', answer, scene, mobile);
  }

  lemma OthersLeaveRedis(env: Env, w: World, op: Op)
    requires !S.Guesses(op) && !op.SendVerifyCode? && !op.LoginByPassword? && !op.Tick?
    ensures Act(env, w, op).0.redis == w.redis
  {
    hide FindBy, Update, DeleteByUserId, DeleteByTokenHash, StoreRefreshToken, IsTokenValid,
         CountActiveSessionsByUserId, CleanExpiredTokens, Decimal.Stoll;
  }

  lemma TickFollows(env: Env, w: World, call: Call, scene: Scene, mobile: string)
    requires call.redisFaults == [] && w.redis.faults == [] && call.op.Tick?
    ensures var (w', answer) := Act(env, Begun(w, call), call.op); CodeFollows(env, w, call, w', answer, scene, mobile)
  {
    hide TextAt, NumberAt, C.CaptchaKey, C.CountKey, C.LockKey;
    ElapseText(w.redis, call.op.ms, C.CaptchaKey(scene, mobile));
  }

  /** Under any faults of the database, a call stores a code exactly when it answers Sent, takes one
      away exactly when its delivery fails or a wrong guess reaches the limit, and otherwise
      leaves it to expire. */
  lemma StepFollowsCode(env: Env, w: World, call: Call, scene: Scene, mobile: string)
    requires Regular(env, w) && call.redisFaults == []
    ensures var (w', answer) := Step(env, w, call); CodeFollows(env, w, call, w', answer, scene, mobile)
  {
    hide Act, R.AllTidy, R.ValidConfig, WellKept, CodeFollows;
    var (w', answer) := Act(env, Begun(w, call), call.op);
    assert CodeFollows(env, w, call, w', answer, scene, mobile) by {
      if S.Guesses(call.op) { GuessFollows(env, w, call, scene, mobile); }
      else {
        match call.op {
          case SendVerifyCode(_, _, _, _) => SendFollows(env, w, call, scene, mobile);
          case LoginByPassword(_, _, _) => PasswordFollows(env, w, call, scene, mobile);
          case Tick(_) => WorksNow(env, w); TickFollows(env, w, call, scene, mobile);
          case _ => OtherFollows(env, w, call, scene, mobile);
        }
      }
    }
    FaultsDoNotCount(env, w, call, w', answer, scene, mobile);
  }

  lemma WorksNow(env: Env, w: World)
    requires Regular(env, w)
    ensures w.redis.faults == []
  {
  }

  lemma OtherFollows(env: Env, w: World, call: Call, scene: Scene, mobile: string)
    requires Regular(env, w) && call.redisFaults == []
    requires !S.Guesses(call.op) && !call.op.SendVerifyCode? && !call.op.LoginByPassword? && !call.op.Tick?
    ensures var (w', answer) := Act(env, Begun(w, call), call.op); CodeFollows(env, w, call, w', answer, scene, mobile)
  {
    hide Act, Regular, C.RecordOf, CodeFollows;
    KeptTables(env, w, call);
    OthersLeaveRedis(env, Begun(w, call), call.op);
    var (w', answer) := Act(env, Begun(w, call), call.op);
    SameCodeFollows(env, w, call, w', answer, scene, mobile);
  }

  lemma FaultsDoNotCount(env: Env, w: World, call: Call, w': World, answer: Answer, scene: Scene, mobile: string)
    requires CodeFollows(env, w, call, w', answer, scene, mobile)
    ensures CodeFollows(env, w, call, World(w'.redis.(faults := []), w'.db.(faults := [])), answer, scene, mobile)
  {
    hide C.CaptchaKey, C.CountKey, C.LockKey;
  }

  // ---------------------------------------------------------------------
  // Runs.
  // ---------------------------------------------------------------------

  /** Call i is the latest to have sent a code for the scene and mobile, and no later call of the
      run withdrew it. */
  predicate IsSource(env: Env, w: World, calls: seq<Call>, scene: Scene, mobile: string, i: int) {
    && 0 <= i < |calls| && Sends(calls[i].op, AnswerAt(env, w, calls, i), scene, mobile)
    && forall j :: i < j < |calls| ==> Undisturbed(env, w, calls, scene, mobile, j)
  }

  predicate Undisturbed(env: Env, w: World, calls: seq<Call>, scene: Scene, mobile: string, j: nat)
    requires j < |calls|
  {
    && !Sends(calls[j].op, AnswerAt(env, w, calls, j), scene, mobile)
    && !Withdraws(Before(env, w, calls, j).db, calls[j], AnswerAt(env, w, calls, j), scene, mobile)
  }

  /** The code call i sent, and the instant its lifetime ends. */
  function SentCode(env: Env, w: World, calls: seq<Call>, i: nat): Timed<string>
    requires i < |calls| && calls[i].op.SendVerifyCode?
  {
    Timed(calls[i].op.code, Before(env, w, calls, i).redis.now + 1000 * env.sms.codeTtlSeconds)
  }

  ghost predicate Traced(env: Env, w: World, calls: seq<Call>, scene: Scene, mobile: string) {
    var t := After(env, w, calls);
    var code := CodeOf(t, scene, mobile);
    && (forall i :: IsSource(env, w, calls, scene, mobile, i) ==>
          code == At(Some(SentCode(env, w, calls, i)), t.redis.now))
    && (code.Some? ==> exists i :: IsSource(env, w, calls, scene, mobile, i))
  }

  lemma RunIsRegular(env: Env, w: World, calls: seq<Call>)
    requires Regular(env, w) && B.RedisWorks(calls)
    ensures Regular(env, After(env, w, calls))
  {
    hide Step, R.AllTidy, R.ValidConfig, WellKept, B.StoreRun;
    assert w.redis.faults == [] by { WorksNow(env, w); }
    B.RunsOnStore(env, w, calls);
    R.ReachableIsTidy(S.ConfigOf(env), w.redis, B.StoreRun(env, w, calls));
    TablesStayWellKept(env, w, calls, |calls|);
    assert calls[..|calls|] == calls;
  }

  lemma SameInPrefix(env: Env, w: World, calls: seq<Call>, scene: Scene, mobile: string, j: nat)
    requires calls != [] && j < |calls| - 1
    ensures var init := calls[..|calls| - 1];
            && init[j] == calls[j] && Before(env, w, init, j) == Before(env, w, calls, j)
            && AnswerAt(env, w, init, j) == AnswerAt(env, w, calls, j)
            && Undisturbed(env, w, init, scene, mobile, j) == Undisturbed(env, w, calls, scene, mobile, j)
  {
    hide Step, Sends, Withdraws, After;
    assert calls[..|calls| - 1][..j] == calls[..j];
  }

  lemma SourceOfPrefix(env: Env, w: World, calls: seq<Call>, scene: Scene, mobile: string, i: nat)
    requires calls != [] && i < |calls| - 1
    ensures var n := |calls| - 1;
            && (IsSource(env, w, calls, scene, mobile, i) <==>
                  IsSource(env, w, calls[..n], scene, mobile, i) && Undisturbed(env, w, calls, scene, mobile, n))
            && calls[..n][i] == calls[i]
            && (calls[i].op.SendVerifyCode? ==> SentCode(env, w, calls[..n], i) == SentCode(env, w, calls, i))
  {
    hide Step, Sends, Withdraws, Before, AnswerAt, Undisturbed;
    var init := calls[..|calls| - 1];
    forall j | 0 <= j < |init|
      ensures Undisturbed(env, w, init, scene, mobile, j) == Undisturbed(env, w, calls, scene, mobile, j)
    {
      SameInPrefix(env, w, calls, scene, mobile, j);
    }
    SameInPrefix(env, w, calls, scene, mobile, i);
  }

  /** In every run of all the services, whatever the database does: the stored code is that of the
      latest undisturbed send while its lifetime lasts, and there is none without one. */
  lemma {:induction false} ServiceCodesAreTraced(env: Env, w: World, calls: seq<Call>, scene: Scene, mobile: string)
    requires Regular(env, w) && B.RedisWorks(calls) && CodeOf(w, scene, mobile).None?
    ensures Traced(env, w, calls, scene, mobile)
    decreases |calls|
  {
    hide Step, Regular, IsSource, Undisturbed, CodeOf, Withdraws, SentCode, CodeFollows;
    var n := |calls| - 1;
    if calls == [] {
      NoSource(env, w, calls, scene, mobile);
    } else {
      var init, last := calls[..n], calls[n];
      ServiceCodesAreTraced(env, w, init, scene, mobile);
      RunIsRegular(env, w, init);
      StepFollowsCode(env, After(env, w, init), last, scene, mobile);
      assert LastFollows(env, w, calls, scene, mobile) by { IsConfigured(env, w); }
      forall i | IsSource(env, w, calls, scene, mobile, i)
        ensures 0 <= i < |calls| && calls[i].op.SendVerifyCode?
        ensures var t := After(env, w, calls);
                CodeOf(t, scene, mobile) == At(Some(SentCode(env, w, calls, i)), t.redis.now)
      {
        SourceSends(env, w, calls, scene, mobile, i);
        TraceOne(env, w, calls, scene, mobile, i);
      }
      if CodeOf(After(env, w, calls), scene, mobile).Some? { TraceSome(env, w, calls, scene, mobile); }
    }
  }

  lemma IsConfigured(env: Env, w: World)
    requires Regular(env, w)
    ensures C.ValidSms(env.sms)
  {
  }

  lemma NoSource(env: Env, w: World, calls: seq<Call>, scene: Scene, mobile: string)
    requires calls == []
    ensures forall i :: !IsSource(env, w, calls, scene, mobile, i)
  {
  }

  lemma SourceSends(env: Env, w: World, calls: seq<Call>, scene: Scene, mobile: string, i: int)
    requires IsSource(env, w, calls, scene, mobile, i)
    ensures 0 <= i < |calls| && calls[i].op.SendVerifyCode?
  {
    hide AnswerAt;
  }

  lemma LastIsSource(env: Env, w: World, calls: seq<Call>, scene: Scene, mobile: string)
    requires calls != []
    ensures var n := |calls| - 1;
            var before, answer := After(env, w, calls[..n]), Step(env, After(env, w, calls[..n]), calls[n]).1;
            && (IsSource(env, w, calls, scene, mobile, n) <==> Sends(calls[n].op, answer, scene, mobile))
            && (Undisturbed(env, w, calls, scene, mobile, n) <==>
                  !Sends(calls[n].op, answer, scene, mobile)
                  && !Withdraws(before.db, calls[n], answer, scene, mobile))
            && (calls[n].op.SendVerifyCode? ==>
                  SentCode(env, w, calls, n)
                  == Timed(calls[n].op.code, before.redis.now + 1000 * env.sms.codeTtlSeconds))
  {
    hide Step, Sends, Withdraws;
  }

  lemma CodeMoves(env: Env, t: World, call: Call, t': World, answer: Answer, scene: Scene, mobile: string,
                  c: Timed<string>)
    requires CodeFollows(env, t, call, t', answer, scene, mobile) && C.ValidSms(env.sms)
    ensures var sent := Sends(call.op, answer, scene, mobile);
            var kept := !sent && !Withdraws(t.db, call, answer, scene, mobile);
            var code, code' := CodeOf(t, scene, mobile), CodeOf(t', scene, mobile);
            && (sent ==>
                  code' == At(Some(Timed(call.op.code, t.redis.now + 1000 * env.sms.codeTtlSeconds)), t'.redis.now))
            && (kept && code == At(Some(c), t.redis.now) ==> code' == At(Some(c), t'.redis.now))
            && (code'.Some? ==> sent || (kept && code.Some?))
  {
    hide CodeOf, Withdraws;
  }

  // The last call of the run, seen from the code of the scene and mobile.
  predicate LastFollows(env: Env, w: World, calls: seq<Call>, scene: Scene, mobile: string)
    requires calls != []
  {
    var t, last := After(env, w, calls[..|calls| - 1]), calls[|calls| - 1];
    C.ValidSms(env.sms) && CodeFollows(env, t, last, After(env, w, calls), Step(env, t, last).1, scene, mobile)
  }

  lemma UseTrace(env: Env, w: World, calls: seq<Call>, scene: Scene, mobile: string, i: nat)
    requires Traced(env, w, calls, scene, mobile) && IsSource(env, w, calls, scene, mobile, i)
    ensures i < |calls| && calls[i].op.SendVerifyCode?
    ensures var t := After(env, w, calls);
            CodeOf(t, scene, mobile) == At(Some(SentCode(env, w, calls, i)), t.redis.now)
  {
    hide Step, After, IsSource, CodeOf, SentCode;
    SourceSends(env, w, calls, scene, mobile, i);
  }

  lemma TraceOne(env: Env, w: World, calls: seq<Call>, scene: Scene, mobile: string, i: nat)
    requires calls != [] && Traced(env, w, calls[..|calls| - 1], scene, mobile)
    requires LastFollows(env, w, calls, scene, mobile) && IsSource(env, w, calls, scene, mobile, i)
    ensures i < |calls| && calls[i].op.SendVerifyCode?
    ensures var t := After(env, w, calls);
            CodeOf(t, scene, mobile) == At(Some(SentCode(env, w, calls, i)), t.redis.now)
  {
    hide Step, After, IsSource, Undisturbed, CodeOf, Withdraws, SentCode, CodeFollows, Traced, At;
    var n := |calls| - 1;
    var t := After(env, w, calls[..n]);
    LastIsSource(env, w, calls, scene, mobile);
    SourceSends(env, w, calls, scene, mobile, i);
    CodeMoves(env, t, calls[n], After(env, w, calls), Step(env, t, calls[n]).1, scene, mobile,
              SentCode(env, w, calls, i));
    if i < n {
      SourceOfPrefix(env, w, calls, scene, mobile, i);
      UseTrace(env, w, calls[..n], scene, mobile, i);
    }
  }

  lemma TraceSome(env: Env, w: World, calls: seq<Call>, scene: Scene, mobile: string)
    requires calls != [] && Traced(env, w, calls[..|calls| - 1], scene, mobile)
    requires LastFollows(env, w, calls, scene, mobile) && CodeOf(After(env, w, calls), scene, mobile).Some?
    ensures exists i :: IsSource(env, w, calls, scene, mobile, i)
  {
    hide Step, After, IsSource, Undisturbed, CodeOf, Withdraws, SentCode, CodeFollows, Sends;
    var n := |calls| - 1;
    var init := calls[..n];
    var t := After(env, w, init);
    LastIsSource(env, w, calls, scene, mobile);
    CodeMoves(env, t, calls[n], After(env, w, calls), Step(env, t, calls[n]).1, scene, mobile, Timed("", 0));
    if !IsSource(env, w, calls, scene, mobile, n) {
      var i :| IsSource(env, w, init, scene, mobile, i);
      SourceSends(env, w, init, scene, mobile, i);
      SourceOfPrefix(env, w, calls, scene, mobile, i);
    }
  }

  /** After any run of all the services, whatever the database did: this code is right for the scene
      and mobile if and only if no lock stands and the latest call to have sent a code for them
      sent exactly this one, less than its lifetime ago, with no failed delivery and no limit
      reached since. */
  lemma RightCodesWereSent(env: Env, w: World, calls: seq<Call>, scene: Scene, mobile: string, code: string)
    requires Regular(env, w) && B.RedisWorks(calls) && CodeOf(w, scene, mobile).None?
    ensures var t := After(env, w, calls);
            Right(t, scene, mobile, code) <==>
              && C.RecordOf(t.redis, scene, mobile).lock.None?
              && exists i :: IsSource(env, w, calls, scene, mobile, i) && calls[i].op.SendVerifyCode?
                   && SentCode(env, w, calls, i).value == code && t.redis.now < SentCode(env, w, calls, i).until
  {
    hide Step, Regular, IsSource, SentCode, C.RecordOf;
    ServiceCodesAreTraced(env, w, calls, scene, mobile);
    var t := After(env, w, calls);
    if CodeOf(t, scene, mobile).Some? {
      var i :| IsSource(env, w, calls, scene, mobile, i);
      SourceSends(env, w, calls, scene, mobile, i);
    }
    forall i | IsSource(env, w, calls, scene, mobile, i)
      ensures 0 <= i < |calls| && calls[i].op.SendVerifyCode?
    {
      SourceSends(env, w, calls, scene, mobile, i);
    }
  }

  /** The call went through on the strength of this code. */
  predicate OpensWith(db: Db, op: Op, answer: Answer, scene: Scene, mobile: string, code: string) {
    && About(db, op, scene, mobile)
    && match op
       case RegisterUser(_, c, _, _, _, _, _) => c == code && answer.LoggedIn?
       case LoginByCode(_, c, _) => c == code && answer.LoggedIn?
       case ResetUserPassword(_, c, _, _) => c == code && answer.Done?
       case DeleteAccount(_, c) => c == code && answer.Done?
       case _ => false
  }

  lemma OpeningIsLive(env: Env, w: World, call: Call, scene: Scene, mobile: string, code: string)
    requires Regular(env, w) && OpensWith(w.db, call.op, Step(env, w, call).1, scene, mobile, code)
    ensures Right(w, scene, mobile, code)
  {
    hide Step, CaptchaLive, Right, C.RecordOf, R.AllTidy, R.ValidConfig, WellKept;
    match call.op {
      case RegisterUser(_, _, _, _, _, _, _) => RegistrationNeeds(env, w, call);
      case LoginByCode(_, _, _) => var u := CodeLoginNeeds(env, w, call);
      case ResetUserPassword(_, _, _, _) => var u := ResetNeeds(env, w, call);
      case DeleteAccount(_, _) =>
        var u := DeletionNeeds(env, w, call);
        AboutRow(w.db, call.op, u, scene, mobile);
    }
    LiveIsRight(env, w, scene, mobile, code);
  }

  lemma LiveIsRight(env: Env, w: World, scene: Scene, mobile: string, code: string)
    requires Regular(env, w) && CaptchaLive(w.redis, scene, mobile, code)
    ensures Right(w, scene, mobile, code)
  {
    hide C.CaptchaKey, C.CountKey, C.LockKey, C.IntervalKey, C.Sound, G.Tidy, WellKept, TidyNumber, NumberAt;
    assert R.TidyFor(S.ConfigOf(env), w.redis, scene, mobile);
  }

  /** A captcha login, registration, reset or deletion that goes through after any run of all the
      services, whatever fails in the call itself and whatever the database did before: some call
      of the run sent exactly its code for this scene and mobile, was answered Sent less than the
      code's lifetime ago, and no later call sent another, failed to deliver one or reached the
      limit of wrong guesses. */
  lemma OpeningCodesWereSent(env: Env, w: World, calls: seq<Call>, call: Call, scene: Scene, mobile: string,
                             code: string)
    requires Regular(env, w) && B.RedisWorks(calls) && CodeOf(w, scene, mobile).None?
    requires var t := After(env, w, calls); OpensWith(t.db, call.op, Step(env, t, call).1, scene, mobile, code)
    ensures var t := After(env, w, calls);
            && C.RecordOf(t.redis, scene, mobile).lock.None?
            && exists i :: IsSource(env, w, calls, scene, mobile, i) && calls[i].op.SendVerifyCode?
                 && SentCode(env, w, calls, i).value == code && t.redis.now < SentCode(env, w, calls, i).until
  {
    hide Step, Regular, IsSource, SentCode, C.RecordOf, OpensWith, After;
    RunIsRegular(env, w, calls);
    OpeningIsLive(env, After(env, w, calls), call, scene, mobile, code);
    RightCodesWereSent(env, w, calls, scene, mobile, code);
  }
}
