/** Exactly what every call leaves of captchas, counters and locks, on working stores. */
module CounterTheorems {
  import opened Outcome
  import opened Users
  import opened Redis
  import opened Keys
  import opened Timed
  import opened Database
  import opened Service
  import opened AccountTheorems
  import opened CredentialTheorems
  import opened AnswerTheorems
  import G = LoginGate
  import C = Captcha
  import R = StoreRuns
  import S = ServiceOnStore

  /** The call gets as far as comparing this code with that of the scene and mobile. */
  predicate Compares(env: Env, w: World, op: Op, scene: Scene, mobile: string, code: string) {
    match op
    case RegisterUser(m, c, password, name, _, _, _) =>
      scene == Register && mobile == m && code == c
      && env.validMobile(m) && env.validPassword(password) && env.validCode(c) && env.validName(name)
    case LoginByCode(m, c, _) => scene == Login && mobile == m && code == c && env.validMobile(m) && env.validCode(c)
    case ResetUserPassword(m, c, password, _) =>
      scene == ResetPassword && mobile == m && code == c
      && env.validMobile(m) && env.validCode(c) && env.validPassword(password)
    case DeleteAccount(uuid, c) =>
      scene == DeleteUser && code == c && uuid != "" && env.validCode(c)
      && exists u :: u in w.db.users && u.uuid == uuid && u.mobile == mobile
    case _ => false
  }

  /** A right code forgets the wrong guesses and stays; a wrong one is counted for the retry time,
      or at the limit leaves nothing but the lock; nothing changes where a lock stands or no
      code is stored. */
  predicate LeavesRecord(env: Env, w: World, r: Store, scene: Scene, mobile: string, code: string) {
    var before, after := C.RecordOf(w.redis, scene, mobile), C.RecordOf(r, scene, mobile);
    var counted := WrongSoFar(w, scene, mobile) + 1;
    if Right(w, scene, mobile, code) then
      after.code == before.code && after.wrong.None? && after.lock.None?
    else if before.lock.Some? || before.code.None? then after == before
    else if counted < env.sms.maxRetry then
      && after.code == before.code && after.lock.None?
      && after.wrong == Some(Timed(counted, w.redis.now + 1000 * env.sms.retryTtlSeconds))
    else
      && after.code.None? && after.wrong.None? && after.lock.Some?
      && after.lock.value.until == w.redis.now + 1000 * env.sms.lockSeconds
  }

  lemma VerifyLeaves(env: Env, w: World, scene: Scene, mobile: string, code: string)
    requires Regular(env, w)
    ensures var r := C.Verify(w.redis, env.sms, scene, mobile, code).0;
            && LeavesRecord(env, w, r, scene, mobile, code) && r.faults == []
            && forall k :: !C.Own(k, scene, mobile) ==> SameAt(w.redis, r, k)
  {
    hide C.Verify, C.RecordOf, C.Tidy, C.Sound, G.Tidy, WellKept, C.Own;
    assert R.TidyFor(S.ConfigOf(env), w.redis, scene, mobile);
    C.VerifyOnPlainValues(w.redis, env.sms, scene, mobile, code);
  }

  lemma ClearLeaves(env: Env, r: Store, m: string, scene: Scene, mobile: string)
    requires r.faults == []
    ensures C.RecordOf(G.Clear(r, m), scene, mobile) == C.RecordOf(r, scene, mobile)
    ensures G.FailuresOf(G.Clear(r, m), mobile) == if m == mobile then None else G.FailuresOf(r, mobile)
    ensures G.Clear(r, m).faults == []
  {
    hide G.Clear, C.RecordOf, C.IntervalOf, G.FailuresOf, SameAt, C.CaptchaKey, C.CountKey, C.LockKey, C.IntervalKey,
         G.FailKey;
    G.ClearOnPlainValues(r, env.login, m);
    R.FailKeyIsApart(m, scene, mobile);
    R.ViewFrame(S.ConfigOf(env), r, G.Clear(r, m), scene, mobile);
    if m != mobile { FailuresFrame(r, G.Clear(r, m), mobile); }
  }

  lemma FailuresFrame(s: Store, t: Store, mobile: string)
    requires SameAt(s, t, G.FailKey(mobile))
    ensures G.FailuresOf(s, mobile) == G.FailuresOf(t, mobile)
  {
    hide G.FailKey;
    Frame(s, t, G.FailKey(mobile), 0);
  }

  lemma VerifyKeepsOthers(env: Env, w: World, sc: Scene, m: string, code: string, scene: Scene, mobile: string)
    requires Regular(env, w)
    ensures var r := C.Verify(w.redis, env.sms, sc, m, code).0;
            && G.FailuresOf(r, mobile) == G.FailuresOf(w.redis, mobile)
            && (sc != scene || m != mobile ==> C.RecordOf(r, scene, mobile) == C.RecordOf(w.redis, scene, mobile))
  {
    hide C.Verify, C.RecordOf, C.Tidy, C.Sound, G.Tidy, WellKept, C.Own, G.FailuresOf, LeavesRecord, SameAt;
    var cfg := S.ConfigOf(env);
    assert R.TidyFor(cfg, w.redis, scene, mobile);
    VerifyLeaves(env, w, sc, m, code);
    R.RefineRecord(cfg, w.redis, C.Verify(w.redis, env.sms, sc, m, code).0, sc, m, false, scene, mobile);
  }

  /** The call clears the failures of this mobile. */
  predicate Clears(op: Op, answer: Answer, mobile: string) {
    match op
    case LoginByPassword(m, _, _) => m == mobile && answer.LoggedIn?
    case LoginByCode(m, _, _) => m == mobile && answer.LoggedIn?
    case ResetUserPassword(m, _, _, _) => m == mobile && answer.Done?
    case _ => false
  }

  // What is left of Redis by a call that compared a code: the check, and a clear if it went through.
  lemma ComparingLeaves(env: Env, w: World, op: Op, scene: Scene, mobile: string, code: string)
    requires Regular(env, w) && Compares(env, w, op, scene, mobile, code)
    ensures var r := C.Verify(w.redis, env.sms, scene, mobile, code).0;
            var r' := Afterwards(env, w, op).redis;
            if Clears(op, Answered(env, w, op), mobile) then r' == G.Clear(r, mobile).(faults := [])
            else r' == r.(faults := [])
  {
    hide Regular, C.Verify, G.Clear, FindBy, Create, Update, DeleteByUserId, StoreRefreshToken, WellKept, IsRow,
         Decimal.ToString;
    Starts(env, w, op);
    if op.DeleteAccount? {
      var u :| u in w.db.users && u.uuid == op.uuid && u.mobile == mobile;
      var db := Begun(w, Call(op, [], [])).db;
      assert IsRow(db, Uuid(op.uuid), Some(u)) by { RowIs(db, u); }
      FindIsRow(db, Uuid(op.uuid), Some(u));
    }
  }

  lemma RowIs(db: Db, u: UserEntity)
    requires u in db.users
    ensures IsRow(db, Uuid(u.uuid), Some(u)) && IsRow(db, Mobile(u.mobile), Some(u))
  {
  }

  /** A call that compares a code leaves of the scene and mobile what the comparison says, every
      other scene and mobile alone, and clears the login failures exactly when it went through. */
  lemma ComparisonsCount(env: Env, w: World, op: Op, scene: Scene, mobile: string, code: string,
                         scene': Scene, mobile': string)
    requires Regular(env, w) && Compares(env, w, op, scene, mobile, code)
    ensures LeavesRecord(env, w, Afterwards(env, w, op).redis, scene, mobile, code)
    ensures scene' != scene || mobile' != mobile ==>
              C.RecordOf(Afterwards(env, w, op).redis, scene', mobile') == C.RecordOf(w.redis, scene', mobile')
    ensures G.FailuresOf(Afterwards(env, w, op).redis, mobile')
         == if Clears(op, Answered(env, w, op), mobile') then None else G.FailuresOf(w.redis, mobile')
  {
    hide Regular, C.Verify, G.Clear, C.RecordOf, G.FailuresOf, Afterwards, Answered, Right, WrongSoFar;
    var r := C.Verify(w.redis, env.sms, scene, mobile, code).0;
    VerifyLeaves(env, w, scene, mobile, code);
    VerifyKeepsOthers(env, w, scene, mobile, code, scene', mobile');
    ComparingLeaves(env, w, op, scene, mobile, code);
    ClearLeaves(env, r, mobile, scene, mobile);
    ClearLeaves(env, r, mobile, scene', mobile');
    assert r.(faults := []) == r;
    assert G.Clear(r, mobile).(faults := []) == G.Clear(r, mobile);
  }

  // What is left of Redis by a password login, by its answer.
  lemma PasswordLeaves(env: Env, w: World, mobile: string, password: string, draws: (int, int), locked: bool)
    requires G.Check(w.redis, env.login, mobile) == (w.redis, if locked then G.Locked else G.Open)
    ensures var (w', answer) := PasswordStep(env, w, mobile, password, draws);
            if answer == Failed(WrongPassword) then w'.redis == G.Record(w.redis, env.login, mobile) && !locked
            else if answer.LoggedIn? then w'.redis == G.Clear(w.redis, mobile)
            else w'.redis == w.redis
  {
    hide G.Check, G.Record, G.Clear, FindBy, StoreRefreshToken;
    FindKeeps(w.db, Mobile(mobile));
    var (db, found) := FindBy(w.db, Mobile(mobile));
    var (w', answer) := PasswordStep(env, w, mobile, password, draws);
    if answer == Failed(WrongPassword) {
      assert found.Fail? ==> found.code == UserNotFound;
      assert w' == World(G.Record(w.redis, env.login, mobile), db);
    }
  }

  lemma PasswordCallLeaves(env: Env, w: World, mobile: string, password: string, draws: (int, int))
    requires Regular(env, w)
    ensures var op := LoginByPassword(mobile, password, draws);
            var answer, after := Answered(env, w, op), Afterwards(env, w, op).redis;
            if answer == Failed(WrongPassword) then
              after == G.Record(w.redis, env.login, mobile).(faults := [])
              && !G.IsLocked(G.FailuresOf(w.redis, mobile), env.login)
            else if answer.LoggedIn? then after == G.Clear(w.redis, mobile).(faults := [])
            else after == w.redis
  {
    hide G.Check, G.Record, G.Clear, PasswordStep, WellKept, G.FailuresOf, G.Tidy, C.Tidy, C.Sound, G.IsLocked;
    var op := LoginByPassword(mobile, password, draws);
    Starts(env, w, op);
    assert R.TidyFor(S.ConfigOf(env), w.redis, Login, mobile);
    G.CheckOnPlainValues(w.redis, env.login, mobile);
    PasswordLeaves(env, Begun(w, Call(op, [], [])), mobile, password, draws,
                   G.IsLocked(G.FailuresOf(w.redis, mobile), env.login));
    assert w.redis.(faults := []) == w.redis;
  }

  /** A wrong password is counted: the first opens the window, the last of the limit sets the
      lock, those in between leave the deadline. A login forgets the failures, every other answer
      leaves them. */
  lemma PasswordsCount(env: Env, w: World, mobile: string, password: string, draws: (int, int), scene': Scene,
                       mobile': string)
    requires Regular(env, w)
    ensures var op := LoginByPassword(mobile, password, draws);
            var answer, after := Answered(env, w, op), Afterwards(env, w, op).redis;
            var f, f' := G.FailuresOf(w.redis, mobile), G.FailuresOf(after, mobile);
            var counted := FailedSoFar(w, mobile) + 1;
            && (answer == Failed(WrongPassword) ==>
                  && counted <= env.login.maxAttempts && f'.Some? && f'.value.value == counted
                  && f'.value.until == (if counted == env.login.maxAttempts then
                                          w.redis.now + 1000 * env.login.lockSeconds
                                        else if f.None? then w.redis.now + 1000 * env.login.windowSeconds
                                        else f.value.until))
            && (answer.LoggedIn? ==> f'.None?)
            && (answer != Failed(WrongPassword) && !answer.LoggedIn? ==> f' == f)
            && C.RecordOf(after, scene', mobile') == C.RecordOf(w.redis, scene', mobile')
            && (mobile' != mobile ==> G.FailuresOf(after, mobile') == G.FailuresOf(w.redis, mobile'))
  {
    hide G.Record, G.Clear, WellKept, G.FailuresOf, G.Tidy, C.Tidy, C.Sound, C.RecordOf, SameAt, G.FailKey, Answered,
         Afterwards;
    var cfg, s := S.ConfigOf(env), w.redis;
    assert R.TidyFor(cfg, s, scene', mobile) && R.TidyFor(cfg, s, scene', mobile');
    PasswordCallLeaves(env, w, mobile, password, draws);
    if Answered(env, w, LoginByPassword(mobile, password, draws)) == Failed(WrongPassword) {
      G.RecordOnPlainValues(s, env.login, mobile);
      R.RefineFailures(cfg, s, G.Record(s, env.login, mobile), mobile, scene', mobile');
      assert G.Record(s, env.login, mobile).(faults := []) == G.Record(s, env.login, mobile);
    } else {
      ClearLeaves(env, s, mobile, scene', mobile');
      ClearLeaves(env, s, mobile, scene', mobile);
      assert G.Clear(s, mobile).(faults := []) == G.Clear(s, mobile);
    }
  }

  // What is left of Redis by a send: the captcha service's part, if the scene fits the mobile.
  lemma SendCallLeaves(env: Env, w: World, op: Op, u: Option<UserEntity>)
    requires Regular(env, w) && op.SendVerifyCode? && IsRow(w.db, Mobile(op.mobile), u)
    ensures Afterwards(env, w, op).redis
         == if env.validMobile(op.mobile) && SceneFits(op.scene, u.Some?)
            then C.Send(w.redis, env.sms, op.scene, op.mobile, op.code, op.delivered).0.(faults := [])
            else w.redis
  {
    hide C.Send, ExistsBy, WellKept, IsRow, C.Tidy, C.Sound, G.Tidy;
    var db := Begun(w, Call(op, [], [])).db;
    Starts(env, w, op);
    RowStays(w.db, db, Mobile(op.mobile), u);
    FindIsRow(db, Mobile(op.mobile), u);
    assert w.redis.(faults := []) == w.redis;
  }

  /** A send that goes ahead stores the code and bars the next one for the interval; when the
      delivery fails it leaves no code. It touches no wrong guesses, no lock, and nothing of other
      scenes and mobiles; a send that does not go ahead touches nothing at all. */
  lemma SendsCount(env: Env, w: World, op: Op, u: Option<UserEntity>, scene': Scene, mobile': string)
    requires Regular(env, w) && op.SendVerifyCode? && IsRow(w.db, Mobile(op.mobile), u)
    ensures var after := Afterwards(env, w, op).redis;
            var goes := env.validMobile(op.mobile) && SceneFits(op.scene, u.Some?);
            var before, record := C.RecordOf(w.redis, op.scene, op.mobile), C.RecordOf(after, op.scene, op.mobile);
            && (if goes && before.lock.None? && C.IntervalOf(w.redis, op.mobile).None? then
                  && record.wrong == before.wrong && record.lock == before.lock
                  && record.code == (if op.delivered
                                     then Some(Timed(op.code, w.redis.now + 1000 * env.sms.codeTtlSeconds)) else None)
                  && C.IntervalOf(after, op.mobile).Some?
                  && C.IntervalOf(after, op.mobile).value.until == w.redis.now + 1000 * env.sms.sendIntervalSeconds
                else record == before && C.IntervalOf(after, op.mobile) == C.IntervalOf(w.redis, op.mobile))
            && (scene' != op.scene || mobile' != op.mobile ==>
                  C.RecordOf(after, scene', mobile') == C.RecordOf(w.redis, scene', mobile'))
            && (mobile' != op.mobile ==> C.IntervalOf(after, mobile') == C.IntervalOf(w.redis, mobile'))
            && G.FailuresOf(after, mobile') == G.FailuresOf(w.redis, mobile')
  {
    hide C.Send, WellKept, C.RecordOf, C.IntervalOf, C.Tidy, C.Sound, G.Tidy, G.FailuresOf, IsRow, SameAt, Afterwards,
         C.CaptchaKey, C.CountKey, C.LockKey, C.IntervalKey;
    var cfg, r := S.ConfigOf(env), C.Send(w.redis, env.sms, op.scene, op.mobile, op.code, op.delivered).0;
    SendCallLeaves(env, w, op, u);
    assert R.TidyFor(cfg, w.redis, op.scene, op.mobile) && R.TidyFor(cfg, w.redis, scene', mobile');
    C.SendOnPlainValues(w.redis, env.sms, op.scene, op.mobile, op.code, op.delivered);
    R.RefineRecord(cfg, w.redis, r, op.scene, op.mobile, true, scene', mobile');
    assert r.(faults := []) == r;
  }
}
