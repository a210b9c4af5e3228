/** Exactly which answer every call gives, on working stores, in terms of the rows, the
    records and the counters as they were before it. */
module AnswerTheorems {
  import opened Outcome
  import opened Decimal
  import opened Users
  import opened Keys
  import opened Database
  import opened Service
  import opened AccountTheorems
  import opened CredentialTheorems
  import G = LoginGate
  import C = Captcha
  import R = StoreRuns
  import S = ServiceOnStore

  /** A world as runs reach it: the configuration is accepted, counters and locks have
      deadlines, and the tables keep their keys. */
  ghost predicate Regular(env: Env, w: World) {
    R.ValidConfig(S.ConfigOf(env)) && R.AllTidy(S.ConfigOf(env), w.redis) && WellKept(w.db)
  }

  /** What a call answers when no command and no statement in it fails. */
  function Answered(env: Env, w: World, op: Op): Answer {
    Step(env, w, Call(op, [], [])).1
  }

  function Afterwards(env: Env, w: World, op: Op): World {
    Step(env, w, Call(op, [], [])).0
  }

  /** The row with this mobile, uuid or id, or the knowledge that there is none. */
  predicate IsRow(db: Db, f: Field, u: Option<UserEntity>) {
    match u
    case Some(v) => v in db.users && (match f case Id(id) => v.id == id case Uuid(uuid) => v.uuid == uuid
                                      case Mobile(mobile) => v.mobile == mobile)
    case None => forall v :: v in db.users ==>
      match f case Id(id) => v.id != id case Uuid(uuid) => v.uuid != uuid case Mobile(mobile) => v.mobile != mobile
  }

  lemma FindIsRow(db: Db, f: Field, u: Option<UserEntity>)
    requires WellKept(db) && db.faults == [] && IsRow(db, f, u)
    ensures FindBy(db, f) == (db, if u.Some? then Ok(u.value) else Fail(UserNotFound))
    ensures ExistsBy(db, f) == (db, Ok(u.Some?))
  {
    hide Owned, IdsBelow;
    if u.Some? { FirstFinds(db.users, f, u.value); }
  }

  // ---------------------------------------------------------------------
  // Captchas.
  // ---------------------------------------------------------------------

  /** The wrong guesses counted so far. */
  function WrongSoFar(w: World, scene: Scene, mobile: string): int {
    var wrong := C.RecordOf(w.redis, scene, mobile).wrong;
    if wrong.Some? then wrong.value.value else 0
  }

  /** No lock stands and this very code is stored. */
  predicate Right(w: World, scene: Scene, mobile: string, code: string) {
    var record := C.RecordOf(w.redis, scene, mobile);
    record.lock.None? && record.code.Some? && record.code.value.value == code
  }

  /** The error a code meets that is not right. */
  function Refusal(env: Env, w: World, scene: Scene, mobile: string): ErrorCode {
    var record := C.RecordOf(w.redis, scene, mobile);
    if record.lock.Some? then RateLimited
    else if record.code.None? then CaptchaExpired
    else if WrongSoFar(w, scene, mobile) + 1 < env.sms.maxRetry then CaptchaWrong
    else AccountLocked
  }

  lemma VerifyReplies(env: Env, w: World, scene: Scene, mobile: string, code: string)
    requires Regular(env, w)
    ensures C.Verify(w.redis, env.sms, scene, mobile, code).1
         == if Right(w, scene, mobile, code) then Ok(()) else Fail(Refusal(env, w, scene, mobile))
  {
    hide C.Verify, C.RecordOf, C.Tidy, C.Sound, G.Tidy, WellKept;
    assert R.TidyFor(S.ConfigOf(env), w.redis, scene, mobile);
    C.VerifyOnPlainValues(w.redis, env.sms, scene, mobile, code);
  }

  // What a call starts from, when nothing fails in it, is the world itself.
  lemma Starts(env: Env, w: World, op: Op)
    requires Regular(env, w)
    ensures var w0 := Begun(w, Call(op, [], []));
            w0.redis == w.redis && w0.db.faults == [] && WellKept(w0.db) && w0.db.users == w.db.users
            && w0.db.sessions == w.db.sessions && w0.db.nextId == w.db.nextId
  {
    hide WellKept;
    SameTablesSame(w.db, Begun(w, Call(op, [], [])).db);
  }

  lemma CodeLoginAnswers(env: Env, w: World, mobile: string, code: string, draws: (int, int), u: Option<UserEntity>)
    requires Regular(env, w) && IsRow(w.db, Mobile(mobile), u)
    ensures var answer := Answered(env, w, LoginByCode(mobile, code, draws));
            var valid := env.validMobile(mobile) && env.validCode(code);
            var right := Right(w, Login, mobile, code);
            && (answer.LoggedIn? <==> valid && right && u.Some? && !u.value.disabled)
            && (!valid ==> answer == Failed(InvalidArgument))
            && (valid && !right ==> answer == Failed(Refusal(env, w, Login, mobile)))
            && (valid && right && u.None? ==> answer == Failed(UserNotFound))
            && (valid && right && u.Some? && u.value.disabled ==> answer == Failed(UserDisabled))
  {
    hide Regular, C.Verify, G.Clear, FindBy, StoreRefreshToken, Right, Refusal, WellKept, IsRow;
    var op := LoginByCode(mobile, code, draws);
    Starts(env, w, op);
    RowStays(w.db, Begun(w, Call(op, [], [])).db, Mobile(mobile), u);
    FindIsRow(Begun(w, Call(op, [], [])).db, Mobile(mobile), u);
    VerifyReplies(env, w, Login, mobile, code);
  }

  lemma RowStays(a: Db, b: Db, f: Field, u: Option<UserEntity>)
    requires a.users == b.users && IsRow(a, f, u)
    ensures IsRow(b, f, u)
  {
  }

  lemma CreateAnswers(db: Db, row: UserEntity, now: int, byUuid: Option<UserEntity>, byMobile: Option<UserEntity>)
    requires WellKept(db) && db.faults == []
    requires IsRow(db, Uuid(row.uuid), byUuid) && IsRow(db, Mobile(row.mobile), byMobile)
    ensures var r := Create(db, row, now).1;
            && (r.Ok? <==> byUuid.None? && byMobile.None?)
            && (byUuid.Some? ==> r == Fail(UserAlreadyExists))
            && (byUuid.None? && byMobile.Some? ==> r == Fail(MobileTaken))
  {
    hide FindBy, WellKept;
    FirstTells(db, Uuid(row.uuid), byUuid);
    FirstTells(db, Mobile(row.mobile), byMobile);
    if byUuid.None? && byMobile.None? {
      var inserted := row.(id := db.nextId, disabled := false, createdAt := now);
      FirstIsLast(db.users, inserted, Uuid(row.uuid));
      FindsLast(db.(users := db.users + [inserted], nextId := db.nextId + 1), Uuid(row.uuid));
    }
  }

  lemma FirstTells(db: Db, f: Field, u: Option<UserEntity>)
    requires IsRow(db, f, u)
    ensures First(db.users, f).Some? <==> u.Some?
  {
    if u.Some? { FirstFinds(db.users, f, u.value); }
  }

  lemma FindsLast(db: Db, f: Field)
    requires db.faults == [] && First(db.users, f).Some?
    ensures FindBy(db, f).1.Ok?
  {
    hide First;
  }

  lemma RegistrationAnswers(env: Env, w: World, op: Op, byUuid: Option<UserEntity>, byMobile: Option<UserEntity>)
    requires Regular(env, w) && op.RegisterUser?
    requires IsRow(w.db, Uuid(op.uuid), byUuid) && IsRow(w.db, Mobile(op.mobile), byMobile)
    ensures var answer := Answered(env, w, op);
            var valid := env.validMobile(op.mobile) && env.validPassword(op.password) && env.validCode(op.code)
                         && env.validName(op.name);
            var right := Right(w, Register, op.mobile, op.code);
            && (answer.LoggedIn? <==> valid && right && byUuid.None? && byMobile.None?)
            && (!valid ==> answer == Failed(InvalidArgument))
            && (valid && !right ==> answer == Failed(Refusal(env, w, Register, op.mobile)))
            && (valid && right && byUuid.Some? ==> answer == Failed(UserAlreadyExists))
            && (valid && right && byUuid.None? && byMobile.Some? ==> answer == Failed(MobileTaken))
  {
    hide Regular, C.Verify, Create, StoreRefreshToken, Right, Refusal, WellKept, IsRow;
    var db := Begun(w, Call(op, [], [])).db;
    Starts(env, w, op);
    RowStays(w.db, db, Uuid(op.uuid), byUuid);
    RowStays(w.db, db, Mobile(op.mobile), byMobile);
    var row := UserEntity(0, op.uuid, op.mobile, op.name, env.hashPassword(op.salt, op.password), User, false, 0);
    CreateAnswers(db, row, Seconds(w), byUuid, byMobile);
    VerifyReplies(env, w, Register, op.mobile, op.code);
  }

  /** Update, of a row that was read: it fails exactly when it would change nothing. */
  lemma UpdateAnswers(db: Db, user: UserEntity, read: UserEntity)
    requires WellKept(db) && db.faults == [] && read in db.users && user.uuid == read.uuid && user.id == read.id
    ensures Update(db, user).1
         == if user.displayName == read.displayName && user.passwordHash == read.passwordHash
               && user.disabled == read.disabled && user.role == read.role
            then Fail(UserNotFound) else Ok(())
  {
    hide Owned, IdsBelow, Replace;
    FirstFinds(db.users, Uuid(user.uuid), read);
  }

  lemma ResetAnswers(env: Env, w: World, mobile: string, code: string, password: string, salt: string,
                     u: Option<UserEntity>)
    requires Regular(env, w) && IsRow(w.db, Mobile(mobile), u)
    ensures var answer := Answered(env, w, ResetUserPassword(mobile, code, password, salt));
            var valid := env.validMobile(mobile) && env.validCode(code) && env.validPassword(password);
            var right := Right(w, ResetPassword, mobile, code);
            var changes := u.Some? && env.hashPassword(salt, password) != u.value.passwordHash;
            && (answer.Done? <==> valid && right && changes)
            && (!valid ==> answer == Failed(InvalidArgument))
            && (valid && !right ==> answer == Failed(Refusal(env, w, ResetPassword, mobile)))
            && (valid && right && !changes ==> answer == Failed(UserNotFound))
  {
    hide Regular, C.Verify, G.Clear, FindBy, Update, DeleteByUserId, Right, Refusal, WellKept;
    var op := ResetUserPassword(mobile, code, password, salt);
    var db := Begun(w, Call(op, [], [])).db;
    Starts(env, w, op);
    FindIsRow(db, Mobile(mobile), u);
    VerifyReplies(env, w, ResetPassword, mobile, code);
    if u.Some? { UpdateAnswers(db, u.value.(passwordHash := env.hashPassword(salt, password)), u.value); }
  }

  lemma DeletionAnswers(env: Env, w: World, uuid: string, code: string, u: Option<UserEntity>)
    requires Regular(env, w) && IsRow(w.db, Uuid(uuid), u)
    ensures var answer := Answered(env, w, DeleteAccount(uuid, code));
            var valid := uuid != "" && env.validCode(code);
            var right := u.Some? && Right(w, DeleteUser, u.value.mobile, code);
            && (answer.Done? <==> valid && right && !u.value.disabled)
            && (!valid ==> answer == Failed(InvalidArgument))
            && (valid && u.None? ==> answer == Failed(UserNotFound))
            && (valid && u.Some? && !right ==> answer == Failed(Refusal(env, w, DeleteUser, u.value.mobile)))
            && (valid && right && u.value.disabled ==> answer == Failed(UserNotFound))
  {
    hide Regular, C.Verify, FindBy, Update, DeleteByUserId, Right, Refusal, WellKept, ToString;
    var op := DeleteAccount(uuid, code);
    var db := Begun(w, Call(op, [], [])).db;
    Starts(env, w, op);
    FindIsRow(db, Uuid(uuid), u);
    if u.Some? {
      var v := u.value;
      VerifyReplies(env, w, DeleteUser, v.mobile, code);
      DeleteKeeps(db, v.id);
      UpdateAnswers(DeleteByUserId(db, v.id).0,
                    v.(disabled := true, mobile := "deleted_" + ToString(v.id) + "_" + v.mobile), v);
    }
  }

  /** Whether a send of this scene may go ahead for a mobile in use or not. */
  predicate SceneFits(scene: Scene, inUse: bool) {
    match scene
    case Unknown => true
    case Register => !inUse
    case _ => inUse
  }

  lemma SendAnswers(env: Env, w: World, op: Op, u: Option<UserEntity>)
    requires Regular(env, w) && op.SendVerifyCode? && IsRow(w.db, Mobile(op.mobile), u)
    ensures var answer := Answered(env, w, op);
            var goes := env.validMobile(op.mobile) && SceneFits(op.scene, u.Some?);
            var free := C.RecordOf(w.redis, op.scene, op.mobile).lock.None? && C.IntervalOf(w.redis, op.mobile).None?;
            && (answer.Sent? <==> goes && free && op.delivered)
            && (answer.Sent? ==> answer.seconds == env.sms.sendIntervalSeconds)
            && (!env.validMobile(op.mobile) ==> answer == Failed(InvalidArgument))
            && (env.validMobile(op.mobile) && !goes ==>
                  answer == Failed(if op.scene.Register? then MobileTaken else UserNotFound))
            && (goes && !free ==> answer == Failed(RateLimited))
            && (goes && free && !op.delivered ==> answer == Failed(ServiceUnavailable))
  {
    hide C.Send, ExistsBy, WellKept, IsRow, C.RecordOf, C.IntervalOf, C.Tidy, C.Sound, G.Tidy;
    var db := Begun(w, Call(op, [], [])).db;
    Starts(env, w, op);
    RowStays(w.db, db, Mobile(op.mobile), u);
    FindIsRow(db, Mobile(op.mobile), u);
    assert R.TidyFor(S.ConfigOf(env), w.redis, op.scene, op.mobile);
    C.SendOnPlainValues(w.redis, env.sms, op.scene, op.mobile, op.code, op.delivered);
  }

  // ---------------------------------------------------------------------
  // Passwords.
  // ---------------------------------------------------------------------

  /** The failures counted so far. */
  function FailedSoFar(w: World, mobile: string): int {
    var failures := G.FailuresOf(w.redis, mobile);
    if failures.Some? then failures.value.value else 0
  }

  // A password login by what the counter and the lookup say.
  lemma GateAnswers(env: Env, w: World, mobile: string, password: string, draws: (int, int), locked: bool,
                    u: Option<UserEntity>)
    requires G.Check(w.redis, env.login, mobile) == (w.redis, if locked then G.Locked else G.Open)
    requires FindBy(w.db, Mobile(mobile)) == (w.db, if u.Some? then Ok(u.value) else Fail(UserNotFound))
    ensures var answer := PasswordStep(env, w, mobile, password, draws).1;
            var valid := env.validMobile(mobile) && env.validPassword(password);
            var known := u.Some? && env.verifyPassword(password, u.value.passwordHash);
            && (answer.LoggedIn? <==> valid && !locked && known && !u.value.disabled)
            && (!valid ==> answer == Failed(InvalidArgument))
            && (valid && locked ==> answer == Failed(AccountLocked))
            && (valid && !locked && u.Some? && u.value.disabled ==> answer == Failed(UserDisabled))
            && (answer == Failed(WrongPassword)
                <==> valid && !locked && !known && (u.Some? ==> !u.value.disabled))
  {
    hide G.Check, G.Record, G.Clear, FindBy, StoreRefreshToken;
  }

  lemma PasswordLoginAnswers(env: Env, w: World, mobile: string, password: string, draws: (int, int),
                             u: Option<UserEntity>)
    requires Regular(env, w) && IsRow(w.db, Mobile(mobile), u)
    ensures var answer := Answered(env, w, LoginByPassword(mobile, password, draws));
            var valid := env.validMobile(mobile) && env.validPassword(password);
            var open := FailedSoFar(w, mobile) < env.login.maxAttempts;
            var known := u.Some? && env.verifyPassword(password, u.value.passwordHash);
            && (answer.LoggedIn? <==> valid && open && known && !u.value.disabled)
            && (!valid ==> answer == Failed(InvalidArgument))
            && (valid && !open ==> answer == Failed(AccountLocked))
            && (valid && open && u.Some? && u.value.disabled ==> answer == Failed(UserDisabled))
            && (answer == Failed(WrongPassword)
                <==> valid && open && !known && (u.Some? ==> !u.value.disabled))
  {
    hide G.Check, PasswordStep, FindBy, WellKept, IsRow, G.FailuresOf, G.Tidy, C.Tidy, C.Sound;
    var op := LoginByPassword(mobile, password, draws);
    var db := Begun(w, Call(op, [], [])).db;
    Starts(env, w, op);
    RowStays(w.db, db, Mobile(mobile), u);
    FindIsRow(db, Mobile(mobile), u);
    assert R.TidyFor(S.ConfigOf(env), w.redis, Login, mobile);
    G.CheckOnPlainValues(w.redis, env.login, mobile);
    GateAnswers(env, Begun(w, Call(op, [], [])), mobile, password, draws,
                G.IsLocked(G.FailuresOf(w.redis, mobile), env.login), u);
  }

  lemma ChangeAnswers(env: Env, w: World, uuid: string, oldPassword: string, password: string, salt: string,
                      u: Option<UserEntity>)
    requires WellKept(w.db) && IsRow(w.db, Uuid(uuid), u)
    ensures var answer := Answered(env, w, ChangePassword(uuid, oldPassword, password, salt));
            var valid := uuid != "" && env.validPassword(oldPassword) && env.validPassword(password)
                         && oldPassword != password;
            var enabled := u.Some? && !u.value.disabled;
            var known := u.Some? && env.verifyPassword(oldPassword, u.value.passwordHash);
            var changes := u.Some? && env.hashPassword(salt, password) != u.value.passwordHash;
            && (answer.Done? <==> valid && enabled && known && changes)
            && (answer == Failed(WrongPassword) <==> valid && enabled && !known)
            && (answer == Failed(UserDisabled) <==> valid && u.Some? && u.value.disabled)
            && (answer == Failed(InvalidArgument) <==> !valid)
            && (answer == Failed(UserNotFound) <==> valid && (u.None? || (enabled && known && !changes)))
  {
    hide FindBy, Update, WellKept, IsRow;
    var db := w.db.(faults := []);
    SameTablesSame(w.db, db);
    RowStays(w.db, db, Uuid(uuid), u);
    FindIsRow(db, Uuid(uuid), u);
    if u.Some? {
      RowIsThere(db, Uuid(uuid), u.value);
      UpdateAnswers(db, u.value.(passwordHash := env.hashPassword(salt, password)), u.value);
    }
  }

  lemma RowIsThere(db: Db, f: Field, v: UserEntity)
    requires IsRow(db, f, Some(v))
    ensures v in db.users
  {
  }

  // ---------------------------------------------------------------------
  // Accounts and sessions. These touch no captcha and no counter.
  // ---------------------------------------------------------------------

  lemma UpdateUserAnswers(env: Env, w: World, uuid: string, name: Option<string>, u: Option<UserEntity>)
    requires WellKept(w.db) && IsRow(w.db, Uuid(uuid), u)
    ensures var answer := Answered(env, w, UpdateUser(uuid, name));
            var enabled := uuid != "" && u.Some? && !u.value.disabled;
            var changes := name.Some? && u.Some? && name.value != u.value.displayName;
            && (answer.Updated? <==> enabled && (name.None? || (env.validName(name.value) && changes)))
            && (answer == Failed(UserDisabled) <==> uuid != "" && u.Some? && u.value.disabled)
            && (answer == Failed(InvalidArgument)
                <==> uuid == "" || (enabled && name.Some? && !env.validName(name.value)))
            && (answer == Failed(UserNotFound)
                <==> uuid != "" && (u.None? || (enabled && name.Some? && env.validName(name.value) && !changes)))
  {
    hide FindBy, Update, WellKept, IsRow;
    var db := w.db.(faults := []);
    SameTablesSame(w.db, db);
    RowStays(w.db, db, Uuid(uuid), u);
    FindIsRow(db, Uuid(uuid), u);
    if u.Some? && name.Some? {
      RowIsThere(db, Uuid(uuid), u.value);
      UpdateAnswers(db, u.value.(displayName := name.value), u.value);
    }
  }

  lemma SwitchingAnswers(env: Env, w: World, uuid: string, disabled: bool, u: Option<UserEntity>)
    requires WellKept(w.db) && IsRow(w.db, Uuid(uuid), u)
    ensures var answer := Answered(env, w, SetUserDisabled(uuid, disabled));
            && (answer.Done? <==> uuid != "" && u.Some?)
            && (answer == Failed(InvalidArgument) <==> uuid == "")
            && (answer == Failed(UserNotFound) <==> uuid != "" && u.None?)
  {
    hide FindBy, Update, DeleteByUserId, WellKept, IsRow;
    var db := w.db.(faults := []);
    SameTablesSame(w.db, db);
    RowStays(w.db, db, Uuid(uuid), u);
    FindIsRow(db, Uuid(uuid), u);
    if u.Some? {
      RowIsThere(db, Uuid(uuid), u.value);
      UpdateAnswers(db, u.value.(disabled := disabled), u.value);
    }
  }

  lemma LogoutAnswers(env: Env, w: World, uuid: string, token: string, u: Option<UserEntity>)
    requires WellKept(w.db) && IsRow(w.db, Uuid(uuid), u)
    ensures Answered(env, w, LogoutAll(uuid)) == if u.Some? then Done else Failed(UserNotFound)
    ensures Answered(env, w, Logout(token)) == Done
  {
    hide FindBy, DeleteByUserId, DeleteByTokenHash, WellKept, IsRow;
    var db := w.db.(faults := []);
    SameTablesSame(w.db, db);
    RowStays(w.db, db, Uuid(uuid), u);
    FindIsRow(db, Uuid(uuid), u);
  }

  /** The hash has a session whose lifetime lasts. */
  predicate LiveSession(w: World, h: string) {
    h in w.db.sessions && Seconds(w) < w.db.sessions[h].expiresAt
  }

  /** For a token that parses to the number of row u, if there is one. */
  lemma RefreshAnswers(env: Env, w: World, token: string, draws: (int, int), id: int, u: Option<UserEntity>)
    requires WellKept(w.db) && IsRow(w.db, Id(id), u) && token != ""
    requires env.parse(token, w.redis.now).Ok? && Stoll(env.parse(token, w.redis.now).value) == Some(id)
    ensures var answer := Answered(env, w, RefreshToken(token, draws));
            var live := LiveSession(w, env.hash(token));
            && (answer.Refreshed? <==> u.Some? && !u.value.disabled && live)
            && (answer == Failed(UserNotFound) <==> u.None?)
            && (answer == Failed(UserDisabled) <==> u.Some? && u.value.disabled)
            && (answer == Failed(TokenRevoked) <==> u.Some? && !u.value.disabled && !live)
  {
    hide FindBy, DeleteByTokenHash, StoreRefreshToken, WellKept, IsRow, Stoll;
    var db := w.db.(faults := []);
    SameTablesSame(w.db, db);
    RowStays(w.db, db, Id(id), u);
    FindIsRow(db, Id(id), u);
  }

  lemma UnreadableTokenAnswers(env: Env, w: World, token: string, draws: (int, int))
    requires token == "" || env.parse(token, w.redis.now).Fail? || Stoll(env.parse(token, w.redis.now).value).None?
    ensures Answered(env, w, RefreshToken(token, draws))
         == if token == "" then Failed(InvalidArgument)
            else if env.parse(token, w.redis.now).Fail? then Failed(env.parse(token, w.redis.now).code)
            else Thrown
    ensures Afterwards(env, w, RefreshToken(token, draws)).db.sessions == w.db.sessions
  {
    hide Stoll;
  }

  /** The user's sessions whose lifetime lasts. */
  function LiveSessionsOf(w: World, userId: int): set<string> {
    set h | h in w.db.sessions && w.db.sessions[h].userId == userId && LiveSession(w, h)
  }

  lemma QueryAnswers(env: Env, w: World, h: string, userId: int)
    ensures Answered(env, w, QueryToken(h)) == Valid(LiveSession(w, h))
    ensures Answered(env, w, QueryCount(userId)) == Count(|LiveSessionsOf(w, userId)|)
  {
    assert LiveSessionsOf(w, userId) == ActiveSessions(w.db.(faults := []), userId, Seconds(w));
  }

  /** A cleanup takes exactly the expired sessions and reports their number. */
  lemma CleanupTakesExpired(db: Db, now: int)
    requires db.faults == []
    ensures var (after, r) := CleanExpiredTokens(db, now);
            var expired := set h | h in db.sessions && db.sessions[h].expiresAt <= now;
            && after.sessions == db.sessions - expired && r == Ok(|expired|)
  {
    var expired := set h | h in db.sessions && db.sessions[h].expiresAt <= now;
    var kept := CleanExpiredTokens(db, now).0.sessions;
    assert kept == db.sessions - expired;
    assert kept.Keys + expired == db.sessions.Keys && kept.Keys !! expired;
    assert |kept| == |kept.Keys| && |db.sessions| == |db.sessions.Keys|;
  }

  lemma CleanupLeavesLive(env: Env, w: World)
    ensures forall h :: h in Afterwards(env, w, Cleanup).db.sessions <==> LiveSession(w, h)
  {
  }

  // ---------------------------------------------------------------------
  // Outages.
  // ---------------------------------------------------------------------

  /** When the counter cannot be read, a password login goes ahead as if there were none. */
  lemma UnreadCounterLetsIn(env: Env, w: World, call: Call, u: Option<UserEntity>)
    requires call.op.LoginByPassword? && FailsAt(call.redisFaults, 0) && call.dbFaults == []
    requires WellKept(w.db) && IsRow(w.db, Mobile(call.op.mobile), u)
    ensures var answer := Step(env, w, call).1;
            var valid := env.validMobile(call.op.mobile) && env.validPassword(call.op.password);
            var known := u.Some? && env.verifyPassword(call.op.password, u.value.passwordHash);
            && (answer.LoggedIn? <==> valid && known && !u.value.disabled)
            && (answer == Failed(WrongPassword) <==> valid && !known && (u.Some? ==> !u.value.disabled))
  {
    hide G.Record, G.Clear, G.FailKey, FindBy, StoreRefreshToken, WellKept, IsRow, Stoi;
    var w0 := Begun(w, call);
    SameTablesSame(w.db, w0.db);
    RowStays(w.db, w0.db, Mobile(call.op.mobile), u);
    FindIsRow(w0.db, Mobile(call.op.mobile), u);
  }

  /** The operations that promise nothing about the tables, or nothing at all. */
  predicate NeedsNoTables(op: Op) {
    op.Tick? || op.Logout? || op.Cleanup? || (op.SendVerifyCode? && op.scene.Unknown?)
  }

  /** While the database is down no call changes the tables, and only those answer success that
      promise nothing about them. */
  lemma OutageChangesNothing(env: Env, w: World, call: Call)
    requires forall k :: 0 <= k < 4 ==> FailsAt(call.dbFaults, k)
    ensures SameTables(w.db, Step(env, w, call).0.db)
    ensures NeedsNoTables(call.op) || Step(env, w, call).1.Failed? || Step(env, w, call).1.Thrown?
  {
    hide G.Check, G.Record, G.Clear, C.Verify, C.Send, Stoll, ToString, First, ActiveSessions;
    assert FailsAt(call.dbFaults, 0);
  }
}
