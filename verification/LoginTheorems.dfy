/** Who can log in: nobody while disabled, and after a change or a reset of the password
    exactly the holders of the new one. */
module LoginTheorems {
  import opened Outcome
  import opened Decimal
  import opened Users
  import opened Redis
  import opened Keys
  import opened Database
  import opened Service
  import opened SessionTheorems
  import opened AccountTheorems
  import G = LoginGate
  import C = Captcha
  import R = RevocationTheorems
  import S = ServiceOnStore
  import Rows = RowTheorems
  import Password
  import Base64Url

  predicate IsDisabled(db: Db, uuid: string) {
    exists u :: u in db.users && u.uuid == uuid && u.disabled
  }

  predicate HasId(users: seq<UserEntity>, uuid: string, id: int) {
    exists u :: u in users && u.uuid == uuid && u.id == id
  }

  // ---------------------------------------------------------------------
  // A disabled user gets no tokens.
  // ---------------------------------------------------------------------

  /** The call hands tokens to the user with this uuid. */
  predicate HandsTokensTo(env: Env, w: World, call: Call, answer: Answer, uuid: string) {
    match answer
    case LoggedIn(user, _) => user.uuid == uuid
    case Refreshed(_) =>
      && call.op.RefreshToken?
      && var subject := env.parse(call.op.token, w.redis.now);
         && subject.Ok? && Stoll(subject.value).Some?
         && HasId(w.db.users, uuid, Stoll(subject.value).value)
    case _ => false
  }

  lemma FoundIsNot(db: Db, f: Field, uuid: string)
    requires Distinct(db.users) && IsDisabled(db, uuid) && FindBy(db, f).1.Ok? && !FindBy(db, f).1.value.disabled
    ensures FindBy(db, f).1.value.uuid != uuid
  {
    FindKeeps(db, f);
  }

  lemma LoginGivesNothing(env: Env, w: World, op: Op, uuid: string)
    requires (op.LoginByPassword? || op.LoginByCode?) && Distinct(w.db.users) && IsDisabled(w.db, uuid)
    ensures var answer := Act(env, w, op).1; answer.LoggedIn? ==> answer.user.uuid != uuid
  {
    hide G.Check, G.Record, G.Clear, C.Verify, FindBy, StoreRefreshToken, IsDisabled, Distinct;
    var (db, found) := FindBy(w.db, Mobile(op.mobile));
    if found.Ok? && !found.value.disabled { FoundIsNot(w.db, Mobile(op.mobile), uuid); }
  }

  lemma RegisterGivesNothing(env: Env, w: World, op: Op, uuid: string)
    requires op.RegisterUser? && IsDisabled(w.db, uuid)
    ensures var answer := Act(env, w, op).1; answer.LoggedIn? ==> answer.user.uuid != uuid
  {
    hide C.Verify, Create, StoreRefreshToken, IsDisabled;
    var row := UserEntity(0, op.uuid, op.mobile, op.name, env.hashPassword(op.salt, op.password), User, false, 0);
    CreatesNewUuid(w.db, row, Seconds(w), uuid);
  }

  lemma CreatesNewUuid(db: Db, row: UserEntity, now: int, uuid: string)
    requires IsDisabled(db, uuid)
    ensures var r := Create(db, row, now).1; r.Ok? ==> r.value.uuid != uuid
  {
    hide First;
    var u :| u in db.users && u.uuid == uuid && u.disabled;
    if row.uuid == uuid { FirstFinds(db.users, Uuid(row.uuid), u); }
  }

  lemma RefreshGivesNothing(env: Env, w: World, token: string, userId: int, draws: (int, int), uuid: string)
    requires Distinct(w.db.users) && IsDisabled(w.db, uuid)
    requires HasId(w.db.users, uuid, userId)
    ensures !RedeemStep(env, w, token, userId, draws).1.Refreshed?
  {
    hide FindBy, StoreRefreshToken, IsDisabled, Distinct, HasId;
    var found := FindBy(w.db, Id(userId)).1;
    FindKeeps(w.db, Id(userId));
    if found.Ok? && !found.value.disabled {
      FoundIsNot(w.db, Id(userId), uuid);
      SameIdSameUser(w.db.users, found.value, uuid, userId);
    }
  }

  lemma RefreshIsNoLogin(env: Env, w: World, token: string, draws: (int, int))
    ensures !RefreshStep(env, w, token, draws).1.LoggedIn?
  {
    hide First, Stoll;
  }

  lemma SameIdSameUser(users: seq<UserEntity>, v: UserEntity, uuid: string, id: int)
    requires Distinct(users) && v in users && v.id == id && HasId(users, uuid, id)
    ensures v.uuid == uuid
  {
  }

  /** Under any faults. */
  lemma NoTokensForDisabled(env: Env, w: World, call: Call, uuid: string)
    requires WellKept(w.db) && IsDisabled(w.db, uuid)
    ensures !HandsTokensTo(env, w, call, Step(env, w, call).1, uuid)
  {
    hide RegisterStep, PasswordStep, CodeStep, RedeemStep, SendStep, ResetStep, LogoutStep, LogoutAllStep, UpdateStep,
         ChangeStep, DeleteStep, DisableStep, IsTokenValid, CountActiveSessionsByUserId, CleanExpiredTokens, Stoll,
         IsDisabled, Distinct, Owned, IdsBelow, HasId;
    var w0 := World(w.redis.(faults := call.redisFaults), w.db.(faults := call.dbFaults));
    SameDisabled(w.db, w0.db, uuid);
    match call.op {
      case RegisterUser(_, _, _, _, _, _, _) => RegisterGivesNothing(env, w0, call.op, uuid);
      case LoginByPassword(_, _, _) => LoginGivesNothing(env, w0, call.op, uuid);
      case LoginByCode(_, _, _) => LoginGivesNothing(env, w0, call.op, uuid);
      case RefreshToken(token, draws) =>
        RefreshIsNoLogin(env, w0, token, draws);
        if HandsTokensTo(env, w, call, Step(env, w, call).1, uuid) {
          RefreshGivesNothing(env, w0, token, Stoll(env.parse(token, w.redis.now).value).value, draws, uuid);
        }
      case _ => OthersGiveNothing(env, w0, call.op);
    }
  }

  lemma SameDisabled(a: Db, b: Db, uuid: string)
    requires a.users == b.users
    ensures IsDisabled(a, uuid) <==> IsDisabled(b, uuid)
  {
  }

  lemma OthersGiveNothing(env: Env, w: World, op: Op)
    requires !op.RegisterUser? && !op.LoginByPassword? && !op.LoginByCode? && !op.RefreshToken?
    ensures !Act(env, w, op).1.LoggedIn? && !Act(env, w, op).1.Refreshed?
  {
    hide First, Replace, C.Verify, C.Send, G.Clear, ToString;
  }

  // ---------------------------------------------------------------------
  // Disabled until enabled.
  // ---------------------------------------------------------------------

  /** Under any faults, a disabled user stays disabled but for SetUserDisabled(uuid, false). */
  lemma StaysDisabled(env: Env, w: World, call: Call, uuid: string)
    requires WellKept(w.db) && IsDisabled(w.db, uuid) && call.op != SetUserDisabled(uuid, false)
    ensures IsDisabled(Step(env, w, call).0.db, uuid)
  {
    hide Step, WellKept;
    Rows.StepFollows(env, w, call);
    var u :| u in w.db.users && u.uuid == uuid && u.disabled;
    assert Rows.Kept(env, call.op, u, Step(env, w, call).0.db.users);
  }

  predicate NeverEnables(calls: seq<Call>, uuid: string, i: nat, j: nat)
    requires i <= j <= |calls|
  {
    forall k :: i <= k < j ==> calls[k].op != SetUserDisabled(uuid, false)
  }

  /** Once disabled, a user is handed no tokens by any login or refresh, under any faults,
      until an administrator enables the account again. */
  lemma {:induction false} DisabledUntilEnabled(env: Env, w: World, calls: seq<Call>, uuid: string, i: nat, j: nat)
    requires i <= j < |calls| && WellKept(w.db) && NeverEnables(calls, uuid, i, j)
    requires IsDisabled(Before(env, w, calls, i).db, uuid)
    ensures IsDisabled(Before(env, w, calls, j).db, uuid)
    ensures !HandsTokensTo(env, Before(env, w, calls, j), calls[j], AnswerAt(env, w, calls, j), uuid)
    decreases j
  {
    hide Step, IsDisabled, WellKept, Before, AnswerAt, HandsTokensTo;
    if i < j {
      DisabledUntilEnabled(env, w, calls, uuid, i, j - 1);
      TablesStayWellKept(env, w, calls, j - 1);
      NextOf(env, w, calls, {}, j - 1);
      StaysDisabled(env, Before(env, w, calls, j - 1), calls[j - 1], uuid);
    }
    TablesStayWellKept(env, w, calls, j);
    NextOf(env, w, calls, {}, j);
    NoTokensForDisabled(env, Before(env, w, calls, j), calls[j], uuid);
  }

  // ---------------------------------------------------------------------
  // New passwords.
  // ---------------------------------------------------------------------

  /** What a password login on working stores answers, by the gate and the row it finds. */
  lemma LoginAnswers(env: Env, w: World, password: string, draws: (int, int), row: UserEntity)
    requires w.redis.faults == [] && w.db.faults == [] && Distinct(w.db.users) && row in w.db.users
    requires env.validMobile(row.mobile) && env.validPassword(password)
    requires G.Check(w.redis, env.login, row.mobile).1 == G.Open
    ensures var answer := PasswordStep(env, w, row.mobile, password, draws).1;
            && (answer.LoggedIn? <==> !row.disabled && env.verifyPassword(password, row.passwordHash))
            && (!row.disabled && !env.verifyPassword(password, row.passwordHash) ==> answer == Failed(WrongPassword))
            && (answer.LoggedIn? ==> answer.user == Hidden(row))
  {
    hide G.Check, G.Record, G.Clear, First, StoreRefreshToken, Distinct;
    R.FindsOnly(w.db.users, Mobile(row.mobile), row);
  }

  lemma ClearOpens(env: Env, r: Store, mobile: string)
    requires r.faults == []
    ensures G.Check(G.Clear(r, mobile), env.login, mobile).1 == G.Open && G.Clear(r, mobile).faults == []
  {
    hide Text;
  }

  lemma ChangedRow(db: Db, user: UserEntity, read: UserEntity)
    requires WellKept(db) && read in db.users && user.uuid == read.uuid && user.id == read.id && Update(db, user).1.Ok?
    ensures read.(displayName := user.displayName, passwordHash := user.passwordHash,
                  disabled := user.disabled, role := user.role)
         in Update(db, user).0.users
    ensures Distinct(Update(db, user).0.users)
  {
    hide Update, Replace, Owned, IdsBelow;
    UpdateWrites(db, user, read);
    UpdateKeeps(db, user, read);
    ReplacedUsers(db.users, read.(displayName := user.displayName, passwordHash := user.passwordHash,
                                  disabled := user.disabled, role := user.role), read);
  }

  /** After a successful ChangePassword an unlocked user logs in with exactly the passwords
      that verify against the new hash; any other is answered WrongPassword. */
  lemma ChangedPasswordExactly(env: Env, w: World, u: UserEntity, oldPassword: string, password: string, salt: string,
                               attempt: string, draws: (int, int))
    requires WellKept(w.db) && u in w.db.users
    requires Step(env, w, Call(ChangePassword(u.uuid, oldPassword, password, salt), [], [])).1.Done?
    requires env.validMobile(u.mobile) && env.validPassword(attempt)
    requires G.Check(w.redis.(faults := []), env.login, u.mobile).1 == G.Open
    ensures var w' := Step(env, w, Call(ChangePassword(u.uuid, oldPassword, password, salt), [], [])).0;
            var answer := Step(env, w', Call(LoginByPassword(u.mobile, attempt, draws), [], [])).1;
            && (answer.LoggedIn? <==> env.verifyPassword(attempt, env.hashPassword(salt, password)))
            && (!answer.LoggedIn? ==> answer == Failed(WrongPassword))
  {
    hide G.Check, G.Record, G.Clear, First, Update, PasswordStep, Distinct, Owned, IdsBelow;
    var w0 := World(w.redis.(faults := []), w.db.(faults := []));
    SameTablesSame(w.db, w0.db);
    R.FindsOnly(w0.db.users, Uuid(u.uuid), u);
    var user := u.(passwordHash := env.hashPassword(salt, password));
    ChangedRow(w0.db, user, u);
    var w1 := World(w0.redis, Update(w0.db, user).0.(faults := []));
    LoginAnswers(env, w1, attempt, draws, user);
  }

  /** A successful ResetPassword opens a locked login too, and then the same holds of it. */
  lemma ResetPasswordExactly(env: Env, w: World, u: UserEntity, code: string, password: string, salt: string,
                             attempt: string, draws: (int, int))
    requires WellKept(w.db) && u in w.db.users && !u.disabled
    requires Step(env, w, Call(ResetUserPassword(u.mobile, code, password, salt), [], [])).1.Done?
    requires env.validPassword(attempt)
    ensures var w' := Step(env, w, Call(ResetUserPassword(u.mobile, code, password, salt), [], [])).0;
            var answer := Step(env, w', Call(LoginByPassword(u.mobile, attempt, draws), [], [])).1;
            && (answer.LoggedIn? <==> env.verifyPassword(attempt, env.hashPassword(salt, password)))
            && (!answer.LoggedIn? ==> answer == Failed(WrongPassword))
  {
    hide G.Check, G.Record, G.Clear, C.Verify, First, Update, PasswordStep, Distinct, Owned, IdsBelow, DeleteByUserId;
    var w0 := World(w.redis.(faults := []), w.db.(faults := []));
    SameTablesSame(w.db, w0.db);
    R.FindsOnly(w0.db.users, Mobile(u.mobile), u);
    var user := u.(passwordHash := env.hashPassword(salt, password));
    ChangedRow(w0.db, user, u);
    var db2 := Update(w0.db, user).0;
    Rows.DeletionKeepsUsers(db2, u.id);
    var r1 := C.Verify(w0.redis, env.sms, ResetPassword, u.mobile, code).0;
    S.VerifyStaysWorking(w0.redis, env.sms, ResetPassword, u.mobile, code);
    ClearOpens(env, r1, u.mobile);
    var r2 := G.Clear(r1, u.mobile);
    assert r2.(faults := []) == r2;
    var w1 := World(r2, DeleteByUserId(db2, u.id).0.(faults := []));
    LoginAnswers(env, w1, attempt, draws, user);
  }

  /** The service with its salted hashes. */
  function Hashing(env: Env, sha: Password.Digest): Env {
    env.(hashPassword := (salt, password) => Password.Hash(sha, Base64Url.Codes(salt), password),
         verifyPassword := (password, stored) => Password.Verify(sha, password, stored))
  }

  /** There a password verifies against the hash of another exactly when they digest alike
      under its salt, so the two lemmas above speak of the password itself. */
  lemma HashingVerifiesExactly(env: Env, sha: Password.Digest, salt: string, password: string, attempt: string)
    ensures var e, prefix := Hashing(env, sha), Password.Hex(Base64Url.Codes(salt));
            e.verifyPassword(attempt, e.hashPassword(salt, password))
            <==> sha(prefix + attempt) == sha(prefix + password)
  {
    hide Password.Hash, Password.Verify, Password.Hex;
    Password.VerifyExactly(sha, Base64Url.Codes(salt), password, attempt);
  }
}
