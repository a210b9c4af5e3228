/** AuthService and UserService on the Redis store and the two tables. Hashing, token
    signing and validators are arbitrary functions; random draws are arguments. */
module Service {
  import opened Outcome
  import opened Decimal
  import opened Users
  import opened Redis
  import opened Keys
  import opened Database
  import G = LoginGate
  import C = Captcha

  datatype Env = Env(
    login: G.LoginConfig,
    sms: C.SmsConfig,
    accessTtl: int,
    refreshTtl: int,
    validMobile: string -> bool,
    validPassword: string -> bool,
    validCode: string -> bool,
    validName: string -> bool,
    hashPassword: (string, string) -> string,
    verifyPassword: (string, string) -> bool,
    access: (UserEntity, int, int) -> string,
    refresh: (int, int, int) -> string,
    parse: (string, int) -> Result<string>,
    hash: string -> string)

  /** The one clock counts milliseconds. */
  datatype World = World(redis: Store, db: Db)

  /** NOW() of the database. */
  function Seconds(w: World): int {
    w.redis.now / 1000
  }

  datatype Op =
    | Tick(ms: nat)
    | SendVerifyCode(scene: Scene, mobile: string, code: string, delivered: bool)
    | RegisterUser(mobile: string, code: string, password: string, name: string, uuid: string, salt: string,
      draws: (int, int))
    | LoginByPassword(mobile: string, password: string, draws: (int, int))
    | LoginByCode(mobile: string, code: string, draws: (int, int))
    | ResetUserPassword(mobile: string, code: string, password: string, salt: string)
    | RefreshToken(token: string, draws: (int, int))
    | Logout(token: string)
    | LogoutAll(uuid: string)
    | UpdateUser(uuid: string, newName: Option<string>)
    | ChangePassword(uuid: string, oldPassword: string, password: string, salt: string)
    | DeleteAccount(uuid: string, code: string)
    | SetUserDisabled(uuid: string, disabled: bool)
    | QueryToken(hash: string)
    | QueryCount(userId: int)
    | Cleanup

  datatype Answer =
    | Failed(code: ErrorCode)
    | Thrown
    | Done
    | Sent(seconds: int)
    | LoggedIn(user: UserEntity, tokens: TokenPair)
    | Refreshed(tokens: TokenPair)
    | Updated(user: UserEntity)
    | Valid(valid: bool)
    | Count(count: int)

  function GenerateTokenPair(env: Env, user: UserEntity, now: int, draws: (int, int)): TokenPair {
    TokenPair(env.access(user, now, draws.0), env.refresh(user.id, now, draws.1), env.accessTtl)
  }

  /** StoreRefreshToken; its callers ignore a failure. */
  function StoreRefreshToken(env: Env, db: Db, userId: int, token: string, seconds: int): Db {
    SaveRefreshToken(db, userId, env.hash(token), env.refreshTtl, seconds).0
  }

  function Send(env: Env, w: World, scene: Scene, mobile: string, code: string, delivered: bool): (World, Answer) {
    var (r, sent) := C.Send(w.redis, env.sms, scene, mobile, code, delivered);
    (w.(redis := r), match sent case Ok(seconds) => Sent(seconds) case Fail(code) => Failed(code))
  }

  function SendStep(env: Env, w: World, scene: Scene, mobile: string, code: string, delivered: bool): (World, Answer) {
    if !env.validMobile(mobile) then (w, Failed(InvalidArgument))
    else if scene.Unknown? then Send(env, w, scene, mobile, code, delivered)
    else
      var (db, exists_) := ExistsBy(w.db, Mobile(mobile));
      var w1 := w.(db := db);
      match exists_
      case Fail(code) => (w1, Failed(code))
      case Ok(found) =>
        if scene.Register? && found then (w1, Failed(MobileTaken))
        else if !scene.Register? && !found then (w1, Failed(UserNotFound))
        else Send(env, w1, scene, mobile, code, delivered)
  }

  function RegisterStep(env: Env, w: World, op: Op): (World, Answer)
    requires op.RegisterUser?
  {
    if !env.validMobile(op.mobile) || !env.validPassword(op.password) || !env.validCode(op.code)
      || !env.validName(op.name)
    then (w, Failed(InvalidArgument))
    else
      var (r, verified) := C.Verify(w.redis, env.sms, Register, op.mobile, op.code);
      match verified
      case Fail(code) => (w.(redis := r), Failed(code))
      case Ok(_) =>
        var row := UserEntity(0, op.uuid, op.mobile, op.name, env.hashPassword(op.salt, op.password), User, false, 0);
        var (db, created) := Create(w.db, row, Seconds(w));
        match created
        case Fail(code) => (World(r, db), Failed(code))
        case Ok(user) =>
          var tokens := GenerateTokenPair(env, user, w.redis.now, op.draws);
          (World(r, StoreRefreshToken(env, db, user.id, tokens.refresh, Seconds(w))), LoggedIn(Hidden(user), tokens))
  }

  function PasswordStep(env: Env, w: World, mobile: string, password: string, draws: (int, int)): (World, Answer) {
    if !env.validMobile(mobile) || !env.validPassword(password) then (w, Failed(InvalidArgument))
    else
      var (r, gate) := G.Check(w.redis, env.login, mobile);
      if gate == G.Locked then (w.(redis := r), Failed(AccountLocked))
      else if gate == G.Thrown then (w.(redis := r), Thrown)
      else
        var (db, found) := FindBy(w.db, Mobile(mobile));
        match found
        case Fail(code) =>
          if code == UserNotFound then (World(G.Record(r, env.login, mobile), db), Failed(WrongPassword))
          else (World(r, db), Failed(code))
        case Ok(user) =>
          if user.disabled then (World(r, db), Failed(UserDisabled))
          else if !env.verifyPassword(password, user.passwordHash) then
            (World(G.Record(r, env.login, mobile), db), Failed(WrongPassword))
          else
            var tokens := GenerateTokenPair(env, user, w.redis.now, draws);
            (World(G.Clear(r, mobile), StoreRefreshToken(env, db, user.id, tokens.refresh, Seconds(w))),
             LoggedIn(Hidden(user), tokens))
  }

  function CodeStep(env: Env, w: World, mobile: string, code: string, draws: (int, int)): (World, Answer) {
    if !env.validMobile(mobile) || !env.validCode(code) then (w, Failed(InvalidArgument))
    else
      var (r, verified) := C.Verify(w.redis, env.sms, Login, mobile, code);
      match verified
      case Fail(code) => (w.(redis := r), Failed(code))
      case Ok(_) =>
        var (db, found) := FindBy(w.db, Mobile(mobile));
        match found
        case Fail(code) => (World(r, db), Failed(code))
        case Ok(user) =>
          if user.disabled then (World(r, db), Failed(UserDisabled))
          else
            var tokens := GenerateTokenPair(env, user, w.redis.now, draws);
            (World(G.Clear(r, mobile), StoreRefreshToken(env, db, user.id, tokens.refresh, Seconds(w))),
             LoggedIn(Hidden(user), tokens))
  }

  /** ResetPassword: a failed revocation is only logged. */
  function ResetStep(env: Env, w: World, mobile: string, code: string, password: string, salt: string): (World,
      Answer) {
    if !env.validMobile(mobile) || !env.validCode(code) || !env.validPassword(password)
    then (w, Failed(InvalidArgument))
    else
      var (r, verified) := C.Verify(w.redis, env.sms, ResetPassword, mobile, code);
      match verified
      case Fail(code) => (w.(redis := r), Failed(code))
      case Ok(_) =>
        var (db1, found) := FindBy(w.db, Mobile(mobile));
        match found
        case Fail(code) => (World(r, db1), Failed(code))
        case Ok(user) =>
          var (db2, updated) := Update(db1, user.(passwordHash := env.hashPassword(salt, password)));
          match updated
          case Fail(code) => (World(r, db2), Failed(code))
          case Ok(_) => (World(G.Clear(r, mobile), DeleteByUserId(db2, user.id).0), Done)
  }

  /** RefreshToken: the deletion of the old hash and the storing of the new one may fail
      unnoticed. */
  function RefreshStep(env: Env, w: World, token: string, draws: (int, int)): (World, Answer) {
    if token == "" then (w, Failed(InvalidArgument))
    else
      match env.parse(token, w.redis.now)
      case Fail(code) => (w, Failed(code))
      case Ok(subject) =>
        match Stoll(subject)
        case None => (w, Thrown)
        case Some(userId) => RedeemStep(env, w, token, userId, draws)
  }

  function RedeemStep(env: Env, w: World, token: string, userId: int, draws: (int, int)): (World, Answer) {
    var (db1, found) := FindBy(w.db, Id(userId));
    match found
    case Fail(code) => (w.(db := db1), Failed(code))
    case Ok(user) =>
      if user.disabled then (w.(db := db1), Failed(UserDisabled))
      else
        var hash := env.hash(token);
        var (db2, valid) := IsTokenValid(db1, hash, Seconds(w));
        match valid
        case Fail(code) => (w.(db := db2), Failed(code))
        case Ok(present) =>
          if !present then (w.(db := db2), Failed(TokenRevoked))
          else
            var db3 := DeleteByTokenHash(db2, hash).0;
            var tokens := GenerateTokenPair(env, user, w.redis.now, draws);
            (w.(db := StoreRefreshToken(env, db3, userId, tokens.refresh, Seconds(w))), Refreshed(tokens))
  }

  function LogoutStep(env: Env, w: World, token: string): (World, Answer) {
    if token == "" then (w, Done) else (w.(db := DeleteByTokenHash(w.db, env.hash(token)).0), Done)
  }

  function LogoutAllStep(env: Env, w: World, uuid: string): (World, Answer) {
    var (db1, found) := FindBy(w.db, Uuid(uuid));
    match found
    case Fail(code) => (w.(db := db1), Failed(code))
    case Ok(user) => (w.(db := DeleteByUserId(db1, user.id).0), Done)
  }

  function UpdateStep(env: Env, w: World, uuid: string, name: Option<string>): (World, Answer) {
    if uuid == "" then (w, Failed(InvalidArgument))
    else
      var (db1, found) := FindBy(w.db, Uuid(uuid));
      var w1 := w.(db := db1);
      match found
      case Fail(code) => (w1, Failed(code))
      case Ok(user) =>
        if user.disabled then (w1, Failed(UserDisabled))
        else if name.None? then (w1, Updated(Hidden(user)))
        else if !env.validName(name.value) then (w1, Failed(InvalidArgument))
        else
          var renamed := user.(displayName := name.value);
          var (db2, updated) := Update(db1, renamed);
          (w.(db := db2), match updated case Fail(code) => Failed(code) case Ok(_) => Updated(Hidden(renamed)))
  }

  function ChangeStep(env: Env, w: World, uuid: string, oldPassword: string, password: string, salt: string): (World,
      Answer) {
    if uuid == "" || !env.validPassword(oldPassword) || !env.validPassword(password) || oldPassword == password
    then (w, Failed(InvalidArgument))
    else
      var (db1, found) := FindBy(w.db, Uuid(uuid));
      var w1 := w.(db := db1);
      match found
      case Fail(code) => (w1, Failed(code))
      case Ok(user) =>
        if user.disabled then (w1, Failed(UserDisabled))
        else if !env.verifyPassword(oldPassword, user.passwordHash) then (w1, Failed(WrongPassword))
        else
          var (db2, updated) := Update(db1, user.(passwordHash := env.hashPassword(salt, password)));
          (w.(db := db2), match updated case Fail(code) => Failed(code) case Ok(_) => Done)
  }

  /** DeleteUser: sessions first, then the disabled mark; the renamed mobile is not written. */
  function DeleteStep(env: Env, w: World, uuid: string, code: string): (World, Answer) {
    if uuid == "" || !env.validCode(code) then (w, Failed(InvalidArgument))
    else
      var (db1, found) := FindBy(w.db, Uuid(uuid));
      match found
      case Fail(code) => (w.(db := db1), Failed(code))
      case Ok(user) =>
        var (r, verified) := C.Verify(w.redis, env.sms, DeleteUser, user.mobile, code);
        match verified
        case Fail(code) => (World(r, db1), Failed(code))
        case Ok(_) =>
          var db2 := DeleteByUserId(db1, user.id).0;
          var (db3, updated) := Update(db2, user.(disabled := true,
                                  mobile := "deleted_" + ToString(user.id) + "_" + user.mobile));
          (World(r, db3), match updated case Fail(code) => Failed(code) case Ok(_) => Done)
  }

  function DisableStep(env: Env, w: World, uuid: string, disabled: bool): (World, Answer) {
    if uuid == "" then (w, Failed(InvalidArgument))
    else
      var (db1, found) := FindBy(w.db, Uuid(uuid));
      match found
      case Fail(code) => (w.(db := db1), Failed(code))
      case Ok(user) =>
        if user.disabled == disabled then (w.(db := db1), Done)
        else
          var (db2, updated) := Update(db1, user.(disabled := disabled));
          match updated
          case Fail(code) => (w.(db := db2), Failed(code))
          case Ok(_) => (w.(db := if disabled then DeleteByUserId(db2, user.id).0 else db2), Done)
  }

  function Act(env: Env, w: World, op: Op): (World, Answer) {
    match op
    case Tick(ms) => (w.(redis := Elapse(w.redis, ms)), Done)
    case SendVerifyCode(scene, mobile, code, delivered) => SendStep(env, w, scene, mobile, code, delivered)
    case RegisterUser(_, _, _, _, _, _, _) => RegisterStep(env, w, op)
    case LoginByPassword(mobile, password, draws) => PasswordStep(env, w, mobile, password, draws)
    case LoginByCode(mobile, code, draws) => CodeStep(env, w, mobile, code, draws)
    case ResetUserPassword(mobile, code, password, salt) => ResetStep(env, w, mobile, code, password, salt)
    case RefreshToken(token, draws) => RefreshStep(env, w, token, draws)
    case Logout(token) => LogoutStep(env, w, token)
    case LogoutAll(uuid) => LogoutAllStep(env, w, uuid)
    case UpdateUser(uuid, name) => UpdateStep(env, w, uuid, name)
    case ChangePassword(uuid, oldPassword, password, salt) => ChangeStep(env, w, uuid, oldPassword, password, salt)
    case DeleteAccount(uuid, code) => DeleteStep(env, w, uuid, code)
    case SetUserDisabled(uuid, disabled) => DisableStep(env, w, uuid, disabled)
    case QueryToken(hash) =>
      var (db, valid) := IsTokenValid(w.db, hash, Seconds(w));
      (w.(db := db), match valid case Fail(code) => Failed(code) case Ok(b) => Valid(b))
    case QueryCount(userId) =>
      var (db, count) := CountActiveSessionsByUserId(w.db, userId, Seconds(w));
      (w.(db := db), match count case Fail(code) => Failed(code) case Ok(n) => Count(n))
    case Cleanup => (w.(db := CleanExpiredTokens(w.db, Seconds(w)).0), Done)
  }

  /** An operation, and which of its Redis commands and repository calls fail. */
  datatype Call = Call(op: Op, redisFaults: seq<bool>, dbFaults: seq<bool>)

  function Step(env: Env, w: World, call: Call): (World, Answer) {
    var w0 := World(w.redis.(faults := call.redisFaults), w.db.(faults := call.dbFaults));
    var (w', answer) := Act(env, w0, call.op);
    (World(w'.redis.(faults := []), w'.db.(faults := [])), answer)
  }

  function After(env: Env, w: World, calls: seq<Call>): World {
    if calls == [] then w
    else Step(env, After(env, w, calls[..|calls| - 1]), calls[|calls| - 1]).0
  }

  function AnswerAt(env: Env, w: World, calls: seq<Call>, i: nat): Answer
    requires i < |calls|
  {
    Step(env, After(env, w, calls[..i]), calls[i]).1
  }
}
