/** What every success of the services presupposes and leaves, whatever commands and
    statements fail in the call. */
module CredentialTheorems {
  import opened Outcome
  import opened Decimal
  import opened Users
  import opened Redis
  import opened Keys
  import opened Database
  import opened Service
  import opened AccountTheorems
  import F = FaultTheorems
  import G = LoginGate
  import C = Captcha

  /** A captcha can be accepted: no lock stands, and this code is stored and alive. */
  predicate CaptchaLive(r: Store, scene: Scene, mobile: string, code: string) {
    var stored := Live(r, C.CaptchaKey(scene, mobile));
    Live(r, C.LockKey(scene, mobile)).None? && stored.Some? && stored.value.value == code
  }

  lemma VerifiedIsLive(r: Store, faults: seq<bool>, cfg: C.SmsConfig, scene: Scene, mobile: string, code: string)
    requires C.Verify(r.(faults := faults), cfg, scene, mobile, code).1.Ok?
    ensures CaptchaLive(r, scene, mobile, code)
  {
    hide C.Verify, C.CaptchaKey, C.LockKey;
    assert C.Verify(r.(faults := faults), cfg, scene, mobile, code).1.value == ();
    F.VerifyReads(r.(faults := faults), cfg, scene, mobile, code);
  }

  /** The row of an enabled user. */
  predicate EnabledRow(db: Db, u: UserEntity) {
    u in db.users && !u.disabled
  }

  // The world an operation starts in.
  function Begun(w: World, call: Call): World {
    World(w.redis.(faults := call.redisFaults), w.db.(faults := call.dbFaults))
  }

  // ---------------------------------------------------------------------
  // Nobody gets in without credentials.
  // ---------------------------------------------------------------------

  lemma PasswordLoginNeeds(env: Env, w: World, call: Call) returns (u: UserEntity)
    requires call.op.LoginByPassword? && Step(env, w, call).1.LoggedIn?
    ensures EnabledRow(w.db, u) && u.mobile == call.op.mobile && Step(env, w, call).1.user == Hidden(u)
    ensures env.verifyPassword(call.op.password, u.passwordHash)
    ensures env.validMobile(call.op.mobile) && env.validPassword(call.op.password)
  {
    hide G.Check, G.Record, G.Clear, FindBy, StoreRefreshToken;
    var w0 := Begun(w, call);
    FindKeeps(w0.db, Mobile(call.op.mobile));
    u := FindBy(w0.db, Mobile(call.op.mobile)).1.value;
  }

  lemma CodeLoginNeeds(env: Env, w: World, call: Call) returns (u: UserEntity)
    requires call.op.LoginByCode? && Step(env, w, call).1.LoggedIn?
    ensures EnabledRow(w.db, u) && u.mobile == call.op.mobile && Step(env, w, call).1.user == Hidden(u)
    ensures CaptchaLive(w.redis, Login, call.op.mobile, call.op.code)
    ensures env.validMobile(call.op.mobile) && env.validCode(call.op.code)
  {
    hide C.Verify, G.Clear, FindBy, StoreRefreshToken, CaptchaLive;
    var w0 := Begun(w, call);
    FindKeeps(w0.db, Mobile(call.op.mobile));
    VerifiedIsLive(w.redis, call.redisFaults, env.sms, Login, call.op.mobile, call.op.code);
    u := FindBy(w0.db, Mobile(call.op.mobile)).1.value;
  }

  lemma RegistrationNeeds(env: Env, w: World, call: Call)
    requires call.op.RegisterUser? && Step(env, w, call).1.LoggedIn?
    ensures CaptchaLive(w.redis, Register, call.op.mobile, call.op.code)
    ensures forall u :: u in w.db.users ==> u.mobile != call.op.mobile && u.uuid != call.op.uuid
    ensures env.validMobile(call.op.mobile) && env.validPassword(call.op.password)
    ensures env.validCode(call.op.code) && env.validName(call.op.name)
  {
    hide C.Verify, Create, StoreRefreshToken, CaptchaLive;
    var op := call.op;
    var row := UserEntity(0, op.uuid, op.mobile, op.name, env.hashPassword(op.salt, op.password), User, false, 0);
    CreatedIsNew(Begun(w, call).db, row, Seconds(w));
    VerifiedIsLive(w.redis, call.redisFaults, env.sms, Register, op.mobile, op.code);
  }

  lemma CreatedIsNew(db: Db, row: UserEntity, now: int)
    ensures Create(db, row, now).1.Ok? ==> forall u :: u in db.users ==> u.mobile != row.mobile && u.uuid != row.uuid
  {
    hide FindBy;
    if First(db.users, Uuid(row.uuid)).None? && First(db.users, Mobile(row.mobile)).None? {
      forall u | u in db.users ensures u.mobile != row.mobile && u.uuid != row.uuid {
        assert !Matches(u, Uuid(row.uuid)) && !Matches(u, Mobile(row.mobile));
      }
    }
  }

  lemma ResetNeeds(env: Env, w: World, call: Call) returns (u: UserEntity)
    requires call.op.ResetUserPassword? && Step(env, w, call).1.Done?
    ensures u in w.db.users && u.mobile == call.op.mobile
    ensures CaptchaLive(w.redis, ResetPassword, call.op.mobile, call.op.code)
    ensures env.validMobile(call.op.mobile) && env.validCode(call.op.code) && env.validPassword(call.op.password)
  {
    hide C.Verify, G.Clear, FindBy, Update, DeleteByUserId, CaptchaLive;
    var w0 := Begun(w, call);
    FindKeeps(w0.db, Mobile(call.op.mobile));
    VerifiedIsLive(w.redis, call.redisFaults, env.sms, ResetPassword, call.op.mobile, call.op.code);
    u := FindBy(w0.db, Mobile(call.op.mobile)).1.value;
  }

  lemma DeletionNeeds(env: Env, w: World, call: Call) returns (u: UserEntity)
    requires call.op.DeleteAccount? && Step(env, w, call).1.Done?
    ensures u in w.db.users && u.uuid == call.op.uuid
    ensures CaptchaLive(w.redis, DeleteUser, u.mobile, call.op.code)
    ensures call.op.uuid != "" && env.validCode(call.op.code)
  {
    hide C.Verify, FindBy, Update, DeleteByUserId, CaptchaLive, ToString;
    var w0 := Begun(w, call);
    FindKeeps(w0.db, Uuid(call.op.uuid));
    u := FindBy(w0.db, Uuid(call.op.uuid)).1.value;
    VerifiedIsLive(w.redis, call.redisFaults, env.sms, DeleteUser, u.mobile, call.op.code);
  }

  lemma ChangeNeeds(env: Env, w: World, call: Call) returns (u: UserEntity)
    requires call.op.ChangePassword? && Step(env, w, call).1.Done?
    ensures EnabledRow(w.db, u) && u.uuid == call.op.uuid && env.verifyPassword(call.op.oldPassword, u.passwordHash)
    ensures env.validPassword(call.op.oldPassword) && env.validPassword(call.op.password)
    ensures call.op.oldPassword != call.op.password
  {
    hide FindBy, Update;
    var w0 := Begun(w, call);
    FindKeeps(w0.db, Uuid(call.op.uuid));
    u := FindBy(w0.db, Uuid(call.op.uuid)).1.value;
  }

  lemma RefreshNeeds(env: Env, w: World, call: Call) returns (u: UserEntity)
    requires call.op.RefreshToken? && Step(env, w, call).1.Refreshed?
    ensures env.parse(call.op.token, w.redis.now).Ok?
    ensures EnabledRow(w.db, u) && Stoll(env.parse(call.op.token, w.redis.now).value) == Some(u.id)
    ensures var h := env.hash(call.op.token); h in w.db.sessions && Seconds(w) < w.db.sessions[h].expiresAt
  {
    hide FindBy, Stoll, StoreRefreshToken, DeleteByTokenHash;
    var w0 := Begun(w, call);
    var id := Stoll(env.parse(call.op.token, w.redis.now).value).value;
    FindKeeps(w0.db, Id(id));
    u := FindBy(w0.db, Id(id)).1.value;
  }

  // ---------------------------------------------------------------------
  // What a success leaves in the users table.
  // ---------------------------------------------------------------------

  /** The table holds this row. */
  predicate Holds(w: World, row: UserEntity) {
    row in w.db.users
  }

  lemma WrittenRow(db: Db, user: UserEntity, read: UserEntity)
    requires WellKept(db) && read in db.users && user.uuid == read.uuid && user.id == read.id && Update(db, user).1.Ok?
    ensures read.(displayName := user.displayName, passwordHash := user.passwordHash,
                  disabled := user.disabled, role := user.role) in Update(db, user).0.users
  {
    hide Update, Replace, Owned, IdsBelow;
    UpdateWrites(db, user, read);
    ReplacedUsers(db.users, read.(displayName := user.displayName, passwordHash := user.passwordHash,
                                  disabled := user.disabled, role := user.role), read);
  }

  lemma SwitchingSets(env: Env, w: World, call: Call, u: UserEntity)
    requires call.op.SetUserDisabled? && Step(env, w, call).1.Done?
    requires WellKept(w.db) && u in w.db.users && u.uuid == call.op.uuid
    ensures Holds(Step(env, w, call).0, u.(disabled := call.op.disabled))
  {
    hide FindBy, Update, DeleteByUserId, WellKept;
    var w0 := Begun(w, call);
    SameTablesSame(w.db, w0.db);
    FoundRow(w0.db, Uuid(u.uuid), u);
    var db1 := FindBy(w0.db, Uuid(u.uuid)).0;
    SameTablesSame(w0.db, db1);
    if u.disabled != call.op.disabled {
      var user := u.(disabled := call.op.disabled);
      WrittenRow(db1, user, u);
      UsersStay(Update(db1, user).0, u.id);
    } else {
      assert u.(disabled := call.op.disabled) == u;
    }
  }

  lemma FoundRow(db: Db, f: Field, u: UserEntity)
    requires WellKept(db) && u in db.users && Matches(u, f)
    ensures var (db', r) := FindBy(db, f); SameTables(db, db') && (r.Ok? ==> r.value == u)
    ensures db.faults == [] ==> FindBy(db, f) == (db, Ok(u))
  {
    hide First, Owned, IdsBelow;
    FirstFinds(db.users, f, u);
  }

  lemma UsersStay(db: Db, id: int)
    ensures DeleteByUserId(db, id).0.users == db.users
  {
  }

  lemma DeletionSets(env: Env, w: World, call: Call, u: UserEntity)
    requires call.op.DeleteAccount? && Step(env, w, call).1.Done?
    requires WellKept(w.db) && u in w.db.users && u.uuid == call.op.uuid
    ensures Holds(Step(env, w, call).0, u.(disabled := true))
  {
    hide C.Verify, FindBy, Update, DeleteByUserId, WellKept, ToString;
    var w0 := Begun(w, call);
    SameTablesSame(w.db, w0.db);
    FoundRow(w0.db, Uuid(u.uuid), u);
    var db1 := FindBy(w0.db, Uuid(u.uuid)).0;
    SameTablesSame(w0.db, db1);
    AccountTheorems.DeleteKeeps(db1, u.id);
    WrittenRow(DeleteByUserId(db1, u.id).0,
               u.(disabled := true, mobile := "deleted_" + ToString(u.id) + "_" + u.mobile), u);
  }

  lemma UpdateSets(env: Env, w: World, call: Call, u: UserEntity)
    requires call.op.UpdateUser? && Step(env, w, call).1.Updated?
    requires WellKept(w.db) && u in w.db.users && u.uuid == call.op.uuid
    ensures var row := if call.op.newName.Some? then u.(displayName := call.op.newName.value) else u;
            Holds(Step(env, w, call).0, row) && Step(env, w, call).1.user == Hidden(row)
    ensures !u.disabled
  {
    hide FindBy, Update, WellKept;
    var w0 := Begun(w, call);
    SameTablesSame(w.db, w0.db);
    FoundRow(w0.db, Uuid(u.uuid), u);
    var db1 := FindBy(w0.db, Uuid(u.uuid)).0;
    SameTablesSame(w0.db, db1);
    if call.op.newName.Some? { WrittenRow(db1, u.(displayName := call.op.newName.value), u); }
  }

  lemma ChangeSets(env: Env, w: World, call: Call, u: UserEntity)
    requires call.op.ChangePassword? && Step(env, w, call).1.Done?
    requires WellKept(w.db) && u in w.db.users && u.uuid == call.op.uuid
    ensures Holds(Step(env, w, call).0, u.(passwordHash := env.hashPassword(call.op.salt, call.op.password)))
  {
    hide FindBy, Update, WellKept;
    var w0 := Begun(w, call);
    SameTablesSame(w.db, w0.db);
    FoundRow(w0.db, Uuid(u.uuid), u);
    var db1 := FindBy(w0.db, Uuid(u.uuid)).0;
    SameTablesSame(w0.db, db1);
    WrittenRow(db1, u.(passwordHash := env.hashPassword(call.op.salt, call.op.password)), u);
  }

  lemma ResetSets(env: Env, w: World, call: Call, u: UserEntity)
    requires call.op.ResetUserPassword? && Step(env, w, call).1.Done?
    requires WellKept(w.db) && u in w.db.users && u.mobile == call.op.mobile
    ensures Holds(Step(env, w, call).0, u.(passwordHash := env.hashPassword(call.op.salt, call.op.password)))
  {
    hide C.Verify, G.Clear, FindBy, Update, DeleteByUserId, WellKept;
    var w0 := Begun(w, call);
    SameTablesSame(w.db, w0.db);
    FoundRow(w0.db, Mobile(u.mobile), u);
    var db1 := FindBy(w0.db, Mobile(u.mobile)).0;
    SameTablesSame(w0.db, db1);
    var user := u.(passwordHash := env.hashPassword(call.op.salt, call.op.password));
    WrittenRow(db1, user, u);
    UsersStay(Update(db1, user).0, u.id);
  }
}
