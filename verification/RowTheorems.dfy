/** What calls do to the rows of the users table, and what that means for mobile numbers. */
module RowTheorems {
  import opened Decimal
  import opened Users
  import opened Database
  import opened Service
  import opened SessionTheorems
  import opened AccountTheorems
  import G = LoginGate
  import C = Captcha

  /** The only other value an operation may give a row. */
  function NextRow(env: Env, op: Op, v: UserEntity): UserEntity {
    match op
    case ResetUserPassword(mobile, _, password, salt) =>
      if v.mobile == mobile then v.(passwordHash := env.hashPassword(salt, password)) else v
    case ChangePassword(uuid, _, password, salt) =>
      if v.uuid == uuid then v.(passwordHash := env.hashPassword(salt, password)) else v
    case UpdateUser(uuid, name) => if v.uuid == uuid && name.Some? then v.(displayName := name.value) else v
    case DeleteAccount(uuid, _) => if v.uuid == uuid then v.(disabled := true) else v
    case SetUserDisabled(uuid, disabled) => if v.uuid == uuid then v.(disabled := disabled) else v
    case _ => v
  }

  /** The only row an operation may add. */
  predicate IsNewRow(env: Env, op: Op, id: int, seconds: int, v: UserEntity) {
    op.RegisterUser?
    && v == UserEntity(id, op.uuid, op.mobile, op.name, env.hashPassword(op.salt, op.password), User, false, seconds)
  }

  predicate Kept(env: Env, op: Op, v: UserEntity, users: seq<UserEntity>) {
    v in users || NextRow(env, op, v) in users
  }

  predicate Explained(env: Env, op: Op, v: UserEntity, users: seq<UserEntity>, id: int, seconds: int) {
    v in users || (exists u :: u in users && v == NextRow(env, op, u)) || IsNewRow(env, op, id, seconds, v)
  }

  predicate RowsFollow(env: Env, op: Op, before: Db, after: Db, seconds: int) {
    && (forall v :: v in before.users ==> Kept(env, op, v, after.users))
    && (forall v :: v in after.users ==> Explained(env, op, v, before.users, before.nextId, seconds))
  }

  lemma UpdateFollows(env: Env, op: Op, db: Db, user: UserEntity, read: UserEntity, seconds: int)
    requires WellKept(db) && read in db.users && user.uuid == read.uuid && user.id == read.id
    requires NextRow(env, op, read) == read.(displayName := user.displayName, passwordHash := user.passwordHash,
                                             disabled := user.disabled, role := user.role)
    ensures RowsFollow(env, op, db, Update(db, user).0, seconds)
  {
    hide Update, Replace, Owned, IdsBelow, NextRow;
    UpdateWrites(db, user, read);
    var row := NextRow(env, op, read);
    ReplacedUsers(db.users, row, read);
    var (db', r) := Update(db, user);
    forall v | v in db.users ensures Kept(env, op, v, db'.users) {
      if r.Ok? && v.uuid == read.uuid { assert v == read; }
    }
  }

  lemma SameRowsFollow(env: Env, op: Op, a: Db, b: Db, c: Db, d: Db, seconds: int)
    requires a.users == b.users && a.nextId == b.nextId && c.users == d.users && RowsFollow(env, op, a, c, seconds)
    ensures RowsFollow(env, op, b, d, seconds)
  {
  }

  lemma UnchangedFollow(env: Env, op: Op, a: Db, b: Db, seconds: int)
    requires a.users == b.users
    ensures RowsFollow(env, op, a, b, seconds)
  {
  }

  lemma ResetFollows(env: Env, w: World, op: Op)
    requires op.ResetUserPassword? && WellKept(w.db)
    ensures RowsFollow(env, op, w.db, Act(env, w, op).0.db, Seconds(w))
  {
    hide C.Verify, G.Clear, FindBy, Update, DeleteByUserId, WellKept, RowsFollow;
    FindKeeps(w.db, Mobile(op.mobile));
    var (db1, found) := FindBy(w.db, Mobile(op.mobile));
    SameTablesSame(w.db, db1);
    UnchangedFollow(env, op, w.db, w.db, Seconds(w));
    UnchangedFollow(env, op, w.db, db1, Seconds(w));
    if found.Ok? {
      var user' := found.value.(passwordHash := env.hashPassword(op.salt, op.password));
      UpdateFollows(env, op, db1, user', found.value, Seconds(w));
      var db2 := Update(db1, user').0;
      DeletionKeepsUsers(db2, found.value.id);
      SameRowsFollow(env, op, db1, w.db, db2, db2, Seconds(w));
      SameRowsFollow(env, op, db1, w.db, db2, DeleteByUserId(db2, found.value.id).0, Seconds(w));
    }
  }

  lemma DeletionKeepsUsers(db: Db, id: int)
    ensures DeleteByUserId(db, id).0.users == db.users && DeleteByUserId(db, id).0.nextId == db.nextId
  {
  }

  lemma ProfileFollows(env: Env, w: World, op: Op)
    requires (op.UpdateUser? || op.ChangePassword?) && WellKept(w.db)
    ensures RowsFollow(env, op, w.db, Act(env, w, op).0.db, Seconds(w))
  {
    hide FindBy, Update, WellKept, RowsFollow;
    FindKeeps(w.db, Uuid(op.uuid));
    var (db1, found) := FindBy(w.db, Uuid(op.uuid));
    SameTablesSame(w.db, db1);
    UnchangedFollow(env, op, w.db, w.db, Seconds(w));
    UnchangedFollow(env, op, w.db, db1, Seconds(w));
    if found.Ok? && (op.UpdateUser? ==> op.newName.Some?) {
      var user' := if op.ChangePassword? then found.value.(passwordHash := env.hashPassword(op.salt, op.password))
                   else found.value.(displayName := op.newName.value);
      UpdateFollows(env, op, db1, user', found.value, Seconds(w));
      SameRowsFollow(env, op, db1, w.db, Update(db1, user').0, Update(db1, user').0, Seconds(w));
    }
  }

  lemma DeletionFollows(env: Env, w: World, op: Op)
    requires op.DeleteAccount? && WellKept(w.db)
    ensures RowsFollow(env, op, w.db, Act(env, w, op).0.db, Seconds(w))
  {
    hide C.Verify, FindBy, Update, DeleteByUserId, ToString, WellKept, RowsFollow;
    FindKeeps(w.db, Uuid(op.uuid));
    var (db1, found) := FindBy(w.db, Uuid(op.uuid));
    SameTablesSame(w.db, db1);
    UnchangedFollow(env, op, w.db, w.db, Seconds(w));
    UnchangedFollow(env, op, w.db, db1, Seconds(w));
    if found.Ok? {
      var user := found.value;
      var db2 := DeleteByUserId(db1, user.id).0;
      DeletionKeepsUsers(db1, user.id);
      DeleteKeeps(db1, user.id);
      var user' := user.(disabled := true, mobile := "deleted_" + ToString(user.id) + "_" + user.mobile);
      UpdateFollows(env, op, db2, user', user, Seconds(w));
      SameRowsFollow(env, op, db2, w.db, Update(db2, user').0, Update(db2, user').0, Seconds(w));
    }
  }

  lemma SwitchFollows(env: Env, w: World, op: Op)
    requires op.SetUserDisabled? && WellKept(w.db)
    ensures RowsFollow(env, op, w.db, Act(env, w, op).0.db, Seconds(w))
  {
    hide FindBy, Update, DeleteByUserId, WellKept, RowsFollow;
    FindKeeps(w.db, Uuid(op.uuid));
    var (db1, found) := FindBy(w.db, Uuid(op.uuid));
    SameTablesSame(w.db, db1);
    UnchangedFollow(env, op, w.db, w.db, Seconds(w));
    UnchangedFollow(env, op, w.db, db1, Seconds(w));
    if found.Ok? {
      var user' := found.value.(disabled := op.disabled);
      UpdateFollows(env, op, db1, user', found.value, Seconds(w));
      var db2 := Update(db1, user').0;
      DeletionKeepsUsers(db2, found.value.id);
      SameRowsFollow(env, op, db1, w.db, db2, db2, Seconds(w));
      SameRowsFollow(env, op, db1, w.db, db2, DeleteByUserId(db2, found.value.id).0, Seconds(w));
    }
  }

  lemma CreateAdds(db: Db, row: UserEntity, now: int)
    ensures var users' := Create(db, row, now).0.users;
            users' == db.users || users' == db.users + [row.(id := db.nextId, disabled := false, createdAt := now)]
  {
    hide First;
  }

  lemma SaveKeepsUsers(env: Env, db: Db, userId: int, token: string, now: int)
    ensures StoreRefreshToken(env, db, userId, token, now).users == db.users
  {
    hide First;
  }

  lemma RegisterFollows(env: Env, w: World, op: Op)
    requires op.RegisterUser?
    ensures RowsFollow(env, op, w.db, Act(env, w, op).0.db, Seconds(w))
  {
    hide C.Verify, Create, StoreRefreshToken;
    var row := UserEntity(0, op.uuid, op.mobile, op.name, env.hashPassword(op.salt, op.password), User, false, 0);
    CreateAdds(w.db, row, Seconds(w));
    var (db, created) := Create(w.db, row, Seconds(w));
    if created.Ok? {
      SaveKeepsUsers(env, db, created.value.id, env.refresh(created.value.id, w.redis.now, op.draws.1), Seconds(w));
    }
  }

  lemma LoginsKeepUsers(env: Env, w: World, op: Op)
    requires op.LoginByPassword? || op.LoginByCode?
    ensures Act(env, w, op).0.db.users == w.db.users
  {
    hide C.Verify, G.Check, G.Record, G.Clear, FindBy, StoreRefreshToken;
    FindKeeps(w.db, Mobile(op.mobile));
    var (db, found) := FindBy(w.db, Mobile(op.mobile));
    if found.Ok? {
      SaveKeepsUsers(env, db, found.value.id, env.refresh(found.value.id, w.redis.now, op.draws.1), Seconds(w));
    }
  }

  lemma RefreshKeepsUsers(env: Env, w: World, op: Op)
    requires op.RefreshToken?
    ensures Act(env, w, op).0.db.users == w.db.users
  {
    hide First, Stoll;
  }

  lemma OthersKeepUsers(env: Env, w: World, op: Op)
    requires op.Tick? || op.SendVerifyCode? || op.Logout? || op.LogoutAll? || op.QueryToken? || op.QueryCount?
             || op.Cleanup?
    ensures Act(env, w, op).0.db.users == w.db.users
  {
    hide First, C.Send, ActiveSessions;
  }

  /** Under any faults, every row of the table stays or becomes what its own call makes of it,
      and every row after a call comes from one before or is the one being registered. */
  lemma StepFollows(env: Env, w: World, call: Call)
    requires WellKept(w.db)
    ensures RowsFollow(env, call.op, w.db, Step(env, w, call).0.db, Seconds(w))
  {
    hide Act, RowsFollow, WellKept;
    var w0 := World(w.redis.(faults := call.redisFaults), w.db.(faults := call.dbFaults));
    SameTablesSame(w.db, w0.db);
    var after := Act(env, w0, call.op).0.db;
    assert RowsFollow(env, call.op, w0.db, after, Seconds(w0)) by {
      match call.op {
        case RegisterUser(_, _, _, _, _, _, _) => RegisterFollows(env, w0, call.op);
        case ResetUserPassword(_, _, _, _) => ResetFollows(env, w0, call.op);
        case UpdateUser(_, _) => ProfileFollows(env, w0, call.op);
        case ChangePassword(_, _, _, _) => ProfileFollows(env, w0, call.op);
        case DeleteAccount(_, _) => DeletionFollows(env, w0, call.op);
        case SetUserDisabled(_, _) => SwitchFollows(env, w0, call.op);
        case LoginByPassword(_, _, _) =>
          LoginsKeepUsers(env, w0, call.op);
          UnchangedFollow(env, call.op, w0.db, after, Seconds(w0));
        case LoginByCode(_, _, _) =>
          LoginsKeepUsers(env, w0, call.op);
          UnchangedFollow(env, call.op, w0.db, after, Seconds(w0));
        case RefreshToken(_, _) =>
          RefreshKeepsUsers(env, w0, call.op);
          UnchangedFollow(env, call.op, w0.db, after, Seconds(w0));
        case _ =>
          OthersKeepUsers(env, w0, call.op);
          UnchangedFollow(env, call.op, w0.db, after, Seconds(w0));
      }
    }
    SameRowsFollow(env, call.op, w0.db, w.db, after, Step(env, w, call).0.db, Seconds(w));
  }

  // ---------------------------------------------------------------------
  // Mobile numbers.
  // ---------------------------------------------------------------------

  predicate Taken(users: seq<UserEntity>, mobile: string) {
    exists u :: u in users && u.mobile == mobile
  }

  lemma NextRowKeepsMobile(env: Env, op: Op, v: UserEntity)
    ensures var u := NextRow(env, op, v); u.mobile == v.mobile && u.uuid == v.uuid && u.id == v.id && u.role == v.role
  {
  }

  lemma TakenStays(env: Env, w: World, call: Call, mobile: string)
    requires WellKept(w.db) && Taken(w.db.users, mobile)
    ensures Taken(Step(env, w, call).0.db.users, mobile)
  {
    hide Step, NextRow, WellKept;
    StepFollows(env, w, call);
    var u :| u in w.db.users && u.mobile == mobile;
    NextRowKeepsMobile(env, call.op, u);
    assert Kept(env, call.op, u, Step(env, w, call).0.db.users);
  }

  lemma TakenIsNotRegistered(env: Env, w: World, call: Call)
    requires call.op.RegisterUser? && Taken(w.db.users, call.op.mobile)
    ensures !Step(env, w, call).1.LoggedIn?
  {
    hide C.Verify, First, StoreRefreshToken;
    var u :| u in w.db.users && u.mobile == call.op.mobile;
    FirstFinds(w.db.users, Mobile(call.op.mobile), u);
  }

  /** A number in use stays in use: whatever is called, deleting its account included, nobody
      can register with it again. */
  lemma {:induction false} NumbersAreNeverFreed(env: Env, w: World, calls: seq<Call>, mobile: string, i: nat, j: nat)
    requires i <= j < |calls| && WellKept(w.db) && Taken(Before(env, w, calls, i).db.users, mobile)
    ensures Taken(Before(env, w, calls, j).db.users, mobile)
    ensures calls[j].op.RegisterUser? && calls[j].op.mobile == mobile ==> !AnswerAt(env, w, calls, j).LoggedIn?
    decreases j
  {
    hide Step, WellKept, Taken, Before, AnswerAt;
    if i < j {
      NumbersAreNeverFreed(env, w, calls, mobile, i, j - 1);
      TablesStayWellKept(env, w, calls, j - 1);
      NextOf(env, w, calls, {}, j - 1);
      TakenStays(env, Before(env, w, calls, j - 1), calls[j - 1], mobile);
    }
    NextOf(env, w, calls, {}, j);
    if calls[j].op.RegisterUser? && calls[j].op.mobile == mobile {
      TakenIsNotRegistered(env, Before(env, w, calls, j), calls[j]);
    }
  }

  // ---------------------------------------------------------------------
  // Password hashes stay inside.
  // ---------------------------------------------------------------------

  predicate ShowsNoPassword(answer: Answer) {
    (answer.LoggedIn? || answer.Updated?) ==> answer.user.passwordHash == ""
  }

  lemma AnswersHidePasswords(env: Env, w: World, op: Op)
    ensures ShowsNoPassword(Act(env, w, op).1)
  {
    hide C.Verify, C.Send, G.Check, G.Record, G.Clear, FindBy, ExistsBy, Create, Update, StoreRefreshToken,
         IsTokenValid,
         DeleteByUserId, DeleteByTokenHash, CountActiveSessionsByUserId, CleanExpiredTokens, Stoll, ToString;
  }
}
