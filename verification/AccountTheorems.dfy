/** Users and their sessions: a disabled user holds none, and what revokes them. */
module AccountTheorems {
  import opened Outcome
  import opened Decimal
  import opened Users
  import opened Database
  import opened Service
  import opened SessionTheorems
  import G = LoginGate
  import C = Captcha

  // ---------------------------------------------------------------------
  // Disabled users hold no sessions.
  // ---------------------------------------------------------------------

  /** Ids, uuids and mobiles identify users. */
  predicate Distinct(users: seq<UserEntity>) {
    forall u, v :: u in users && v in users && (u.id == v.id || u.uuid == v.uuid || u.mobile == v.mobile) ==> u == v
  }

  predicate IdsBelow(users: seq<UserEntity>, nextId: int) {
    forall u :: u in users ==> u.id < nextId
  }

  predicate HasUser(users: seq<UserEntity>, id: int) {
    exists u :: u in users && u.id == id
  }

  /** Every session belongs to a user. */
  predicate Owned(db: Db) {
    forall h :: h in db.sessions ==> HasUser(db.users, db.sessions[h].userId)
  }

  predicate WellKept(db: Db) {
    Distinct(db.users) && IdsBelow(db.users, db.nextId) && Owned(db)
  }

  /** The user holds no session. */
  predicate Unheld(db: Db, id: int) {
    forall h :: h in db.sessions ==> db.sessions[h].userId != id
  }

  predicate NoneHeld(db: Db) {
    forall u :: u in db.users && u.disabled ==> Unheld(db, u.id)
  }

  // The same, leaving one user out.
  predicate NoneHeldBut(db: Db, id: int) {
    forall u :: u in db.users && u.disabled && u.id != id ==> Unheld(db, u.id)
  }

  /** Two states of the tables that differ in pending faults only. */
  predicate SameTables(a: Db, b: Db) {
    a.users == b.users && a.nextId == b.nextId && a.sessions == b.sessions
  }

  lemma FindKeeps(db: Db, f: Field)
    ensures var (db', r) := FindBy(db, f);
            && SameTables(db, db') && (db.faults == [] ==> db'.faults == [])
            && (r.Ok? ==> r.value in db.users && Matches(r.value, f))
            && (r.Fail? ==> r.code == UserNotFound || r.code == ServiceUnavailable)
  {
  }

  lemma NewIdIsUnheld(db: Db)
    requires WellKept(db)
    ensures Unheld(db, db.nextId)
  {
    forall h | h in db.sessions ensures db.sessions[h].userId != db.nextId {
      assert HasUser(db.users, db.sessions[h].userId);
    }
  }

  lemma FirstFinds(users: seq<UserEntity>, f: Field, u: UserEntity)
    requires u in users && Matches(u, f)
    ensures First(users, f).Some? && First(users, f).value in users && Matches(First(users, f).value, f)
  {
  }

  lemma {:induction false} FirstIsLast(users: seq<UserEntity>, u: UserEntity, f: Field)
    requires First(users, f).None? && Matches(u, f)
    ensures First(users + [u], f) == Some(u)
  {
    if users != [] {
      assert (users + [u])[1..] == users[1..] + [u];
      FirstIsLast(users[1..], u, f);
    }
  }

  lemma AddedUser(users: seq<UserEntity>, nextId: int, u: UserEntity)
    requires Distinct(users) && IdsBelow(users, nextId) && u.id == nextId
    requires First(users, Uuid(u.uuid)).None? && First(users, Mobile(u.mobile)).None?
    ensures Distinct(users + [u]) && IdsBelow(users + [u], nextId + 1)
  {
    assert forall v :: v in users ==> !Matches(v, Uuid(u.uuid)) && !Matches(v, Mobile(u.mobile));
  }

  lemma CreateKeeps(db: Db, row: UserEntity, now: int)
    requires WellKept(db)
    ensures var (db', r) := Create(db, row, now);
            && WellKept(db') && (NoneHeld(db) ==> NoneHeld(db')) && db'.sessions == db.sessions
            && (db.faults == [] ==> db'.faults == [])
            && (r.Ok? ==> r.value in db'.users && !r.value.disabled && Unheld(db', r.value.id))
  {
    hide First, Distinct, IdsBelow;
    var inserted := row.(id := db.nextId, disabled := false, createdAt := now);
    NewIdIsUnheld(db);
    if First(db.users, Uuid(row.uuid)).None? && First(db.users, Mobile(row.mobile)).None? {
      FirstIsLast(db.users, inserted, Uuid(row.uuid));
      AddedUser(db.users, db.nextId, inserted);
      OwnersStay(db, db.users + [inserted]);
    }
  }

  lemma OwnersStay(db: Db, users: seq<UserEntity>)
    requires Owned(db) && forall u :: u in db.users ==> HasUser(users, u.id)
    ensures Owned(db.(users := users))
  {
  }

  lemma ReplacedUsers(users: seq<UserEntity>, row: UserEntity, old_: UserEntity)
    requires old_ in users && old_.uuid == row.uuid
    ensures forall u :: u in Replace(users, row) <==> u == row || (u in users && u.uuid != row.uuid)
  {
    var r := Replace(users, row);
    forall u | u in r ensures u == row || (u in users && u.uuid != row.uuid) {
      var i :| 0 <= i < |r| && r[i] == u;
    }
    forall u | u in users && u.uuid != row.uuid ensures u in r {
      var i :| 0 <= i < |users| && users[i] == u;
      assert r[i] == u;
    }
    var i :| 0 <= i < |users| && users[i] == old_;
    assert r[i] == row;
  }

  lemma ReplacedKeep(db: Db, row: UserEntity, old_: UserEntity)
    requires WellKept(db) && old_ in db.users
    requires old_.uuid == row.uuid && old_.id == row.id && old_.mobile == row.mobile
    ensures WellKept(db.(users := Replace(db.users, row)))
  {
    hide Replace;
    var users' := Replace(db.users, row);
    ReplacedUsers(db.users, row, old_);
    forall u | u in db.users ensures HasUser(users', u.id) {
      if u.uuid == row.uuid { assert row in users'; } else { assert u in users'; }
    }
    OwnersStay(db, users');
  }

  lemma ReplacedNoneHeld(db: Db, row: UserEntity, old_: UserEntity)
    requires Distinct(db.users) && old_ in db.users && old_.uuid == row.uuid && old_.id == row.id && NoneHeld(db)
    ensures NoneHeldBut(db.(users := Replace(db.users, row)), row.id)
    ensures (row.disabled ==> Unheld(db, row.id)) ==> NoneHeld(db.(users := Replace(db.users, row)))
  {
    hide Replace;
    ReplacedUsers(db.users, row, old_);
  }

  lemma UpdateWrites(db: Db, user: UserEntity, read: UserEntity)
    requires Distinct(db.users) && read in db.users && user.uuid == read.uuid && user.id == read.id
    ensures var (db', r) := Update(db, user);
            var row := read.(displayName := user.displayName, passwordHash := user.passwordHash,
                             disabled := user.disabled, role := user.role);
            && (db.faults == [] ==> db'.faults == [])
            && (if r.Ok? then SameTables(db.(users := Replace(db.users, row)), db') else SameTables(db, db'))
            && (!Database.Faulty(db) ==> r.Ok? || row == read)
  {
    hide First, Replace;
    FirstFinds(db.users, Uuid(user.uuid), read);
    assert First(db.users, Uuid(user.uuid)).value == read;
  }

  /** Update, of a user that was read from the tables. */
  lemma UpdateKeeps(db: Db, user: UserEntity, read: UserEntity)
    requires WellKept(db) && read in db.users && user.uuid == read.uuid && user.id == read.id
    ensures var (db', r) := Update(db, user);
            && WellKept(db') && db'.sessions == db.sessions
            && (db.faults == [] ==> db'.faults == [])
            && (NoneHeld(db) ==> NoneHeldBut(db', user.id))
            && (NoneHeld(db) && (user.disabled ==> Unheld(db, user.id)) ==> NoneHeld(db'))
            && (r.Fail? ==> SameTables(db, db'))
            && (r.Ok? ==> forall u :: u in db'.users && u.id == user.id ==> u.disabled == user.disabled)
  {
    hide Update, Replace, Unheld, Owned, IdsBelow;
    UpdateWrites(db, user, read);
    var row := read.(displayName := user.displayName, passwordHash := user.passwordHash,
                     disabled := user.disabled, role := user.role);
    var (db', r) := Update(db, user);
    if r.Ok? {
      var replaced := db.(users := Replace(db.users, row));
      ReplacedKeep(db, row, read);
      if NoneHeld(db) { ReplacedNoneHeld(db, row, read); }
      SameButUsers(db, row, read);
      SameTablesSame(replaced, db');
      UnheldSame(replaced, db');
      UnheldSame(db, replaced);
    } else {
      SameTablesSame(db, db');
      UnheldSame(db, db');
    }
  }

  lemma UnheldSame(a: Db, b: Db)
    requires a.sessions == b.sessions
    ensures forall id :: Unheld(a, id) <==> Unheld(b, id)
  {
  }

  lemma SameButUsers(db: Db, row: UserEntity, old_: UserEntity)
    requires Distinct(db.users) && old_ in db.users && old_.uuid == row.uuid && old_.id == row.id
    ensures forall u :: u in Replace(db.users, row) && u.id == row.id ==> u == row
  {
    hide Replace;
    ReplacedUsers(db.users, row, old_);
  }

  lemma SaveKeeps(db: Db, user: UserEntity, hash: string, ttl: int, now: int)
    requires WellKept(db) && user in db.users && !user.disabled
    ensures var (db', r) := SaveRefreshToken(db, user.id, hash, ttl, now);
            WellKept(db') && (NoneHeld(db) ==> NoneHeld(db'))
  {
    hide First;
    FirstFinds(db.users, Id(user.id), user);
  }

  lemma DeleteKeeps(db: Db, id: int)
    requires WellKept(db)
    ensures var (db', r) := DeleteByUserId(db, id);
            && WellKept(db') && db'.users == db.users
            && (db.faults == [] ==> db'.faults == [])
            && (NoneHeld(db) ==> NoneHeld(db'))
            && (db.faults == [] ==> Unheld(db', id) && (NoneHeldBut(db, id) ==> NoneHeld(db')))
  {
    hide First;
  }

  lemma RemoveKeeps(db: Db, hash: string, now: int)
    requires WellKept(db)
    ensures WellKept(DeleteByTokenHash(db, hash).0) && (NoneHeld(db) ==> NoneHeld(DeleteByTokenHash(db, hash).0))
    ensures DeleteByTokenHash(db, hash).0.users == db.users
    ensures WellKept(CleanExpiredTokens(db, now).0) && (NoneHeld(db) ==> NoneHeld(CleanExpiredTokens(db, now).0))
  {
    hide First;
  }

  lemma SameTablesSame(a: Db, b: Db)
    requires SameTables(a, b)
    ensures WellKept(a) <==> WellKept(b)
    ensures NoneHeld(a) <==> NoneHeld(b)
  {
    hide First;
  }

  /** What a step keeps: the tables stay well kept under any faults, and disabled users stay
      without sessions when the database works. */
  predicate Keeps(db: Db, db': Db) {
    WellKept(db') && (NoneHeld(db) && db.faults == [] ==> NoneHeld(db'))
  }

  lemma RegisterKeeps(env: Env, w: World, op: Op)
    requires op.RegisterUser? && WellKept(w.db)
    ensures Keeps(w.db, RegisterStep(env, w, op).0.db)
  {
    hide C.Verify, Create, SaveRefreshToken, WellKept, NoneHeld, Unheld;
    var row := UserEntity(0, op.uuid, op.mobile, op.name, env.hashPassword(op.salt, op.password), User, false, 0);
    CreateKeeps(w.db, row, Seconds(w));
    var (db, created) := Create(w.db, row, Seconds(w));
    if created.Ok? {
      var tokens := GenerateTokenPair(env, created.value, w.redis.now, op.draws);
      SaveKeeps(db, created.value, env.hash(tokens.refresh), env.refreshTtl, Seconds(w));
    }
  }

  lemma LoginKeeps(env: Env, w: World, f: Field, draws: (int, int))
    requires WellKept(w.db)
    ensures var (db, found) := FindBy(w.db, f);
            && WellKept(db) && (NoneHeld(w.db) ==> NoneHeld(db))
            && (found.Ok? && !found.value.disabled ==>
                  var tokens := GenerateTokenPair(env, found.value, w.redis.now, draws);
                  Keeps(w.db, StoreRefreshToken(env, db, found.value.id, tokens.refresh, Seconds(w))))
  {
    hide FindBy, SaveRefreshToken, WellKept, NoneHeld;
    FindKeeps(w.db, f);
    var (db, found) := FindBy(w.db, f);
    SameTablesSame(w.db, db);
    if found.Ok? && !found.value.disabled {
      var tokens := GenerateTokenPair(env, found.value, w.redis.now, draws);
      SaveKeeps(db, found.value, env.hash(tokens.refresh), env.refreshTtl, Seconds(w));
    }
  }

  lemma LoginsKeep(env: Env, w: World, op: Op)
    requires WellKept(w.db) && (op.LoginByPassword? || op.LoginByCode?)
    ensures Keeps(w.db, Act(env, w, op).0.db)
  {
    hide C.Verify, G.Check, G.Record, G.Clear, FindBy, StoreRefreshToken, WellKept, NoneHeld;
    LoginKeeps(env, w, Mobile(op.mobile), op.draws);
  }

  lemma UpdatedKeeps(db: Db, user: UserEntity, read: UserEntity)
    requires WellKept(db) && read in db.users && user.uuid == read.uuid && user.id == read.id
    requires user.disabled ==> read.disabled
    ensures Keeps(db, Update(db, user).0)
  {
    hide Update, WellKept, NoneHeldBut;
    UpdateKeeps(db, user, read);
  }

  lemma ResetKeeps(env: Env, w: World, op: Op)
    requires WellKept(w.db) && op.ResetUserPassword?
    ensures Keeps(w.db, Act(env, w, op).0.db)
  {
    hide C.Verify, G.Clear, FindBy, Update, DeleteByUserId, NoneHeld, Unheld, NoneHeldBut, WellKept;
    FindKeeps(w.db, Mobile(op.mobile));
    var (db1, found) := FindBy(w.db, Mobile(op.mobile));
    SameTablesSame(w.db, db1);
    if found.Ok? {
      var user' := found.value.(passwordHash := env.hashPassword(op.salt, op.password));
      UpdatedKeeps(db1, user', found.value);
      UpdateKeeps(db1, user', found.value);
      DeleteKeeps(Update(db1, user').0, found.value.id);
    }
  }

  lemma RefreshKeeps(env: Env, w: World, token: string, userId: int, draws: (int, int))
    requires WellKept(w.db)
    ensures Keeps(w.db, RedeemStep(env, w, token, userId, draws).0.db)
  {
    hide FindBy, DeleteByTokenHash, StoreRefreshToken, NoneHeld, Unheld, WellKept;
    FindKeeps(w.db, Id(userId));
    var (db1, found) := FindBy(w.db, Id(userId));
    SameTablesSame(w.db, db1);
    if found.Ok? && !found.value.disabled {
      var hash := env.hash(token);
      var db2 := IsTokenValid(db1, hash, Seconds(w)).0;
      SameTablesSame(db1, db2);
      RemoveKeeps(db2, hash, 0);
      var tokens := GenerateTokenPair(env, found.value, w.redis.now, draws);
      SaveKeeps(DeleteByTokenHash(db2, hash).0, found.value, env.hash(tokens.refresh), env.refreshTtl, Seconds(w));
      assert Matches(found.value, Id(userId));
      StoredIsSaved(env, DeleteByTokenHash(db2, hash).0, userId, tokens.refresh, Seconds(w));
    }
  }

  lemma StoredIsSaved(env: Env, db: Db, userId: int, token: string, seconds: int)
    ensures StoreRefreshToken(env, db, userId, token, seconds)
         == SaveRefreshToken(db, userId, env.hash(token), env.refreshTtl, seconds).0
  {
    hide SaveRefreshToken;
  }

  lemma ProfileKeeps(env: Env, w: World, op: Op)
    requires WellKept(w.db) && (op.UpdateUser? || op.ChangePassword?)
    ensures Keeps(w.db, Act(env, w, op).0.db)
  {
    hide FindBy, Update, NoneHeld, Unheld, WellKept;
    FindKeeps(w.db, Uuid(op.uuid));
    var (db1, found) := FindBy(w.db, Uuid(op.uuid));
    SameTablesSame(w.db, db1);
    if found.Ok? {
      if op.UpdateUser? {
        if op.newName.Some? { UpdatedKeeps(db1, found.value.(displayName := op.newName.value), found.value); }
      } else {
        UpdatedKeeps(db1, found.value.(passwordHash := env.hashPassword(op.salt, op.password)), found.value);
      }
    }
  }

  lemma DeletionKeeps(env: Env, w: World, op: Op)
    requires WellKept(w.db) && op.DeleteAccount?
    ensures Keeps(w.db, Act(env, w, op).0.db)
  {
    hide C.Verify, FindBy, Update, DeleteByUserId, ToString, NoneHeld, Unheld, NoneHeldBut, WellKept;
    FindKeeps(w.db, Uuid(op.uuid));
    var (db1, found) := FindBy(w.db, Uuid(op.uuid));
    SameTablesSame(w.db, db1);
    if found.Ok? {
      var user := found.value;
      DeleteKeeps(db1, user.id);
      UpdateKeeps(DeleteByUserId(db1, user.id).0,
                  user.(disabled := true, mobile := "deleted_" + ToString(user.id) + "_" + user.mobile), user);
    }
  }

  lemma DisableKeeps(env: Env, w: World, op: Op)
    requires WellKept(w.db) && op.SetUserDisabled?
    ensures Keeps(w.db, Act(env, w, op).0.db)
  {
    hide FindBy, Update, DeleteByUserId, NoneHeld, Unheld, NoneHeldBut, WellKept;
    FindKeeps(w.db, Uuid(op.uuid));
    var (db1, found) := FindBy(w.db, Uuid(op.uuid));
    SameTablesSame(w.db, db1);
    if found.Ok? {
      var user' := found.value.(disabled := op.disabled);
      UpdateKeeps(db1, user', found.value);
      if Update(db1, user').1.Fail? { SameTablesSame(db1, Update(db1, user').0); }
      DeleteKeeps(Update(db1, user').0, found.value.id);
    }
  }

  lemma SessionsKeep(env: Env, w: World, op: Op)
    requires WellKept(w.db) && (op.Logout? || op.LogoutAll? || op.Cleanup?)
    ensures Keeps(w.db, Act(env, w, op).0.db)
  {
    hide FindBy, DeleteByUserId, DeleteByTokenHash, CleanExpiredTokens, NoneHeld, Unheld, NoneHeldBut, WellKept;
    match op {
      case Logout(token) => RemoveKeeps(w.db, env.hash(token), 0);
      case Cleanup => RemoveKeeps(w.db, "", Seconds(w));
      case LogoutAll(uuid) =>
        FindKeeps(w.db, Uuid(uuid));
        var (db1, found) := FindBy(w.db, Uuid(uuid));
        SameTablesSame(w.db, db1);
        if found.Ok? { DeleteKeeps(db1, found.value.id); }
    }
  }

  lemma QueriesKeep(env: Env, w: World, op: Op)
    requires WellKept(w.db) && (op.Tick? || op.SendVerifyCode? || op.QueryToken? || op.QueryCount?)
    ensures Keeps(w.db, Act(env, w, op).0.db)
  {
    hide C.Send, First, ActiveSessions, NoneHeld, WellKept;
    SameTablesSame(w.db, Act(env, w, op).0.db);
  }

  /** Every step keeps the tables. */
  lemma StepKeeps(env: Env, w: World, call: Call)
    requires WellKept(w.db)
    ensures var db' := Step(env, w, call).0.db; WellKept(db') && (NoneHeld(w.db) && call.dbFaults == [] ==>
            NoneHeld(db'))
  {
    hide RegisterStep, PasswordStep, CodeStep, RedeemStep, SendStep, ResetStep, LogoutStep, LogoutAllStep, UpdateStep,
         ChangeStep, DeleteStep, DisableStep, IsTokenValid, CountActiveSessionsByUserId, CleanExpiredTokens,
         Stoll, NoneHeld, WellKept;
    var w0 := World(w.redis.(faults := call.redisFaults), w.db.(faults := call.dbFaults));
    SameTablesSame(w.db, w0.db);
    match call.op {
      case RegisterUser(_, _, _, _, _, _, _) => RegisterKeeps(env, w0, call.op);
      case LoginByPassword(_, _, _) => LoginsKeep(env, w0, call.op);
      case LoginByCode(_, _, _) => LoginsKeep(env, w0, call.op);
      case RefreshToken(token, draws) => RefreshCallKeeps(env, w0, token, draws);
      case ResetUserPassword(_, _, _, _) => ResetKeeps(env, w0, call.op);
      case UpdateUser(_, _) => ProfileKeeps(env, w0, call.op);
      case ChangePassword(_, _, _, _) => ProfileKeeps(env, w0, call.op);
      case DeleteAccount(_, _) => DeletionKeeps(env, w0, call.op);
      case SetUserDisabled(_, _) => DisableKeeps(env, w0, call.op);
      case Logout(_) => SessionsKeep(env, w0, call.op);
      case LogoutAll(_) => SessionsKeep(env, w0, call.op);
      case Cleanup => SessionsKeep(env, w0, call.op);
      case _ => QueriesKeep(env, w0, call.op);
    }
    SameTablesSame(Act(env, w0, call.op).0.db, Step(env, w, call).0.db);
  }

  lemma RefreshCallKeeps(env: Env, w: World, token: string, draws: (int, int))
    requires WellKept(w.db)
    ensures Keeps(w.db, RefreshStep(env, w, token, draws).0.db)
  {
    hide RedeemStep, Stoll, NoneHeld, WellKept;
    if token != "" && env.parse(token, w.redis.now).Ok? && Stoll(env.parse(token, w.redis.now).value).Some? {
      RefreshKeeps(env, w, token, Stoll(env.parse(token, w.redis.now).value).value, draws);
    }
  }

  predicate DatabaseWorks(calls: seq<Call>) {
    forall i :: 0 <= i < |calls| ==> calls[i].dbFaults == []
  }

  /** Under any faults, ids stay unique and every session keeps an owner. */
  lemma {:induction false} TablesStayWellKept(env: Env, w: World, calls: seq<Call>, i: nat)
    requires i <= |calls| && WellKept(w.db)
    ensures WellKept(Before(env, w, calls, i).db)
  {
    hide Step, WellKept;
    if i > 0 {
      TablesStayWellKept(env, w, calls, i - 1);
      NextOf(env, w, calls, {}, i - 1);
      StepKeeps(env, Before(env, w, calls, i - 1), calls[i - 1]);
    }
  }

  /** While the database works, disabled users hold no session in any reachable state. */
  lemma {:induction false} DisabledHoldNone(env: Env, w: World, calls: seq<Call>, i: nat)
    requires i <= |calls| && WellKept(w.db) && NoneHeld(w.db) && DatabaseWorks(calls)
    ensures NoneHeld(Before(env, w, calls, i).db)
  {
    hide Step, WellKept, NoneHeld;
    if i > 0 {
      DisabledHoldNone(env, w, calls, i - 1);
      TablesStayWellKept(env, w, calls, i - 1);
      NextOf(env, w, calls, {}, i - 1);
      StepKeeps(env, Before(env, w, calls, i - 1), calls[i - 1]);
    }
  }
}
