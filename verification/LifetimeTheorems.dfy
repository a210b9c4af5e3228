/** From the call that hands out a refresh token to the call that redeems it. */
module LifetimeTheorems {
  import Ints
  import opened Outcome
  import opened Decimal
  import opened Users
  import opened Database
  import opened Service
  import opened SessionTheorems
  import opened AccountTheorems
  import opened CredentialTheorems
  import opened FrameTheorems
  import opened TokenTheorems
  import Answers = AnswerTheorems
  import Rotation = RotationTheorems
  import G = LoginGate
  import C = Captcha
  import Jwt

  /** The place of the insertion among the call's repository calls. */
  function SavePlace(op: Op): nat {
    if op.RegisterUser? then 2 else if op.RefreshToken? then 3 else 1
  }

  /** The faults the k-th and later repository calls meet. */
  ghost predicate FaultsFrom(db: Db, faults: seq<bool>, k: nat) {
    forall i: nat :: FailsAt(db.faults, i) == FailsAt(faults, k + i)
  }

  lemma IssuedFaults(db: Db, f: Field, faults: seq<bool>, k: nat)
    requires FaultsFrom(db, faults, k)
    ensures FaultsFrom(FindBy(db, f).0, faults, k + 1)
    ensures FindBy(db, f).0.users == db.users && FindBy(db, f).0.sessions == db.sessions
  {
    hide First;
    forall i: nat ensures FailsAt(FindBy(db, f).0.faults, i) == FailsAt(faults, k + 1 + i) {
      assert FailsAt(db.faults, i + 1) == FailsAt(faults, k + (i + 1));
    }
  }

  lemma Stored(env: Env, db: Db, u: UserEntity, token: string, now: int, faults: seq<bool>, k: nat)
    requires u in db.users && env.hash(token) !in db.sessions && FaultsFrom(db, faults, k)
    ensures StoreRefreshToken(env, db, u.id, token, now).sessions
         == if FailsAt(faults, k) then db.sessions
            else db.sessions[env.hash(token) := Session(u.id, now + env.refreshTtl)]
  {
    hide First;
    FirstFinds(db.users, Id(u.id), u);
    assert Database.Faulty(db) <==> FailsAt(db.faults, 0);
  }

  /** After the call the session of its token is stored, for this user and lifetime, exactly
      when the insertion did not fail. */
  predicate IsStored(env: Env, w: World, call: Call, u: UserEntity) {
    var (w', answer) := Step(env, w, call);
    && (answer.LoggedIn? || answer.Refreshed?)
    && var h := env.hash(answer.tokens.refresh);
       && (h in w'.db.sessions <==> !FailsAt(call.dbFaults, SavePlace(call.op)))
       && (h in w'.db.sessions ==> w'.db.sessions[h] == Session(u.id, Seconds(w) + env.refreshTtl))
  }

  lemma LoginStores(env: Env, w: World, call: Call, u: UserEntity)
    requires (call.op.LoginByPassword? || call.op.LoginByCode?) && Step(env, w, call).1.LoggedIn?
    requires WellKept(w.db) && Concerns(env, w, call.op, u)
    requires env.hash(Step(env, w, call).1.tokens.refresh) !in w.db.sessions
    ensures IsStored(env, w, call, u)
  {
    hide G.Check, G.Record, G.Clear, C.Verify, FindBy, StoreRefreshToken, WellKept, FailsAt, FaultsFrom;
    var w0 := Begun(w, call);
    SameTablesSame(w.db, w0.db);
    FoundRow(w0.db, Mobile(u.mobile), u);
    assert FaultsFrom(w0.db, call.dbFaults, 0) by { AllFaults(w0.db); }
    IssuedFaults(w0.db, Mobile(u.mobile), call.dbFaults, 0);
    Stored(env, FindBy(w0.db, Mobile(u.mobile)).0, u, env.refresh(u.id, w.redis.now, call.op.draws.1), Seconds(w),
           call.dbFaults, 1);
  }

  lemma AllFaults(db: Db)
    ensures FaultsFrom(db, db.faults, 0)
  {
  }

  lemma CreateFaults(db: Db, row: UserEntity, now: int)
    requires Create(db, row, now).1.Ok?
    ensures FaultsFrom(Create(db, row, now).0, db.faults, 2)
  {
    hide First;
  }

  lemma RegistrationStores(env: Env, w: World, call: Call, u: UserEntity)
    requires call.op.RegisterUser? && Step(env, w, call).1.LoggedIn? && Concerns(env, w, call.op, u)
    requires env.hash(Step(env, w, call).1.tokens.refresh) !in w.db.sessions
    ensures IsStored(env, w, call, u)
  {
    hide C.Verify, Create, StoreRefreshToken, FailsAt, FaultsFrom;
    var op, w0 := call.op, Begun(w, call);
    var row := UserEntity(0, op.uuid, op.mobile, op.name, env.hashPassword(op.salt, op.password), User, false, 0);
    CreatedRow(w0.db, row, Seconds(w));
    CreateFaults(w0.db, row, Seconds(w));
    Stored(env, Create(w0.db, row, Seconds(w)).0, u, env.refresh(u.id, w.redis.now, op.draws.1), Seconds(w),
           call.dbFaults, 2);
  }

  lemma RefreshStores(env: Env, w: World, call: Call, u: UserEntity)
    requires call.op.RefreshToken? && Step(env, w, call).1.Refreshed? && Concerns(env, w, call.op, u)
    requires env.hash(Step(env, w, call).1.tokens.refresh) !in w.db.sessions
    ensures IsStored(env, w, call, u)
  {
    hide Step, FailsAt, Stoll;
    RedeemNeedsSession(env, w, call);
    Rotation.RedeemRotates(env, w, call, u.id);
  }

  /** Whatever fails: the refresh token a call hands out gets its session, for the user concerned
      and until its lifetime ends, if and only if the insertion does not fail. */
  lemma SessionStoredExactly(env: Env, w: World, call: Call, u: UserEntity)
    requires Step(env, w, call).1.LoggedIn? || Step(env, w, call).1.Refreshed?
    requires WellKept(w.db) && Concerns(env, w, call.op, u)
    requires env.hash(Step(env, w, call).1.tokens.refresh) !in w.db.sessions
    ensures IsStored(env, w, call, u)
  {
    hide Step, WellKept, Stoll, IsStored;
    OnlyTheseHandOut(env, w, call);
    match call.op {
      case RegisterUser(_, _, _, _, _, _, _) => RegistrationStores(env, w, call, u);
      case RefreshToken(_, _) => RefreshStores(env, w, call, u);
      case _ => LoginStores(env, w, call, u);
    }
  }

  // ---------------------------------------------------------------------
  // Redeeming what was handed out.
  // ---------------------------------------------------------------------

  lemma WorkingCall(env: Env, w: World, op: Op, call: Call)
    requires call.op == op && op.RefreshToken? && call.dbFaults == []
    ensures Step(env, w, call).1 == Answers.Answered(env, w, op)
  {
    hide FindBy, StoreRefreshToken, IsTokenValid, DeleteByTokenHash, Stoll;
  }

  /** Call i handed out the refresh token of user u, and stored its session. */
  predicate HandsOutAt(env: Env, w: World, calls: seq<Call>, token: string, u: UserEntity, i: nat)
    requires i < |calls|
  {
    var before, answer := Before(env, w, calls, i), AnswerAt(env, w, calls, i);
    && (answer.LoggedIn? || answer.Refreshed?) && answer.tokens.refresh == token
    && Concerns(env, before, calls[i].op, u)
    && env.hash(token) !in before.db.sessions && !FailsAt(calls[i].dbFaults, SavePlace(calls[i].op))
  }

  /** What the session of that token is. */
  function SessionFrom(env: Env, w: World, calls: seq<Call>, u: UserEntity, i: nat): Session
    requires i < |calls|
  {
    Session(u.id, Seconds(Before(env, w, calls, i)) + env.refreshTtl)
  }

  lemma HandedOutStands(env: Env, w: World, calls: seq<Call>, token: string, u: UserEntity, i: nat, j: nat)
    requires i < j <= |calls| && WellKept(w.db) && HandsOutAt(env, w, calls, token, u, i)
    requires NeverEnded(env, w, calls, env.hash(token), SessionFrom(env, w, calls, u, i), i + 1, j)
    ensures Stands(Before(env, w, calls, j).db, env.hash(token), SessionFrom(env, w, calls, u, i))
  {
    hide Step, WellKept, Concerns, Before, FailsAt, NeverEnded, MayEnd;
    TablesStayWellKept(env, w, calls, i);
    NextOf(env, w, calls, {}, i);
    SessionStoredExactly(env, Before(env, w, calls, i), calls[i], u);
    SessionsLast(env, w, calls, env.hash(token), SessionFrom(env, w, calls, u, i), i + 1, j);
  }

  /** With the real tokens: a refresh token handed out in a run of any calls is redeemed, as long
      as its lifetime lasts and the database works, if its user is still there and enabled,
      unless its session was ended: by an earlier redemption or a logout of this very token, a
      revocation of this very user or a cleanup past its lifetime. */
  lemma HandedOutIsRedeemed(env0: Env, hmac: Jwt.Hmac, cfg: Jwt.Security, w: World, calls: seq<Call>, token: string,
                            u: UserEntity, v: UserEntity, i: nat, j: nat)
    requires i < j < |calls| && WellKept(w.db)
    requires HandsOutAt(Rotation.Signing(env0, hmac, cfg), w, calls, token, u, i)
    requires var env := Rotation.Signing(env0, hmac, cfg);
             && NeverEnded(env, w, calls, env.hash(token), SessionFrom(env, w, calls, u, i), i + 1, j)
             && Carried(cfg, u, Before(env, w, calls, i).redis.now)
             && calls[j].op.RefreshToken? && calls[j].op.token == token && calls[j].dbFaults == []
             && EnabledRow(Before(env, w, calls, j).db, v) && v.id == u.id
             && Seconds(Before(env, w, calls, j)) < Seconds(Before(env, w, calls, i)) + cfg.refreshTtl
    ensures AnswerAt(Rotation.Signing(env0, hmac, cfg), w, calls, j).Refreshed?
  {
    hide Step, WellKept, Concerns, Before, FailsAt, NeverEnded, MayEnd, Stands, Stoll, ToString, Jwt.Printable,
         Jwt.VerifyAccessToken, Jwt.ParseRefreshToken, Jwt.GenerateAccessToken, Jwt.GenerateRefreshToken;
    var env := Rotation.Signing(env0, hmac, cfg);
    HandedOutStands(env, w, calls, token, u, i, j);
    TablesStayWellKept(env, w, calls, i);
    NextOf(env, w, calls, {}, i);
    NextOf(env, w, calls, {}, j);
    var before := Before(env, w, calls, j);
    AnsweredTokensNameTheUser(env0, hmac, cfg, Before(env, w, calls, i), calls[i], u, before.redis.now * 1_000_000);
    EmptyIsRefused(hmac, cfg, before.redis.now * 1_000_000);
    LiveRefresh(env, w, calls, token, u, v, i, j);
  }

  lemma EmptyIsRefused(hmac: Jwt.Hmac, cfg: Jwt.Security, now: int)
    ensures Jwt.ParseRefreshToken(hmac, cfg, "", now).Fail?
  {
    hide Jwt.VerifyJwt;
  }

  lemma LiveRefresh(env: Env, w: World, calls: seq<Call>, token: string, u: UserEntity, v: UserEntity, i: nat, j: nat)
    requires i < j < |calls| && WellKept(w.db)
    requires Stands(Before(env, w, calls, j).db, env.hash(token), SessionFrom(env, w, calls, u, i))
    requires var before := Before(env, w, calls, j);
             && calls[j].op.RefreshToken? && calls[j].op.token == token && calls[j].dbFaults == [] && token != ""
             && EnabledRow(before.db, v) && v.id == u.id && Ints.MIN64 <= u.id <= Ints.MAX64
             && Seconds(before) < Seconds(Before(env, w, calls, i)) + env.refreshTtl
             && env.parse(token, before.redis.now) == Ok(ToString(u.id))
    ensures AnswerAt(env, w, calls, j).Refreshed?
  {
    hide Step, WellKept, Before, Stoll, ToString;
    var before := Before(env, w, calls, j);
    NextOf(env, w, calls, {}, j);
    TablesStayWellKept(env, w, calls, j);
    ReadBack(u.id);
    WorkingCall(env, before, calls[j].op, calls[j]);
    Answers.RefreshAnswers(env, before, token, calls[j].op.draws, u.id, Some(v));
  }
}
