/** What redeeming a refresh token does to the number of live sessions. */
module RotationTheorems {
  import opened Ints
  import opened Outcome
  import opened Decimal
  import opened Users
  import opened Database
  import opened Service
  import opened SessionTheorems
  import opened AccountTheorems
  import G = LoginGate
  import C = Captcha
  import Jwt

  /** The draw that goes into a call's refresh token. */
  function RefreshDraw(op: Op): int {
    match op
    case RegisterUser(_, _, _, _, _, _, draws) => draws.1
    case LoginByPassword(_, _, draws) => draws.1
    case LoginByCode(_, _, draws) => draws.1
    case RefreshToken(_, draws) => draws.1
    case _ => 0
  }

  /** The answer hands out this refresh token. */
  predicate HandsOut(answer: Answer, token: string) {
    (answer.LoggedIn? || answer.Refreshed?) && answer.tokens.refresh == token
  }

  /** A session that a step adds or changes belongs to the user the token was made for. */
  predicate MadeFor(env: Env, now: int, op: Op, answer: Answer, db: Db, db': Db) {
    forall h :: h in db'.sessions && !(h in db.sessions && db.sessions[h] == db'.sessions[h]) ==>
      var token := env.refresh(db'.sessions[h].userId, now, RefreshDraw(op));
      h == env.hash(token) && HandsOut(answer, token)
  }

  lemma StoreMakes(env: Env, db: Db, db0: Db, user: UserEntity, now: int, draws: (int, int), seconds: int)
    requires GrowsBy(db0, db, {})
    ensures var tokens := GenerateTokenPair(env, user, now, draws);
            var db' := StoreRefreshToken(env, db, user.id, tokens.refresh, seconds);
            forall h :: h in db'.sessions && !(h in db0.sessions && db0.sessions[h] == db'.sessions[h]) ==>
              db'.sessions[h].userId == user.id && h == env.hash(tokens.refresh)
  {
    hide First;
  }

  lemma CreateMakesNone(db: Db, row: UserEntity, now: int)
    ensures Create(db, row, now).0.sessions == db.sessions
  {
    hide First;
  }

  lemma RegisterMakes(env: Env, w: World, op: Op)
    requires op.RegisterUser?
    ensures var (w', answer) := RegisterStep(env, w, op); MadeFor(env, w.redis.now, op, answer, w.db, w'.db)
  {
    hide C.Verify, Create, StoreRefreshToken;
    var row := UserEntity(0, op.uuid, op.mobile, op.name, env.hashPassword(op.salt, op.password), User, false, 0);
    CreateMakesNone(w.db, row, Seconds(w));
    var (db, created) := Create(w.db, row, Seconds(w));
    if created.Ok? { StoreMakes(env, db, w.db, created.value, w.redis.now, op.draws, Seconds(w)); }
  }

  lemma LoginMakes(env: Env, w: World, mobile: string, draws: (int, int))
    ensures var (db, found) := FindBy(w.db, Mobile(mobile));
            && db.sessions == w.db.sessions
            && (found.Ok? ==>
                  var tokens := GenerateTokenPair(env, found.value, w.redis.now, draws);
                  var db' := StoreRefreshToken(env, db, found.value.id, tokens.refresh, Seconds(w));
                  forall h :: h in db'.sessions && !(h in w.db.sessions && w.db.sessions[h] == db'.sessions[h]) ==>
                    db'.sessions[h].userId == found.value.id && h == env.hash(tokens.refresh))
  {
    hide FindBy, StoreRefreshToken;
    LookupGrows(w.db, Mobile(mobile), UserEntity(0, "", "", "", "", User, false, 0));
    var (db, found) := FindBy(w.db, Mobile(mobile));
    if found.Ok? { StoreMakes(env, db, w.db, found.value, w.redis.now, draws, Seconds(w)); }
  }

  lemma PasswordMakes(env: Env, w: World, op: Op)
    requires op.LoginByPassword?
    ensures var (w', answer) := PasswordStep(env, w, op.mobile, op.password, op.draws);
            MadeFor(env, w.redis.now, op, answer, w.db, w'.db)
  {
    hide G.Check, G.Record, G.Clear, FindBy, StoreRefreshToken;
    LoginMakes(env, w, op.mobile, op.draws);
  }

  lemma CodeMakes(env: Env, w: World, op: Op)
    requires op.LoginByCode?
    ensures var (w', answer) := CodeStep(env, w, op.mobile, op.code, op.draws);
            MadeFor(env, w.redis.now, op, answer, w.db, w'.db)
  {
    hide C.Verify, G.Clear, FindBy, StoreRefreshToken;
    LoginMakes(env, w, op.mobile, op.draws);
  }

  lemma RedeemMakes(env: Env, w: World, token: string, userId: int, draws: (int, int))
    ensures var (w', answer) := RedeemStep(env, w, token, userId, draws);
            MadeFor(env, w.redis.now, RefreshToken(token, draws), answer, w.db, w'.db)
  {
    hide FindBy, StoreRefreshToken;
    FindKeeps(w.db, Id(userId));
    var (db, found) := FindBy(w.db, Id(userId));
    if found.Ok? {
      var db3 := DeleteByTokenHash(IsTokenValid(db, env.hash(token), Seconds(w)).0, env.hash(token)).0;
      StoreMakes(env, db3, w.db, found.value, w.redis.now, draws, Seconds(w));
    }
  }

  lemma RefreshMakes(env: Env, w: World, op: Op)
    requires op.RefreshToken?
    ensures var (w', answer) := RefreshStep(env, w, op.token, op.draws);
            MadeFor(env, w.redis.now, op, answer, w.db, w'.db)
  {
    hide RedeemStep, Stoll;
    if op.token != "" && env.parse(op.token, w.redis.now).Ok? && Stoll(env.parse(op.token, w.redis.now).value).Some? {
      RedeemMakes(env, w, op.token, Stoll(env.parse(op.token, w.redis.now).value).value, op.draws);
    }
  }

  lemma StepMakes(env: Env, w: World, call: Call)
    ensures var (w', answer) := Step(env, w, call); MadeFor(env, w.redis.now, call.op, answer, w.db, w'.db)
  {
    hide RegisterStep, PasswordStep, CodeStep, RefreshStep, SendStep, ResetStep, LogoutStep, LogoutAllStep, UpdateStep,
         ChangeStep, DeleteStep, DisableStep, IsTokenValid, CountActiveSessionsByUserId, CleanExpiredTokens;
    var w0 := World(w.redis.(faults := call.redisFaults), w.db.(faults := call.dbFaults));
    match call.op {
      case RegisterUser(_, _, _, _, _, _, _) => RegisterMakes(env, w0, call.op);
      case LoginByPassword(_, _, _) => PasswordMakes(env, w0, call.op);
      case LoginByCode(_, _, _) => CodeMakes(env, w0, call.op);
      case RefreshToken(_, _) => RefreshMakes(env, w0, call.op);
      case _ => StepGrows(env, w, call); OthersIssueNothing(env, w0, call.op);
    }
  }

  lemma OthersIssueNothing(env: Env, w: World, op: Op)
    requires !op.RegisterUser? && !op.LoginByPassword? && !op.LoginByCode? && !op.RefreshToken?
    ensures IssuedBy(env, Act(env, w, op).1) == {}
  {
    hide First, Replace, C.Verify, C.Send, G.Clear, ToString;
  }

  // ---------------------------------------------------------------------
  // Where the sessions of a run come from.
  // ---------------------------------------------------------------------

  /** Call k handed out the token of session h. */
  predicate CameFrom(env: Env, w: World, calls: seq<Call>, h: string, userId: int, k: nat)
    requires k < |calls|
  {
    var token := env.refresh(userId, Before(env, w, calls, k).redis.now, RefreshDraw(calls[k].op));
    h == env.hash(token) && HandsOut(AnswerAt(env, w, calls, k), token)
  }

  lemma {:induction false} SessionsComeFromTheRun(env: Env, w: World, calls: seq<Call>, i: nat, h: string)
    requires i <= |calls| && w.db.sessions == map[] && h in Before(env, w, calls, i).db.sessions
    ensures exists k :: 0 <= k < i && CameFrom(env, w, calls, h, Before(env, w, calls, i).db.sessions[h].userId, k)
  {
    hide Step, AnswerAt;
    assert calls[..0] == [];
    if i > 0 {
      var before, after := Before(env, w, calls, i - 1), Before(env, w, calls, i);
      NextOf(env, w, calls, {}, i - 1);
      StepMakes(env, before, calls[i - 1]);
      if h in before.db.sessions && before.db.sessions[h] == after.db.sessions[h] {
        SessionsComeFromTheRun(env, w, calls, i - 1, h);
      } else {
        assert CameFrom(env, w, calls, h, after.db.sessions[h].userId, i - 1);
      }
    }
  }

  /** Refresh tokens made at this instant parse, if at all, to their user. */
  ghost predicate FaithfulAt(env: Env, at: int) {
    forall userId, draw, now :: ParsesBack(env, userId, at, draw, now)
  }

  predicate ParsesBack(env: Env, userId: int, at: int, draw: int, now: int) {
    var r := env.parse(env.refresh(userId, at, draw), now);
    r.Ok? ==> r.value == ToString(userId)
  }

  /** No token handed out earlier in the run shares its hash with a different token. */
  predicate NoCollision(env: Env, w: World, calls: seq<Call>, token: string, i: nat)
    requires i <= |calls|
  {
    forall k :: 0 <= k < i ==>
      var answer := AnswerAt(env, w, calls, k);
      (answer.LoggedIn? || answer.Refreshed?) && env.hash(answer.tokens.refresh) == env.hash(token) ==>
        answer.tokens.refresh == token
  }

  predicate IdsInRange(users: seq<UserEntity>) {
    forall u :: u in users ==> MIN64 <= u.id <= MAX64
  }

  /** The session a token redeems belongs to the user the token names. */
  lemma TokenNamesItsOwner(env: Env, w: World, calls: seq<Call>, token: string, i: nat)
    requires i < |calls| && w.db.sessions == map[] && RedeemsAt(env, w, calls, token, i)
    requires forall k :: 0 <= k < i ==> FaithfulAt(env, Before(env, w, calls, k).redis.now)
    requires NoCollision(env, w, calls, token, i) && WellKept(w.db) && IdsInRange(Before(env, w, calls, i).db.users)
    ensures var before := Before(env, w, calls, i);
            && env.parse(token, before.redis.now).Ok? && env.hash(token) in before.db.sessions
            && Stoll(env.parse(token, before.redis.now).value) == Some(before.db.sessions[env.hash(token)].userId)
  {
    hide Step, AnswerAt, Before, FaithfulAt, Distinct, IdsBelow, Stoll, ToString;
    var before := Before(env, w, calls, i);
    var h := env.hash(token);
    NextOf(env, w, calls, {}, i);
    RedeemNeedsSession(env, before, calls[i]);
    RedeemParses(env, before, calls[i]);
    SessionsComeFromTheRun(env, w, calls, i, h);
    var uid := before.db.sessions[h].userId;
    var k :| 0 <= k < i && CameFrom(env, w, calls, h, uid, k);
    var at := Before(env, w, calls, k).redis.now;
    UseFaithful(env, uid, at, RefreshDraw(calls[k].op), before.redis.now);
    TablesStayWellKept(env, w, calls, i);
    assert HasUser(before.db.users, uid);
    ReadBack(uid);
  }

  lemma UseFaithful(env: Env, userId: int, at: int, draw: int, now: int)
    requires FaithfulAt(env, at)
    ensures ParsesBack(env, userId, at, draw, now)
  {
  }

  lemma RedeemParses(env: Env, w: World, call: Call)
    requires call.op.RefreshToken? && Step(env, w, call).1.Refreshed?
    ensures env.parse(call.op.token, w.redis.now).Ok? && Stoll(env.parse(call.op.token, w.redis.now).value).Some?
  {
    hide RedeemStep, Stoll;
  }

  // ---------------------------------------------------------------------
  // Counting.
  // ---------------------------------------------------------------------

  /** The sessions after a redemption: the old row goes unless its deletion failed, the new
      one comes unless its insertion failed. */
  function Rotated(sessions: map<string, Session>, faults: seq<bool>, h: string, h': string,
      row: Session): map<string, Session> {
    var rest := if FailsAt(faults, 2) then sessions else sessions - {h};
    if FailsAt(faults, 3) then rest else rest[h' := row]
  }

  lemma RedeemStepRotates(env: Env, w: World, token: string, userId: int, draws: (int, int))
    requires RedeemStep(env, w, token, userId, draws).1.Refreshed?
    requires env.hash(RedeemStep(env, w, token, userId, draws).1.tokens.refresh) !in w.db.sessions
    ensures var (w', answer) := RedeemStep(env, w, token, userId, draws);
            w'.db.sessions == Rotated(w.db.sessions, w.db.faults, env.hash(token), env.hash(answer.tokens.refresh),
                                      Session(userId, Seconds(w) + env.refreshTtl))
  {
    hide First, GenerateTokenPair;
  }

  lemma RedeemRotates(env: Env, w: World, call: Call, userId: int)
    requires call.op.RefreshToken? && Step(env, w, call).1.Refreshed?
    requires Stoll(env.parse(call.op.token, w.redis.now).value) == Some(userId)
    requires env.hash(Step(env, w, call).1.tokens.refresh) !in w.db.sessions
    ensures Step(env, w, call).0.db.sessions
         == Rotated(w.db.sessions, call.dbFaults, env.hash(call.op.token),
                    env.hash(Step(env, w, call).1.tokens.refresh),
                    Session(userId, Seconds(w) + env.refreshTtl))
  {
    hide RedeemStep, Stoll, Rotated;
    var w0 := World(w.redis.(faults := call.redisFaults), w.db.(faults := call.dbFaults));
    RedeemStepRotates(env, w0, call.op.token, userId, call.op.draws);
  }

  lemma RemovedCounts(db: Db, h: string, id: int, now: int)
    requires h in db.sessions && Unexpired(db.sessions[h], now)
    ensures |ActiveSessions(db.(sessions := db.sessions - {h}), id, now)|
         == |ActiveSessions(db, id, now)| - if db.sessions[h].userId == id then 1 else 0
  {
    var before, after := ActiveSessions(db, id, now), ActiveSessions(db.(sessions := db.sessions - {h}), id, now);
    assert after == before - {h};
  }

  lemma AddedCounts(db: Db, h: string, row: Session, id: int, now: int)
    requires h !in db.sessions && Unexpired(row, now)
    ensures |ActiveSessions(db.(sessions := db.sessions[h := row]), id, now)|
         == |ActiveSessions(db, id, now)| + if row.userId == id then 1 else 0
  {
    var before, after := ActiveSessions(db, id, now), ActiveSessions(db.(sessions := db.sessions[h := row]), id, now);
    assert after == if row.userId == id then before + {h} else before;
  }

  lemma RotatedCounts(db: Db, faults: seq<bool>, h: string, h': string, row: Session, id: int, now: int)
    requires h in db.sessions && Unexpired(db.sessions[h], now) && db.sessions[h].userId == row.userId
    requires h' !in db.sessions && Unexpired(row, now)
    ensures |ActiveSessions(db.(sessions := Rotated(db.sessions, faults, h, h', row)), id, now)|
         == |ActiveSessions(db, id, now)|
            + if id != row.userId then 0
              else (if FailsAt(faults, 2) then 1 else 0) - (if FailsAt(faults, 3) then 1 else 0)
  {
    hide ActiveSessions;
    var rest := if FailsAt(faults, 2) then db else db.(sessions := db.sessions - {h});
    RemovedCounts(db, h, id, now);
    AddedCounts(rest, h', row, id, now);
  }

  lemma RedeemCounts(env: Env, w: World, call: Call, id: int, userId: int)
    requires call.op.RefreshToken? && Step(env, w, call).1.Refreshed? && env.refreshTtl > 0
    requires var h := env.hash(call.op.token);
             && h in w.db.sessions && Unexpired(w.db.sessions[h], Seconds(w)) && w.db.sessions[h].userId == userId
    requires Stoll(env.parse(call.op.token, w.redis.now).value) == Some(userId)
    requires env.hash(Step(env, w, call).1.tokens.refresh) !in w.db.sessions
    ensures |ActiveSessions(Step(env, w, call).0.db, id, Seconds(w))|
         == |ActiveSessions(w.db, id, Seconds(w))|
            + if id != userId then 0
              else (if FailsAt(call.dbFaults, 2) then 1 else 0) - (if FailsAt(call.dbFaults, 3) then 1 else 0)
  {
    hide Step, Stoll, ActiveSessions, Rotated;
    var (w', answer) := Step(env, w, call);
    var row := Session(userId, Seconds(w) + env.refreshTtl);
    RedeemRotates(env, w, call, userId);
    RotatedCounts(w.db, call.dbFaults, env.hash(call.op.token), env.hash(answer.tokens.refresh), row, id, Seconds(w));
    ActiveOnlyReads(w'.db, w.db.(sessions := w'.db.sessions), id, Seconds(w));
  }

  lemma ActiveOnlyReads(a: Db, b: Db, id: int, now: int)
    requires a.sessions == b.sessions
    ensures ActiveSessions(a, id, now) == ActiveSessions(b, id, now)
  {
  }

  /** In any run from an empty sessions table, under any faults, a redemption changes the
      live sessions of its own user by exactly its own failed deletion and insertion, and
      nobody else's; with a working database it changes no count at all. */
  lemma RedeemingKeepsCounts(env: Env, w: World, calls: seq<Call>, token: string, i: nat, id: int)
    requires i < |calls| && w.db.sessions == map[] && env.refreshTtl > 0 && WellKept(w.db)
    requires RedeemsAt(env, w, calls, token, i) && FreshRun(env, w, calls, {})
    requires forall k :: 0 <= k < i ==> FaithfulAt(env, Before(env, w, calls, k).redis.now)
    requires NoCollision(env, w, calls, token, i) && IdsInRange(Before(env, w, calls, i).db.users)
    ensures var before, after := Before(env, w, calls, i), Before(env, w, calls, i + 1);
            var owner := before.db.sessions[env.hash(token)].userId;
            var faults := calls[i].dbFaults;
            |ActiveSessions(after.db, id, Seconds(before))|
            == |ActiveSessions(before.db, id, Seconds(before))|
               + if id != owner then 0
                 else (if FailsAt(faults, 2) then 1 else 0) - (if FailsAt(faults, 3) then 1 else 0)
  {
    hide Step, AnswerAt, Before, FaithfulAt, ActiveSessions, WellKept, Stoll, NoCollision, Known;
    var before := Before(env, w, calls, i);
    NextOf(env, w, calls, {}, i);
    TokenNamesItsOwner(env, w, calls, token, i);
    RedeemNeedsSession(env, before, calls[i]);
    SessionsAreKnown(env, w, calls, {}, i);
    assert FreshAt(env, w, calls, {}, i);
    RedeemCounts(env, before, calls[i], id, before.db.sessions[env.hash(token)].userId);
  }

  // ---------------------------------------------------------------------
  // The real token codec.
  // ---------------------------------------------------------------------

  /** The service with its signed tokens; the clocks count milliseconds and nanoseconds. */
  function Signing(env: Env, hmac: Jwt.Hmac, cfg: Jwt.Security): Env {
    env.(accessTtl := cfg.accessTtl,
         refreshTtl := cfg.refreshTtl,
         access := (user, now, jti) => Jwt.GenerateAccessToken(hmac, cfg, user, now * 1_000_000, jti),
         refresh := (userId, now, jti) => Jwt.GenerateRefreshToken(hmac, cfg, userId, now * 1_000_000, jti),
         parse := (token, now) => Jwt.ParseRefreshToken(hmac, cfg, token, now * 1_000_000))
  }

  lemma SignedTokensAreFaithful(env: Env, hmac: Jwt.Hmac, cfg: Jwt.Security, at: int)
    requires Jwt.Printable(cfg.issuer) && Jwt.ClockInRange(at * 1_000_000, cfg.refreshTtl)
    ensures FaithfulAt(Signing(env, hmac, cfg), at)
  {
    hide Jwt.GenerateRefreshToken, Jwt.ParseRefreshToken, Jwt.GenerateAccessToken, ToString;
    forall userId: int, draw, now ensures ParsesBack(Signing(env, hmac, cfg), userId, at, draw, now) {
      Jwt.RefreshRoundTrip(hmac, cfg, userId, at * 1_000_000, draw, now * 1_000_000);
    }
  }
}
