/** Refresh tokens over whole runs of the two services. */
module SessionTheorems {
  import opened Decimal
  import opened Users
  import opened Database
  import opened Service
  import G = LoginGate
  import C = Captcha

  /** The hash of the refresh token an answer hands out. */
  function IssuedBy(env: Env, answer: Answer): set<string> {
    match answer
    case LoggedIn(_, tokens) => {env.hash(tokens.refresh)}
    case Refreshed(tokens) => {env.hash(tokens.refresh)}
    case _ => {}
  }

  /** A step keeps stored sessions as they are or removes them, and adds at most the one
      it answers with. */
  predicate GrowsBy(db: Db, db': Db, hashes: set<string>) {
    forall h :: h in db'.sessions ==> h in hashes || (h in db.sessions && db.sessions[h] == db'.sessions[h])
  }

  lemma RegisterGrows(env: Env, w: World, op: Op)
    requires op.RegisterUser?
    ensures var (w', answer) := RegisterStep(env, w, op); GrowsBy(w.db, w'.db, IssuedBy(env, answer))
  {
    hide C.Verify, First;
  }

  lemma PasswordGrows(env: Env, w: World, mobile: string, password: string, draws: (int, int))
    ensures var (w', answer) := PasswordStep(env, w, mobile, password, draws);
            GrowsBy(w.db, w'.db, IssuedBy(env, answer))
  {
    hide G.Check, G.Record, G.Clear, First;
  }

  lemma CodeGrows(env: Env, w: World, mobile: string, code: string, draws: (int, int))
    ensures var (w', answer) := CodeStep(env, w, mobile, code, draws); GrowsBy(w.db, w'.db, IssuedBy(env, answer))
  {
    hide C.Verify, G.Clear, First;
  }

  lemma RefreshGrows(env: Env, w: World, token: string, draws: (int, int))
    ensures var (w', answer) := RefreshStep(env, w, token, draws); GrowsBy(w.db, w'.db, IssuedBy(env, answer))
  {
    hide First, Stoll;
  }

  lemma LookupGrows(db: Db, f: Field, user: UserEntity)
    ensures FindBy(db, f).0.sessions == db.sessions && Update(db, user).0.sessions == db.sessions
  {
    hide First, Replace;
  }

  lemma DeletionGrows(db: Db, id: int)
    ensures GrowsBy(db, DeleteByUserId(db, id).0, {})
  {
  }

  lemma ResetGrows(env: Env, w: World, op: Op)
    requires op.ResetUserPassword?
    ensures GrowsBy(w.db, Act(env, w, op).0.db, {})
  {
    hide C.Verify, G.Clear, FindBy, Update, DeleteByUserId;
    var (db1, found) := FindBy(w.db, Mobile(op.mobile));
    LookupGrows(w.db, Mobile(op.mobile), UserEntity(0, "", "", "", "", User, false, 0));
    if found.Ok? {
      var user' := found.value.(passwordHash := env.hashPassword(op.salt, op.password));
      LookupGrows(db1, Mobile(op.mobile), user');
      DeletionGrows(Update(db1, user').0, found.value.id);
    }
  }

  lemma DeleteGrows(env: Env, w: World, op: Op)
    requires op.DeleteAccount?
    ensures GrowsBy(w.db, Act(env, w, op).0.db, {})
  {
    hide C.Verify, FindBy, Update, DeleteByUserId, ToString;
    var (db1, found) := FindBy(w.db, Uuid(op.uuid));
    LookupGrows(w.db, Uuid(op.uuid), UserEntity(0, "", "", "", "", User, false, 0));
    if found.Ok? {
      var user := found.value;
      DeletionGrows(db1, user.id);
      LookupGrows(DeleteByUserId(db1, user.id).0, Uuid(op.uuid),
                  user.(disabled := true, mobile := "deleted_" + ToString(user.id) + "_" + user.mobile));
    }
  }

  lemma AccountsGrow(env: Env, w: World, op: Op)
    requires op.UpdateUser? || op.ChangePassword? || op.SetUserDisabled?
    ensures GrowsBy(w.db, Act(env, w, op).0.db, {})
  {
    hide First, Replace;
  }

  lemma OthersGrow(env: Env, w: World, op: Op)
    requires op.Tick? || op.SendVerifyCode? || op.Logout? || op.LogoutAll? || op.QueryToken? || op.QueryCount?
             || op.Cleanup?
    ensures GrowsBy(w.db, Act(env, w, op).0.db, {})
  {
    hide C.Send, First, ActiveSessions;
  }

  /** Under any faults, a step adds no session but the one it hands out. */
  lemma StepGrows(env: Env, w: World, call: Call)
    ensures var (w', answer) := Step(env, w, call); GrowsBy(w.db, w'.db, IssuedBy(env, answer))
  {
    hide RegisterStep, PasswordStep, CodeStep, RefreshStep, SendStep, ResetStep, LogoutStep, LogoutAllStep, UpdateStep,
         ChangeStep, DeleteStep, DisableStep, IsTokenValid, CountActiveSessionsByUserId, CleanExpiredTokens;
    var w0 := World(w.redis.(faults := call.redisFaults), w.db.(faults := call.dbFaults));
    match call.op {
      case RegisterUser(_, _, _, _, _, _, _) => RegisterGrows(env, w0, call.op);
      case LoginByPassword(mobile, password, draws) => PasswordGrows(env, w0, mobile, password, draws);
      case LoginByCode(mobile, code, draws) => CodeGrows(env, w0, mobile, code, draws);
      case RefreshToken(token, draws) => RefreshGrows(env, w0, token, draws);
      case ResetUserPassword(_, _, _, _) => ResetGrows(env, w0, call.op);
      case UpdateUser(_, _) => AccountsGrow(env, w0, call.op);
      case ChangePassword(_, _, _, _) => AccountsGrow(env, w0, call.op);
      case DeleteAccount(_, _) => DeleteGrows(env, w0, call.op);
      case SetUserDisabled(_, _) => AccountsGrow(env, w0, call.op);
      case _ => OthersGrow(env, w0, call.op);
    }
  }

  // ---------------------------------------------------------------------
  // A token that is gone stays gone.
  // ---------------------------------------------------------------------

  /** The hashes known before the run or handed out by it. */
  function Known(env: Env, w: World, calls: seq<Call>, known: set<string>): set<string> {
    if calls == [] then known
    else
      var n := |calls| - 1;
      Known(env, w, calls[..n], known) + IssuedBy(env, AnswerAt(env, w, calls, n))
  }

  /** Every refresh token handed out has a hash that was not known before. */
  predicate FreshRun(env: Env, w: World, calls: seq<Call>, known: set<string>) {
    forall i :: 0 <= i < |calls| ==> FreshAt(env, w, calls, known, i)
  }

  predicate FreshAt(env: Env, w: World, calls: seq<Call>, known: set<string>, i: nat)
    requires i < |calls|
  {
    IssuedBy(env, AnswerAt(env, w, calls, i)) !! Known(env, w, calls[..i], known)
  }

  function Before(env: Env, w: World, calls: seq<Call>, i: nat): World
    requires i <= |calls|
  {
    After(env, w, calls[..i])
  }

  lemma NextOf(env: Env, w: World, calls: seq<Call>, known: set<string>, i: nat)
    requires i < |calls|
    ensures Before(env, w, calls, i + 1) == Step(env, Before(env, w, calls, i), calls[i]).0
    ensures AnswerAt(env, w, calls, i) == Step(env, Before(env, w, calls, i), calls[i]).1
    ensures Known(env, w, calls[..i + 1], known)
         == Known(env, w, calls[..i], known) + IssuedBy(env, AnswerAt(env, w, calls, i))
  {
    hide Step, IssuedBy;
    assert calls[..i + 1][..i] == calls[..i];
  }

  lemma {:induction false} SessionsAreKnown(env: Env, w: World, calls: seq<Call>, known: set<string>, i: nat)
    requires i <= |calls| && w.db.sessions.Keys <= known
    ensures Before(env, w, calls, i).db.sessions.Keys <= Known(env, w, calls[..i], known)
    ensures known <= Known(env, w, calls[..i], known)
  {
    hide Step, IssuedBy;
    if i > 0 {
      SessionsAreKnown(env, w, calls, known, i - 1);
      NextOf(env, w, calls, known, i - 1);
      StepGrows(env, Before(env, w, calls, i - 1), calls[i - 1]);
    } else {
      assert calls[..0] == [];
    }
  }

  /** Under any faults: a known hash that has no session never gets one again. */
  lemma {:induction false} GoneStaysGone(env: Env, w: World, calls: seq<Call>, known: set<string>, h: string, i: nat,
      j: nat)
    requires i <= j <= |calls| && FreshRun(env, w, calls, known)
    requires h in Known(env, w, calls[..i], known) && h !in Before(env, w, calls, i).db.sessions
    ensures h in Known(env, w, calls[..j], known) && h !in Before(env, w, calls, j).db.sessions
    decreases j
  {
    hide Step, IssuedBy, Known, Before, AnswerAt;
    if i < j {
      GoneStaysGone(env, w, calls, known, h, i, j - 1);
      NextOf(env, w, calls, known, j - 1);
      StepGrows(env, Before(env, w, calls, j - 1), calls[j - 1]);
      assert FreshAt(env, w, calls, known, j - 1);
    }
  }

  /** Under any faults: only a token whose hash has a session is redeemed. */
  lemma RedeemNeedsSession(env: Env, w: World, call: Call)
    requires call.op.RefreshToken? && Step(env, w, call).1.Refreshed?
    ensures env.hash(call.op.token) in w.db.sessions && Unexpired(w.db.sessions[env.hash(call.op.token)], Seconds(w))
  {
    hide First, Stoll, SaveRefreshToken, DeleteByTokenHash;
  }

  /** A redeemed token loses its session exactly when the deletion in the middle of the
      call, the third repository call, does not fail. */
  lemma RedeemRemovesExactly(env: Env, w: World, call: Call)
    requires call.op.RefreshToken? && Step(env, w, call).1.Refreshed?
    requires IssuedBy(env, Step(env, w, call).1) !! {env.hash(call.op.token)}
    ensures env.hash(call.op.token) !in Step(env, w, call).0.db.sessions
       <==> |call.dbFaults| < 3 || !call.dbFaults[2]
  {
    hide First, Stoll;
  }

  /** When that deletion does fail, the same token is redeemed again. */
  lemma FailedRemovalRedeemsTwice(env: Env, w: World, token: string, draws: (int, int), draws': (int, int))
    requires w.db.faults == [] && w.redis.faults == []
    requires Step(env, w, Call(RefreshToken(token, draws), [], [false, false, true])).1.Refreshed?
    ensures var w' := Step(env, w, Call(RefreshToken(token, draws), [], [false, false, true])).0;
            Step(env, w', Call(RefreshToken(token, draws'), [], [])).1.Refreshed?
  {
    hide First, Stoll;
  }

  predicate RedeemsAt(env: Env, w: World, calls: seq<Call>, token: string, i: nat)
    requires i < |calls|
  {
    calls[i].op.RefreshToken? && calls[i].op.token == token && AnswerAt(env, w, calls, i).Refreshed?
  }

  /** Call i has taken the session of a known hash away. */
  predicate TakesAt(env: Env, w: World, calls: seq<Call>, h: string, i: nat)
    requires i < |calls|
  {
    h !in Before(env, w, calls, i + 1).db.sessions
  }

  /** Once a call has taken a known token's session away, be it by redeeming, logging out,
      resetting, disabling or deleting, no later call redeems the token. */
  lemma NeverRedeemedAgain(env: Env, w: World, calls: seq<Call>, known: set<string>, token: string, i: nat, j: nat)
    requires i < j < |calls| && FreshRun(env, w, calls, known) && w.db.sessions.Keys <= known
    requires env.hash(token) in Known(env, w, calls[..i], known) && TakesAt(env, w, calls, env.hash(token), i)
    ensures !RedeemsAt(env, w, calls, token, j)
  {
    hide Step, IssuedBy, Known, Before;
    NextOf(env, w, calls, known, i);
    GoneStaysGone(env, w, calls, known, env.hash(token), i + 1, j);
    NextOf(env, w, calls, known, j);
    if RedeemsAt(env, w, calls, token, j) {
      RedeemNeedsSession(env, Before(env, w, calls, j), calls[j]);
    }
  }

  /** With fresh hashes each refresh token is redeemed at most once, unless the deletion
      inside its first redemption failed. */
  lemma RedeemedAtMostOnce(env: Env, w: World, calls: seq<Call>, known: set<string>, token: string, i: nat, j: nat)
    requires i < j < |calls| && FreshRun(env, w, calls, known) && w.db.sessions.Keys <= known
    requires |calls[i].dbFaults| < 3 || !calls[i].dbFaults[2]
    ensures !(RedeemsAt(env, w, calls, token, i) && RedeemsAt(env, w, calls, token, j))
  {
    hide Step, IssuedBy, Known, Before;
    if RedeemsAt(env, w, calls, token, i) {
      NextOf(env, w, calls, known, i);
      SessionsAreKnown(env, w, calls, known, i);
      RedeemNeedsSession(env, Before(env, w, calls, i), calls[i]);
      assert FreshAt(env, w, calls, known, i);
      RedeemRemovesExactly(env, Before(env, w, calls, i), calls[i]);
      NeverRedeemedAgain(env, w, calls, known, token, i, j);
    }
  }
}
