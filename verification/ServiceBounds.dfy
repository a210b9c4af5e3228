/** The lockout and the guess bound for whole runs of the services. The database may fail in
    any way; Redis works. */
module ServiceBounds {
  import opened Outcome
  import opened Redis
  import opened Keys
  import opened Database
  import opened Service
  import opened ServiceOnStore
  import R = StoreRuns
  import T = StoreTheorems
  import G = LoginGate
  import C = Captcha

  predicate RedisWorks(calls: seq<Call>) {
    forall i :: 0 <= i < |calls| ==> calls[i].redisFaults == []
  }

  /** The store calls of a whole run. */
  function StoreRun(env: Env, w: World, calls: seq<Call>): (r: seq<R.Call>)
    ensures R.Working(r)
  {
    if calls == [] then []
    else
      var init, last := calls[..|calls| - 1], calls[|calls| - 1];
      StoreRun(env, w, init) + Plain(StoreOps(env, Start(After(env, w, init), last), last.op))
  }

  lemma AppendOne(cfg: R.Config, s: Store, a: seq<R.Call>, c: R.Call)
    ensures R.After(cfg, s, a + [c]) == R.Step(cfg, R.After(cfg, s, a), c).0
    ensures R.ReplyAt(cfg, s, a + [c], |a|) == R.Step(cfg, R.After(cfg, s, a), c).1
    ensures forall i :: 0 <= i < |a| ==> R.ReplyAt(cfg, s, a + [c], i) == R.ReplyAt(cfg, s, a, i)
  {
    hide R.Step;
    assert (a + [c])[..|a|] == a;
    forall i | 0 <= i < |a| ensures R.ReplyAt(cfg, s, a + [c], i) == R.ReplyAt(cfg, s, a, i) {
      assert (a + [c])[..i] == a[..i];
    }
  }

  lemma AppendFew(cfg: R.Config, s: Store, a: seq<R.Call>, ops: seq<R.Op>)
    requires |ops| <= 2
    ensures R.After(cfg, s, a + Plain(ops)) == R.After(cfg, R.After(cfg, s, a), Plain(ops))
  {
    hide R.Step, R.After;
    var t := R.After(cfg, s, a);
    if |ops| == 0 {
      assert a + Plain(ops) == a;
      NoCalls(cfg, t);
      assert Plain(ops) == Plain([]);
    } else if |ops| == 1 {
      AppendOne(cfg, s, a, Plain(ops)[0]);
      OneCall(cfg, t, ops[0]);
      assert ops == [ops[0]] && Plain(ops) == [Plain(ops)[0]];
    } else {
      AppendOne(cfg, s, a, Plain(ops)[0]);
      AppendOne(cfg, s, a + [Plain(ops)[0]], Plain(ops)[1]);
      TwoCalls(cfg, t, ops[0], ops[1]);
      assert ops == [ops[0], ops[1]];
      assert a + Plain(ops) == a + [Plain(ops)[0]] + [Plain(ops)[1]];
    }
  }

  /** The services and the store machine reach the same store. */
  lemma {:induction false} RunsOnStore(env: Env, w: World, calls: seq<Call>)
    requires RedisWorks(calls) && w.redis.faults == []
    ensures R.After(ConfigOf(env), w.redis, StoreRun(env, w, calls)) == After(env, w, calls).redis
    ensures After(env, w, calls).redis.faults == []
  {
    hide Act, StoreOps, Plain;
    if calls != [] {
      var init, last := calls[..|calls| - 1], calls[|calls| - 1];
      RunsOnStore(env, w, init);
      var v := After(env, w, init);
      var ops := StoreOps(env, Start(v, last), last.op);
      AppendFew(ConfigOf(env), w.redis, StoreRun(env, w, init), ops);
      assert v.redis.(faults := []) == v.redis;
      OperationIsOnStore(env, Start(v, last), last.op);
    }
  }

  // ---------------------------------------------------------------------
  // Wrong passwords.
  // ---------------------------------------------------------------------

  /** The call clears the failures of a mobile. */
  predicate ClearsLogin(call: Call, answer: Answer, mobile: string) {
    match call.op
    case LoginByPassword(m, _, _) => m == mobile && answer.LoggedIn?
    case LoginByCode(m, _, _) => m == mobile && answer.LoggedIn?
    case ResetUserPassword(m, _, _, _) => m == mobile && answer.Done?
    case _ => false
  }

  predicate NeverClearsLogin(env: Env, w: World, calls: seq<Call>, mobile: string) {
    forall i :: 0 <= i < |calls| ==> !ClearsLogin(calls[i], AnswerAt(env, w, calls, i), mobile)
  }

  predicate WrongLogin(call: Call, answer: Answer, mobile: string) {
    call.op.LoginByPassword? && call.op.mobile == mobile && answer == Failed(WrongPassword)
  }

  /** The number of WrongPassword answers to password logins of a mobile. */
  function WrongLogins(env: Env, w: World, calls: seq<Call>, mobile: string): nat {
    if calls == [] then 0
    else
      var n := |calls| - 1;
      WrongLogins(env, w, calls[..n], mobile)
      + if WrongLogin(calls[n], AnswerAt(env, w, calls, n), mobile) then 1 else 0
  }

  lemma AppendCounts(cfg: R.Config, s: Store, a: seq<R.Call>, c: R.Call, mobile: string)
    requires T.NeverClears(cfg, s, a, mobile)
    requires c.op != R.ClearLogin(mobile)
    requires c.op.PasswordLogin? && c.op.mobile == mobile ==>
               R.Step(cfg, R.After(cfg, s, a), c).1 != R.LoginReply(G.Accepted)
    ensures T.NeverClears(cfg, s, a + [c], mobile)
    ensures T.WrongPasswords(cfg, s, a + [c], mobile)
         == T.WrongPasswords(cfg, s, a, mobile) + if T.IsWrongPassword(cfg, R.After(cfg, s, a), c, mobile) then 1 else 0
  {
    hide R.Step, R.After, R.ReplyAt, T.IsWrongPassword;
    AppendOne(cfg, s, a, c);
    assert (a + [c])[..|a|] == a;
    forall i | 0 <= i < |a + [c]| ensures !T.ClearsAt(cfg, s, a + [c], mobile, i) {
      if i < |a| { assert !T.ClearsAt(cfg, s, a, mobile, i); }
    }
  }

  lemma RunPrefix(env: Env, w: World, calls: seq<Call>, i: nat)
    requires calls != [] && i < |calls| - 1
    ensures AnswerAt(env, w, calls[..|calls| - 1], i) == AnswerAt(env, w, calls, i)
  {
    hide Step;
    assert calls[..|calls| - 1][..i] == calls[..i];
  }

  // One service call adds to the store run what it adds to the service run.
  lemma CallCounts(env: Env, w: World, v: World, call: Call, a: seq<R.Call>, mobile: string)
    requires call.redisFaults == [] && R.After(ConfigOf(env), w.redis, a) == v.redis && v.redis.faults == []
    requires T.NeverClears(ConfigOf(env), w.redis, a, mobile) && !ClearsLogin(call, Step(env, v, call).1, mobile)
    ensures var b := a + Plain(StoreOps(env, Start(v, call), call.op));
            && T.NeverClears(ConfigOf(env), w.redis, b, mobile)
            && T.WrongPasswords(ConfigOf(env), w.redis, b, mobile)
               == T.WrongPasswords(ConfigOf(env), w.redis, a, mobile)
                  + if WrongLogin(call, Step(env, v, call).1, mobile) then 1 else 0
  {
    hide Act, R.Step, R.After, T.NeverClears, T.WrongPasswords, VerdictOf, ReachesSend, FindBy, Plain;
    var cfg, v0 := ConfigOf(env), Start(v, call);
    var ops := StoreOps(env, v0, call.op);
    assert v0.redis == v.redis;
    if |ops| == 0 {
      assert a + Plain(ops) == a;
    } else {
      assert a + Plain(ops) == if |ops| == 1 then a + [Plain(ops)[0]] else a + [Plain(ops)[0]] + [Plain(ops)[1]];
    }
    if call.op.LoginByPassword? { PasswordOnStore(env, v0, call.op); }
    if |ops| > 0 { AppendCounts(cfg, w.redis, a, Plain(ops)[0], mobile); }
    if |ops| > 1 { AppendCounts(cfg, w.redis, a + [Plain(ops)[0]], Plain(ops)[1], mobile); }
  }

  lemma {:induction false} LoginsCount(env: Env, w: World, calls: seq<Call>, mobile: string)
    requires RedisWorks(calls) && w.redis.faults == [] && NeverClearsLogin(env, w, calls, mobile)
    ensures T.NeverClears(ConfigOf(env), w.redis, StoreRun(env, w, calls), mobile)
    ensures T.WrongPasswords(ConfigOf(env), w.redis, StoreRun(env, w, calls), mobile)
         == WrongLogins(env, w, calls, mobile)
  {
    hide Step, StoreOps, Plain, R.Step, T.NeverClears, ClearsLogin, WrongLogin;
    if calls == [] {
      assert T.NeverClears(ConfigOf(env), w.redis, [], mobile) by { NothingClears(ConfigOf(env), w.redis, mobile); }
    } else {
      var init, last := calls[..|calls| - 1], calls[|calls| - 1];
      forall i | 0 <= i < |init| ensures !ClearsLogin(init[i], AnswerAt(env, w, init, i), mobile) {
        RunPrefix(env, w, calls, i);
        assert !ClearsLogin(calls[i], AnswerAt(env, w, calls, i), mobile);
      }
      LoginsCount(env, w, init, mobile);
      RunsOnStore(env, w, init);
      assert !ClearsLogin(last, AnswerAt(env, w, calls, |calls| - 1), mobile);
      CallCounts(env, w, After(env, w, init), last, StoreRun(env, w, init), mobile);
    }
  }

  lemma NothingClears(cfg: R.Config, s: Store, mobile: string)
    ensures T.NeverClears(cfg, s, [], mobile)
  {
  }

  /** In any run of all the services in which nothing clears the mobile's failures, password
      logins answer WrongPassword at most max times for every started span. */
  lemma ServiceLockoutBound(env: Env, w: World, calls: seq<Call>, mobile: string)
    requires R.ValidConfig(ConfigOf(env)) && R.AllTidy(ConfigOf(env), w.redis) && RedisWorks(calls)
    requires G.FailuresOf(w.redis, mobile).None? && NeverClearsLogin(env, w, calls, mobile)
    ensures WrongLogins(env, w, calls, mobile)
         <= env.login.maxAttempts
            * ((After(env, w, calls).redis.now - w.redis.now) / T.LoginSpan(ConfigOf(env)) + 1)
  {
    hide Step, StoreRun, R.Step, R.After, T.NeverClears, R.ValidConfig, WrongLogins, T.WrongPasswords;
    RunsOnStore(env, w, calls);
    LoginsCount(env, w, calls, mobile);
    T.LockoutBound(ConfigOf(env), w.redis, StoreRun(env, w, calls), mobile);
  }

  // ---------------------------------------------------------------------
  // Wrong captchas.
  // ---------------------------------------------------------------------

  /** The call gets as far as checking a captcha of this scene and mobile. */
  predicate Checks(env: Env, w: World, call: Call, scene: Scene, mobile: string) {
    var ops := StoreOps(env, Start(w, call), call.op);
    ops != [] && ops[0].VerifyCode? && ops[0].scene == scene && ops[0].mobile == mobile
  }

  predicate ChecksAt(env: Env, w: World, calls: seq<Call>, scene: Scene, mobile: string, i: nat)
    requires i < |calls|
  {
    Checks(env, After(env, w, calls[..i]), calls[i], scene, mobile)
  }

  /** Every captcha checked for the scene and mobile was rejected. */
  predicate NoneAccepted(env: Env, w: World, calls: seq<Call>, scene: Scene, mobile: string) {
    forall i :: 0 <= i < |calls| && ChecksAt(env, w, calls, scene, mobile, i) ==> Rejected(AnswerAt(env, w, calls, i))
  }

  /** The number of CaptchaWrong and AccountLocked answers to those checks. */
  function WrongCodes(env: Env, w: World, calls: seq<Call>, scene: Scene, mobile: string): nat {
    if calls == [] then 0
    else
      var n := |calls| - 1;
      WrongCodes(env, w, calls[..n], scene, mobile)
      + if ChecksAt(env, w, calls, scene, mobile, n) && WrongCode(AnswerAt(env, w, calls, n)) then 1 else 0
  }

  predicate Verifies(c: R.Call, scene: Scene, mobile: string) {
    c.op.VerifyCode? && c.op.scene == scene && c.op.mobile == mobile
  }

  lemma AppendGuesses(cfg: R.Config, s: Store, a: seq<R.Call>, c: R.Call, scene: Scene, mobile: string)
    requires T.NeverSucceeds(cfg, s, a, scene, mobile)
    requires Verifies(c, scene, mobile) ==> R.Step(cfg, R.After(cfg, s, a), c).1 != R.VerifyReply(Ok(()))
    ensures T.NeverSucceeds(cfg, s, a + [c], scene, mobile)
    ensures T.WrongGuesses(cfg, s, a + [c], scene, mobile)
         == T.WrongGuesses(cfg, s, a, scene, mobile)
            + if Verifies(c, scene, mobile) && T.WrongGuessReply(R.Step(cfg, R.After(cfg, s, a), c).1) then 1 else 0
  {
    hide R.Step, R.After, R.ReplyAt, T.WrongGuessReply;
    AppendOne(cfg, s, a, c);
    assert (a + [c])[..|a|] == a;
    forall i | 0 <= i < |a + [c]| && T.VerifiesAt(a + [c], scene, mobile, i)
      ensures R.ReplyAt(cfg, s, a + [c], i) != R.VerifyReply(Ok(()))
    {
      if i < |a| { assert T.VerifiesAt(a, scene, mobile, i); }
    }
  }

  lemma OperationTellsReply(env: Env, w: World, op: Op)
    requires Guesses(op) && w.redis.faults == []
    ensures TellsReply(env, w, op)
  {
    hide Act, StoreOps, TellsReply, OnStore;
    match op {
      case RegisterUser(_, _, _, _, _, _, _) => RegisterOnStore(env, w, op);
      case LoginByCode(_, _, _) => CodeOnStore(env, w, op);
      case ResetUserPassword(_, _, _, _) => ResetOnStore(env, w, op);
      case DeleteAccount(_, _) => DeleteOnStore(env, w, op);
    }
  }

  lemma OtherOperationsCheckNothing(env: Env, w: World, op: Op)
    requires !Guesses(op)
    ensures |StoreOps(env, w, op)| <= 1 && forall i :: 0 <= i < |StoreOps(env, w, op)| ==>
            !StoreOps(env, w, op)[i].VerifyCode?
  {
    hide Act, VerdictOf, ReachesSend, FindBy;
  }

  lemma CallGuesses(env: Env, w: World, v: World, call: Call, a: seq<R.Call>, scene: Scene, mobile: string)
    requires call.redisFaults == [] && R.After(ConfigOf(env), w.redis, a) == v.redis && v.redis.faults == []
    requires T.NeverSucceeds(ConfigOf(env), w.redis, a, scene, mobile)
    requires Checks(env, v, call, scene, mobile) ==> Rejected(Step(env, v, call).1)
    ensures var b := a + Plain(StoreOps(env, Start(v, call), call.op));
            && T.NeverSucceeds(ConfigOf(env), w.redis, b, scene, mobile)
            && T.WrongGuesses(ConfigOf(env), w.redis, b, scene, mobile)
               == T.WrongGuesses(ConfigOf(env), w.redis, a, scene, mobile)
                  + if Checks(env, v, call, scene, mobile) && WrongCode(Step(env, v, call).1) then 1 else 0
  {
    hide Act, R.Step, R.After, T.NeverSucceeds, T.WrongGuesses, StoreOps, Plain, T.WrongGuessReply, Rejected, WrongCode;
    var cfg, v0 := ConfigOf(env), Start(v, call);
    var ops := StoreOps(env, v0, call.op);
    assert v0.redis == v.redis;
    if |ops| == 0 {
      assert a + Plain(ops) == a;
    } else {
      assert a + Plain(ops) == if |ops| == 1 then a + [Plain(ops)[0]] else a + [Plain(ops)[0]] + [Plain(ops)[1]];
    }
    if Guesses(call.op) {
      OperationTellsReply(env, v0, call.op);
    } else {
      OtherOperationsCheckNothing(env, v0, call.op);
    }
    if |ops| > 0 { AppendGuesses(cfg, w.redis, a, Plain(ops)[0], scene, mobile); }
    if |ops| > 1 { AppendGuesses(cfg, w.redis, a + [Plain(ops)[0]], Plain(ops)[1], scene, mobile); }
  }

  lemma {:induction false} CodesCount(env: Env, w: World, calls: seq<Call>, scene: Scene, mobile: string)
    requires RedisWorks(calls) && w.redis.faults == [] && NoneAccepted(env, w, calls, scene, mobile)
    ensures T.NeverSucceeds(ConfigOf(env), w.redis, StoreRun(env, w, calls), scene, mobile)
    ensures T.WrongGuesses(ConfigOf(env), w.redis, StoreRun(env, w, calls), scene, mobile)
         == WrongCodes(env, w, calls, scene, mobile)
  {
    hide Step, StoreOps, Plain, R.Step, T.NeverSucceeds, Checks, Rejected, WrongCode;
    if calls == [] {
      assert T.NeverSucceeds(ConfigOf(env), w.redis, [], scene, mobile) by {
        NothingSucceeds(ConfigOf(env), w.redis, scene, mobile);
      }
    } else {
      var n := |calls| - 1;
      var init, last := calls[..n], calls[n];
      forall i | 0 <= i < |init| && ChecksAt(env, w, init, scene, mobile, i)
        ensures Rejected(AnswerAt(env, w, init, i))
      {
        RunPrefix(env, w, calls, i);
        assert init[..i] == calls[..i];
        assert ChecksAt(env, w, calls, scene, mobile, i);
      }
      CodesCount(env, w, init, scene, mobile);
      RunsOnStore(env, w, init);
      assert ChecksAt(env, w, calls, scene, mobile, n) ==> Rejected(AnswerAt(env, w, calls, n));
      CallGuesses(env, w, After(env, w, init), last, StoreRun(env, w, init), scene, mobile);
    }
  }

  lemma NothingSucceeds(cfg: R.Config, s: Store, scene: Scene, mobile: string)
    ensures T.NeverSucceeds(cfg, s, [], scene, mobile)
  {
  }

  /** In any run of all the services in which no captcha of the scene and mobile is accepted,
      wrong ones are told apart from right ones at most max times for every started span. */
  lemma ServiceGuessBound(env: Env, w: World, calls: seq<Call>, scene: Scene, mobile: string)
    requires R.ValidConfig(ConfigOf(env)) && R.AllTidy(ConfigOf(env), w.redis) && RedisWorks(calls)
    requires C.RecordOf(w.redis, scene, mobile).wrong.None? && C.RecordOf(w.redis, scene, mobile).lock.None?
    requires NoneAccepted(env, w, calls, scene, mobile)
    ensures WrongCodes(env, w, calls, scene, mobile)
         <= env.sms.maxRetry
            * ((After(env, w, calls).redis.now - w.redis.now) / T.GuessSpan(ConfigOf(env)) + 1)
  {
    hide Step, StoreRun, R.Step, R.After, T.NeverSucceeds, R.ValidConfig, WrongCodes, T.WrongGuesses, C.RecordOf;
    RunsOnStore(env, w, calls);
    CodesCount(env, w, calls, scene, mobile);
    T.GuessBound(ConfigOf(env), w.redis, StoreRun(env, w, calls), scene, mobile);
  }
}
