/** What holds over whole runs of the Redis machine: how many wrong attempts fit into a
    run, how long a lock lasts, where an accepted captcha came from and how far apart two
    sends are. */
module StoreTheorems {
  import opened Outcome
  import opened Redis
  import opened Keys
  import opened Timed
  import opened Throttle
  import opened StoreRuns
  import G = LoginGate
  import C = Captcha

  function Min(a: int, b: int): int {
    if a <= b then a else b
  }

  // ---------------------------------------------------------------------
  // The login lockout.
  // ---------------------------------------------------------------------

  /** The i-th call clears the failures of a mobile: an accepted login, or a clear after a
      captcha login or a password reset. */
  predicate ClearsAt(cfg: Config, s: Store, calls: seq<Call>, mobile: string, i: nat)
    requires i < |calls|
  {
    || calls[i].op == ClearLogin(mobile)
    || (calls[i].op.PasswordLogin? && calls[i].op.mobile == mobile
      && ReplyAt(cfg, s, calls, i) == LoginReply(G.Accepted))
  }

  predicate NeverClears(cfg: Config, s: Store, calls: seq<Call>, mobile: string) {
    forall i :: 0 <= i < |calls| ==> !ClearsAt(cfg, s, calls, mobile, i)
  }

  predicate IsWrongPassword(cfg: Config, s: Store, call: Call, mobile: string) {
    && call.op.PasswordLogin? && call.op.mobile == mobile
    && Step(cfg, s, call).1 == LoginReply(G.Refused(WrongPassword))
  }

  /** The number of WrongPassword answers a run gives for a mobile. */
  function WrongPasswords(cfg: Config, s: Store, calls: seq<Call>, mobile: string): nat {
    if calls == [] then 0
    else
      var init, last := calls[..|calls| - 1], calls[|calls| - 1];
      WrongPasswords(cfg, s, init, mobile)
      + if IsWrongPassword(cfg, After(cfg, s, init), last, mobile) then 1 else 0
  }

  function LoginMeter(f: G.Failures): Meter {
    match f case None => Idle case Some(t) => Counting(t.value, t.until)
  }

  function LoginSpan(cfg: Config): int {
    1000 * Min(cfg.login.windowSeconds, cfg.login.lockSeconds)
  }

  lemma RunPrefix(cfg: Config, s: Store, calls: seq<Call>, i: nat)
    requires calls != [] && i < |calls| - 1
    ensures var init := calls[..|calls| - 1];
            ReplyAt(cfg, s, init, i) == ReplyAt(cfg, s, calls, i) && init[i] == calls[i]
    ensures Before(cfg, s, calls[..|calls| - 1], i) == Before(cfg, s, calls, i)
  {
    hide Step;
    assert calls[..|calls| - 1][..i] == calls[..i];
  }

  lemma LastReply(cfg: Config, s: Store, calls: seq<Call>)
    requires calls != []
    ensures ReplyAt(cfg, s, calls, |calls| - 1) == Step(cfg, After(cfg, s, calls[..|calls| - 1]), calls[|calls| - 1]).1
  {
    hide Step;
  }

  /** One step of the plain lockout is one step of the throttle. */
  lemma LoginStepFits(cfg: Config, f: G.Failures, now: int, op: Op, mobile: string, start: int, wrongs: int)
    requires ValidConfig(cfg) && Fresh(f, now)
    requires f.Some? ==> 1 <= f.value.value <= cfg.login.maxAttempts
    requires Accounted(LoginMeter(f), now, start, wrongs, cfg.login.maxAttempts, LoginSpan(cfg))
    requires op != ClearLogin(mobile)
    requires op.PasswordLogin? && op.mobile == mobile ==> G.AttemptOn(f, cfg.login, now, op.verdict).1 != G.Accepted
    ensures var wrong := op.PasswordLogin? && op.mobile == mobile
                         && G.AttemptOn(f, cfg.login, now, op.verdict).1 == G.Refused(WrongPassword);
            var next := PlainFailures(cfg, View(C.Record(None, None, None), None, f), now, op, mobile);
            Accounted(LoginMeter(next), now + (if op.Tick? then op.ms else 0), start,
                      wrongs + (if wrong then 1 else 0), cfg.login.maxAttempts, LoginSpan(cfg))
  {
    hide Accounted;
    var m := LoginMeter(f);
    if op.Tick? {
      Pass(m, now, now + op.ms, start, wrongs, cfg.login.maxAttempts, LoginSpan(cfg));
    } else if op.PasswordLogin? && op.mobile == mobile && !G.IsLocked(f, cfg.login)
              && (op.verdict.NoSuchUser? || op.verdict.Mismatch?) {
      Wrong(m, LoginMeter(G.OneMore(f, cfg.login, now)), now, start, wrongs, cfg.login.maxAttempts, LoginSpan(cfg));
    }
  }

  lemma FailuresAreCounted(cfg: Config, s: Store, mobile: string)
    requires ValidConfig(cfg) && AllTidy(cfg, s)
    ensures var f := G.FailuresOf(s, mobile);
            Fresh(f, s.now) && (f.Some? ==> 1 <= f.value.value <= cfg.login.maxAttempts)
  {
    hide G.FailKey;
    assert TidyFor(cfg, s, Unknown, mobile);
    G.NumberIsTidy(s, G.FailKey(mobile), cfg.login.maxAttempts);
  }

  lemma {:induction false} LockoutAccounts(cfg: Config, s: Store, calls: seq<Call>, mobile: string)
    requires ValidConfig(cfg) && AllTidy(cfg, s) && Working(calls) && NeverClears(cfg, s, calls, mobile)
    requires G.FailuresOf(s, mobile).None?
    ensures var t := After(cfg, s, calls);
            Accounted(LoginMeter(G.FailuresOf(t, mobile)), t.now, s.now, WrongPasswords(cfg, s, calls, mobile),
                      cfg.login.maxAttempts, LoginSpan(cfg))
    decreases |calls|
  {
    hide Step, AllTidy, G.FailuresOf, Accounted, PlainFailures, C.RecordOf, C.IntervalOf, PlainRecord, PlainInterval,
         LoginSpan, G.AttemptOn;
    if calls == [] {
      Start(s.now, cfg.login.maxAttempts, LoginSpan(cfg));
    } else {
      var init, last := calls[..|calls| - 1], calls[|calls| - 1];
      forall i | 0 <= i < |init| ensures !ClearsAt(cfg, s, init, mobile, i) {
        RunPrefix(cfg, s, calls, i);
        assert !ClearsAt(cfg, s, calls, mobile, i);
      }
      LockoutAccounts(cfg, s, init, mobile);
      ReachableIsTidy(cfg, s, init);
      var t := After(cfg, s, init);
      StepOn(cfg, t, last, Unknown, mobile);
      LastReply(cfg, s, calls);
      assert !ClearsAt(cfg, s, calls, mobile, |calls| - 1);
      FailuresAreCounted(cfg, t, mobile);
      PlainFailuresOnly(cfg, ViewOf(t, Unknown, mobile), t.now, last.op, mobile);
      LoginStepFits(cfg, G.FailuresOf(t, mobile), t.now, last.op, mobile, s.now, WrongPasswords(cfg, s, init, mobile));
    }
  }

  lemma PlainFailuresOnly(cfg: Config, v: View, now: int, op: Op, mobile: string)
    ensures PlainFailures(cfg, v, now, op, mobile)
         == PlainFailures(cfg, View(C.Record(None, None, None), None, v.failures), now, op, mobile)
    ensures op.PasswordLogin? ==>
              PlainReply(cfg, v, now, op) == LoginReply(G.AttemptOn(v.failures, cfg.login, now, op.verdict).1)
  {
    hide G.AttemptOn;
  }

  /** In any run of the whole machine that starts without a fail key for the mobile and
      never clears it, the wrong passwords answered for that mobile are at most max for
      every started span of the smaller of window and lock. */
  lemma LockoutBound(cfg: Config, s: Store, calls: seq<Call>, mobile: string)
    requires ValidConfig(cfg) && AllTidy(cfg, s) && Working(calls) && NeverClears(cfg, s, calls, mobile)
    requires G.FailuresOf(s, mobile).None?
    ensures WrongPasswords(cfg, s, calls, mobile)
         <= cfg.login.maxAttempts * ((After(cfg, s, calls).now - s.now) / LoginSpan(cfg) + 1)
  {
    hide Step, AllTidy, G.FailuresOf, Accounted, NeverClears;
    LockoutAccounts(cfg, s, calls, mobile);
    ReachableIsTidy(cfg, s, calls);
    Bound(LoginMeter(G.FailuresOf(After(cfg, s, calls), mobile)), After(cfg, s, calls).now, s.now,
          WrongPasswords(cfg, s, calls, mobile), cfg.login.maxAttempts, LoginSpan(cfg));
  }

  /** The wrong password that reaches the limit sets exactly the lock duration. */
  lemma LimitSetsTheLock(cfg: Config, s: Store, mobile: string, verdict: G.Verdict)
    requires ValidConfig(cfg) && AllTidy(cfg, s) && (verdict.NoSuchUser? || verdict.Mismatch?)
    requires match G.FailuresOf(s, mobile)
             case None => cfg.login.maxAttempts == 1
             case Some(t) => t.value == cfg.login.maxAttempts - 1
    ensures var (s', reply) := Step(cfg, s, Call(PasswordLogin(mobile, verdict), []));
            && reply == LoginReply(G.Refused(WrongPassword))
            && G.FailuresOf(s', mobile) == Some(Timed(cfg.login.maxAttempts, s.now + 1000 * cfg.login.lockSeconds))
  {
    hide Step, AllTidy, G.FailuresOf;
    StepOn(cfg, s, Call(PasswordLogin(mobile, verdict), []), Unknown, mobile);
  }

  /** A lock lasts: until its deadline, whatever else happens, every password login of the
      mobile is answered AccountLocked, and the deadline stays. */
  lemma {:induction false} LockLasts(cfg: Config, s: Store, calls: seq<Call>, mobile: string)
    requires ValidConfig(cfg) && AllTidy(cfg, s) && Working(calls) && NeverClears(cfg, s, calls, mobile)
    requires G.IsLocked(G.FailuresOf(s, mobile), cfg.login)
    requires After(cfg, s, calls).now < G.FailuresOf(s, mobile).value.until
    ensures G.FailuresOf(After(cfg, s, calls), mobile) == G.FailuresOf(s, mobile)
    ensures forall i :: 0 <= i < |calls| && calls[i].op.PasswordLogin? && calls[i].op.mobile == mobile ==>
              ReplyAt(cfg, s, calls, i) == LoginReply(G.Refused(AccountLocked))
    decreases |calls|
  {
    hide Step, AllTidy, G.FailuresOf, C.RecordOf, C.IntervalOf, PlainRecord, PlainInterval;
    if calls != [] {
      var init, last := calls[..|calls| - 1], calls[|calls| - 1];
      forall i | 0 <= i < |init| ensures !ClearsAt(cfg, s, init, mobile, i) {
        RunPrefix(cfg, s, calls, i);
        assert !ClearsAt(cfg, s, calls, mobile, i);
      }
      ReachableIsTidy(cfg, s, init);
      var t := After(cfg, s, init);
      StepOn(cfg, t, last, Unknown, mobile);
      LockLasts(cfg, s, init, mobile);
      LastReply(cfg, s, calls);
      assert !ClearsAt(cfg, s, calls, mobile, |calls| - 1);
      forall i | 0 <= i < |calls| && calls[i].op.PasswordLogin? && calls[i].op.mobile == mobile
        ensures ReplyAt(cfg, s, calls, i) == LoginReply(G.Refused(AccountLocked))
      {
        if i < |init| {
          RunPrefix(cfg, s, calls, i);
          assert init[i].op.PasswordLogin?;
        }
      }
    }
  }

  // ---------------------------------------------------------------------
  // Captcha guesses.
  // ---------------------------------------------------------------------

  predicate VerifiesAt(calls: seq<Call>, scene: Scene, mobile: string, i: nat)
    requires i < |calls|
  {
    calls[i].op.VerifyCode? && calls[i].op.scene == scene && calls[i].op.mobile == mobile
  }

  predicate NeverSucceeds(cfg: Config, s: Store, calls: seq<Call>, scene: Scene, mobile: string) {
    forall i :: 0 <= i < |calls| && VerifiesAt(calls, scene, mobile, i) ==>
      ReplyAt(cfg, s, calls, i) != VerifyReply(Ok(()))
  }

  predicate WrongGuessReply(reply: Reply) {
    reply == VerifyReply(Fail(CaptchaWrong)) || reply == VerifyReply(Fail(AccountLocked))
  }

  /** The number of wrong guesses a run makes at a scene and mobile, the locking one included. */
  function WrongGuesses(cfg: Config, s: Store, calls: seq<Call>, scene: Scene, mobile: string): nat {
    if calls == [] then 0
    else
      var n := |calls| - 1;
      WrongGuesses(cfg, s, calls[..n], scene, mobile)
      + if VerifiesAt(calls, scene, mobile, n) && WrongGuessReply(ReplyAt(cfg, s, calls, n)) then 1 else 0
  }

  function GuessMeter(r: C.Record, cfg: Config): Meter {
    if r.lock.Some? then Counting(cfg.sms.maxRetry, r.lock.value.until)
    else if r.wrong.Some? then Counting(r.wrong.value.value, r.wrong.value.until)
    else Idle
  }

  function GuessSpan(cfg: Config): int {
    1000 * Min(cfg.sms.retryTtlSeconds, cfg.sms.lockSeconds)
  }

  predicate FreshRecord(r: C.Record, now: int) {
    Fresh(r.code, now) && Fresh(r.wrong, now) && Fresh(r.lock, now)
  }

  lemma GuessStepFits(cfg: Config, v: View, now: int, op: Op, scene: Scene, mobile: string, start: int, wrongs: int)
    requires ValidConfig(cfg) && FreshRecord(v.record, now) && C.Sound(v.record, cfg.sms)
    requires Accounted(GuessMeter(v.record, cfg), now, start, wrongs, cfg.sms.maxRetry, GuessSpan(cfg))
    requires op.VerifyCode? && op.scene == scene && op.mobile == mobile ==>
             PlainReply(cfg, v, now, op) != VerifyReply(Ok(()))
    ensures var wrong := op.VerifyCode? && op.scene == scene && op.mobile == mobile
                         && WrongGuessReply(PlainReply(cfg, v, now, op));
            Accounted(GuessMeter(PlainRecord(cfg, v, now, op, scene, mobile), cfg),
                      now + (if op.Tick? then op.ms else 0), start,
                      wrongs + (if wrong then 1 else 0), cfg.sms.maxRetry, GuessSpan(cfg))
  {
    hide Accounted;
    var m := GuessMeter(v.record, cfg);
    if op.Tick? {
      Pass(m, now, now + op.ms, start, wrongs, cfg.sms.maxRetry, GuessSpan(cfg));
    } else if op.VerifyCode? && op.scene == scene && op.mobile == mobile
      && WrongGuessReply(PlainReply(cfg, v, now, op)) {
      Wrong(m, GuessMeter(PlainRecord(cfg, v, now, op, scene, mobile), cfg), now, start, wrongs,
            cfg.sms.maxRetry, GuessSpan(cfg));
    }
  }

  lemma RecordIsFresh(cfg: Config, s: Store, scene: Scene, mobile: string)
    requires AllTidy(cfg, s)
    ensures FreshRecord(C.RecordOf(s, scene, mobile), s.now) && C.Sound(C.RecordOf(s, scene, mobile), cfg.sms)
    ensures Fresh(C.IntervalOf(s, mobile), s.now)
  {
    hide C.Sound, TextAt, NumberAt;
    assert TidyFor(cfg, s, scene, mobile);
  }

  lemma {:induction false} GuessesAccount(cfg: Config, s: Store, calls: seq<Call>, scene: Scene, mobile: string)
    requires ValidConfig(cfg) && AllTidy(cfg, s) && Working(calls) && NeverSucceeds(cfg, s, calls, scene, mobile)
    requires C.RecordOf(s, scene, mobile).wrong.None? && C.RecordOf(s, scene, mobile).lock.None?
    ensures var t := After(cfg, s, calls);
            Accounted(GuessMeter(C.RecordOf(t, scene, mobile), cfg), t.now, s.now,
                      WrongGuesses(cfg, s, calls, scene, mobile), cfg.sms.maxRetry, GuessSpan(cfg))
    decreases |calls|
  {
    hide Step, AllTidy, G.FailuresOf, Accounted, PlainFailures, C.RecordOf, C.IntervalOf, PlainRecord, PlainInterval,
         GuessSpan, PlainReply, C.Sound;
    if calls == [] {
      Start(s.now, cfg.sms.maxRetry, GuessSpan(cfg));
    } else {
      var init, last := calls[..|calls| - 1], calls[|calls| - 1];
      forall i | 0 <= i < |init| && VerifiesAt(init, scene, mobile, i)
        ensures ReplyAt(cfg, s, init, i) != VerifyReply(Ok(()))
      {
        RunPrefix(cfg, s, calls, i);
        assert VerifiesAt(calls, scene, mobile, i);
      }
      GuessesAccount(cfg, s, init, scene, mobile);
      ReachableIsTidy(cfg, s, init);
      var t := After(cfg, s, init);
      StepOn(cfg, t, last, scene, mobile);
      LastReply(cfg, s, calls);
      assert VerifiesAt(calls, scene, mobile, |calls| - 1) ==>
        ReplyAt(cfg, s, calls, |calls| - 1) != VerifyReply(Ok(()));
      RecordIsFresh(cfg, t, scene, mobile);
      GuessStepFits(cfg, ViewOf(t, scene, mobile), t.now, last.op, scene, mobile, s.now,
                    WrongGuesses(cfg, s, init, scene, mobile));
    }
  }

  /** In any run that starts without a counter or lock at a scene and mobile and has no
      success there, the wrong guesses are at most max for every started span of the
      smaller of retry time and lock. */
  lemma GuessBound(cfg: Config, s: Store, calls: seq<Call>, scene: Scene, mobile: string)
    requires ValidConfig(cfg) && AllTidy(cfg, s) && Working(calls) && NeverSucceeds(cfg, s, calls, scene, mobile)
    requires C.RecordOf(s, scene, mobile).wrong.None? && C.RecordOf(s, scene, mobile).lock.None?
    ensures WrongGuesses(cfg, s, calls, scene, mobile)
         <= cfg.sms.maxRetry * ((After(cfg, s, calls).now - s.now) / GuessSpan(cfg) + 1)
  {
    hide Step, AllTidy, C.RecordOf, Accounted, NeverSucceeds;
    GuessesAccount(cfg, s, calls, scene, mobile);
    ReachableIsTidy(cfg, s, calls);
    Bound(GuessMeter(C.RecordOf(After(cfg, s, calls), scene, mobile), cfg), After(cfg, s, calls).now, s.now,
          WrongGuesses(cfg, s, calls, scene, mobile), cfg.sms.maxRetry, GuessSpan(cfg));
  }

  // ---------------------------------------------------------------------
  // Where an accepted captcha came from.
  // ---------------------------------------------------------------------

  /** The i-th call stored a code for a scene and mobile and delivered it. */
  predicate StoresAt(cfg: Config, s: Store, calls: seq<Call>, scene: Scene, mobile: string, i: nat)
    requires i < |calls|
  {
    && calls[i].op.SendCode? && calls[i].op.scene == scene && calls[i].op.mobile == mobile
    && ReplyAt(cfg, s, calls, i).SendReply? && ReplyAt(cfg, s, calls, i).sent.Ok?
  }

  /** The i-th call withdrew the code: a failed delivery, a lock or a consume. */
  predicate WithdrawsAt(cfg: Config, s: Store, calls: seq<Call>, scene: Scene, mobile: string, i: nat)
    requires i < |calls|
  {
    match calls[i].op
    case SendCode(sc, m, _, _) => sc == scene && m == mobile
      && ReplyAt(cfg, s, calls, i) == SendReply(Fail(ServiceUnavailable))
    case VerifyCode(sc, m, _) => sc == scene && m == mobile && ReplyAt(cfg, s, calls,
      i) == VerifyReply(Fail(AccountLocked))
    case ConsumeCode(sc, m) => sc == scene && m == mobile
    case _ => false
  }

  /** Call i is the latest to have stored a code, and no later call withdrew it. */
  predicate IsSource(cfg: Config, s: Store, calls: seq<Call>, scene: Scene, mobile: string, i: int) {
    && 0 <= i < |calls| && StoresAt(cfg, s, calls, scene, mobile, i)
    && forall j :: i < j < |calls| ==>
         !StoresAt(cfg, s, calls, scene, mobile, j) && !WithdrawsAt(cfg, s, calls, scene, mobile, j)
  }

  /** The code call i sent, and the instant its lifetime ends. */
  function SentCode(cfg: Config, s: Store, calls: seq<Call>, i: int): Timed<string>
    requires 0 <= i < |calls|
  {
    Timed(if calls[i].op.SendCode? then calls[i].op.code else "", Before(cfg, s, calls,
      i).now + 1000 * cfg.sms.codeTtlSeconds)
  }

  /** The stored code is that of the source while its lifetime lasts, and there is none
      without a source. */
  ghost predicate Traced(cfg: Config, s: Store, calls: seq<Call>, scene: Scene, mobile: string) {
    var t := After(cfg, s, calls);
    var code := C.RecordOf(t, scene, mobile).code;
    && (forall i :: IsSource(cfg, s, calls, scene, mobile, i) ==> code == At(Some(SentCode(cfg, s, calls, i)), t.now))
    && (code.Some? ==> exists i :: IsSource(cfg, s, calls, scene, mobile, i))
  }

  lemma SourceOfPrefix(cfg: Config, s: Store, calls: seq<Call>, scene: Scene, mobile: string, i: nat)
    requires calls != [] && i < |calls| - 1
    ensures var init := calls[..|calls| - 1];
            && (IsSource(cfg, s, calls, scene, mobile, i) <==>
                  IsSource(cfg, s, init, scene, mobile, i)
                  && !StoresAt(cfg, s, calls, scene, mobile, |calls| - 1)
                  && !WithdrawsAt(cfg, s, calls, scene, mobile, |calls| - 1))
            && (IsSource(cfg, s, init, scene, mobile, i) ==> SentCode(cfg, s, init, i) == SentCode(cfg, s, calls, i))
  {
    hide ReplyAt;
    var init := calls[..|calls| - 1];
    forall j | 0 <= j < |init|
      ensures StoresAt(cfg, s, calls, scene, mobile, j) <==> StoresAt(cfg, s, init, scene, mobile, j)
      ensures WithdrawsAt(cfg, s, calls, scene, mobile, j) <==> WithdrawsAt(cfg, s, init, scene, mobile, j)
    {
      RunPrefix(cfg, s, calls, j);
    }
    RunPrefix(cfg, s, calls, i);
  }

  /** What one step does to the stored code, in terms of its answer. */
  lemma CodeStep(cfg: Config, v: View, now: int, op: Op, scene: Scene, mobile: string)
    requires ValidConfig(cfg) && FreshRecord(v.record, now)
    ensures var own := OpScene(op, scene) == scene && OpMobile(op, mobile) == mobile;
            var reply := PlainReply(cfg, v, now, op);
            var code' := PlainRecord(cfg, v, now, op, scene, mobile).code;
            if own && op.SendCode? && reply.sent.Ok? then code' == Some(Timed(op.code,
              now + 1000 * cfg.sms.codeTtlSeconds))
            else if own && (op.ConsumeCode? || (op.SendCode? && reply == SendReply(Fail(ServiceUnavailable)))
                            || (op.VerifyCode? && reply == VerifyReply(Fail(AccountLocked)))) then code' == None
            else code' == At(v.record.code, now + (if op.Tick? then op.ms else 0))
  {
  }

  lemma {:induction false} CodesAreTraced(cfg: Config, s: Store, calls: seq<Call>, scene: Scene, mobile: string)
    requires ValidConfig(cfg) && AllTidy(cfg, s) && Working(calls)
    requires C.RecordOf(s, scene, mobile).code.None?
    ensures Traced(cfg, s, calls, scene, mobile)
    decreases |calls|
  {
    hide Step, AllTidy, C.RecordOf, C.IntervalOf, G.FailuresOf, PlainRecord, PlainInterval, PlainFailures, PlainReply,
         IsSource, StoresAt, WithdrawsAt, SentCode, C.Sound;
    var n := |calls| - 1;
    if calls == [] {
      NoSource(cfg, s, calls, scene, mobile);
    } else {
      var init, last := calls[..n], calls[n];
      CodesAreTraced(cfg, s, init, scene, mobile);
      ReachableIsTidy(cfg, s, init);
      var t := After(cfg, s, init);
      StepOn(cfg, t, last, scene, mobile);
      RecordIsFresh(cfg, t, scene, mobile);
      CodeStep(cfg, ViewOf(t, scene, mobile), t.now, last.op, scene, mobile);
      forall i | 0 <= i < n
        ensures IsSource(cfg, s, calls, scene, mobile, i) <==>
                  IsSource(cfg, s, init, scene, mobile, i)
                  && !StoresAt(cfg, s, calls, scene, mobile, n) && !WithdrawsAt(cfg, s, calls, scene, mobile, n)
        ensures IsSource(cfg, s, init, scene, mobile, i) ==> SentCode(cfg, s, init, i) == SentCode(cfg, s, calls, i)
      {
        SourceOfPrefix(cfg, s, calls, scene, mobile, i);
      }
      LastOfRun(cfg, s, calls, scene, mobile);
      var t' := After(cfg, s, calls);
      var code, code' := C.RecordOf(t, scene, mobile).code, C.RecordOf(t', scene, mobile).code;
      forall i | IsSource(cfg, s, calls, scene, mobile, i) ensures 0 <= i < |calls| {
        SourceIsInRange(cfg, s, calls, scene, mobile, i);
      }
      forall i | 0 <= i < |calls| && IsSource(cfg, s, calls, scene, mobile, i)
        ensures code' == At(Some(SentCode(cfg, s, calls, i)), t'.now)
      {
        if i < n {
          assert IsSource(cfg, s, init, scene, mobile, i);
        }
      }
      if code'.Some? && !StoresAt(cfg, s, calls, scene, mobile, n) {
        var i :| IsSource(cfg, s, init, scene, mobile, i);
        SourceIsInRange(cfg, s, init, scene, mobile, i);
        assert IsSource(cfg, s, calls, scene, mobile, i);
      }
    }
  }

  lemma SourceIsInRange(cfg: Config, s: Store, calls: seq<Call>, scene: Scene, mobile: string, i: int)
    requires IsSource(cfg, s, calls, scene, mobile, i)
    ensures 0 <= i < |calls| && calls[i].op.SendCode? && StoresAt(cfg, s, calls, scene, mobile, i)
  {
    hide ReplyAt;
  }

  /** What the last call of a run means for the trace, in terms of its plain answer. */
  lemma LastOfRun(cfg: Config, s: Store, calls: seq<Call>, scene: Scene, mobile: string)
    requires calls != []
    requires var t, op := After(cfg, s, calls[..|calls| - 1]), calls[|calls| - 1].op;
             OpScene(op, scene) == scene && OpMobile(op, mobile) == mobile ==>
               Step(cfg, t, calls[|calls| - 1]).1 == PlainReply(cfg, ViewOf(t, scene, mobile), t.now, op)
    ensures var n := |calls| - 1;
            var t, op := After(cfg, s, calls[..n]), calls[n].op;
            var own := OpScene(op, scene) == scene && OpMobile(op, mobile) == mobile;
            var reply := PlainReply(cfg, ViewOf(t, scene, mobile), t.now, op);
            && (StoresAt(cfg, s, calls, scene, mobile, n) <==> own && op.SendCode? && reply.sent.Ok?)
            && (WithdrawsAt(cfg, s, calls, scene, mobile, n) <==>
                  own && (op.ConsumeCode? || (op.SendCode? && reply == SendReply(Fail(ServiceUnavailable)))
                          || (op.VerifyCode? && reply == VerifyReply(Fail(AccountLocked)))))
            && (StoresAt(cfg, s, calls, scene, mobile, n) <==> IsSource(cfg, s, calls, scene, mobile, n))
            && (op.SendCode? ==> SentCode(cfg, s, calls, n) == Timed(op.code, t.now + 1000 * cfg.sms.codeTtlSeconds))
  {
    hide Step, C.RecordOf, C.IntervalOf, G.FailuresOf, C.SendOn, C.VerifyOn, G.AttemptOn;
    LastReply(cfg, s, calls);
  }

  /** A captcha is only ever accepted if the latest send that stored a code for its scene
      and mobile sent exactly that code, less than the code lifetime ago, and neither a
      lock nor a consume nor a failed delivery has withdrawn it since. Conversely such a
      code is accepted whenever the scene is not locked. */
  lemma AcceptedCodesWereSent(cfg: Config, s: Store, calls: seq<Call>, scene: Scene, mobile: string, input: string)
    requires ValidConfig(cfg) && AllTidy(cfg, s) && Working(calls)
    requires C.RecordOf(s, scene, mobile).code.None?
    ensures var t := After(cfg, s, calls);
            Step(cfg, t, Call(VerifyCode(scene, mobile, input), [])).1 == VerifyReply(Ok(())) <==>
              && C.RecordOf(t, scene, mobile).lock.None?
              && exists i :: IsSource(cfg, s, calls, scene, mobile, i)
                   && SentCode(cfg, s, calls, i).value == input && t.now < SentCode(cfg, s, calls, i).until
  {
    hide Step, AllTidy, C.RecordOf, C.IntervalOf, G.FailuresOf, IsSource, SentCode, C.Sound, PlainRecord, PlainInterval;
    CodesAreTraced(cfg, s, calls, scene, mobile);
    ReachableIsTidy(cfg, s, calls);
    var t := After(cfg, s, calls);
    StepOn(cfg, t, Call(VerifyCode(scene, mobile, input), []), scene, mobile);
    RecordIsFresh(cfg, t, scene, mobile);
    var code := C.RecordOf(t, scene, mobile).code;
    if code.Some? {
      var i :| IsSource(cfg, s, calls, scene, mobile, i);
      SourceIsInRange(cfg, s, calls, scene, mobile, i);
    }
    forall i | IsSource(cfg, s, calls, scene, mobile, i)
      ensures 0 <= i < |calls| && calls[i].op.SendCode?
    {
      SourceIsInRange(cfg, s, calls, scene, mobile, i);
    }
  }

  // ---------------------------------------------------------------------
  // The send interval.
  // ---------------------------------------------------------------------

  /** Call i stored a code for a mobile, in whatever scene, delivered or not. */
  predicate SendsTo(cfg: Config, s: Store, calls: seq<Call>, mobile: string, i: nat)
    requires i < |calls|
  {
    calls[i].op.SendCode? && calls[i].op.mobile == mobile && ReplyAt(cfg, s, calls, i) != SendReply(Fail(RateLimited))
  }

  /** Sends are barred until the instant. */
  predicate BarredUntil(s: Store, mobile: string, until: int) {
    s.now >= until || (C.IntervalOf(s, mobile).Some? && C.IntervalOf(s, mobile).value.until >= until)
  }

  lemma BarStep(cfg: Config, s: Store, call: Call, mobile: string, until: int)
    requires ValidConfig(cfg) && AllTidy(cfg, s) && call.faults == []
    ensures BarredUntil(s, mobile, until) ==> BarredUntil(Step(cfg, s, call).0, mobile, until)
    ensures call.op.SendCode? && call.op.mobile == mobile && Step(cfg, s, call).1 != SendReply(Fail(RateLimited)) ==>
              BarredUntil(Step(cfg, s, call).0, mobile, s.now + 1000 * cfg.sms.sendIntervalSeconds)
              && (BarredUntil(s, mobile, until) ==> s.now >= until)
  {
    hide Step, AllTidy, C.RecordOf, C.IntervalOf, G.FailuresOf, PlainRecord, PlainFailures;
    var scene := OpScene(call.op, Unknown);
    StepOn(cfg, s, call, scene, mobile);
    RecordIsFresh(cfg, s, scene, mobile);
  }

  lemma {:induction false} BarLasts(cfg: Config, s: Store, calls: seq<Call>, mobile: string, i: nat, j: nat)
    requires ValidConfig(cfg) && AllTidy(cfg, s) && Working(calls) && i < j < |calls|
    requires SendsTo(cfg, s, calls, mobile, i)
    ensures BarredUntil(Before(cfg, s, calls, j), mobile, Before(cfg, s, calls,
            i).now + 1000 * cfg.sms.sendIntervalSeconds)
    decreases j
  {
    hide Step, AllTidy, BarredUntil;
    var k := j - 1;
    var t := Before(cfg, s, calls, k);
    ReachableIsTidy(cfg, s, calls[..k]);
    AfterSplit(cfg, s, calls, k);
    if i < k { BarLasts(cfg, s, calls, mobile, i, k); }
    BarStep(cfg, t, calls[k], mobile, Before(cfg, s, calls, i).now + 1000 * cfg.sms.sendIntervalSeconds);
  }

  /** Two sends to one mobile that store a code, in whatever scenes, are at least the send
      interval apart. */
  lemma SendsAreSpaced(cfg: Config, s: Store, calls: seq<Call>, mobile: string, i: nat, j: nat)
    requires ValidConfig(cfg) && AllTidy(cfg, s) && Working(calls) && i < j < |calls|
    requires SendsTo(cfg, s, calls, mobile, i) && SendsTo(cfg, s, calls, mobile, j)
    ensures Before(cfg, s, calls, j).now >= Before(cfg, s, calls, i).now + 1000 * cfg.sms.sendIntervalSeconds
  {
    hide Step, AllTidy, BarredUntil;
    BarLasts(cfg, s, calls, mobile, i, j);
    ReachableIsTidy(cfg, s, calls[..j]);
    BarStep(cfg, Before(cfg, s, calls, j), calls[j], mobile, Before(cfg, s, calls,
      i).now + 1000 * cfg.sms.sendIntervalSeconds);
  }

  lemma NoSource(cfg: Config, s: Store, calls: seq<Call>, scene: Scene, mobile: string)
    requires calls == []
    ensures forall i :: !IsSource(cfg, s, calls, scene, mobile, i)
  {
  }
}
