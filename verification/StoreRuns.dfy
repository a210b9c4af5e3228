/** Runs of everything that works on the Redis store: password attempts, captcha calls and
    the passing of time, for any scenes and mobiles in any order. */
module StoreRuns {
  import opened Outcome
  import opened Redis
  import opened Keys
  import opened Timed
  import G = LoginGate
  import C = Captcha

  datatype Config = Config(login: G.LoginConfig, sms: C.SmsConfig)

  datatype Op =
    | Tick(ms: nat)
    | PasswordLogin(mobile: string, verdict: G.Verdict)
    | ClearLogin(mobile: string)
    | SendCode(scene: Scene, mobile: string, code: string, delivered: bool)
    | VerifyCode(scene: Scene, mobile: string, input: string)
    | ConsumeCode(scene: Scene, mobile: string)

  /** An operation, and which of its Redis commands fail. */
  datatype Call = Call(op: Op, faults: seq<bool>)

  datatype Reply =
    | Done
    | LoginReply(answer: G.Answer)
    | SendReply(sent: Result<int>)
    | VerifyReply(verified: Result<()>)

  predicate ValidConfig(cfg: Config) {
    G.ValidLogin(cfg.login) && C.ValidSms(cfg.sms)
  }

  function Act(cfg: Config, s: Store, op: Op): (Store, Reply) {
    match op
    case Tick(ms) => (Elapse(s, ms), Done)
    case PasswordLogin(mobile, verdict) =>
      var (s', answer) := G.Attempt(s, cfg.login, mobile, verdict);
      (s', LoginReply(answer))
    case ClearLogin(mobile) => (G.Clear(s, mobile), Done)
    case SendCode(scene, mobile, code, delivered) =>
      var (s', sent) := C.Send(s, cfg.sms, scene, mobile, code, delivered);
      (s', SendReply(sent))
    case VerifyCode(scene, mobile, input) =>
      var (s', verified) := C.Verify(s, cfg.sms, scene, mobile, input);
      (s', VerifyReply(verified))
    case ConsumeCode(scene, mobile) => (C.Consume(s, scene, mobile), Done)
  }

  function Step(cfg: Config, s: Store, call: Call): (Store, Reply) {
    var (s', reply) := Act(cfg, s.(faults := call.faults), call.op);
    (s'.(faults := []), reply)
  }

  /** The store after a run. */
  function After(cfg: Config, s: Store, calls: seq<Call>): Store {
    if calls == [] then s
    else Step(cfg, After(cfg, s, calls[..|calls| - 1]), calls[|calls| - 1]).0
  }

  /** The store before the i-th call, and what that call answers. */
  function Before(cfg: Config, s: Store, calls: seq<Call>, i: nat): Store
    requires i <= |calls|
  {
    After(cfg, s, calls[..i])
  }

  function ReplyAt(cfg: Config, s: Store, calls: seq<Call>, i: nat): Reply
    requires i < |calls|
  {
    Step(cfg, Before(cfg, s, calls, i), calls[i]).1
  }

  /** Redis calls succeed. */
  predicate Working(calls: seq<Call>) {
    forall i :: 0 <= i < |calls| ==> calls[i].faults == []
  }

  lemma AfterSplit(cfg: Config, s: Store, calls: seq<Call>, i: nat)
    requires i < |calls|
    ensures Before(cfg, s, calls, i + 1) == Step(cfg, Before(cfg, s, calls, i), calls[i]).0
  {
    hide Step;
    assert calls[..i + 1][..i] == calls[..i];
  }

  // ---------------------------------------------------------------------
  // The flat store refines independent records.
  // ---------------------------------------------------------------------

  /** What one scene and mobile sees of the store. */
  datatype View = View(record: C.Record, interval: Option<Timed<string>>, failures: G.Failures)

  function ViewOf(s: Store, scene: Scene, mobile: string): View {
    View(C.RecordOf(s, scene, mobile), C.IntervalOf(s, mobile), G.FailuresOf(s, mobile))
  }

  /** One operation on its own mobile's view. */
  function PlainReply(cfg: Config, v: View, now: int, op: Op): Reply {
    match op
    case Tick(_) => Done
    case PasswordLogin(_, verdict) => LoginReply(G.AttemptOn(v.failures, cfg.login, now, verdict).1)
    case ClearLogin(_) => Done
    case SendCode(_, _, code, delivered) => SendReply(C.SendOn(v.record, v.interval, cfg.sms, now, code, delivered).2)
    case VerifyCode(_, _, input) => VerifyReply(C.VerifyOn(v.record, cfg.sms, now, input).1)
    case ConsumeCode(_, _) => Done
  }

  function OpScene(op: Op, scene: Scene): Scene {
    if op.SendCode? || op.VerifyCode? || op.ConsumeCode? then op.scene else scene
  }

  function OpMobile(op: Op, mobile: string): string {
    if op.Tick? then mobile else op.mobile
  }

  function PlainRecord(cfg: Config, v: View, now: int, op: Op, scene: Scene, mobile: string): C.Record {
    if op.Tick? then
      C.Record(At(v.record.code, now + op.ms), At(v.record.wrong, now + op.ms), At(v.record.lock, now + op.ms))
    else if OpMobile(op, mobile) != mobile || OpScene(op, scene) != scene then v.record
    else
      match op
      case SendCode(_, _, code, delivered) => C.SendOn(v.record, v.interval, cfg.sms, now, code, delivered).0
      case VerifyCode(_, _, input) => C.VerifyOn(v.record, cfg.sms, now, input).0
      case ConsumeCode(_, _) => v.record.(code := None)
      case _ => v.record
  }

  /** The interval is shared by the scenes; `acting` is the record of the operation's scene. */
  function PlainInterval(cfg: Config, acting: C.Record, v: View, now: int, op: Op, mobile: string)
    : Option<Timed<string>>
  {
    match op
    case Tick(ms) => At(v.interval, now + ms)
    case SendCode(_, m, code, delivered) =>
      if m == mobile then C.SendOn(acting, v.interval, cfg.sms, now, code, delivered).1 else v.interval
    case _ => v.interval
  }

  function PlainFailures(cfg: Config, v: View, now: int, op: Op, mobile: string): G.Failures {
    match op
    case Tick(ms) => At(v.failures, now + ms)
    case PasswordLogin(m, verdict) =>
      if m == mobile then G.AttemptOn(v.failures, cfg.login, now, verdict).0 else v.failures
    case ClearLogin(m) => if m == mobile then None else v.failures
    case _ => v.failures
  }

  /** What every reachable store satisfies for one scene and mobile. */
  predicate TidyFor(cfg: Config, s: Store, scene: Scene, mobile: string) {
    && C.Tidy(s, cfg.sms, scene, mobile)
    && C.Sound(C.RecordOf(s, scene, mobile), cfg.sms)
    && G.Tidy(s, cfg.login, mobile)
  }

  /** In every scene and mobile, live entries have deadlines, counters are numbers within
      their limits, and a lock stands alone. */
  ghost predicate AllTidy(cfg: Config, s: Store) {
    s.faults == [] && forall scene, mobile :: TidyFor(cfg, s, scene, mobile)
  }

  lemma EmptyIsTidy(cfg: Config, now: int)
    requires ValidConfig(cfg)
    ensures AllTidy(cfg, Store(map[], now, []))
  {
    hide C.CaptchaKey, C.CountKey, C.LockKey, C.IntervalKey, G.FailKey;
  }

  /** Agreeing on every key of a view means seeing the same. */
  lemma ViewFrame(cfg: Config, s: Store, t: Store, scene: Scene, mobile: string)
    requires SameAt(s, t, C.CaptchaKey(scene, mobile)) && SameAt(s, t, C.CountKey(scene, mobile))
    requires SameAt(s, t, C.LockKey(scene, mobile))
    ensures C.RecordOf(s, scene, mobile) == C.RecordOf(t, scene, mobile)
    ensures SameAt(s, t, C.IntervalKey(mobile)) ==>
              C.IntervalOf(s, mobile) == C.IntervalOf(t, mobile)
              && (C.Tidy(s, cfg.sms, scene, mobile) ==> C.Tidy(t, cfg.sms, scene, mobile))
  {
    hide C.CaptchaKey, C.CountKey, C.LockKey, C.IntervalKey, TextAt, NumberAt, TidyText, TidyNumber, SameAt;
    Frame(s, t, C.CaptchaKey(scene, mobile), 0);
    Frame(s, t, C.CountKey(scene, mobile), cfg.sms.maxRetry - 1);
    Frame(s, t, C.LockKey(scene, mobile), 0);
    if SameAt(s, t, C.IntervalKey(mobile)) {
      Frame(s, t, C.IntervalKey(mobile), 0);
    }
  }

  lemma FailKeyIsApart(m: string, scene: Scene, mobile: string)
    ensures G.FailKey(m) != C.CaptchaKey(scene, mobile) && G.FailKey(m) != C.CountKey(scene, mobile)
    ensures G.FailKey(m) != C.LockKey(scene, mobile) && G.FailKey(m) != C.IntervalKey(mobile)
    ensures G.FailKey(m) == G.FailKey(mobile) <==> m == mobile
  {
    hide Text;
    TextIsInjective(LoginFail(m), Keys.Captcha(scene, mobile));
    TextIsInjective(LoginFail(m), VerifyCount(scene, mobile));
    TextIsInjective(LoginFail(m), Lock(scene, mobile));
    TextIsInjective(LoginFail(m), Interval(mobile));
    TextIsInjective(LoginFail(m), LoginFail(mobile));
  }

  lemma IntervalKeyIsApart(m: string, scene: Scene, mobile: string)
    ensures C.IntervalKey(m) != C.CaptchaKey(scene, mobile) && C.IntervalKey(m) != C.CountKey(scene, mobile)
    ensures C.IntervalKey(m) != C.LockKey(scene, mobile)
    ensures C.IntervalKey(m) == C.IntervalKey(mobile) <==> m == mobile
  {
    hide Text;
    TextIsInjective(Interval(m), Keys.Captcha(scene, mobile));
    TextIsInjective(Interval(m), VerifyCount(scene, mobile));
    TextIsInjective(Interval(m), Lock(scene, mobile));
    TextIsInjective(Interval(m), Interval(mobile));
  }

  lemma RecordKeysAreApart(s1: Scene, m1: string, s2: Scene, m2: string)
    requires s1 != s2 || m1 != m2
    ensures !C.Own(C.CaptchaKey(s2, m2), s1, m1)
    ensures !C.Own(C.CountKey(s2, m2), s1, m1)
    ensures !C.Own(C.LockKey(s2, m2), s1, m1)
  {
    hide Text;
    TextIsInjective(Keys.Captcha(s2, m2), Keys.Captcha(s1, m1));
    TextIsInjective(Keys.Captcha(s2, m2), VerifyCount(s1, m1));
    TextIsInjective(Keys.Captcha(s2, m2), Lock(s1, m1));
    TextIsInjective(VerifyCount(s2, m2), Keys.Captcha(s1, m1));
    TextIsInjective(VerifyCount(s2, m2), VerifyCount(s1, m1));
    TextIsInjective(VerifyCount(s2, m2), Lock(s1, m1));
    TextIsInjective(Lock(s2, m2), Keys.Captcha(s1, m1));
    TextIsInjective(Lock(s2, m2), VerifyCount(s1, m1));
    TextIsInjective(Lock(s2, m2), Lock(s1, m1));
  }

  // What the store looks like to (scene, mobile) after an operation that acted as the plain machine.
  predicate Refined(cfg: Config, s: Store, s': Store, op: Op, scene: Scene, mobile: string) {
    var v := ViewOf(s, scene, mobile);
    && TidyFor(cfg, s', scene, mobile)
    && ViewOf(s', scene, mobile) == View(
         PlainRecord(cfg, v, s.now, op, scene, mobile),
         PlainInterval(cfg, C.RecordOf(s, OpScene(op, scene), mobile), v, s.now, op, mobile),
         PlainFailures(cfg, v, s.now, op, mobile))
  }

  lemma RefineTick(cfg: Config, s: Store, ms: nat, scene: Scene, mobile: string)
    requires ValidConfig(cfg) && TidyFor(cfg, s, scene, mobile)
    ensures Refined(cfg, s, Elapse(s, ms), Tick(ms), scene, mobile)
  {
    hide C.CaptchaKey, C.CountKey, C.LockKey, C.IntervalKey, G.FailKey, TextAt, NumberAt, TidyText, TidyNumber;
    ElapseText(s, ms, C.CaptchaKey(scene, mobile));
    ElapseNumber(s, ms, C.CountKey(scene, mobile), cfg.sms.maxRetry - 1);
    ElapseText(s, ms, C.LockKey(scene, mobile));
    ElapseText(s, ms, C.IntervalKey(mobile));
    ElapseNumber(s, ms, G.FailKey(mobile), cfg.login.maxAttempts);
  }

  // An operation that wrote only the fail key of `m`.
  lemma RefineFailures(cfg: Config, s: Store, s': Store, m: string, scene: Scene, mobile: string)
    requires ValidConfig(cfg) && TidyFor(cfg, s, scene, mobile)
    requires forall k :: k != G.FailKey(m) ==> SameAt(s, s', k)
    ensures C.RecordOf(s', scene, mobile) == C.RecordOf(s, scene, mobile)
    ensures C.IntervalOf(s', mobile) == C.IntervalOf(s, mobile)
    ensures C.Tidy(s', cfg.sms, scene, mobile)
    ensures m != mobile ==> G.FailuresOf(s', mobile) == G.FailuresOf(s, mobile) && G.Tidy(s', cfg.login, mobile)
  {
    hide C.CaptchaKey, C.CountKey, C.LockKey, C.IntervalKey, G.FailKey, TextAt, NumberAt, TidyText, TidyNumber, SameAt;
    hide C.RecordOf, C.IntervalOf, C.Tidy;
    FailKeyIsApart(m, scene, mobile);
    ViewFrame(cfg, s, s', scene, mobile);
    if m != mobile {
      Frame(s, s', G.FailKey(mobile), cfg.login.maxAttempts);
    }
  }

  // An operation that wrote only keys of the record (m, sc) and, if `sends`, the interval of m.
  lemma RefineRecord(cfg: Config, s: Store, s': Store, sc: Scene, m: string, sends: bool, scene: Scene, mobile: string)
    requires ValidConfig(cfg) && TidyFor(cfg, s, scene, mobile)
    requires forall k :: !C.Own(k, sc, m) && !(sends && k == C.IntervalKey(m)) ==> SameAt(s, s', k)
    ensures G.FailuresOf(s', mobile) == G.FailuresOf(s, mobile) && G.Tidy(s', cfg.login, mobile)
    ensures !sends || m != mobile ==> C.IntervalOf(s', mobile) == C.IntervalOf(s, mobile)
    ensures sc != scene || m != mobile ==> C.RecordOf(s', scene, mobile) == C.RecordOf(s, scene, mobile)
    ensures (sc != scene || m != mobile) && TidyText(s', C.IntervalKey(mobile)) ==> C.Tidy(s', cfg.sms, scene, mobile)
    ensures m != mobile ==> C.Tidy(s', cfg.sms, scene, mobile)
    ensures !sends && sc != scene ==> C.Tidy(s', cfg.sms, scene, mobile)
  {
    hide C.CaptchaKey, C.CountKey, C.LockKey, C.IntervalKey, G.FailKey, TextAt, NumberAt, TidyText, TidyNumber,
         SameAt, Live;
    FailKeyIsApart(mobile, sc, m);
    IntervalKeyIsApart(mobile, sc, m);
    IntervalKeyIsApart(m, scene, mobile);
    assert SameAt(s, s', G.FailKey(mobile));
    Frame(s, s', G.FailKey(mobile), cfg.login.maxAttempts);
    if !sends || m != mobile {
      assert SameAt(s, s', C.IntervalKey(mobile));
      Frame(s, s', C.IntervalKey(mobile), 0);
    }
    if sc != scene || m != mobile {
      RecordKeysAreApart(sc, m, scene, mobile);
      Frame(s, s', C.CaptchaKey(scene, mobile), 0);
      Frame(s, s', C.CountKey(scene, mobile), cfg.sms.maxRetry - 1);
      Frame(s, s', C.LockKey(scene, mobile), 0);
    }
  }

  lemma RefineLogin(cfg: Config, s: Store, m: string, verdict: G.Verdict, scene: Scene, mobile: string)
    requires ValidConfig(cfg) && AllTidy(cfg, s)
    ensures Refined(cfg, s, G.Attempt(s, cfg.login, m, verdict).0, PasswordLogin(m, verdict), scene, mobile)
  {
    hide G.Attempt, G.AttemptOn, C.RecordOf, C.IntervalOf, G.FailuresOf, C.Tidy, G.Tidy, C.Sound, C.SendOn, C.VerifyOn;
    assert TidyFor(cfg, s, scene, m) && TidyFor(cfg, s, scene, mobile);
    G.AttemptOnPlainValues(s, cfg.login, m, verdict);
    RefineFailures(cfg, s, G.Attempt(s, cfg.login, m, verdict).0, m, scene, mobile);
  }

  lemma RefineClear(cfg: Config, s: Store, m: string, scene: Scene, mobile: string)
    requires ValidConfig(cfg) && AllTidy(cfg, s)
    ensures Refined(cfg, s, G.Clear(s, m), ClearLogin(m), scene, mobile)
  {
    hide G.Clear, G.AttemptOn, C.RecordOf, C.IntervalOf, G.FailuresOf, C.Tidy, G.Tidy, C.Sound, C.SendOn, C.VerifyOn;
    assert TidyFor(cfg, s, scene, m) && TidyFor(cfg, s, scene, mobile);
    G.ClearOnPlainValues(s, cfg.login, m);
    RefineFailures(cfg, s, G.Clear(s, m), m, scene, mobile);
  }

  lemma RefineSend(cfg: Config, s: Store, sc: Scene, m: string, code: string, delivered: bool, scene: Scene,
      mobile: string)
    requires ValidConfig(cfg) && AllTidy(cfg, s)
    ensures Refined(cfg, s, C.Send(s, cfg.sms, sc, m, code, delivered).0, SendCode(sc, m, code, delivered),
                    scene, mobile)
  {
    hide C.Send, C.SendOn, C.VerifyOn, C.IntervalOf, G.FailuresOf, C.RecordOf, G.Tidy, C.Sound, G.AttemptOn, TidyText,
         TidyNumber, C.CaptchaKey, C.CountKey, C.LockKey, C.IntervalKey;
    assert TidyFor(cfg, s, sc, m) && TidyFor(cfg, s, scene, mobile);
    C.SendOnPlainValues(s, cfg.sms, sc, m, code, delivered);
    C.PlainMachineIsSound(C.RecordOf(s, sc, m), C.IntervalOf(s, m), cfg.sms, s.now, code, delivered, "");
    RefineRecord(cfg, s, C.Send(s, cfg.sms, sc, m, code, delivered).0, sc, m, true, scene, mobile);
  }

  lemma RefineVerify(cfg: Config, s: Store, sc: Scene, m: string, input: string, scene: Scene, mobile: string)
    requires ValidConfig(cfg) && AllTidy(cfg, s)
    ensures Refined(cfg, s, C.Verify(s, cfg.sms, sc, m, input).0, VerifyCode(sc, m, input), scene, mobile)
  {
    hide C.Verify, C.SendOn, C.VerifyOn, C.IntervalOf, G.FailuresOf, C.RecordOf, G.Tidy, C.Sound, G.AttemptOn, TidyText,
         TidyNumber, C.CaptchaKey, C.CountKey, C.LockKey, C.IntervalKey;
    assert TidyFor(cfg, s, sc, m) && TidyFor(cfg, s, scene, mobile);
    C.VerifyOnPlainValues(s, cfg.sms, sc, m, input);
    C.PlainMachineIsSound(C.RecordOf(s, sc, m), None, cfg.sms, s.now, "", false, input);
    RefineRecord(cfg, s, C.Verify(s, cfg.sms, sc, m, input).0, sc, m, false, scene, mobile);
  }

  lemma RefineConsume(cfg: Config, s: Store, sc: Scene, m: string, scene: Scene, mobile: string)
    requires ValidConfig(cfg) && AllTidy(cfg, s)
    ensures Refined(cfg, s, C.Consume(s, sc, m), ConsumeCode(sc, m), scene, mobile)
  {
    hide C.Consume, C.SendOn, C.VerifyOn, C.IntervalOf, G.FailuresOf, C.RecordOf, G.Tidy, C.Sound, G.AttemptOn,
         TidyText,
         TidyNumber, C.CaptchaKey, C.CountKey, C.LockKey, C.IntervalKey;
    assert TidyFor(cfg, s, sc, m) && TidyFor(cfg, s, scene, mobile);
    C.ConsumeOnPlainValues(s, cfg.sms, sc, m);
    C.PlainMachineIsSound(C.RecordOf(s, sc, m), None, cfg.sms, s.now, "", false, "");
    RefineRecord(cfg, s, C.Consume(s, sc, m), sc, m, false, scene, mobile);
  }

  lemma RefineAct(cfg: Config, s: Store, op: Op, scene: Scene, mobile: string)
    requires ValidConfig(cfg) && AllTidy(cfg, s)
    ensures Refined(cfg, s, Act(cfg, s, op).0, op, scene, mobile)
  {
    hide Refined, TidyFor, G.Attempt, G.Clear, C.Send, C.Verify, C.Consume;
    assert TidyFor(cfg, s, scene, mobile);
    match op {
      case Tick(ms) => RefineTick(cfg, s, ms, scene, mobile);
      case PasswordLogin(m, verdict) => RefineLogin(cfg, s, m, verdict, scene, mobile);
      case ClearLogin(m) => RefineClear(cfg, s, m, scene, mobile);
      case SendCode(sc, m, code, delivered) => RefineSend(cfg, s, sc, m, code, delivered, scene, mobile);
      case VerifyCode(sc, m, input) => RefineVerify(cfg, s, sc, m, input, scene, mobile);
      case ConsumeCode(sc, m) => RefineConsume(cfg, s, sc, m, scene, mobile);
    }
  }

  lemma RefineReply(cfg: Config, s: Store, op: Op)
    requires ValidConfig(cfg) && AllTidy(cfg, s)
    ensures var (s', reply) := Act(cfg, s, op);
            && reply == PlainReply(cfg, ViewOf(s, OpScene(op, Unknown), OpMobile(op, "")), s.now, op)
            && s'.faults == [] && s'.now == s.now + (if op.Tick? then op.ms else 0)
  {
    hide G.Attempt, G.AttemptOn, G.Clear, C.Send, C.SendOn, C.Verify, C.VerifyOn, C.Consume, C.RecordOf, C.IntervalOf,
         G.FailuresOf, C.Tidy, C.Sound, G.Tidy;
    assert TidyFor(cfg, s, OpScene(op, Unknown), OpMobile(op, ""));
    match op {
      case Tick(_) =>
      case PasswordLogin(m, verdict) => G.AttemptOnPlainValues(s, cfg.login, m, verdict);
      case ClearLogin(m) => G.ClearOnPlainValues(s, cfg.login, m);
      case SendCode(sc, m, code, delivered) => C.SendOnPlainValues(s, cfg.sms, sc, m, code, delivered);
      case VerifyCode(sc, m, input) => C.VerifyOnPlainValues(s, cfg.sms, sc, m, input);
      case ConsumeCode(sc, m) => C.ConsumeOnPlainValues(s, cfg.sms, sc, m);
    }
  }

  /** Every operation on the one string-keyed store is the same operation on independent
      plain records: one lockout a mobile, one send interval a mobile, and one captcha
      record a scene and mobile. The answer depends on the operation's own record only,
      and every other scene and mobile sees nothing. */
  lemma FlatStoreRefinesRecords(cfg: Config, s: Store, op: Op)
    requires ValidConfig(cfg) && AllTidy(cfg, s)
    ensures var (s', reply) := Step(cfg, s, Call(op, []));
            && AllTidy(cfg, s') && s'.now == s.now + (if op.Tick? then op.ms else 0)
            && reply == PlainReply(cfg, ViewOf(s, OpScene(op, Unknown), OpMobile(op, "")), s.now, op)
            && forall scene, mobile {:trigger ViewOf(s', scene, mobile)} ::
                 var v := ViewOf(s, scene, mobile);
                 ViewOf(s', scene, mobile) == View(
                   PlainRecord(cfg, v, s.now, op, scene, mobile),
                   PlainInterval(cfg, C.RecordOf(s, OpScene(op, scene), mobile), v, s.now, op, mobile),
                   PlainFailures(cfg, v, s.now, op, mobile))
  {
    hide Act, ViewOf, PlainRecord, PlainInterval, PlainFailures, TidyFor, C.RecordOf;
    assert s.(faults := []) == s;
    RefineReply(cfg, s, op);
    var s' := Step(cfg, s, Call(op, [])).0;
    forall scene, mobile ensures Refined(cfg, s, s', op, scene, mobile) {
      RefineAct(cfg, s, op, scene, mobile);
    }
    forall scene, mobile ensures TidyFor(cfg, s', scene, mobile) {
      assert Refined(cfg, s, s', op, scene, mobile);
    }
    forall scene, mobile ensures
      var v := ViewOf(s, scene, mobile);
      ViewOf(s', scene, mobile) == View(
        PlainRecord(cfg, v, s.now, op, scene, mobile),
        PlainInterval(cfg, C.RecordOf(s, OpScene(op, scene), mobile), v, s.now, op, mobile),
        PlainFailures(cfg, v, s.now, op, mobile))
    {
      assert Refined(cfg, s, s', op, scene, mobile);
    }
  }

  /** The same for one scene and mobile, for use on a step of a run. */
  lemma StepOn(cfg: Config, s: Store, call: Call, scene: Scene, mobile: string)
    requires ValidConfig(cfg) && AllTidy(cfg, s) && call.faults == []
    ensures var (s', reply) := Step(cfg, s, call);
            var v := ViewOf(s, scene, mobile);
            && AllTidy(cfg, s') && s'.now == s.now + (if call.op.Tick? then call.op.ms else 0)
            && ViewOf(s', scene, mobile) == View(
                 PlainRecord(cfg, v, s.now, call.op, scene, mobile),
                 PlainInterval(cfg, C.RecordOf(s, OpScene(call.op, scene), mobile), v, s.now, call.op, mobile),
                 PlainFailures(cfg, v, s.now, call.op, mobile))
            && (OpScene(call.op, scene) == scene && OpMobile(call.op, mobile) == mobile ==>
                  reply == PlainReply(cfg, v, s.now, call.op))
  {
    hide Step, AllTidy, PlainRecord, PlainInterval, PlainFailures, C.RecordOf, C.IntervalOf, G.FailuresOf,
         C.SendOn, C.VerifyOn, G.AttemptOn;
    FlatStoreRefinesRecords(cfg, s, call.op);
    assert call == Call(call.op, []);
    if OpScene(call.op, scene) == scene && OpMobile(call.op, mobile) == mobile {
      SameReply(cfg, s, call.op, scene, mobile);
    }
  }

  lemma SameReply(cfg: Config, s: Store, op: Op, scene: Scene, mobile: string)
    requires OpScene(op, scene) == scene && OpMobile(op, mobile) == mobile
    ensures PlainReply(cfg, ViewOf(s, OpScene(op, Unknown), OpMobile(op, "")), s.now, op)
         == PlainReply(cfg, ViewOf(s, scene, mobile), s.now, op)
  {
    hide C.RecordOf, C.IntervalOf, G.FailuresOf, C.SendOn, C.VerifyOn, G.AttemptOn;
  }

  /** Every store a working run reaches is tidy, and its clock does not go back. */
  lemma {:induction false} ReachableIsTidy(cfg: Config, s: Store, calls: seq<Call>)
    requires ValidConfig(cfg) && AllTidy(cfg, s) && Working(calls)
    ensures AllTidy(cfg, After(cfg, s, calls)) && s.now <= After(cfg, s, calls).now
    decreases |calls|
  {
    hide Step, AllTidy;
    if calls != [] {
      var init, last := calls[..|calls| - 1], calls[|calls| - 1];
      ReachableIsTidy(cfg, s, init);
      FlatStoreRefinesRecords(cfg, After(cfg, s, init), last.op);
      assert last == Call(last.op, []);
    }
  }
}
