/** What failing Redis commands do: exactly when a limit that is reached sets no lock, when a
    lock never ends, and what holds of accepted captchas whatever fails. */
module FaultTheorems {
  import opened Ints
  import opened Outcome
  import opened Decimal
  import opened Redis
  import opened Keys
  import opened Timed
  import opened StoreRuns
  import G = LoginGate
  import C = Captcha

  // ---------------------------------------------------------------------
  // Single commands, failing or not.
  // ---------------------------------------------------------------------

  /** Commands leave every other key alone. */
  lemma CommandsFrame(k: string)
    ensures forall s: Store, key :: SameAt(s, Redis.Get(s, key).0, k) && SameAt(s, Exists(s, key).0, k)
    ensures forall s: Store, key :: SameAt(s, PTTL(s, key).0, k)
    ensures forall s: Store, key :: key != k ==> SameAt(s, Del(s, key).0, k) && SameAt(s, Incr(s, key).0, k)
    ensures forall s: Store, key, value, ttl :: key != k ==> SameAt(s, SetPx(s, key, value, ttl).0, k)
    ensures forall s: Store, key, ttl :: key != k ==> SameAt(s, PExpire(s, key, ttl).0, k)
  {
    hide Live, StrictInteger, ToString;
  }

  lemma DelEffect(s: Store, k: string)
    ensures var t := Del(s, k).0;
            && t.now == s.now && Live(t, k) == (if FailsAt(s.faults, 0) then Live(s, k) else None)
            && (k in t.entries ==> k in s.entries && t.entries[k] == s.entries[k])
  {
  }

  lemma SetEffect(s: Store, k: string, value: string, ttl: int)
    requires ttl > 0
    ensures var t := SetPx(s, k, value, ttl).0;
            && t.now == s.now
            && (if FailsAt(s.faults, 0) then SameAt(s, t, k)
                else
                  && k in t.entries && t.entries[k] == Entry(value, Some(s.now + ttl))
                  && Live(t, k) == Some(t.entries[k]))
  {
  }

  lemma LiveSame(s: Store, t: Store, k: string)
    requires SameAt(s, t, k)
    ensures Live(s, k) == Live(t, k)
  {
  }

  lemma IncrEffect(s: Store, k: string)
    requires Incr(s, k).1.Ok?
    ensures var (t, r) := Incr(s, k);
            && !FailsAt(s.faults, 0) && t.now == s.now
            && Live(t, k) == Some(Entry(ToString(r.value), match Live(s,
              k) case None => None case Some(e) => e.deadline))
  {
    hide ToString, StrictInteger;
  }

  lemma ExpireEffect(s: Store, k: string, ttl: int)
    requires ttl > 0 && Live(s, k).Some?
    ensures var t := PExpire(s, k, ttl).0;
            && t.now == s.now
            && Live(t, k) == (if FailsAt(s.faults, 0) then Live(s, k)
                              else Some(Entry(Live(s, k).value.value, Some(s.now + ttl))))
  {
  }

  lemma Issued()
    ensures forall s: Store, k: nat :: FailsAt(Issue(s).faults, k) == FailsAt(s.faults, k + 1)
    ensures forall s: Store, key :: Redis.Get(s, key).0.faults == Issue(s).faults
    ensures forall s: Store, key :: Exists(s, key).0.faults == Issue(s).faults
    ensures forall s: Store, key :: Del(s, key).0.faults == Issue(s).faults && Incr(s, key).0.faults == Issue(s).faults
    ensures forall s: Store, key :: PTTL(s, key).0.faults == Issue(s).faults
    ensures forall s: Store, key, value, ttl :: ttl > 0 ==> SetPx(s, key, value, ttl).0.faults == Issue(s).faults
    ensures forall s: Store, key, ttl :: PExpire(s, key, ttl).0.faults == Issue(s).faults
  {
    hide Live, StrictInteger, ToString;
  }

  // ---------------------------------------------------------------------
  // The captcha limit.
  // ---------------------------------------------------------------------

  /** The guess that reaches the limit leaves a lock exactly when the SETPX goes through, the
      code exactly when the first DEL fails, and the counter exactly when the second does. */
  lemma WrongGuessAtLimit(s: Store, cfg: C.SmsConfig, scene: Scene, mobile: string)
    requires C.ValidSms(cfg) && Live(s, C.LockKey(scene, mobile)).None? && Live(s, C.CaptchaKey(scene, mobile)).Some?
    requires Incr(s, C.CountKey(scene, mobile)).1.Ok? && Incr(s, C.CountKey(scene, mobile)).1.value >= cfg.maxRetry
    ensures var (t, r) := C.WrongGuess(s, cfg, scene, mobile);
            && r == Fail(AccountLocked)
            && (Live(t, C.LockKey(scene, mobile)).Some? <==> !FailsAt(s.faults, 2))
            && (Live(t, C.CaptchaKey(scene, mobile)).Some? <==> FailsAt(s.faults, 3))
            && (Live(t, C.CountKey(scene, mobile)).Some? <==> FailsAt(s.faults, 4))
  {
    hide Live, Incr, PExpire, SetPx, Del, C.LockKey, C.CaptchaKey, C.CountKey, SameAt, FailsAt, Issue;
    var code, count, lock := C.CaptchaKey(scene, mobile), C.CountKey(scene, mobile), C.LockKey(scene, mobile);
    C.KeysDiffer(scene, mobile);
    CommandsFrame(code);
    CommandsFrame(count);
    CommandsFrame(lock);
    Issued();
    var s1 := Incr(s, count).0;
    var s2 := PExpire(s1, count, Millis(cfg.retryTtlSeconds)).0;
    var s3 := SetPx(s2, lock, "1", Millis(cfg.lockSeconds)).0;
    var s4 := Del(s3, code).0;
    var s5 := Del(s4, count).0;
    IncrEffect(s, count);
    ExpireEffect(s1, count, Millis(cfg.retryTtlSeconds));
    SetEffect(s2, lock, "1", Millis(cfg.lockSeconds));
    DelEffect(s3, code);
    DelEffect(s4, count);
    assert FailsAt(s2.faults, 0) == FailsAt(s.faults, 2);
    assert FailsAt(s3.faults, 0) == FailsAt(s.faults, 3);
    assert FailsAt(s4.faults, 0) == FailsAt(s.faults, 4);
    LiveSame(s, s1, lock);
    LiveSame(s1, s2, lock);
    if FailsAt(s2.faults, 0) { LiveSame(s2, s3, lock); }
    LiveSame(s3, s4, lock);
    LiveSame(s4, s5, lock);
    LiveSame(s, s1, code);
    LiveSame(s1, s2, code);
    LiveSame(s2, s3, code);
    LiveSame(s4, s5, code);
    LiveSame(s2, s3, count);
    LiveSame(s3, s4, count);
  }

  /** A verification that answers AccountLocked: its SETPX is the fifth command, its DELs are
      the sixth and seventh. Nothing is left of the guesses, and counting starts anew, exactly
      when the first fails and the other two do not. */
  lemma LimitLocksExactly(s: Store, cfg: C.SmsConfig, scene: Scene, mobile: string, input: string)
    requires C.ValidSms(cfg) && C.Verify(s, cfg, scene, mobile, input).1 == Fail(AccountLocked)
    ensures var t := C.Verify(s, cfg, scene, mobile, input).0;
            var lock, code := Live(t, C.LockKey(scene, mobile)), Live(t, C.CaptchaKey(scene, mobile));
            var count := Live(t, C.CountKey(scene, mobile));
            && (lock.Some? <==> !FailsAt(s.faults, 4))
            && (code.Some? <==> FailsAt(s.faults, 5))
            && (count.Some? <==> FailsAt(s.faults, 6))
            && (lock.None? && code.None? && count.None?
                <==> FailsAt(s.faults, 4) && !FailsAt(s.faults, 5) && !FailsAt(s.faults, 6))
  {
    hide Live, Incr, PExpire, SetPx, Del, C.LockKey, C.CaptchaKey, C.CountKey, SameAt, FailsAt, Issue, C.WrongGuess;
    var code, lock := C.CaptchaKey(scene, mobile), C.LockKey(scene, mobile);
    var s1 := Exists(s, lock).0;
    var s2 := Redis.Get(s1, code).0;
    CommandsFrame(code);
    CommandsFrame(lock);
    Issued();
    LiveSame(s, s1, code);
    LiveSame(s1, s2, code);
    LiveSame(s, s1, lock);
    LiveSame(s1, s2, lock);
    assert FailsAt(s2.faults, 2) == FailsAt(s.faults, 4);
    assert FailsAt(s2.faults, 3) == FailsAt(s.faults, 5);
    assert FailsAt(s2.faults, 4) == FailsAt(s.faults, 6);
    ReachesLimit(s2, cfg, scene, mobile);
    WrongGuessAtLimit(s2, cfg, scene, mobile);
  }

  lemma ReachesLimit(s: Store, cfg: C.SmsConfig, scene: Scene, mobile: string)
    requires C.WrongGuess(s, cfg, scene, mobile).1 == Fail(AccountLocked)
    ensures Incr(s, C.CountKey(scene, mobile)).1.Ok? && Incr(s, C.CountKey(scene, mobile)).1.value >= cfg.maxRetry
  {
    hide Incr, PExpire, SetPx, Del, C.LockKey, C.CaptchaKey, C.CountKey;
  }

  // ---------------------------------------------------------------------
  // The login limit.
  // ---------------------------------------------------------------------

  /** The deadline a counter has, if it has one. */
  function Deadline(s: Store, key: string): Option<int> {
    match Live(s, key) case None => None case Some(e) => e.deadline
  }

  lemma RecordAtLimit(s: Store, cfg: G.LoginConfig, mobile: string)
    requires G.ValidLogin(cfg) && Incr(s, G.FailKey(mobile)).1 == Ok(cfg.maxAttempts)
    ensures Live(G.Record(s, cfg, mobile), G.FailKey(mobile))
         == Some(Entry(ToString(cfg.maxAttempts),
                       if FailsAt(s.faults, 1) then Deadline(s,
                         G.FailKey(mobile)) else Some(s.now + 1000 * cfg.lockSeconds)))
  {
    hide Live, Incr, PExpire, PTTL, G.FailKey, FailsAt, Issue, ToString;
    var key := G.FailKey(mobile);
    Issued();
    IncrEffect(s, key);
    var s1 := Incr(s, key).0;
    assert FailsAt(s1.faults, 0) == FailsAt(s.faults, 1);
    ExpireEffect(s1, key, Millis(cfg.lockSeconds));
  }

  /** The attempt that reaches the limit: its PEXPIRE is the third command. When that fails the
      counter keeps the deadline it had, be it the window's or none at all; so the lock never
      ends exactly when it fails on a counter without a deadline, as at a limit of one. */
  lemma LimitLastsExactly(s: Store, cfg: G.LoginConfig, mobile: string, verdict: G.Verdict)
    requires G.ValidLogin(cfg) && (verdict.NoSuchUser? || verdict.Mismatch?)
    requires G.Check(s, cfg, mobile).1 == G.Open && Incr(G.Check(s, cfg, mobile).0,
             G.FailKey(mobile)).1 == Ok(cfg.maxAttempts)
    ensures var (t, answer) := G.Attempt(s, cfg, mobile, verdict);
            var before, after := Deadline(s, G.FailKey(mobile)), Live(t, G.FailKey(mobile));
            && answer == G.Refused(WrongPassword)
            && after == Some(Entry(ToString(cfg.maxAttempts),
                                   if FailsAt(s.faults, 2) then before else Some(s.now + 1000 * cfg.lockSeconds)))
            && (after.value.deadline.None? <==> FailsAt(s.faults, 2) && before.None?)
  {
    hide Live, Incr, PExpire, PTTL, G.FailKey, FailsAt, Issue, ToString, Stoi, G.Record, SameAt;
    var key := G.FailKey(mobile);
    var s1 := G.Check(s, cfg, mobile).0;
    CommandsFrame(key);
    Issued();
    LiveSame(s, s1, key);
    assert FailsAt(s1.faults, 1) == FailsAt(s.faults, 2);
    SameNow(s, s1, key);
    RecordAtLimit(s1, cfg, mobile);
  }

  lemma SameNow(s: Store, t: Store, key: string)
    requires SameAt(s, t, key)
    ensures s.now == t.now
  {
  }

  // ---------------------------------------------------------------------
  // A lock without a deadline.
  // ---------------------------------------------------------------------

  /** The counter stands at or past the limit and never expires. */
  predicate Endless(s: Store, cfg: G.LoginConfig, mobile: string) {
    var key := G.FailKey(mobile);
    && key in s.entries && s.entries[key].deadline.None?
    && Stoi(s.entries[key].value).Some? && Stoi(s.entries[key].value).value >= cfg.maxAttempts
  }

  /** The key an operation of one family may write. */
  predicate Writes(op: Op, key: string) {
    match op
    case Tick(_) => false
    case PasswordLogin(mobile, _) => key == G.FailKey(mobile)
    case ClearLogin(mobile) => key == G.FailKey(mobile)
    case SendCode(scene, mobile, _, _) => key == C.CaptchaKey(scene, mobile) || key == C.IntervalKey(mobile)
    case VerifyCode(scene, mobile, _) =>
      key == C.CaptchaKey(scene, mobile) || key == C.CountKey(scene, mobile) || key == C.LockKey(scene, mobile)
    case ConsumeCode(scene, mobile) => key == C.CaptchaKey(scene, mobile)
  }

  /** Failing or not, an operation changes no entry under another key. */
  predicate SameEntry(s: Store, t: Store, key: string) {
    (key in s.entries <==> key in t.entries) && (key in s.entries ==> s.entries[key] == t.entries[key])
  }

  lemma LoginFrame(s: Store, cfg: G.LoginConfig, mobile: string, verdict: G.Verdict, k: string)
    requires k != G.FailKey(mobile)
    ensures SameEntry(s, G.Attempt(s, cfg, mobile, verdict).0, k) && SameEntry(s, G.Clear(s, mobile), k)
  {
    hide Live, Incr, PExpire, PTTL, Redis.Get, Del, G.FailKey, Stoi;
    CommandsFrame(k);
  }

  lemma SendFrame(s: Store, cfg: C.SmsConfig, scene: Scene, mobile: string, code: string, delivered: bool, k: string)
    requires k != C.CaptchaKey(scene, mobile) && k != C.IntervalKey(mobile)
    ensures SameEntry(s, C.Send(s, cfg, scene, mobile, code, delivered).0, k)
  {
    hide Live, Exists, SetPx, Del, C.CaptchaKey, C.IntervalKey, C.LockKey;
    CommandsFrame(k);
  }

  lemma VerifyFrame(s: Store, cfg: C.SmsConfig, scene: Scene, mobile: string, input: string, k: string)
    requires k != C.CaptchaKey(scene, mobile) && k != C.CountKey(scene, mobile) && k != C.LockKey(scene, mobile)
    ensures SameEntry(s, C.Verify(s, cfg, scene, mobile, input).0, k)
  {
    hide Live, Exists, Redis.Get, Incr, PExpire, SetPx, Del, C.CaptchaKey, C.CountKey, C.LockKey;
    CommandsFrame(k);
  }

  lemma ConsumeFrame(s: Store, scene: Scene, mobile: string, k: string)
    requires k != C.CaptchaKey(scene, mobile)
    ensures SameEntry(s, C.Consume(s, scene, mobile), k)
  {
    hide Live, Del, C.CaptchaKey;
    CommandsFrame(k);
  }

  lemma StepFrame(cfg: Config, s: Store, call: Call, key: string)
    requires !Writes(call.op, key)
    ensures SameEntry(s, Step(cfg, s, call).0, key)
  {
    hide G.Attempt, G.Clear, C.Send, C.Verify, C.Consume, G.FailKey, C.CaptchaKey, C.CountKey, C.LockKey, C.IntervalKey;
    var s0 := s.(faults := call.faults);
    match call.op {
      case Tick(_) =>
      case PasswordLogin(mobile, verdict) => LoginFrame(s0, cfg.login, mobile, verdict, key);
      case ClearLogin(mobile) => LoginFrame(s0, cfg.login, mobile, G.Match, key);
      case SendCode(scene, mobile, code, delivered) => SendFrame(s0, cfg.sms, scene, mobile, code, delivered, key);
      case VerifyCode(scene, mobile, input) => VerifyFrame(s0, cfg.sms, scene, mobile, input, key);
      case ConsumeCode(scene, mobile) => ConsumeFrame(s0, scene, mobile, key);
    }
  }

  lemma OthersDoNotWrite(op: Op, mobile: string)
    requires !(op.PasswordLogin? && op.mobile == mobile) && op != ClearLogin(mobile)
    ensures !Writes(op, G.FailKey(mobile))
  {
    hide G.FailKey, C.CaptchaKey, C.CountKey, C.LockKey, C.IntervalKey;
    match op {
      case Tick(_) =>
      case PasswordLogin(m, _) => FailKeyIsApart(m, Unknown, mobile);
      case ClearLogin(m) => FailKeyIsApart(m, Unknown, mobile);
      case SendCode(scene, m, _, _) => FailKeyIsApart(mobile, scene, m);
      case VerifyCode(scene, m, _) => FailKeyIsApart(mobile, scene, m);
      case ConsumeCode(scene, m) => FailKeyIsApart(mobile, scene, m);
    }
  }

  lemma EndlessStep(cfg: Config, s: Store, call: Call, mobile: string)
    requires Endless(s, cfg.login, mobile) && call.op != ClearLogin(mobile)
    requires call.op.PasswordLogin? && call.op.mobile == mobile ==> !FailsAt(call.faults, 0)
    ensures Endless(Step(cfg, s, call).0, cfg.login, mobile)
    ensures call.op.PasswordLogin? && call.op.mobile == mobile ==>
            Step(cfg, s, call).1 == LoginReply(G.Refused(AccountLocked))
  {
    hide G.FailKey, Stoi;
    if call.op.PasswordLogin? && call.op.mobile == mobile {
      EndlessAttempt(s.(faults := call.faults), cfg.login, mobile, call.op.verdict);
    } else {
      hide Step;
      OthersDoNotWrite(call.op, mobile);
      StepFrame(cfg, s, call, G.FailKey(mobile));
    }
  }

  lemma EndlessAttempt(s: Store, cfg: G.LoginConfig, mobile: string, verdict: G.Verdict)
    requires Endless(s, cfg, mobile) && !FailsAt(s.faults, 0)
    ensures G.Attempt(s, cfg, mobile, verdict).1 == G.Refused(AccountLocked)
    ensures G.Attempt(s, cfg, mobile, verdict).0.entries == s.entries
  {
    hide Stoi, G.FailKey, G.Record, G.Clear;
  }

  /** Such a lock outlasts every run that does not clear it, however long, whatever fails in it
      but the reading of the counter itself. */
  lemma {:induction false} EndlessLock(cfg: Config, s: Store, calls: seq<Call>, mobile: string)
    requires Endless(s, cfg.login, mobile)
    requires forall i :: 0 <= i < |calls| ==> calls[i].op != ClearLogin(mobile)
    requires forall i :: 0 <= i < |calls| && calls[i].op.PasswordLogin? && calls[i].op.mobile == mobile ==>
             !FailsAt(calls[i].faults, 0)
    ensures Endless(After(cfg, s, calls), cfg.login, mobile)
    ensures forall i :: 0 <= i < |calls| && calls[i].op.PasswordLogin? && calls[i].op.mobile == mobile ==>
              ReplyAt(cfg, s, calls, i) == LoginReply(G.Refused(AccountLocked))
    decreases |calls|
  {
    hide Step, Endless;
    if calls != [] {
      var n := |calls| - 1;
      EndlessLock(cfg, s, calls[..n], mobile);
      EndlessStep(cfg, After(cfg, s, calls[..n]), calls[n], mobile);
      forall i | 0 <= i < |calls| && calls[i].op.PasswordLogin? && calls[i].op.mobile == mobile
        ensures ReplyAt(cfg, s, calls, i) == LoginReply(G.Refused(AccountLocked))
      {
        if i < n { assert calls[..n][..i] == calls[..i]; }
      }
    }
  }

  // ---------------------------------------------------------------------
  // Accepted captchas, whatever fails.
  // ---------------------------------------------------------------------

  /** The operation asks for this code to be sent. */
  predicate AsksFor(op: Op, scene: Scene, mobile: string, code: string) {
    op.SendCode? && op.scene == scene && op.mobile == mobile && op.code == code
  }

  /** Call i asked for the entry's code, whose lifetime ends at the entry's deadline. */
  predicate Asked(cfg: Config, s: Store, calls: seq<Call>, scene: Scene, mobile: string, entry: Entry, i: nat)
    requires i < |calls|
  {
    && AsksFor(calls[i].op, scene, mobile, entry.value)
    && entry.deadline == Some(Before(cfg, s, calls, i).now + Millis(cfg.sms.codeTtlSeconds))
  }

  /** The entry under a key is as before, gone, or this one. */
  predicate Leads(s: Store, t: Store, k: string, e: Entry) {
    t.now == s.now && (k in t.entries ==> (k in s.entries && t.entries[k] == s.entries[k]) || t.entries[k] == e)
  }

  lemma LeadsOn(a: Store, b: Store, c: Store, k: string, e: Entry)
    requires Leads(a, b, k, e) && Leads(b, c, k, e)
    ensures Leads(a, c, k, e)
  {
  }

  lemma CommandsLead(s: Store, k: string, key: string, value: string, ttl: int, e: Entry)
    ensures Leads(s, Exists(s, key).0, k, e) && Leads(s, Del(s, key).0, k, e)
    ensures key != k || e == Entry(value, Some(s.now + ttl)) ==> Leads(s, SetPx(s, key, value, ttl).0, k, e)
  {
    hide Live;
  }

  // The stores a send goes through.
  lemma SendEnds(s: Store, cfg: C.SmsConfig, scene: Scene, mobile: string, code: string, delivered: bool)
    returns (s2: Store, s3: Store, s4: Store)
    ensures s2 == Exists(Exists(s, C.LockKey(scene, mobile)).0, C.IntervalKey(mobile)).0
    ensures s3 == SetPx(s2, C.CaptchaKey(scene, mobile), code, Millis(cfg.codeTtlSeconds)).0
    ensures s4 == SetPx(s3, C.IntervalKey(mobile), "1", Millis(cfg.sendIntervalSeconds)).0
    ensures var t := C.Send(s, cfg, scene, mobile, code, delivered).0;
            || t == Exists(s, C.LockKey(scene, mobile)).0 || t == s2 || t == s3 || t == s4
            || t == Del(s4, C.CaptchaKey(scene, mobile)).0
  {
    hide Exists, SetPx, Del, C.CaptchaKey, C.IntervalKey, C.LockKey, Millis;
    s2 := Exists(Exists(s, C.LockKey(scene, mobile)).0, C.IntervalKey(mobile)).0;
    s3 := SetPx(s2, C.CaptchaKey(scene, mobile), code, Millis(cfg.codeTtlSeconds)).0;
    s4 := SetPx(s3, C.IntervalKey(mobile), "1", Millis(cfg.sendIntervalSeconds)).0;
  }

  lemma SendStores(s: Store, cfg: C.SmsConfig, scene: Scene, mobile: string, code: string, delivered: bool)
    ensures Leads(s, C.Send(s, cfg, scene, mobile, code, delivered).0, C.CaptchaKey(scene, mobile),
                  Entry(code, Some(s.now + Millis(cfg.codeTtlSeconds))))
  {
    hide *;
    var k, e := C.CaptchaKey(scene, mobile), Entry(code, Some(s.now + Millis(cfg.codeTtlSeconds)));
    var interval, lock := C.IntervalKey(mobile), C.LockKey(scene, mobile);
    C.KeysDiffer(scene, mobile);
    var s1 := Exists(s, lock).0;
    var s2, s3, s4 := SendEnds(s, cfg, scene, mobile, code, delivered);
    CommandsLead(s, k, lock, "", 0, e);
    CommandsLead(s1, k, interval, "", 0, e);
    LeadsOn(s, s1, s2, k, e);
    LeadsSameNow(s, s2, k, e);
    CommandsLead(s2, k, k, code, Millis(cfg.codeTtlSeconds), e);
    LeadsOn(s, s2, s3, k, e);
    CommandsLead(s3, k, interval, "1", Millis(cfg.sendIntervalSeconds), e);
    LeadsOn(s, s3, s4, k, e);
    CommandsLead(s4, k, k, "", 0, e);
    LeadsOn(s, s4, Del(s4, k).0, k, e);
  }

  lemma LeadsSameNow(s: Store, t: Store, k: string, e: Entry)
    requires Leads(s, t, k, e)
    ensures t.now == s.now
  {
  }

  lemma VerifyKeepsCode(s: Store, cfg: C.SmsConfig, scene: Scene, mobile: string, input: string)
    ensures var t, k := C.Verify(s, cfg, scene, mobile, input).0, C.CaptchaKey(scene, mobile);
            k in t.entries ==> k in s.entries && t.entries[k] == s.entries[k]
    ensures var t, k := C.Consume(s, scene, mobile), C.CaptchaKey(scene, mobile);
            k in t.entries ==> k in s.entries && t.entries[k] == s.entries[k]
  {
    hide Live, Exists, Redis.Get, Incr, PExpire, SetPx, Del, C.CaptchaKey, C.IntervalKey, C.LockKey, C.CountKey, Millis;
    var k := C.CaptchaKey(scene, mobile);
    C.KeysDiffer(scene, mobile);
    CommandsFrame(k);
    forall r: Store ensures var t := Del(r, k).0; k in t.entries ==> k in r.entries && t.entries[k] == r.entries[k] {
      DelEffect(r, k);
    }
  }

  lemma CodeStep(cfg: Config, s: Store, call: Call, scene: Scene, mobile: string)
    ensures var t, k := Step(cfg, s, call).0, C.CaptchaKey(scene, mobile);
            k in t.entries ==>
              || (k in s.entries && t.entries[k] == s.entries[k])
              || (call.op.SendCode? && call.op.scene == scene && call.op.mobile == mobile
                  && t.entries[k] == Entry(call.op.code, Some(s.now + Millis(cfg.sms.codeTtlSeconds))))
  {
    hide C.Send, C.Verify, C.Consume, C.CaptchaKey, C.CountKey, C.LockKey, C.IntervalKey, G.FailKey, Millis;
    var op, s0 := call.op, s.(faults := call.faults);
    if !op.Tick? && OpScene(op, scene) == scene && OpMobile(op, mobile) == mobile
      && (op.SendCode? || op.VerifyCode? || op.ConsumeCode?) {
      hide G.Attempt, G.Clear;
      match op {
        case SendCode(_, _, code, delivered) => SendStores(s0, cfg.sms, scene, mobile, code, delivered);
        case VerifyCode(_, _, input) => VerifyKeepsCode(s0, cfg.sms, scene, mobile, input);
        case ConsumeCode(_, _) => VerifyKeepsCode(s0, cfg.sms, scene, mobile, "");
      }
    } else {
      hide Step;
      OthersKeepCode(op, scene, mobile);
      StepFrame(cfg, s, call, C.CaptchaKey(scene, mobile));
    }
  }

  lemma OthersKeepCode(op: Op, scene: Scene, mobile: string)
    requires op.SendCode? || op.VerifyCode? || op.ConsumeCode? ==> op.scene != scene || op.mobile != mobile
    ensures !Writes(op, C.CaptchaKey(scene, mobile))
  {
    hide Text;
    match op {
      case Tick(_) =>
      case PasswordLogin(m, _) => FailKeyIsApart(m, scene, mobile);
      case ClearLogin(m) => FailKeyIsApart(m, scene, mobile);
      case SendCode(sc, m, _, _) => IntervalKeyIsApart(m, scene, mobile); RecordKeysAreApart(sc, m, scene, mobile);
      case VerifyCode(sc, m, _) => RecordKeysAreApart(sc, m, scene, mobile);
      case ConsumeCode(sc, m) => RecordKeysAreApart(sc, m, scene, mobile);
    }
  }

  /** Whatever fails, a stored code is one that some call of the run asked to be sent. */
  lemma {:induction false} StoredCodesWereAsked(cfg: Config, s: Store, calls: seq<Call>, scene: Scene, mobile: string)
    requires C.CaptchaKey(scene, mobile) !in s.entries && C.CaptchaKey(scene, mobile) in After(cfg, s, calls).entries
    ensures var entry := After(cfg, s, calls).entries[C.CaptchaKey(scene, mobile)];
            exists i :: 0 <= i < |calls| && Asked(cfg, s, calls, scene, mobile, entry, i)
    decreases |calls|
  {
    hide Step, C.CaptchaKey, Millis;
    var n := |calls| - 1;
    var k, before, after := C.CaptchaKey(scene, mobile), After(cfg, s, calls[..n]), After(cfg, s, calls);
    CodeStep(cfg, before, calls[n], scene, mobile);
    if k in before.entries && after.entries[k] == before.entries[k] {
      StoredCodesWereAsked(cfg, s, calls[..n], scene, mobile);
      var i :| 0 <= i < n && Asked(cfg, s, calls[..n], scene, mobile, before.entries[k], i);
      assert calls[..n][..i] == calls[..i];
      assert Asked(cfg, s, calls, scene, mobile, after.entries[k], i);
    } else {
      assert Asked(cfg, s, calls, scene, mobile, after.entries[k], n);
    }
  }

  lemma VerifyReads(s: Store, cfg: C.SmsConfig, scene: Scene, mobile: string, input: string)
    requires C.Verify(s, cfg, scene, mobile, input).1 == Ok(())
    ensures Live(s, C.LockKey(scene, mobile)).None?
    ensures Live(s, C.CaptchaKey(scene, mobile)).Some? && Live(s, C.CaptchaKey(scene, mobile)).value.value == input
  {
    hide C.LockKey, C.CaptchaKey, C.CountKey, C.WrongGuess, Del;
    CommandsFrame(C.CaptchaKey(scene, mobile));
    var s2 := Redis.Get(Exists(s, C.LockKey(scene, mobile)).0, C.CaptchaKey(scene, mobile)).0;
    WrongGuessIsNotOk(s2, cfg, scene, mobile);
  }

  lemma WrongGuessIsNotOk(s: Store, cfg: C.SmsConfig, scene: Scene, mobile: string)
    ensures C.WrongGuess(s, cfg, scene, mobile).1.Fail?
  {
    hide Incr, PExpire, SetPx, Del, C.LockKey, C.CaptchaKey, C.CountKey;
  }

  /** In any run from an empty store, whatever Redis commands fail in it: a captcha is accepted
      only while no lock stands, and only if some call asked for exactly this code to be sent
      to this mobile for this scene less than the code's lifetime ago. */
  lemma AcceptedCodesWereAsked(cfg: Config, s: Store, calls: seq<Call>, scene: Scene, mobile: string, input: string,
      faults: seq<bool>)
    requires C.ValidSms(cfg.sms) && s.entries == map[]
    requires Step(cfg, After(cfg, s, calls), Call(VerifyCode(scene, mobile, input), faults)).1 == VerifyReply(Ok(()))
    ensures var t := After(cfg, s, calls);
            && Live(t, C.LockKey(scene, mobile)).None?
            && exists i :: 0 <= i < |calls| && AsksFor(calls[i].op, scene, mobile, input)
                        && t.now < Before(cfg, s, calls, i).now + 1000 * cfg.sms.codeTtlSeconds
  {
    hide After, C.LockKey, C.CaptchaKey, C.Verify, Before;
    var t := After(cfg, s, calls);
    VerifyReads(t.(faults := faults), cfg.sms, scene, mobile, input);
    StoredCodesWereAsked(cfg, s, calls, scene, mobile);
    var i :| 0 <= i < |calls| && Asked(cfg, s, calls, scene, mobile, t.entries[C.CaptchaKey(scene, mobile)], i);
  }
}
