/** The password-login lockout: one counter a mobile, with a window that later failures do
    not move and a lock when the limit is reached. */
module LoginGate {
  import opened Ints
  import opened Outcome
  import opened Decimal
  import opened Redis
  import opened Keys
  import opened Timed

  datatype LoginConfig = LoginConfig(maxAttempts: int, windowSeconds: int, lockSeconds: int)

  /** What the configuration check accepts, with durations whose milliseconds fit an int. */
  predicate ValidLogin(cfg: LoginConfig) {
    && 1 <= cfg.maxAttempts <= MAX32
    && 1 <= cfg.windowSeconds <= 2147483
    && 1 <= cfg.lockSeconds <= 2147483
  }

  datatype Gate = Open | Locked | Thrown

  function FailKey(mobile: string): string {
    Text(LoginFail(mobile))
  }

  /** CheckLoginFailedAttempts: open when Redis fails; a counter that std::stoi cannot
      read throws. */
  function Check(s: Store, cfg: LoginConfig, mobile: string): (Store, Gate) {
    var (s1, r) := Get(s, FailKey(mobile));
    if r.Fail? || r.value.None? then (s1, Open)
    else
      match Stoi(r.value.value)
      case None => (s1, Thrown)
      case Some(count) => (s1, if count >= cfg.maxAttempts then Locked else Open)
  }

  /** RecordLoginFailure. */
  function Record(s: Store, cfg: LoginConfig, mobile: string): Store {
    var key := FailKey(mobile);
    var (s1, r) := Incr(s, key);
    if r.Fail? then s1
    else if r.value == cfg.maxAttempts then PExpire(s1, key, Millis(cfg.lockSeconds)).0
    else if r.value < cfg.maxAttempts then
      var (s2, ttl) := PTTL(s1, key);
      if ttl.Fail? || ttl.value < 0 then PExpire(s2, key, Millis(cfg.windowSeconds)).0 else s2
    else s1
  }

  /** ClearLoginFailure. */
  function Clear(s: Store, mobile: string): Store {
    Del(s, FailKey(mobile)).0
  }

  /** What the user lookup and the password check found. */
  datatype Verdict = NoSuchUser | LookupFailed | UserIsDisabled | Mismatch | Match

  datatype Answer = Refused(code: ErrorCode) | Accepted | Crashed

  /** A password login from the lockout's point of view. */
  function Attempt(s: Store, cfg: LoginConfig, mobile: string, verdict: Verdict): (Store, Answer) {
    var (s1, gate) := Check(s, cfg, mobile);
    if gate == Locked then (s1, Refused(AccountLocked))
    else if gate == Thrown then (s1, Crashed)
    else
      match verdict
      case NoSuchUser => (Record(s1, cfg, mobile), Refused(WrongPassword))
      case LookupFailed => (s1, Refused(ServiceUnavailable))
      case UserIsDisabled => (s1, Refused(UserDisabled))
      case Mismatch => (Record(s1, cfg, mobile), Refused(WrongPassword))
      case Match => (Clear(s1, mobile), Accepted)
  }

  // ---------------------------------------------------------------------
  // The lockout of one mobile on plain values.
  // ---------------------------------------------------------------------

  type Failures = Option<Timed<int>>

  function FailuresOf(s: Store, mobile: string): Failures {
    NumberAt(s, FailKey(mobile))
  }

  predicate Tidy(s: Store, cfg: LoginConfig, mobile: string) {
    TidyNumber(s, FailKey(mobile), cfg.maxAttempts)
  }

  predicate IsLocked(f: Failures, cfg: LoginConfig) {
    f.Some? && f.value.value >= cfg.maxAttempts
  }

  /** One more failure: the first opens the window, the last of the limit sets the lock,
      those in between leave the deadline alone. */
  function OneMore(f: Failures, cfg: LoginConfig, now: int): Failures {
    var count := (match f case None => 0 case Some(t) => t.value) + 1;
    if count == cfg.maxAttempts then Some(Timed(count, now + 1000 * cfg.lockSeconds))
    else if f.None? then Some(Timed(count, now + 1000 * cfg.windowSeconds))
    else Some(Timed(count, f.value.until))
  }

  function AttemptOn(f: Failures, cfg: LoginConfig, now: int, verdict: Verdict): (Failures, Answer) {
    if IsLocked(f, cfg) then (f, Refused(AccountLocked))
    else
      match verdict
      case NoSuchUser => (OneMore(f, cfg, now), Refused(WrongPassword))
      case LookupFailed => (f, Refused(ServiceUnavailable))
      case UserIsDisabled => (f, Refused(UserDisabled))
      case Mismatch => (OneMore(f, cfg, now), Refused(WrongPassword))
      case Match => (None, Accepted)
  }

  lemma CheckOnPlainValues(s: Store, cfg: LoginConfig, mobile: string)
    requires s.faults == [] && ValidLogin(cfg) && Tidy(s, cfg, mobile)
    ensures Check(s, cfg, mobile) == (s, if IsLocked(FailuresOf(s, mobile), cfg) then Locked else Open)
  {
    hide ToString, Stoi, FailKey, Live, NumberAt;
    GetNumber(s, FailKey(mobile), cfg.maxAttempts);
    NumberIsTidy(s, FailKey(mobile), cfg.maxAttempts);
    match NumberAt(s, FailKey(mobile)) {
      case None =>
      case Some(t) => ReadBack(t.value);
    }
  }

  lemma NumberIsTidy(s: Store, key: string, top: int)
    requires TidyNumber(s, key, top)
    ensures NumberAt(s, key).Some? ==> 1 <= NumberAt(s, key).value.value <= top
    ensures NumberAt(s, key).None? <==> Live(s, key).None?
  {
    hide StrictInteger, ToString;
  }

  lemma NumberIsLive(s: Store, key: string, count: int, until: int)
    requires 1 <= count <= MAX32
    requires Live(s, key) == Some(Entry(ToString(count), Some(until)))
    ensures NumberAt(s, key) == Some(Timed(count, until)) && TidyNumber(s, key, count)
    ensures s.faults == [] ==> PTTL(s, key) == (s, Ok(until - s.now)) && until > s.now
  {
    hide ToString, StrictInteger;
    ReadBack(count);
  }

  lemma RecordOnPlainValues(s: Store, cfg: LoginConfig, mobile: string)
    requires s.faults == [] && ValidLogin(cfg) && Tidy(s, cfg, mobile)
    requires !IsLocked(FailuresOf(s, mobile), cfg)
    ensures var s' := Record(s, cfg, mobile);
            && s'.faults == [] && s'.now == s.now && Tidy(s', cfg, mobile)
            && FailuresOf(s', mobile) == OneMore(FailuresOf(s, mobile), cfg, s.now)
            && forall k :: k != FailKey(mobile) ==> SameAt(s, s', k)
  {
    hide ToString, StrictInteger, FailKey, Millis, Incr, PExpire;
    var key := FailKey(mobile);
    NumberIsTidy(s, key, cfg.maxAttempts);
    Increment(s, key, cfg.maxAttempts);
    Bump(s, key, cfg.maxAttempts, 1000 * cfg.lockSeconds);
    Bump(s, key, cfg.maxAttempts, 1000 * cfg.windowSeconds);
    var f := FailuresOf(s, mobile);
    if f.Some? {
      NumberIsLive(Incr(s, key).0, key, f.value.value + 1, f.value.until);
    }
  }

  /** The code on the string-keyed store does to this mobile's record exactly what the
      plain machine does, and touches no other key. */
  lemma AttemptOnPlainValues(s: Store, cfg: LoginConfig, mobile: string, verdict: Verdict)
    requires s.faults == [] && ValidLogin(cfg) && Tidy(s, cfg, mobile)
    ensures var (s', answer) := Attempt(s, cfg, mobile, verdict);
            && s'.faults == [] && s'.now == s.now && Tidy(s', cfg, mobile)
            && (FailuresOf(s', mobile), answer) == AttemptOn(FailuresOf(s, mobile), cfg, s.now, verdict)
            && forall k :: k != FailKey(mobile) ==> SameAt(s, s', k)
  {
    hide Check, Record, FailKey, ToString, StrictInteger;
    CheckOnPlainValues(s, cfg, mobile);
    if !IsLocked(FailuresOf(s, mobile), cfg) {
      RecordOnPlainValues(s, cfg, mobile);
      ClearOnPlainValues(s, cfg, mobile);
    }
  }

  lemma ClearOnPlainValues(s: Store, cfg: LoginConfig, mobile: string)
    requires s.faults == []
    ensures var s' := Clear(s, mobile);
            && s'.faults == [] && s'.now == s.now && Tidy(s', cfg, mobile)
            && FailuresOf(s', mobile) == None
            && forall k :: k != FailKey(mobile) ==> SameAt(s, s', k)
  {
    hide FailKey, ToString, StrictInteger;
    DelText(s, FailKey(mobile));
  }
}
