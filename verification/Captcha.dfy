/** Captchas: a code, a wrong-guess counter and a lock for every scene and mobile, and one
    send interval for every mobile, all in the one Redis store. */
module Captcha {
  import opened Ints
  import opened Outcome
  import opened Decimal
  import opened Redis
  import opened Keys
  import opened Timed

  datatype SmsConfig = SmsConfig(
    codeTtlSeconds: int, sendIntervalSeconds: int, maxRetry: int, retryTtlSeconds: int, lockSeconds: int)

  /** What the configuration check accepts, with durations whose milliseconds fit an int. */
  predicate ValidSms(cfg: SmsConfig) {
    && 1 <= cfg.codeTtlSeconds <= 2147483
    && 1 <= cfg.sendIntervalSeconds <= 2147483
    && 1 <= cfg.maxRetry <= MAX32
    && 1 <= cfg.retryTtlSeconds <= 2147483
    && cfg.codeTtlSeconds <= cfg.lockSeconds <= 2147483
  }

  function CaptchaKey(scene: Scene, mobile: string): string { Text(Keys.Captcha(scene, mobile)) }
  function IntervalKey(mobile: string): string { Text(Interval(mobile)) }
  function CountKey(scene: Scene, mobile: string): string { Text(VerifyCount(scene, mobile)) }
  function LockKey(scene: Scene, mobile: string): string { Text(Lock(scene, mobile)) }

  /** SendCaptcha, for a generated code and a delivery that succeeds or not. */
  function Send(s: Store, cfg: SmsConfig, scene: Scene, mobile: string, code: string, delivered: bool)
    : (Store, Result<int>)
  {
    var (s1, locked) := Exists(s, LockKey(scene, mobile));
    if locked.Fail? then (s1, Fail(ServiceUnavailable))
    else if locked.value then (s1, Fail(RateLimited))
    else
      var (s2, tooSoon) := Exists(s1, IntervalKey(mobile));
      if tooSoon.Fail? then (s2, Fail(ServiceUnavailable))
      else if tooSoon.value then (s2, Fail(RateLimited))
      else
        var (s3, stored) := SetPx(s2, CaptchaKey(scene, mobile), code, Millis(cfg.codeTtlSeconds));
        if stored.Fail? then (s3, Fail(ServiceUnavailable))
        else
          var s4 := SetPx(s3, IntervalKey(mobile), "1", Millis(cfg.sendIntervalSeconds)).0;
          if delivered then (s4, Ok(cfg.sendIntervalSeconds))
          else (Del(s4, CaptchaKey(scene, mobile)).0, Fail(ServiceUnavailable))
  }

  /** VerifyCaptcha after a wrong guess: count it, and lock at the limit. */
  function WrongGuess(s: Store, cfg: SmsConfig, scene: Scene, mobile: string): (Store, Result<()>) {
    var (s1, count) := Incr(s, CountKey(scene, mobile));
    if count.Fail? then (s1, Fail(ServiceUnavailable))
    else
      var s2 := PExpire(s1, CountKey(scene, mobile), Millis(cfg.retryTtlSeconds)).0;
      if count.value >= cfg.maxRetry then
        var s3 := SetPx(s2, LockKey(scene, mobile), "1", Millis(cfg.lockSeconds)).0;
        var s4 := Del(s3, CaptchaKey(scene, mobile)).0;
        (Del(s4, CountKey(scene, mobile)).0, Fail(AccountLocked))
      else (s2, Fail(CaptchaWrong))
  }

  function Verify(s: Store, cfg: SmsConfig, scene: Scene, mobile: string, input: string): (Store, Result<()>) {
    var (s1, locked) := Exists(s, LockKey(scene, mobile));
    if locked.Fail? then (s1, Fail(ServiceUnavailable))
    else if locked.value then (s1, Fail(RateLimited))
    else
      var (s2, stored) := Get(s1, CaptchaKey(scene, mobile));
      if stored.Fail? then (s2, Fail(ServiceUnavailable))
      else if stored.value.None? then (s2, Fail(CaptchaExpired))
      else if input != stored.value.value then WrongGuess(s2, cfg, scene, mobile)
      else (Del(s2, CountKey(scene, mobile)).0, Ok(()))
  }

  function Consume(s: Store, scene: Scene, mobile: string): Store {
    Del(s, CaptchaKey(scene, mobile)).0
  }

  // ---------------------------------------------------------------------
  // One scene of one mobile on plain values.
  // ---------------------------------------------------------------------

  datatype Record = Record(
    code: Option<Timed<string>>, wrong: Option<Timed<int>>, lock: Option<Timed<string>>)

  function RecordOf(s: Store, scene: Scene, mobile: string): Record {
    Record(TextAt(s, CaptchaKey(scene, mobile)),
           NumberAt(s, CountKey(scene, mobile)),
           TextAt(s, LockKey(scene, mobile)))
  }

  function IntervalOf(s: Store, mobile: string): Option<Timed<string>> {
    TextAt(s, IntervalKey(mobile))
  }

  predicate Tidy(s: Store, cfg: SmsConfig, scene: Scene, mobile: string) {
    && TidyText(s, CaptchaKey(scene, mobile))
    && TidyNumber(s, CountKey(scene, mobile), cfg.maxRetry - 1)
    && TidyText(s, LockKey(scene, mobile))
    && TidyText(s, IntervalKey(mobile))
  }

  /** A lock leaves neither a code nor a counter beside it; a counter stays below the limit. */
  predicate Sound(r: Record, cfg: SmsConfig) {
    && (r.lock.Some? ==> r.code.None? && r.wrong.None?)
    && (r.wrong.Some? ==> 1 <= r.wrong.value.value < cfg.maxRetry)
  }

  function SendOn(r: Record, interval: Option<Timed<string>>, cfg: SmsConfig, now: int, code: string, delivered: bool)
    : (Record, Option<Timed<string>>, Result<int>)
  {
    if r.lock.Some? || interval.Some? then (r, interval, Fail(RateLimited))
    else
      var next := Some(Timed("1", now + 1000 * cfg.sendIntervalSeconds));
      if delivered then
        (r.(code := Some(Timed(code, now + 1000 * cfg.codeTtlSeconds))), next, Ok(cfg.sendIntervalSeconds))
      else (r.(code := None), next, Fail(ServiceUnavailable))
  }

  function VerifyOn(r: Record, cfg: SmsConfig, now: int, input: string): (Record, Result<()>) {
    if r.lock.Some? then (r, Fail(RateLimited))
    else if r.code.None? then (r, Fail(CaptchaExpired))
    else if r.code.value.value == input then (r.(wrong := None), Ok(()))
    else
      var count := (match r.wrong case None => 0 case Some(t) => t.value) + 1;
      if count >= cfg.maxRetry then
        (Record(None, None, Some(Timed("1", now + 1000 * cfg.lockSeconds))), Fail(AccountLocked))
      else (r.(wrong := Some(Timed(count, now + 1000 * cfg.retryTtlSeconds))), Fail(CaptchaWrong))
  }

  /** The keys of one record and its interval are four different strings. */
  lemma KeysDiffer(scene: Scene, mobile: string)
    ensures CaptchaKey(scene, mobile) != CountKey(scene, mobile)
    ensures CaptchaKey(scene, mobile) != LockKey(scene, mobile)
    ensures CaptchaKey(scene, mobile) != IntervalKey(mobile)
    ensures CountKey(scene, mobile) != LockKey(scene, mobile)
    ensures CountKey(scene, mobile) != IntervalKey(mobile)
    ensures LockKey(scene, mobile) != IntervalKey(mobile)
  {
    hide Text;
    TextIsInjective(Keys.Captcha(scene, mobile), VerifyCount(scene, mobile));
    TextIsInjective(Keys.Captcha(scene, mobile), Lock(scene, mobile));
    TextIsInjective(Keys.Captcha(scene, mobile), Interval(mobile));
    TextIsInjective(VerifyCount(scene, mobile), Lock(scene, mobile));
    TextIsInjective(VerifyCount(scene, mobile), Interval(mobile));
    TextIsInjective(Lock(scene, mobile), Interval(mobile));
  }

  predicate Own(k: string, scene: Scene, mobile: string) {
    k == CaptchaKey(scene, mobile) || k == CountKey(scene, mobile) || k == LockKey(scene, mobile)
  }

  lemma ExistsText(s: Store, key: string)
    requires s.faults == [] && TidyText(s, key)
    ensures Exists(s, key) == (s, Ok(TextAt(s, key).Some?))
  {
  }

  /** Sending does to the record and the interval exactly what the plain machine does,
      and touches no other key. */
  lemma SendOnPlainValues(s: Store, cfg: SmsConfig, scene: Scene, mobile: string, code: string, delivered: bool)
    requires s.faults == [] && ValidSms(cfg) && Tidy(s, cfg, scene, mobile)
    ensures var (s', answer) := Send(s, cfg, scene, mobile, code, delivered);
            && s'.faults == [] && s'.now == s.now && Tidy(s', cfg, scene, mobile)
            && (RecordOf(s', scene, mobile), IntervalOf(s', mobile), answer)
               == SendOn(RecordOf(s, scene, mobile), IntervalOf(s, mobile), cfg, s.now, code, delivered)
            && forall k :: k != CaptchaKey(scene, mobile) && k != IntervalKey(mobile) ==> SameAt(s, s', k)
  {
    hide CaptchaKey, CountKey, LockKey, IntervalKey, Exists, SetPx, Del, Millis, StrictInteger, ToString;
    KeysDiffer(scene, mobile);
    ExistsText(s, LockKey(scene, mobile));
    ExistsText(s, IntervalKey(mobile));
    SetText(s, CaptchaKey(scene, mobile), code, 1000 * cfg.codeTtlSeconds);
    var s3 := SetPx(s, CaptchaKey(scene, mobile), code, 1000 * cfg.codeTtlSeconds).0;
    SetText(s3, IntervalKey(mobile), "1", 1000 * cfg.sendIntervalSeconds);
    var s4 := SetPx(s3, IntervalKey(mobile), "1", 1000 * cfg.sendIntervalSeconds).0;
    DelText(s4, CaptchaKey(scene, mobile));
    var s5 := Del(s4, CaptchaKey(scene, mobile)).0;
    var s' := Send(s, cfg, scene, mobile, code, delivered).0;
    assert s' == s || s' == s4 || s' == s5;
    forall k | k != CaptchaKey(scene, mobile) && k != IntervalKey(mobile)
      ensures SameAt(s, s4, k) && SameAt(s, s5, k)
    {
      assert SameAt(s, s3, k) && SameAt(s3, s4, k) && SameAt(s4, s5, k);
    }
    Frame(s, s4, CountKey(scene, mobile), cfg.maxRetry - 1);
    Frame(s, s5, CountKey(scene, mobile), cfg.maxRetry - 1);
    Frame(s, s4, LockKey(scene, mobile), 0);
    Frame(s, s5, LockKey(scene, mobile), 0);
    Frame(s3, s4, CaptchaKey(scene, mobile), 0);
    Frame(s4, s5, IntervalKey(mobile), 0);
  }

  lemma WrongGuessOnPlainValues(s: Store, cfg: SmsConfig, scene: Scene, mobile: string)
    requires s.faults == [] && ValidSms(cfg) && Tidy(s, cfg, scene, mobile)
    requires TextAt(s, LockKey(scene, mobile)).None?
    ensures var (s', answer) := WrongGuess(s, cfg, scene, mobile);
            var r := RecordOf(s, scene, mobile);
            var count := (match r.wrong case None => 0 case Some(t) => t.value) + 1;
            && s'.faults == [] && s'.now == s.now && Tidy(s', cfg, scene, mobile)
            && (RecordOf(s', scene, mobile), answer)
               == (if count >= cfg.maxRetry
                   then (Record(None, None, Some(Timed("1", s.now + 1000 * cfg.lockSeconds))), Fail(AccountLocked))
                   else (r.(wrong := Some(Timed(count, s.now + 1000 * cfg.retryTtlSeconds))), Fail(CaptchaWrong)))
            && forall k :: !Own(k, scene, mobile) ==> SameAt(s, s', k)
  {
    hide CaptchaKey, CountKey, LockKey, IntervalKey, SetPx, Del, Incr, PExpire, Millis, StrictInteger, ToString;
    KeysDiffer(scene, mobile);
    Bump(s, CountKey(scene, mobile), cfg.maxRetry - 1, 1000 * cfg.retryTtlSeconds);
    var s2 := PExpire(Incr(s, CountKey(scene, mobile)).0, CountKey(scene, mobile), 1000 * cfg.retryTtlSeconds).0;
    SetText(s2, LockKey(scene, mobile), "1", 1000 * cfg.lockSeconds);
    var s3 := SetPx(s2, LockKey(scene, mobile), "1", 1000 * cfg.lockSeconds).0;
    DelText(s3, CaptchaKey(scene, mobile));
    var s4 := Del(s3, CaptchaKey(scene, mobile)).0;
    DelText(s4, CountKey(scene, mobile));
    var s5 := Del(s4, CountKey(scene, mobile)).0;
    forall k | !Own(k, scene, mobile) ensures SameAt(s, s2, k) && SameAt(s, s5, k) {
      assert SameAt(s, s2, k) && SameAt(s2, s3, k) && SameAt(s3, s4, k) && SameAt(s4, s5, k);
    }
    Frame(s, s2, CaptchaKey(scene, mobile), 0);
    Frame(s, s2, LockKey(scene, mobile), 0);
    Frame(s3, s4, LockKey(scene, mobile), 0);
    Frame(s4, s5, LockKey(scene, mobile), 0);
    Frame(s4, s5, CaptchaKey(scene, mobile), 0);
    Frame(s, s2, IntervalKey(mobile), 0);
    Frame(s, s5, IntervalKey(mobile), 0);
    NothingLive(s4, CaptchaKey(scene, mobile), cfg.maxRetry - 1);
    NothingLive(s5, CountKey(scene, mobile), cfg.maxRetry - 1);
  }

  lemma NothingLive(s: Store, key: string, top: int)
    requires Live(s, key).None?
    ensures TextAt(s, key).None? && NumberAt(s, key).None? && TidyText(s, key) && TidyNumber(s, key, top)
  {
  }

  /** Verifying does to the record exactly what the plain machine does, and touches no
      other key. */
  lemma VerifyOnPlainValues(s: Store, cfg: SmsConfig, scene: Scene, mobile: string, input: string)
    requires s.faults == [] && ValidSms(cfg) && Tidy(s, cfg, scene, mobile)
    ensures var (s', answer) := Verify(s, cfg, scene, mobile, input);
            && s'.faults == [] && s'.now == s.now && Tidy(s', cfg, scene, mobile)
            && (RecordOf(s', scene, mobile), answer) == VerifyOn(RecordOf(s, scene, mobile), cfg, s.now, input)
            && forall k :: !Own(k, scene, mobile) ==> SameAt(s, s', k)
  {
    hide CaptchaKey, CountKey, LockKey, IntervalKey, Exists, Get, Del, WrongGuess, StrictInteger, ToString;
    KeysDiffer(scene, mobile);
    ExistsText(s, LockKey(scene, mobile));
    GetText(s, CaptchaKey(scene, mobile));
    DelText(s, CountKey(scene, mobile));
    var s1 := Del(s, CountKey(scene, mobile)).0;
    Frame(s, s1, CaptchaKey(scene, mobile), 0);
    Frame(s, s1, LockKey(scene, mobile), 0);
    Frame(s, s1, IntervalKey(mobile), 0);
    NothingLive(s1, CountKey(scene, mobile), cfg.maxRetry - 1);
    if TextAt(s, LockKey(scene, mobile)).None? {
      WrongGuessOnPlainValues(s, cfg, scene, mobile);
    }
  }

  lemma ConsumeOnPlainValues(s: Store, cfg: SmsConfig, scene: Scene, mobile: string)
    requires s.faults == [] && Tidy(s, cfg, scene, mobile)
    ensures var s' := Consume(s, scene, mobile);
            && s'.faults == [] && s'.now == s.now && Tidy(s', cfg, scene, mobile)
            && RecordOf(s', scene, mobile) == RecordOf(s, scene, mobile).(code := None)
            && forall k :: k != CaptchaKey(scene, mobile) ==> SameAt(s, s', k)
  {
    hide CaptchaKey, CountKey, LockKey, IntervalKey, Del, StrictInteger, ToString;
    KeysDiffer(scene, mobile);
    DelText(s, CaptchaKey(scene, mobile));
    var s1 := Del(s, CaptchaKey(scene, mobile)).0;
    Frame(s, s1, CountKey(scene, mobile), cfg.maxRetry - 1);
    Frame(s, s1, LockKey(scene, mobile), 0);
    Frame(s, s1, IntervalKey(mobile), 0);
    NothingLive(s1, CaptchaKey(scene, mobile), 0);
  }

  /** The plain machine keeps locks free of codes and counters, and counters below the limit. */
  lemma PlainMachineIsSound(r: Record, interval: Option<Timed<string>>, cfg: SmsConfig, now: int,
                            code: string, delivered: bool, input: string)
    requires ValidSms(cfg) && Sound(r, cfg)
    ensures Sound(SendOn(r, interval, cfg, now, code, delivered).0, cfg)
    ensures Sound(VerifyOn(r, cfg, now, input).0, cfg)
    ensures Sound(r.(code := None), cfg)
  {
  }
}

/** The service object: each call issues its Redis commands one after the other. */
module SmsServices {
  import opened Ints
  import opened Outcome
  import opened RedisClients
  import opened Keys
  import opened Captcha

  class SmsService {
    const redis: RedisClient
    const cfg: SmsConfig

    constructor (redis: RedisClient, cfg: SmsConfig)
      ensures this.redis == redis && this.cfg == cfg
    {
      this.redis, this.cfg := redis, cfg;
    }

    method SendCaptcha(scene: Scene, mobile: string, code: string, delivered: bool) returns (r: Result<int>)
      modifies redis
      ensures (redis.State(), r) == Send(old(redis.State()), cfg, scene, mobile, code, delivered)
    {
      hide Redis.Exists, Redis.SetPx, Redis.Del, Millis, CaptchaKey, LockKey, IntervalKey;
      var locked := redis.Exists(LockKey(scene, mobile));
      if locked.Fail? { return Fail(ServiceUnavailable); }
      if locked.value { return Fail(RateLimited); }
      var tooSoon := redis.Exists(IntervalKey(mobile));
      if tooSoon.Fail? { return Fail(ServiceUnavailable); }
      if tooSoon.value { return Fail(RateLimited); }
      var stored := redis.SetPx(CaptchaKey(scene, mobile), code, Millis(cfg.codeTtlSeconds));
      if stored.Fail? { return Fail(ServiceUnavailable); }
      var interval := redis.SetPx(IntervalKey(mobile), "1", Millis(cfg.sendIntervalSeconds));
      if !delivered {
        var rolledBack := redis.Del(CaptchaKey(scene, mobile));
        return Fail(ServiceUnavailable);
      }
      r := Ok(cfg.sendIntervalSeconds);
    }

    method VerifyCaptcha(scene: Scene, mobile: string, input: string) returns (r: Result<()>)
      modifies redis
      ensures (redis.State(), r) == Verify(old(redis.State()), cfg, scene, mobile, input)
    {
      hide Redis.Exists, Redis.Get, Redis.SetPx, Redis.Del, Redis.Incr, Redis.PExpire, Millis,
           CaptchaKey, LockKey, CountKey;
      var locked := redis.Exists(LockKey(scene, mobile));
      if locked.Fail? { return Fail(ServiceUnavailable); }
      if locked.value { return Fail(RateLimited); }
      var stored := redis.Get(CaptchaKey(scene, mobile));
      if stored.Fail? { return Fail(ServiceUnavailable); }
      if stored.value.None? { return Fail(CaptchaExpired); }
      if input != stored.value.value {
        var count := redis.Incr(CountKey(scene, mobile));
        if count.Fail? { return Fail(ServiceUnavailable); }
        var expiring := redis.PExpire(CountKey(scene, mobile), Millis(cfg.retryTtlSeconds));
        if count.value >= cfg.maxRetry {
          var lock := redis.SetPx(LockKey(scene, mobile), "1", Millis(cfg.lockSeconds));
          var noCode := redis.Del(CaptchaKey(scene, mobile));
          var noCount := redis.Del(CountKey(scene, mobile));
          return Fail(AccountLocked);
        }
        return Fail(CaptchaWrong);
      }
      var cleared := redis.Del(CountKey(scene, mobile));
      r := Ok(());
    }

    method ConsumeCaptcha(scene: Scene, mobile: string) returns (r: Result<()>)
      modifies redis
      ensures redis.State() == Consume(old(redis.State()), scene, mobile) && r == Ok(())
    {
      hide Redis.Del, CaptchaKey;
      var consumed := redis.Del(CaptchaKey(scene, mobile));
      r := Ok(());
    }
  }
}
