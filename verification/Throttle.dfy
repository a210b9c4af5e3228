/** The accounting both lockouts share: wrong attempts come in epochs. An epoch opens at
    its first wrong attempt, holds at most `max` of them, and is not over before `d`
    milliseconds have passed, so a run of length T holds at most T / d + 1 epochs. */
module Throttle {

  /** Idle, or `count` wrong attempts remembered up to the instant `until`. */
  datatype Meter = Idle | Counting(count: int, until: int)

  /** What is remembered at a later instant. */
  function Later(m: Meter, now: int): Meter {
    if m.Counting? && m.until <= now then Idle else m
  }

  /** `wrongs` attempts since `start` fit into e epochs. */
  predicate Fits(m: Meter, now: int, start: int, wrongs: int, max: int, d: int, e: nat) {
    match m
    case Idle => wrongs <= max * e && now >= start + d * e
    case Counting(count, until) =>
      && e >= 1 && 1 <= count <= max
      && wrongs <= max * (e - 1) + count
      && until >= start + d * e && now >= start + d * (e - 1)
  }

  ghost predicate Accounted(m: Meter, now: int, start: int, wrongs: int, max: int, d: int) {
    exists e: nat :: Fits(m, now, start, wrongs, max, d, e)
  }

  lemma Start(now: int, max: int, d: int)
    ensures Accounted(Idle, now, now, 0, max, d)
  {
    assert Fits(Idle, now, now, 0, max, d, 0);
  }

  lemma Pass(m: Meter, now: int, later: int, start: int, wrongs: int, max: int, d: int)
    requires Accounted(m, now, start, wrongs, max, d) && now <= later
    ensures Accounted(Later(m, later), later, start, wrongs, max, d)
  {
    var e: nat :| Fits(m, now, start, wrongs, max, d, e);
    if m.Counting? {
      assert max * (e - 1) + max == max * e;
    }
    assert Fits(Later(m, later), later, start, wrongs, max, d, e);
  }

  /** A wrong attempt opens an epoch of at least d, or is the next one of the running
      epoch, whose end may move but not to before both its old end and d from now. */
  lemma Wrong(m: Meter, m': Meter, now: int, start: int, wrongs: int, max: int, d: int)
    requires Accounted(m, now, start, wrongs, max, d) && max >= 1
    requires m'.Counting? && (m.Counting? ==> m.count < max)
    requires m'.count == if m.Idle? then 1 else m.count + 1
    requires m'.until >= now + d || (m.Counting? && m'.until >= m.until)
    ensures Accounted(m', now, start, wrongs + 1, max, d)
  {
    var e: nat :| Fits(m, now, start, wrongs, max, d, e);
    if m.Idle? {
      assert d * (e + 1) == d * e + d;
      assert Fits(m', now, start, wrongs + 1, max, d, e + 1);
    } else {
      assert d * e == d * (e - 1) + d;
      assert Fits(m', now, start, wrongs + 1, max, d, e);
    }
  }

  lemma Epochs(m: Meter, now: int, start: int, wrongs: int, max: int, d: int, e: nat)
    requires Fits(m, now, start, wrongs, max, d, e) && max >= 1 && d >= 1 && start <= now
    ensures wrongs <= max * e && (e > 0 ==> d * (e - 1) <= now - start)
  {
    assert d * e == d * (e - 1) + d;
    assert max * e == max * (e - 1) + max;
  }

  /** The bound a run of length now - start keeps. */
  lemma Bound(m: Meter, now: int, start: int, wrongs: int, max: int, d: int)
    requires Accounted(m, now, start, wrongs, max, d) && max >= 1 && d >= 1 && start <= now
    ensures wrongs <= max * ((now - start) / d + 1)
  {
    hide Fits;
    var e: nat :| Fits(m, now, start, wrongs, max, d, e);
    Epochs(m, now, start, wrongs, max, d, e);
    if e > 0 { Quotient(d, e - 1, now - start); } else { NotNegative(now - start, d); }
    Times(max, e, (now - start) / d + 1);
  }

  lemma NotNegative(t: int, d: int)
    requires t >= 0 && d >= 1
    ensures t / d >= 0
  {
  }

  lemma Quotient(d: int, k: int, t: int)
    requires d >= 1 && d * k <= t
    ensures k <= t / d
  {
    var q := t / d;
    Division(t, d);
    if k > q { Times(d, q + 1, k); }
  }

  lemma Division(t: int, d: int)
    requires d >= 1
    ensures t < d * (t / d + 1)
  {
    var q := t / d;
    assert t == d * q + t % d;
    assert d * (q + 1) == d * q + d;
  }

  lemma Times(k: int, x: int, y: int)
    requires k >= 0 && x <= y
    ensures k * x <= k * y
  {
  }
}
