/** What the services keep in the store, read as plain values with a deadline. */
module Timed {
  import opened Ints
  import opened Outcome
  import opened Decimal
  import opened Redis

  datatype Timed<+T> = Timed(value: T, until: int)

  /** A value with a deadline that has not passed. */
  predicate Fresh<T>(t: Option<Timed<T>>, now: int) {
    t.Some? ==> now < t.value.until
  }

  /** What is left of a value at an instant. */
  function At<T>(t: Option<Timed<T>>, now: int): Option<Timed<T>> {
    if t.Some? && t.value.until <= now then None else t
  }

  function TextAt(s: Store, key: string): (t: Option<Timed<string>>)
    ensures Fresh(t, s.now)
  {
    match Live(s, key)
    case None => None
    case Some(e) => if e.deadline.None? then None else Some(Timed(e.value, e.deadline.value))
  }

  function NumberAt(s: Store, key: string): (t: Option<Timed<int>>)
    ensures Fresh(t, s.now)
  {
    match Live(s, key)
    case None => None
    case Some(e) =>
      if e.deadline.None? || StrictInteger(e.value).None? then None
      else Some(Timed(StrictInteger(e.value).value, e.deadline.value))
  }

  /** A live entry has a deadline. */
  predicate TidyText(s: Store, key: string) {
    Live(s, key).Some? ==> Live(s, key).value.deadline.Some?
  }

  /** A live entry is a number from 1 to `top` with a deadline. */
  predicate TidyNumber(s: Store, key: string, top: int) {
    Live(s, key).Some? ==>
      && Live(s, key).value.deadline.Some?
      && StrictInteger(Live(s, key).value.value).Some?
      && Live(s, key).value.value == ToString(StrictInteger(Live(s, key).value.value).value)
      && 1 <= StrictInteger(Live(s, key).value.value).value <= top
  }

  /** The two stores agree on a key at the same instant. */
  predicate SameAt(s: Store, t: Store, key: string) {
    && s.now == t.now
    && (key in s.entries <==> key in t.entries)
    && (key in s.entries ==> s.entries[key] == t.entries[key])
  }

  lemma Frame(s: Store, t: Store, key: string, top: int)
    requires SameAt(s, t, key)
    ensures Live(s, key) == Live(t, key) && TextAt(s, key) == TextAt(t, key) && NumberAt(s, key) == NumberAt(t, key)
    ensures TidyText(s, key) <==> TidyText(t, key)
    ensures TidyNumber(s, key, top) <==> TidyNumber(t, key, top)
  {
    hide StrictInteger, ToString;
  }

  /** Letting time pass only ends what has expired. */
  lemma ElapseText(s: Store, ms: nat, key: string)
    ensures TextAt(Elapse(s, ms), key) == At(TextAt(s, key), s.now + ms)
    ensures TidyText(s, key) ==> TidyText(Elapse(s, ms), key)
  {
  }

  lemma ElapseNumber(s: Store, ms: nat, key: string, top: int)
    ensures NumberAt(Elapse(s, ms), key) == At(NumberAt(s, key), s.now + ms)
    ensures TidyNumber(s, key, top) ==> TidyNumber(Elapse(s, ms), key, top)
  {
    hide StrictInteger, ToString;
  }

  // ---------------------------------------------------------------------
  // What single commands do to the plain values, when they succeed.
  // ---------------------------------------------------------------------

  lemma GetText(s: Store, key: string)
    requires s.faults == [] && TidyText(s, key)
    ensures Get(s, key) == (s, Ok(match TextAt(s, key) case None => None case Some(t) => Some(t.value)))
  {
  }

  lemma GetNumber(s: Store, key: string, top: int)
    requires s.faults == [] && TidyNumber(s, key, top)
    ensures Get(s, key) == (s, Ok(match NumberAt(s, key) case None => None case Some(t) => Some(ToString(t.value))))
  {
    hide ToString, StrictInteger;
  }

  lemma SetText(s: Store, key: string, value: string, ttl: int)
    requires s.faults == [] && ttl > 0
    ensures var (s', r) := SetPx(s, key, value, ttl);
            && r.Ok? && s'.faults == [] && s'.now == s.now
            && TidyText(s', key) && TextAt(s', key) == Some(Timed(value, s.now + ttl))
            && forall k :: k != key ==> SameAt(s, s', k)
  {
  }

  lemma DelText(s: Store, key: string)
    requires s.faults == []
    ensures var (s', r) := Del(s, key);
            && r.Ok? && s'.faults == [] && s'.now == s.now && Live(s', key).None?
            && forall k :: k != key ==> SameAt(s, s', k)
  {
  }

  /** INCR followed by PEXPIRE: one more, with a new deadline. */
  lemma Bump(s: Store, key: string, top: int, ttl: int)
    requires s.faults == [] && TidyNumber(s, key, top) && 0 <= top < MAX64 && ttl > 0
    ensures var count := (match NumberAt(s, key) case None => 0 case Some(t) => t.value) + 1;
            var (s1, r1) := Incr(s, key);
            var (s2, r2) := PExpire(s1, key, ttl);
            && r1 == Ok(count) && s2.faults == [] && s2.now == s.now
            && NumberAt(s2, key) == Some(Timed(count, s.now + ttl)) && TidyNumber(s2, key, count)
            && forall k :: k != key ==> SameAt(s, s2, k)
  {
    hide ToString, StrictInteger;
    var count := (match NumberAt(s, key) case None => 0 case Some(t) => t.value) + 1;
    Increment(s, key, top);
    ReadBack(count);
  }

  /** INCR alone: one more, with the old deadline or none. */
  lemma Increment(s: Store, key: string, top: int)
    requires s.faults == [] && TidyNumber(s, key, top) && 0 <= top < MAX64
    ensures var count := (match NumberAt(s, key) case None => 0 case Some(t) => t.value) + 1;
            var (s1, r1) := Incr(s, key);
            && r1 == Ok(count) && s1.faults == [] && s1.now == s.now
            && Live(s1, key) == Some(Entry(ToString(count),
                                 match NumberAt(s, key) case None => None case Some(t) => Some(t.until)))
            && forall k :: k != key ==> SameAt(s, s1, k)
  {
    hide ToString, StrictInteger;
  }
}
