/** The Redis commands the services use, on one string-keyed store with millisecond
    deadlines. `faults` says which of the coming commands fail: an exhausted list means
    that every further command succeeds. A failing command has no effect. */
module Redis {
  import opened Ints
  import opened Outcome
  import opened Decimal

  datatype Entry = Entry(value: string, deadline: Option<int>)

  datatype Store = Store(entries: map<string, Entry>, now: int, faults: seq<bool>)

  /** An entry is alive strictly before its deadline. */
  predicate Alive(e: Entry, now: int) {
    e.deadline.None? || now < e.deadline.value
  }

  function Live(s: Store, key: string): (r: Option<Entry>)
    ensures r.Some? ==> key in s.entries && s.entries[key] == r.value
  {
    if key in s.entries && Alive(s.entries[key], s.now) then Some(s.entries[key]) else None
  }

  predicate Faulty(s: Store) {
    s.faults != [] && s.faults[0]
  }

  /** The store after one more command was issued. */
  function Issue(s: Store): Store {
    if s.faults == [] then s else s.(faults := s.faults[1..])
  }

  function Write(s: Store, key: string, e: Entry): Store {
    Issue(s).(entries := s.entries[key := e])
  }

  function Erase(s: Store, key: string): Store {
    Issue(s).(entries := s.entries - {key})
  }

  function Get(s: Store, key: string): (Store, Result<Option<string>>) {
    if Faulty(s) then (Issue(s), Fail(ServiceUnavailable))
    else (Issue(s), Ok(match Live(s, key) case None => None case Some(e) => Some(e.value)))
  }

  function Exists(s: Store, key: string): (Store, Result<bool>) {
    if Faulty(s) then (Issue(s), Fail(ServiceUnavailable))
    else (Issue(s), Ok(Live(s, key).Some?))
  }

  /** PSETEX; a ttl that is not positive is refused before any command is issued. */
  function SetPx(s: Store, key: string, value: string, ttl: int): (Store, Result<()>) {
    if ttl <= 0 then (s, Fail(InvalidArgument))
    else if Faulty(s) then (Issue(s), Fail(ServiceUnavailable))
    else (Write(s, key, Entry(value, Some(s.now + ttl))), Ok(()))
  }

  /** DEL, telling whether the key was there. */
  function Del(s: Store, key: string): (Store, Result<bool>) {
    if Faulty(s) then (Issue(s), Fail(ServiceUnavailable))
    else (Erase(s, key), Ok(Live(s, key).Some?))
  }

  /** INCR: counts from 0 without a deadline when the key is absent, keeps the deadline
      otherwise, fails on text that is no integer and at the top of the 64-bit range. */
  function Incr(s: Store, key: string): (Store, Result<int>) {
    if Faulty(s) then (Issue(s), Fail(ServiceUnavailable))
    else
      match Live(s, key)
      case None => (Write(s, key, Entry(ToString(1), None)), Ok(1))
      case Some(e) =>
        match StrictInteger(e.value)
        case None => (Issue(s), Fail(ServiceUnavailable))
        case Some(n) =>
          if n == MAX64 then (Issue(s), Fail(ServiceUnavailable))
          else (Write(s, key, Entry(ToString(n + 1), e.deadline)), Ok(n + 1))
  }

  /** PEXPIRE, telling whether the key was there; a ttl that is not positive deletes. */
  function PExpire(s: Store, key: string, ttl: int): (Store, Result<bool>) {
    if Faulty(s) then (Issue(s), Fail(ServiceUnavailable))
    else
      match Live(s, key)
      case None => (Issue(s), Ok(false))
      case Some(e) =>
        if ttl <= 0 then (Erase(s, key), Ok(true))
        else (Write(s, key, Entry(e.value, Some(s.now + ttl))), Ok(true))
  }

  /** PTTL: the milliseconds left, -1 without a deadline, -2 without a key. */
  function PTTL(s: Store, key: string): (Store, Result<int>) {
    if Faulty(s) then (Issue(s), Fail(ServiceUnavailable))
    else
      match Live(s, key)
      case None => (Issue(s), Ok(-2))
      case Some(e) => (Issue(s), Ok(match e.deadline case None => -1 case Some(d) => d - s.now))
  }

  function Elapse(s: Store, ms: nat): Store {
    s.(now := s.now + ms)
  }
}

module RedisClients {
  import opened Ints
  import opened Outcome
  import opened Decimal
  import opened Redis

  /** The client object: every method issues one command and reassigns the store. */
  class RedisClient {
    var entries: map<string, Entry>
    var now: int
    var faults: seq<bool>

    function State(): Store
      reads this
    {
      Store(entries, now, faults)
    }

    constructor (now: int)
      ensures State() == Store(map[], now, [])
    {
      entries, this.now, faults := map[], now, [];
    }

    method Set(s: Store)
      modifies this
      ensures State() == s
    {
      entries, now, faults := s.entries, s.now, s.faults;
    }

    // Issues one command and tells whether it fails.
    method Command() returns (failed: bool)
      modifies this
      ensures State() == Issue(old(State())) && failed == Faulty(old(State()))
    {
      failed := faults != [] && faults[0];
      if faults != [] { faults := faults[1..]; }
    }

    method Lookup(key: string) returns (e: Option<Entry>)
      ensures e == Live(State(), key)
    {
      e := None;
      if key in entries && Alive(entries[key], now) { e := Some(entries[key]); }
    }

    method Get(key: string) returns (r: Result<Option<string>>)
      modifies this
      ensures (State(), r) == Redis.Get(old(State()), key)
    {
      var failed := Command();
      if failed { return Fail(ServiceUnavailable); }
      var e := Lookup(key);
      r := Ok(match e case None => None case Some(x) => Some(x.value));
    }

    method Exists(key: string) returns (r: Result<bool>)
      modifies this
      ensures (State(), r) == Redis.Exists(old(State()), key)
    {
      var failed := Command();
      if failed { return Fail(ServiceUnavailable); }
      var e := Lookup(key);
      r := Ok(e.Some?);
    }

    method SetPx(key: string, value: string, ttl: int) returns (r: Result<()>)
      modifies this
      ensures (State(), r) == Redis.SetPx(old(State()), key, value, ttl)
    {
      if ttl <= 0 { return Fail(InvalidArgument); }
      var failed := Command();
      if failed { return Fail(ServiceUnavailable); }
      entries := entries[key := Entry(value, Some(now + ttl))];
      r := Ok(());
    }

    method Del(key: string) returns (r: Result<bool>)
      modifies this
      ensures (State(), r) == Redis.Del(old(State()), key)
    {
      var failed := Command();
      if failed { return Fail(ServiceUnavailable); }
      var e := Lookup(key);
      entries := entries - {key};
      r := Ok(e.Some?);
    }

    method Incr(key: string) returns (r: Result<int>)
      modifies this
      ensures (State(), r) == Redis.Incr(old(State()), key)
    {
      hide ToString, StrictInteger;
      var failed := Command();
      if failed { return Fail(ServiceUnavailable); }
      var e := Lookup(key);
      if e.None? {
        entries := entries[key := Entry(ToString(1), None)];
        return Ok(1);
      }
      var n := StrictInteger(e.value.value);
      if n.None? || n.value == MAX64 { return Fail(ServiceUnavailable); }
      entries := entries[key := Entry(ToString(n.value + 1), e.value.deadline)];
      r := Ok(n.value + 1);
    }

    method PExpire(key: string, ttl: int) returns (r: Result<bool>)
      modifies this
      ensures (State(), r) == Redis.PExpire(old(State()), key, ttl)
    {
      var failed := Command();
      if failed { return Fail(ServiceUnavailable); }
      var e := Lookup(key);
      if e.None? { return Ok(false); }
      if ttl <= 0 {
        entries := entries - {key};
      } else {
        entries := entries[key := Entry(e.value.value, Some(now + ttl))];
      }
      r := Ok(true);
    }

    method PTTL(key: string) returns (r: Result<int>)
      modifies this
      ensures (State(), r) == Redis.PTTL(old(State()), key)
    {
      var failed := Command();
      if failed { return Fail(ServiceUnavailable); }
      var e := Lookup(key);
      if e.None? { return Ok(-2); }
      r := Ok(match e.value.deadline case None => -1 case Some(d) => d - now);
    }
  }
}
