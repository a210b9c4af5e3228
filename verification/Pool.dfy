/** The connection pool as a monitor. Every step is one critical section under the mutex, one
    wake-up, or one move of a guard; any interleaving of any threads is a sequence of steps. */
module Pool {
  import opened Outcome

  type Thread = nat
  type GuardId = nat
  type Conn = nat

  /** A thread inside wait_for: asleep, or awake and about to take the mutex again. */
  datatype Wait = Blocked | Notified | TimedOut | Spurious

  /** A held connection, and the number of the acquisition that handed it out. */
  datatype Lease = Lease(conn: Conn, ticket: nat)

  /** `made` connections were created so far, `tickets` acquisitions succeeded, `lost`
      connections could not be rebuilt. A guard that was moved from holds None. */
  datatype State = State(
    idle: seq<Conn>,
    waiting: map<Thread, Wait>,
    guards: map<GuardId, Option<Lease>>,
    made: nat,
    tickets: nat,
    lost: nat,
    released: seq<nat>)

  /** Is the connection at hand valid, and if it is not, does rebuilding it succeed. */
  datatype Health = Health(valid: bool, rebuilds: bool)

  datatype Event =
    | Enter(t: Thread, g: GuardId, health: Health)
    | Timeout(t: Thread)
    | SpuriousWake(t: Thread)
    | Resume(t: Thread, g: GuardId, health: Health)
    | Move(from: GuardId, to: GuardId)
    | Destroy(g: GuardId, health: Health, woken: Thread)

  function Sleepers(s: State, w: Wait): set<Thread> {
    set t | t in s.waiting && s.waiting[t] == w
  }

  /** The connections that guards hold, or the acquisitions they hold them from. */
  function Held(guards: map<GuardId, Option<Lease>>, tickets: bool): map<GuardId, nat> {
    map g | g in guards && guards[g].Some? :: if tickets then guards[g].value.ticket else guards[g].value.conn
  }

  /** What can happen next. notify_one wakes any one of the blocked threads. */
  predicate Enabled(s: State, e: Event) {
    match e
    case Enter(t, g, _) => t !in s.waiting && g !in s.guards
    case Timeout(t) => t in s.waiting && s.waiting[t] == Blocked
    case SpuriousWake(t) => t in s.waiting && s.waiting[t] == Blocked
    case Resume(t, g, _) => t in s.waiting && s.waiting[t] != Blocked && g !in s.guards
    case Move(from, to) => from in s.guards && to !in s.guards
    case Destroy(g, _, woken) =>
      g in s.guards && (Sleepers(s, Blocked) != {} ==> woken in s.waiting && s.waiting[woken] == Blocked)
  }

  /** Taking the front connection of the queue, rebuilding it when it is invalid. */
  function TakeFront(idle: seq<Conn>, made: nat, health: Health): (seq<Conn>, nat, Option<Conn>)
    requires idle != []
  {
    if health.valid then (idle[1..], made, Some(idle[0]))
    else if health.rebuilds then (idle[1..], made + 1, Some(made))
    else (idle[1..], made, None)
  }

  /** Putting a connection back, and whether there was one to put. */
  function PutBack(idle: seq<Conn>, made: nat, conn: Conn, health: Health): (seq<Conn>, nat, bool) {
    if health.valid then (idle + [conn], made, true)
    else if health.rebuilds then (idle + [made], made + 1, true)
    else (idle, made, false)
  }

  /** Acquire, past its wait. */
  function Take(s: State, t: Thread, g: GuardId, health: Health): State
    requires s.idle != []
  {
    var (idle, made, conn) := TakeFront(s.idle, s.made, health);
    var rest := s.(idle := idle, made := made, waiting := s.waiting - {t});
    match conn
    case None => rest.(lost := s.lost + 1)
    case Some(c) => rest.(guards := s.guards[g := Some(Lease(c, s.tickets))], tickets := s.tickets + 1)
  }

  /** notify_one. */
  function Notify(s: State, woken: Thread): State {
    if woken in s.waiting && s.waiting[woken] == Blocked then s.(waiting := s.waiting[woken := Notified]) else s
  }

  /** Release. */
  function Return(s: State, lease: Lease, health: Health, woken: Thread): State {
    var (idle, made, kept) := PutBack(s.idle, s.made, lease.conn, health);
    var s1 := s.(idle := idle, made := made, released := s.released + [lease.ticket]);
    if kept then Notify(s1, woken) else s1.(lost := s.lost + 1)
  }

  function Step(s: State, e: Event): State
    requires Enabled(s, e)
  {
    match e
    case Enter(t, g, health) =>
      if s.idle != [] then Take(s, t, g, health) else s.(waiting := s.waiting[t := Blocked])
    case Timeout(t) => s.(waiting := s.waiting[t := TimedOut])
    case SpuriousWake(t) => s.(waiting := s.waiting[t := Spurious])
    case Resume(t, g, health) =>
      if s.idle != [] then Take(s, t, g, health)
      else if s.waiting[t] == TimedOut then s.(waiting := s.waiting - {t})
      else s.(waiting := s.waiting[t := Blocked])
    case Move(from, to) => s.(guards := s.guards[to := s.guards[from]][from := None])
    case Destroy(g, health, woken) =>
      var gone := s.(guards := s.guards - {g});
      match s.guards[g]
      case None => gone
      case Some(lease) => Return(gone, lease, health, woken)
  }

  /** The state InitPool leaves. */
  function Filled(poolSize: nat): State {
    State(seq(poolSize, i requires 0 <= i => i), map[], map[], poolSize, 0, 0, [])
  }

  /** The events happen one after the other. */
  predicate Possible(s: State, events: seq<Event>)
    decreases |events|, 0
  {
    events == []
    || (var n := |events| - 1;
        Possible(s, events[..n]) && Enabled(After(s, events[..n]), events[n]))
  }

  function After(s: State, events: seq<Event>): State
    requires Possible(s, events)
    decreases |events|, 1
  {
    if events == [] then s
    else
      var n := |events| - 1;
      Step(After(s, events[..n]), events[n])
  }

  // ---------------------------------------------------------------------
  // Numbers that are held by guards or kept in a list, each once.
  // ---------------------------------------------------------------------

  predicate Separate(held: map<GuardId, nat>, kept: seq<nat>, bound: nat) {
    && (forall i, j :: 0 <= i < j < |kept| ==> kept[i] != kept[j])
    && (forall n :: n in kept ==> n < bound)
    && (forall g :: g in held ==> held[g] < bound && held[g] !in kept)
    && (forall g, h :: g in held && h in held && held[g] == held[h] ==> g == h)
  }

  lemma TakeFirst(held: map<GuardId, nat>, kept: seq<nat>, bound: nat, g: GuardId)
    requires Separate(held, kept, bound) && kept != []
    ensures Separate(held, kept[1..], bound)
    ensures Separate(held[g := kept[0]], kept[1..], bound)
  {
    assert kept[0] in kept && forall n :: n in kept[1..] ==> n in kept;
    assert forall i :: 0 <= i < |kept[1..]| ==> kept[1..][i] == kept[i + 1];
  }

  lemma TakeNew(held: map<GuardId, nat>, kept: seq<nat>, bound: nat, g: GuardId)
    requires Separate(held, kept, bound)
    ensures Separate(held[g := bound], kept, bound + 1)
    ensures Separate(held, kept + [bound], bound + 1)
  {
    assert forall i :: 0 <= i < |kept| ==> kept[i] in kept;
  }

  lemma GiveBack(held: map<GuardId, nat>, kept: seq<nat>, bound: nat, g: GuardId)
    requires Separate(held, kept, bound)
    ensures Separate(held - {g}, kept, bound)
    ensures g in held ==> Separate(held - {g}, kept + [held[g]], bound)
  {
  }

  lemma PassOn(held: map<GuardId, nat>, kept: seq<nat>, bound: nat, from: GuardId, to: GuardId)
    requires Separate(held, kept, bound) && from in held && to !in held
    ensures Separate(held[to := held[from]] - {from}, kept, bound)
  {
  }

  lemma HeldAfter(guards: map<GuardId, Option<Lease>>, tickets: bool, g: GuardId, lease: Lease)
    ensures Held(guards[g := Some(lease)], tickets) == Held(guards,
            tickets)[g := if tickets then lease.ticket else lease.conn]
    ensures Held(guards - {g}, tickets) == Held(guards, tickets) - {g}
  {
  }

  lemma HeldAfterMove(guards: map<GuardId, Option<Lease>>, tickets: bool, from: GuardId, to: GuardId)
    requires from in guards && to !in guards
    ensures Held(guards[to := guards[from]][from := None], tickets)
         == if guards[from].Some? then Held(guards, tickets)[to := Held(guards,
           tickets)[from]] - {from} else Held(guards, tickets)
  {
  }

  // ---------------------------------------------------------------------
  // Invariants.
  // ---------------------------------------------------------------------

  /** No connection is idle twice, held twice or both. */
  predicate Exclusive(s: State) {
    Separate(Held(s.guards, false), s.idle, s.made)
  }

  /** No acquisition is released twice, or still held once released. */
  predicate SingleRelease(s: State) {
    Separate(Held(s.guards, true), s.released, s.tickets)
  }

  /** Every connection is idle, held or lost; every acquisition is held or released. */
  predicate Conserved(s: State, poolSize: nat) {
    && |s.idle| + |Held(s.guards, false)| + s.lost == poolSize
    && |s.released| + |Held(s.guards, false)| == s.tickets
  }

  /** While a thread sleeps un-notified, every idle connection has a notified thread that is
      still to run. */
  predicate NoLostWakeUp(s: State) {
    Sleepers(s, Blocked) != {} ==> |s.idle| <= |Sleepers(s, Notified)|
  }

  lemma TakeKeeps(s: State, t: Thread, g: GuardId, health: Health)
    requires Exclusive(s) && SingleRelease(s) && s.idle != []
    ensures Exclusive(Take(s, t, g, health)) && SingleRelease(Take(s, t, g, health))
  {
    hide Separate, Held;
    var conns, tickets := Held(s.guards, false), Held(s.guards, true);
    TakeFirst(conns, s.idle, s.made, g);
    TakeNew(conns, s.idle[1..], s.made, g);
    TakeNew(tickets, s.released, s.tickets, g);
    var lease := Lease(if health.valid then s.idle[0] else s.made, s.tickets);
    HeldAfter(s.guards, false, g, lease);
    HeldAfter(s.guards, true, g, lease);
  }

  lemma ReturnKeeps(s: State, g: GuardId, health: Health, woken: Thread)
    requires Exclusive(s) && SingleRelease(s) && g in s.guards && s.guards[g].Some?
    ensures var s' := Return(s.(guards := s.guards - {g}), s.guards[g].value, health, woken);
            Exclusive(s') && SingleRelease(s')
  {
    hide Separate;
    var conns, tickets := Held(s.guards, false), Held(s.guards, true);
    GiveBack(conns, s.idle, s.made, g);
    GiveBack(tickets, s.released, s.tickets, g);
    TakeNew(conns - {g}, s.idle, s.made, g);
    HeldAfter(s.guards, false, g, s.guards[g].value);
    HeldAfter(s.guards, true, g, s.guards[g].value);
  }

  lemma MoveKeeps(s: State, from: GuardId, to: GuardId)
    requires Exclusive(s) && SingleRelease(s) && from in s.guards && to !in s.guards
    ensures var s' := Step(s, Move(from, to)); Exclusive(s') && SingleRelease(s')
  {
    hide Separate;
    HeldAfterMove(s.guards, false, from, to);
    HeldAfterMove(s.guards, true, from, to);
    if s.guards[from].Some? {
      PassOn(Held(s.guards, false), s.idle, s.made, from, to);
      PassOn(Held(s.guards, true), s.released, s.tickets, from, to);
    }
  }

  /** Every step keeps connections exclusive and releases single. */
  lemma StepKeepsExclusive(s: State, e: Event)
    requires Exclusive(s) && SingleRelease(s) && Enabled(s, e)
    ensures Exclusive(Step(s, e)) && SingleRelease(Step(s, e))
  {
    hide Separate, Held, Take, Return;
    match e {
      case Enter(t, g, health) => if s.idle != [] { TakeKeeps(s, t, g, health); }
      case Resume(t, g, health) => if s.idle != [] { TakeKeeps(s, t, g, health); }
      case Move(from, to) => MoveKeeps(s, from, to);
      case Destroy(g, health, woken) =>
        if s.guards[g].Some? {
          ReturnKeeps(s, g, health, woken);
        } else {
          HeldAfter(s.guards, false, g, Lease(0, 0));
          HeldAfter(s.guards, true, g, Lease(0, 0));
          GiveBack(Held(s.guards, false), s.idle, s.made, g);
          GiveBack(Held(s.guards, true), s.released, s.tickets, g);
        }
      case _ =>
    }
  }

  // ---------------------------------------------------------------------
  // Conservation.
  // ---------------------------------------------------------------------

  /** A connection is taken or returned, found invalid, and cannot be rebuilt. */
  predicate FailsRebuild(s: State, e: Event) {
    match e
    case Enter(_, _, health) => s.idle != [] && !health.valid && !health.rebuilds
    case Resume(_, _, health) => s.idle != [] && !health.valid && !health.rebuilds
    case Destroy(g, health, _) => g in s.guards && s.guards[g].Some? && !health.valid && !health.rebuilds
    case _ => false
  }

  lemma SizeAfter(held: map<GuardId, nat>, g: GuardId, n: nat)
    ensures g !in held ==> |held[g := n]| == |held| + 1
    ensures |held - {g}| == |held| - if g in held then 1 else 0
  {
    assert held[g := n].Keys == held.Keys + {g};
    assert (held - {g}).Keys == held.Keys - {g};
    assert |held| == |held.Keys| && |held - {g}| == |(held - {g}).Keys| && |held[g := n]| == |held[g := n].Keys|;
  }

  lemma TakeConserves(s: State, t: Thread, g: GuardId, health: Health, poolSize: nat)
    requires Conserved(s, poolSize) && s.idle != [] && g !in s.guards
    ensures Conserved(Take(s, t, g, health), poolSize)
  {
    var lease := Lease(if health.valid then s.idle[0] else s.made, s.tickets);
    HeldAfter(s.guards, false, g, lease);
    SizeAfter(Held(s.guards, false), g, lease.conn);
  }

  lemma ReturnConserves(s: State, g: GuardId, health: Health, woken: Thread, poolSize: nat)
    requires Conserved(s, poolSize) && g in s.guards && s.guards[g].Some?
    ensures Conserved(Return(s.(guards := s.guards - {g}), s.guards[g].value, health, woken), poolSize)
  {
    HeldAfter(s.guards, false, g, s.guards[g].value);
    SizeAfter(Held(s.guards, false), g, 0);
  }

  lemma MoveConserves(guards: map<GuardId, Option<Lease>>, from: GuardId, to: GuardId)
    requires from in guards && to !in guards
    ensures |Held(guards[to := guards[from]][from := None], false)| == |Held(guards, false)|
  {
    var conns := Held(guards, false);
    HeldAfterMove(guards, false, from, to);
    if guards[from].Some? {
      SizeAfter(conns, to, conns[from]);
      SizeAfter(conns[to := conns[from]], from, 0);
    }
  }

  /** Every step conserves connections, and only a failed rebuild loses one. */
  lemma StepConserves(s: State, e: Event, poolSize: nat)
    requires Conserved(s, poolSize) && Enabled(s, e)
    ensures Conserved(Step(s, e), poolSize)
    ensures Step(s, e).lost == s.lost + if FailsRebuild(s, e) then 1 else 0
  {
    hide Held;
    match e {
      case Enter(t, g, health) => if s.idle != [] { TakeConserves(s, t, g, health, poolSize); }
      case Resume(t, g, health) => if s.idle != [] { TakeConserves(s, t, g, health, poolSize); }
      case Move(from, to) => MoveConserves(s.guards, from, to);
      case Destroy(g, health, woken) =>
        if s.guards[g].Some? {
          ReturnConserves(s, g, health, woken, poolSize);
        } else {
          HeldAfter(s.guards, false, g, Lease(0, 0));
          NoneHeldBy(s.guards, g);
        }
      case _ =>
    }
  }

  lemma NoneHeldBy(guards: map<GuardId, Option<Lease>>, g: GuardId)
    requires g in guards && guards[g].None?
    ensures Held(guards, false) - {g} == Held(guards, false)
  {
  }

  // ---------------------------------------------------------------------
  // Wake-ups.
  // ---------------------------------------------------------------------

  lemma AsleepAfter(waiting: map<Thread, Wait>, t: Thread, w: Wait, s: State)
    requires s.waiting == waiting
    ensures forall x :: Sleepers(s.(waiting := waiting[t := w]), x)
                     == if x == w then Sleepers(s, x) + {t} else Sleepers(s, x) - {t}
    ensures forall x :: Sleepers(s.(waiting := waiting - {t}), x) == Sleepers(s, x) - {t}
  {
  }

  lemma SleepersOnly(s: State, s': State)
    requires s.waiting == s'.waiting
    ensures forall x :: Sleepers(s, x) == Sleepers(s', x)
  {
  }

  lemma TakeKeepsWakeUps(s: State, t: Thread, g: GuardId, health: Health)
    requires NoLostWakeUp(s) && s.idle != []
    ensures NoLostWakeUp(Take(s, t, g, health))
  {
    hide Sleepers;
    AsleepAfter(s.waiting, t, Blocked, s);
    SleepersOnly(Take(s, t, g, health), s.(waiting := s.waiting - {t}));
    OneLess(Sleepers(s, Notified), t);
  }

  lemma NotifyKeepsWakeUps(s: State, c: Conn, woken: Thread)
    requires NoLostWakeUp(s)
    requires Sleepers(s, Blocked) != {} ==> woken in s.waiting && s.waiting[woken] == Blocked
    ensures NoLostWakeUp(Notify(s.(idle := s.idle + [c]), woken))
  {
    hide Sleepers;
    var s1 := s.(idle := s.idle + [c]);
    SleepersOnly(s, s1);
    if woken in s.waiting && s.waiting[woken] == Blocked {
      AsleepAfter(s.waiting, woken, Notified, s1);
      NotBoth(s, woken);
    }
  }

  lemma NotBoth(s: State, t: Thread)
    requires t in s.waiting && s.waiting[t] == Blocked
    ensures t !in Sleepers(s, Notified) && t in Sleepers(s, Blocked)
  {
  }

  lemma OneLess(s: set<Thread>, t: Thread)
    ensures |s - {t}| >= |s| - 1
  {
    if t in s { assert s == s - {t} + {t}; } else { assert s - {t} == s; }
  }

  /** No step loses a wake-up. */
  lemma StepKeepsWakeUps(s: State, e: Event)
    requires NoLostWakeUp(s) && Enabled(s, e)
    ensures NoLostWakeUp(Step(s, e))
  {
    hide Sleepers, Take, Notify;
    match e {
      case Enter(t, g, health) =>
        if s.idle != [] { TakeKeepsWakeUps(s, t, g, health); }
      case Timeout(t) => AsleepAfter(s.waiting, t, TimedOut, s); NotBoth(s, t);
      case SpuriousWake(t) => AsleepAfter(s.waiting, t, Spurious, s); NotBoth(s, t);
      case Resume(t, g, health) =>
        if s.idle != [] { TakeKeepsWakeUps(s, t, g, health); }
      case Move(from, to) => SleepersOnly(s, Step(s, e));
      case Destroy(g, health, woken) =>
        var gone := s.(guards := s.guards - {g});
        SleepersOnly(s, gone);
        if s.guards[g].Some? {
          var s1 := gone.(released := s.released + [s.guards[g].value.ticket]);
          SleepersOnly(s, s1);
          SleepersOnly(s, s1.(lost := s.lost + 1));
          SleepersOnly(s, s1.(made := s.made + 1));
          if health.valid {
            NotifyKeepsWakeUps(s1, s.guards[g].value.conn, woken);
          } else if health.rebuilds {
            NotifyKeepsWakeUps(s1.(made := s.made + 1), s.made, woken);
          }
        }
    }
  }

  // ---------------------------------------------------------------------
  // Runs.
  // ---------------------------------------------------------------------

  lemma FilledIsSound(poolSize: nat)
    ensures var s := Filled(poolSize);
            Exclusive(s) && SingleRelease(s) && Conserved(s, poolSize) && NoLostWakeUp(s) && s.lost == 0
  {
    assert Held(map[], false) == map[] && Held(map[], true) == map[];
  }

  /** The number of failed rebuilds in a run. */
  function FailedRebuilds(s: State, events: seq<Event>): nat
    requires Possible(s, events)
    decreases |events|, 2
  {
    if events == [] then 0
    else
      var n := |events| - 1;
      FailedRebuilds(s, events[..n]) + if FailsRebuild(After(s, events[..n]), events[n]) then 1 else 0
  }

  /** In every interleaving of a pool of any size: connections are exclusive, no acquisition
      is released twice and every one is released or still held, idle, held and lost ones
      add up to the size, one is lost for every failed rebuild,
        and no thread sleeps while an idle connection has nobody coming for it. */
  lemma {:induction false} EveryRunIsSound(poolSize: nat, events: seq<Event>)
    requires Possible(Filled(poolSize), events)
    ensures var s := After(Filled(poolSize), events);
            && Exclusive(s) && SingleRelease(s) && NoLostWakeUp(s)
            && |s.idle| + |Held(s.guards, false)| + s.lost == poolSize
            && |s.released| + |Held(s.guards, false)| == s.tickets
            && s.lost == FailedRebuilds(Filled(poolSize), events)
    decreases |events|
  {
    hide Step, Enabled, Filled, Exclusive, SingleRelease, NoLostWakeUp, FailsRebuild, Held;
    FilledIsSound(poolSize);
    if events != [] {
      var n := |events| - 1;
      EveryRunIsSound(poolSize, events[..n]);
      var s := After(Filled(poolSize), events[..n]);
      StepKeepsExclusive(s, events[n]);
      StepConserves(s, events[n], poolSize);
      StepKeepsWakeUps(s, events[n]);
    }
  }

  /** In every reachable state: a thread that sleeps un-notified beside an idle connection has
      a notified thread ahead of it, which takes a connection if it is the next to run. */
  lemma SomebodyIsComing(poolSize: nat, events: seq<Event>, sleeper: Thread, g: GuardId, health: Health)
    requires Possible(Filled(poolSize), events)
    requires var s := After(Filled(poolSize), events);
             s.idle != [] && sleeper in Sleepers(s, Blocked) && g !in s.guards
    ensures var s := After(Filled(poolSize), events);
            exists t :: t in Sleepers(s, Notified) && Enabled(s, Resume(t, g, health))
                    && |Step(s, Resume(t, g, health)).idle| == |s.idle| - 1
  {
    hide Filled, Possible, After, Held, Exclusive, SingleRelease;
    EveryRunIsSound(poolSize, events);
    var s := After(Filled(poolSize), events);
    assert Sleepers(s, Notified) != {};
    var t :| t in Sleepers(s, Notified);
    assert Enabled(s, Resume(t, g, health));
  }

  /** Whatever threads enter, leave or give back in between: once every notified thread has
      run, nobody sleeps beside an idle connection. */
  lemma NobodySleepsBesideIdle(poolSize: nat, events: seq<Event>)
    requires Possible(Filled(poolSize), events)
    requires Sleepers(After(Filled(poolSize), events), Notified) == {}
    ensures var s := After(Filled(poolSize), events); s.idle == [] || Sleepers(s, Blocked) == {}
  {
    hide Filled, Possible, After, Held, Exclusive, SingleRelease;
    EveryRunIsSound(poolSize, events);
  }

  lemma {:induction false} RunOfSum(s: State, events: seq<Event>, more: seq<Event>)
    requires Possible(s, events + more)
    ensures Possible(s, events) && Possible(After(s, events), more)
    ensures After(s, events + more) == After(After(s, events), more)
    ensures FailedRebuilds(s, events) <= FailedRebuilds(s, events + more)
    decreases |more|
  {
    hide Step, Enabled, FailsRebuild;
    if more == [] {
      assert events + more == events;
    } else {
      var n := |more| - 1;
      assert (events + more)[..|events| + n] == events + more[..n];
      RunOfSum(s, events, more[..n]);
    }
  }

  /** A pool that has lost every connection, at any time, hands out none ever again. */
  lemma {:induction false} DeadPoolStaysDead(poolSize: nat, events: seq<Event>, more: seq<Event>)
    requires Possible(Filled(poolSize), events + more)
    requires Possible(Filled(poolSize), events) && FailedRebuilds(Filled(poolSize), events) == poolSize
    ensures var dead, s := After(Filled(poolSize), events), After(Filled(poolSize), events + more);
            && s.idle == [] && (forall g :: g in s.guards ==> s.guards[g].None?)
            && s.tickets == dead.tickets
    decreases |more|
  {
    hide Filled, After, FailedRebuilds, Exclusive, SingleRelease, NoLostWakeUp, Step, Enabled;
    RunOfSum(Filled(poolSize), events, more);
    EveryRunIsSound(poolSize, events + more);
    var s := After(Filled(poolSize), events + more);
    assert |Held(s.guards, false)| == |Held(s.guards, false).Keys|;
    assert forall g :: g in s.guards && s.guards[g].Some? ==> g in Held(s.guards, false).Keys;
    if more == [] {
      assert events + more == events;
    } else {
      var n := |more| - 1;
      assert (events + more)[..|events| + n] == events + more[..n];
      LastStep(Filled(poolSize), events + more);
      DeadPoolStaysDead(poolSize, events, more[..n]);
      NothingToTake(After(Filled(poolSize), events + more[..n]), more[n]);
    }
  }

  lemma LastStep(s: State, events: seq<Event>)
    requires events != [] && Possible(s, events)
    ensures var n := |events| - 1;
            && Possible(s, events[..n]) && Enabled(After(s, events[..n]), events[n])
            && After(s, events) == Step(After(s, events[..n]), events[n])
  {
    hide Step, Enabled;
  }

  lemma NothingToTake(s: State, e: Event)
    requires s.idle == [] && Enabled(s, e)
    ensures Step(s, e).tickets == s.tickets
  {
  }

  /** The thread leaves Acquire with nothing in its hands. */
  predicate LeavesEmpty(s: State, t: Thread, g: GuardId) {
    t !in s.waiting && g !in s.guards
  }

  /** Acquire fails, at once or when its thread is resumed, exactly when the deadline has passed
      and the pool is empty at that moment, or the connection it took cannot be rebuilt. */
  lemma AcquireFailsExactly(s: State, t: Thread, g: GuardId, health: Health)
    ensures Enabled(s, Enter(t, g, health)) ==>
              (LeavesEmpty(Step(s, Enter(t, g, health)), t, g) <==> s.idle != [] && !health.valid && !health.rebuilds)
    ensures Enabled(s, Resume(t, g, health)) ==>
              (LeavesEmpty(Step(s, Resume(t, g, health)), t, g)
               <==> (s.idle == [] && s.waiting[t] == TimedOut) || (s.idle != [] && !health.valid && !health.rebuilds))
  {
  }
}

/** The pool object. Its methods are the critical sections of the monitor. */
module Pools {
  import opened Outcome
  import opened Pool

  class ConnectionPool {
    var idle: seq<Conn>
    var made: nat

    constructor ()
      ensures idle == [] && made == 0
    {
      idle, made := [], 0;
    }

    /** InitPool: created[i] tells whether the i-th connection can be created; the first
        failure throws, with the connections made before it in the queue. */
    method InitPool(poolSize: int, created: seq<bool>) returns (ok: bool)
      requires |created| >= poolSize && idle == [] && made == 0
      modifies this
      ensures ok <==> forall i :: 0 <= i < poolSize ==> created[i]
      ensures ok && poolSize >= 0 ==> idle == Filled(poolSize).idle && made == Filled(poolSize).made
      ensures ok && poolSize < 0 ==> idle == [] && made == 0
      ensures !ok ==> exists k :: 0 <= k < poolSize && !created[k] && (forall j :: 0 <= j < k ==> created[j])
                              && idle == Filled(k).idle && made == Filled(k).made
    {
      var i := 0;
      while i < poolSize
        invariant 0 <= i && (poolSize >= 0 ==> i <= poolSize) && (poolSize < 0 ==> i == 0)
        invariant forall j :: 0 <= j < i ==> created[j]
        invariant idle == Filled(i).idle && made == i
      {
        if !created[i] { return false; }
        idle := idle + [made];
        made := made + 1;
        i := i + 1;
      }
      ok := true;
    }

    /** Acquire after its wait, `ready` being what wait_for returned: the predicate on the
        queue as it is now. */
    method TakeConnection(ready: bool, health: Health) returns (conn: Option<Conn>)
      requires ready == (idle != [])
      modifies this
      ensures if ready then (idle, made, conn) == TakeFront(old(idle), old(made), health)
              else conn.None? && idle == old(idle) && made == old(made)
      ensures conn.Some? <==> ready && (health.valid || health.rebuilds)
      ensures conn.Some? ==> if health.valid then conn.value == old(idle)[0] else old(made) <= conn.value < made
      ensures idle == if ready then old(idle)[1..] else old(idle)
    {
      if !ready { return None; }
      if idle == [] { return None; }
      var c := idle[0];
      idle := idle[1..];
      if !health.valid {
        if !health.rebuilds { return None; }
        c := made;
        made := made + 1;
      }
      conn := Some(c);
    }

    /** Release; `notified` tells whether notify_one is reached. */
    method Release(conn: Conn, health: Health) returns (notified: bool)
      modifies this
      ensures (idle, made, notified) == PutBack(old(idle), old(made), conn, health)
      ensures notified <==> health.valid || health.rebuilds
      ensures notified ==> |idle| == |old(idle)| + 1 && idle[..|old(idle)|] == old(idle)
      ensures notified ==> if health.valid then idle[|old(idle)|] == conn else old(made) <= idle[|old(idle)|] < made
      ensures !notified ==> idle == old(idle)
    {
      var c := conn;
      if !health.valid {
        if !health.rebuilds { return false; }
        c := made;
        made := made + 1;
      }
      idle := idle + [c];
      notified := true;
    }
  }

  /** The guard object: its connection is released once, by the last guard of a chain. */
  class ConnectionGuard {
    const pool: ConnectionPool
    var conn: Option<Conn>

    constructor (pool: ConnectionPool, conn: Conn)
      ensures this.pool == pool && this.conn == Some(conn)
    {
      this.pool, this.conn := pool, Some(conn);
    }

    /** The move constructor. */
    constructor MoveFrom(other: ConnectionGuard)
      modifies other`conn
      ensures pool == other.pool && conn == old(other.conn) && other.conn == None
    {
      this.pool, this.conn := other.pool, other.conn;
      new;
      other.conn := None;
    }

    /** The destructor; `released` is the connection that went back. */
    method Destroy(health: Health) returns (released: Option<Conn>)
      modifies this, pool
      ensures released == old(conn) && conn == None
      ensures match released
              case None => pool.idle == old(pool.idle) && pool.made == old(pool.made)
              case Some(c) =>
                && pool.idle == PutBack(old(pool.idle), old(pool.made), c, health).0
                && pool.made == PutBack(old(pool.idle), old(pool.made), c, health).1
                && (health.valid ==> pool.idle == old(pool.idle) + [c])
                && (!health.valid && c < old(pool.made) && c !in old(pool.idle) ==> c !in pool.idle)
    {
      released := conn;
      if conn.Some? {
        var notified := pool.Release(conn.value, health);
        conn := None;
      }
    }
  }
}
