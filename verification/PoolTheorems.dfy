/** Which connections the pool hands out and takes back. */
module PoolTheorems {
  import opened Outcome
  import opened Pool

  /** The guard holds the connection. */
  predicate Holds(s: State, g: GuardId, c: Conn) {
    g in s.guards && s.guards[g].Some? && s.guards[g].value.conn == c
  }

  /** Idle or held. */
  predicate InPlay(s: State, c: Conn) {
    c in s.idle || exists g :: g in s.guards && Holds(s, g, c)
  }

  /** The connection whose validity a step asks about: the front of the queue when a thread
      gets past its wait, what a guard holds when it is destroyed. */
  function Examined(s: State, e: Event): Option<Conn> {
    match e
    case Enter(_, _, _) => if s.idle != [] then Some(s.idle[0]) else None
    case Resume(_, _, _) => if s.idle != [] then Some(s.idle[0]) else None
    case Destroy(g, _, _) =>
      if g in s.guards && s.guards[g].Some? then Some(s.guards[g].value.conn) else None
    case _ => None
  }

  predicate FoundValid(s: State, e: Event, c: Conn) {
    (e.Enter? || e.Resume? || e.Destroy?) && Examined(s, e) == Some(c) && e.health.valid
  }

  predicate FoundInvalid(s: State, e: Event, c: Conn) {
    (e.Enter? || e.Resume? || e.Destroy?) && Examined(s, e) == Some(c) && !e.health.valid
  }

  /** The connection was created in this step. */
  predicate MadeBy(s: State, e: Event, c: Conn)
    requires Enabled(s, e)
  {
    s.made <= c < Step(s, e).made
  }

  // ---------------------------------------------------------------------
  // One step.
  // ---------------------------------------------------------------------

  /** What a guard holds after a step it held before, or another guard passed on to it, or it was
      handed out: the front of the queue, found valid, or a connection made in this step. */
  lemma HandedOut(s: State, e: Event, g: GuardId, c: Conn)
    requires Enabled(s, e) && Holds(Step(s, e), g, c)
    ensures || Holds(s, g, c)
            || (e.Move? && e.to == g && Holds(s, e.from, c))
            || ((e.Enter? || e.Resume?) && e.g == g && s.idle != []
                && ((c == s.idle[0] && FoundValid(s, e, c)) || (MadeBy(s, e, c) && FoundInvalid(s, e, s.idle[0]))))
  {
  }

  /** What is idle after a step was idle before it, or was given back: what the guard held, found
      valid, or a connection made in this step in its place. */
  lemma GivenBack(s: State, e: Event, c: Conn)
    requires Enabled(s, e) && c in Step(s, e).idle
    ensures || c in s.idle
            || (e.Destroy?
                && ((Holds(s, e.g, c) && FoundValid(s, e, c))
                    || (MadeBy(s, e, c) && exists d :: Holds(s, e.g, d) && FoundInvalid(s, e, d))))
  {
    if c !in s.idle {
      assert e.Destroy? && s.guards[e.g].Some?;
      assert Holds(s, e.g, s.guards[e.g].value.conn);
    }
  }

  /** The queue is served from the front and filled at the back. */
  lemma QueueOrder(s: State, e: Event)
    requires Enabled(s, e)
    ensures (e.Enter? || e.Resume?) && s.idle != [] ==> Step(s, e).idle == s.idle[1..]
    ensures e.Destroy? && s.guards[e.g].Some? && (e.health.valid || e.health.rebuilds) ==>
              |Step(s, e).idle| == |s.idle| + 1 && Step(s, e).idle[..|s.idle|] == s.idle
    ensures (e.Enter? || e.Resume? ==> s.idle == [])
            && (e.Destroy? && s.guards[e.g].Some? ==> !e.health.valid && !e.health.rebuilds)
            ==> Step(s, e).idle == s.idle
  {
  }

  /** A thread gets past its wait with a connection exactly when there is one and it is valid or
      rebuilt, and goes to sleep exactly when there is none and its time is not up. */
  lemma AcquiresExactly(s: State, t: Thread, g: GuardId, health: Health, e: Event)
    requires e == Enter(t, g, health) || e == Resume(t, g, health)
    requires Enabled(s, e)
    ensures (exists c :: Holds(Step(s, e), g, c)) <==> s.idle != [] && (health.valid || health.rebuilds)
    ensures t in Step(s, e).waiting <==> s.idle == [] && !(e.Resume? && s.waiting[t] == TimedOut)
    ensures t in Step(s, e).waiting ==> Step(s, e).waiting[t] == Blocked
  {
    if s.idle != [] && (health.valid || health.rebuilds) {
      assert Holds(Step(s, e), g, if health.valid then s.idle[0] else s.made);
    }
  }

  /** Giving back wakes one sleeping thread if there is one, and nobody else; giving back nothing
      wakes nobody. */
  lemma WakesExactly(s: State, g: GuardId, health: Health, woken: Thread)
    requires Enabled(s, Destroy(g, health, woken))
    ensures var s' := Step(s, Destroy(g, health, woken));
            s'.waiting == if s.guards[g].Some? && (health.valid || health.rebuilds) && Sleepers(s, Blocked) != {}
                          then s.waiting[woken := Notified] else s.waiting
  {
    if woken in s.waiting && s.waiting[woken] == Blocked { assert woken in Sleepers(s, Blocked); }
  }

  /** A guard holds what it holds until it is destroyed or moved from; a moved-from guard holds
      nothing, and the one it was moved to holds what it held. */
  lemma GuardsStand(s: State, e: Event, g: GuardId)
    requires Enabled(s, e) && g in s.guards
    ensures e.Destroy? && e.g == g ==> g !in Step(s, e).guards
    ensures !(e.Destroy? && e.g == g) ==>
              g in Step(s, e).guards && Step(s, e).guards[g] == if e.Move? && e.from == g then None else s.guards[g]
    ensures e.Move? && e.from == g ==> e.to in Step(s, e).guards && Step(s, e).guards[e.to] == s.guards[g]
  {
  }

  /** A waiting thread stays until it is resumed itself; a time-out and a spurious wake-up mark it,
      and nothing but a connection given back notifies it. */
  lemma WaitersStand(s: State, e: Event, t: Thread)
    requires Enabled(s, e) && t in s.waiting
    ensures !(e.Resume? && e.t == t) ==> t in Step(s, e).waiting
    ensures !(e.Resume? && e.t == t) && Step(s, e).waiting[t] != s.waiting[t] ==>
              s.waiting[t] == Blocked
              && Step(s, e).waiting[t]
                 == (if e.Timeout? && e.t == t then TimedOut
                     else if e.SpuriousWake? && e.t == t then Spurious else Notified)
              && (Step(s, e).waiting[t] == Notified ==> e.Destroy? && e.woken == t && |Step(s, e).idle| == |s.idle| + 1)
    ensures (e.Timeout? || e.SpuriousWake?) && e.t == t ==> Step(s, e).waiting[t] != Blocked
  {
  }

  lemma ExclusiveMeans(s: State)
    requires Exclusive(s)
    ensures forall c: Conn :: c in s.idle ==> c < s.made
    ensures forall g: GuardId, c: Conn :: Holds(s, g, c) ==> c < s.made && c !in s.idle
    ensures forall g: GuardId, h: GuardId, c: Conn :: Holds(s, g, c) && Holds(s, h, c) ==> g == h
    ensures forall i, j :: 0 <= i < j < |s.idle| ==> s.idle[i] != s.idle[j]
  {
    forall g: GuardId, c: Conn | Holds(s, g, c) ensures g in Held(s.guards, false) && Held(s.guards, false)[g] == c {
    }
  }

  /** A connection found invalid is out of play. */
  lemma FoundInvalidIsGone(s: State, e: Event, c: Conn)
    requires Exclusive(s) && Enabled(s, e) && FoundInvalid(s, e, c)
    ensures c < Step(s, e).made && !InPlay(Step(s, e), c)
  {
    hide Exclusive, Step;
    ExclusiveMeans(s);
    QueueOrder(s, e);
    MadeGrows(s, e);
    var s' := Step(s, e);
    if e.Destroy? {
      assert Holds(s, e.g, c);
      DestroyedHoldsNothing(s, e);
    } else {
      assert s.idle[0] in s.idle;
    }
    forall g | g in s'.guards ensures !Holds(s', g, c) {
      if Holds(s', g, c) { HandedOut(s, e, g, c); }
    }
    if c in s'.idle { GivenBack(s, e, c); }
  }

  lemma DestroyedHoldsNothing(s: State, e: Event)
    requires Enabled(s, e) && e.Destroy?
    ensures e.g !in Step(s, e).guards
  {
  }

  /** What is out of play stays out of play. */
  lemma OutOfPlayStays(s: State, e: Event, c: Conn)
    requires Enabled(s, e) && c < s.made && !InPlay(s, c)
    ensures c < Step(s, e).made && !InPlay(Step(s, e), c)
  {
    hide Step;
    MadeGrows(s, e);
    if g :| Holds(Step(s, e), g, c) { HandedOut(s, e, g, c); }
    if c in Step(s, e).idle { GivenBack(s, e, c); }
  }

  lemma MadeGrows(s: State, e: Event)
    requires Enabled(s, e)
    ensures s.made <= Step(s, e).made
  {
  }

  // ---------------------------------------------------------------------
  // Runs.
  // ---------------------------------------------------------------------

  lemma {:induction false} Prefix(s: State, events: seq<Event>, i: nat)
    requires Possible(s, events) && i <= |events|
    ensures Possible(s, events[..i])
    ensures i < |events| ==> Enabled(After(s, events[..i]), events[i])
    ensures i < |events| ==> Possible(s, events[..i + 1])
                             && After(s, events[..i + 1]) == Step(After(s, events[..i]), events[i])
    decreases |events|
  {
    hide Step, Enabled;
    var n := |events| - 1;
    if i == |events| {
      assert events[..i] == events;
    } else if i == n {
      assert events[..n + 1] == events;
    } else {
      Prefix(s, events[..n], i);
      assert events[..n][..i] == events[..i] && events[..n][..i + 1] == events[..i + 1];
    }
  }

  /** The state before the i-th event of a run. */
  function StateAt(poolSize: nat, events: seq<Event>, i: nat): State
    requires Possible(Filled(poolSize), events) && i <= |events|
  {
    Prefix(Filled(poolSize), events, i);
    After(Filled(poolSize), events[..i])
  }

  /** In every interleaving: a connection once found invalid is never idle or held again. */
  lemma {:induction false} InvalidNeverReturns(poolSize: nat, events: seq<Event>, i: nat, j: nat, c: Conn)
    requires Possible(Filled(poolSize), events) && i < j <= |events|
    requires FoundInvalid(StateAt(poolSize, events, i), events[i], c)
    ensures c < StateAt(poolSize, events, j).made && !InPlay(StateAt(poolSize, events, j), c)
    decreases j
  {
    hide Step, Enabled, Filled, Exclusive, SingleRelease, NoLostWakeUp, FailedRebuilds, Held, FoundInvalid, InPlay,
         Possible, After;
    Prefix(Filled(poolSize), events, j - 1);
    if i == j - 1 {
      EveryRunIsSound(poolSize, events[..i]);
      FoundInvalidIsGone(StateAt(poolSize, events, i), events[i], c);
    } else {
      InvalidNeverReturns(poolSize, events, i, j - 1, c);
      OutOfPlayStays(StateAt(poolSize, events, j - 1), events[j - 1], c);
    }
  }

  /** In every interleaving: what a guard holds was, when it was handed out, found valid at the
      front of the queue or made on the spot. */
  lemma {:induction false} HeldWereGood(poolSize: nat, events: seq<Event>, j: nat, g: GuardId, c: Conn)
    requires Possible(Filled(poolSize), events) && j <= |events| && Holds(StateAt(poolSize, events, j), g, c)
    ensures exists i :: 0 <= i < j && GoodAt(poolSize, events, i, c)
    decreases j
  {
    hide Step, Enabled, Possible, After, Holds, FoundInvalid, FoundValid, MadeBy;
    Prefix(Filled(poolSize), events, j);
    if j == 0 {
      NothingHeldAtFirst(poolSize, events, g, c);
    } else {
      Prefix(Filled(poolSize), events, j - 1);
      var s, e := StateAt(poolSize, events, j - 1), events[j - 1];
      HandedOut(s, e, g, c);
      if Holds(s, g, c) {
        HeldWereGood(poolSize, events, j - 1, g, c);
      } else if e.Move? && Holds(s, e.from, c) {
        HeldWereGood(poolSize, events, j - 1, e.from, c);
      } else {
        assert GoodAt(poolSize, events, j - 1, c);
      }
    }
  }

  /** Event i handed the connection out, found valid at the front of the queue or made on the
      spot. */
  predicate GoodAt(poolSize: nat, events: seq<Event>, i: nat, c: Conn)
    requires Possible(Filled(poolSize), events) && i < |events|
  {
    var s, e := StateAt(poolSize, events, i), events[i];
    Prefix(Filled(poolSize), events, i);
    && (e.Enter? || e.Resume?) && s.idle != []
    && ((c == s.idle[0] && FoundValid(s, e, c)) || MadeBy(s, e, c))
  }

  lemma NothingHeldAtFirst(poolSize: nat, events: seq<Event>, g: GuardId, c: Conn)
    requires Possible(Filled(poolSize), events)
    ensures !Holds(StateAt(poolSize, events, 0), g, c)
  {
    assert events[..0] == [];
  }
}
