/** Which calls end a user's sessions, exactly when, and what that means for the run. */
module RevocationTheorems {
  import opened Outcome
  import opened Decimal
  import opened Users
  import opened Database
  import opened Service
  import opened SessionTheorems
  import opened AccountTheorems
  import G = LoginGate
  import C = Captcha

  /** The operations that promise to end all sessions of user u. */
  predicate Revokes(op: Op, u: UserEntity) {
    match op
    case ResetUserPassword(mobile, _, _, _) => u.mobile == mobile
    case LogoutAll(uuid) => u.uuid == uuid
    case DeleteAccount(uuid, _) => u.uuid == uuid
    case SetUserDisabled(uuid, disabled) => u.uuid == uuid && disabled
    case _ => false
  }

  /** SetUserDisabled deletes nothing when the user is disabled already. */
  predicate Skips(op: Op, u: UserEntity) {
    op.SetUserDisabled? && u.disabled
  }

  /** The place of the deletion among the call's repository calls. */
  function DeletionPlace(op: Op): nat {
    if op.LogoutAll? || op.DeleteAccount? then 1 else 2
  }

  lemma FindsOnly(users: seq<UserEntity>, f: Field, u: UserEntity)
    requires Distinct(users) && u in users && Matches(u, f)
    ensures First(users, f) == Some(u)
  {
    FirstFinds(users, f, u);
  }

  lemma ReplacedIsFound(users: seq<UserEntity>, row: UserEntity, old_: UserEntity)
    requires Distinct(users) && old_ in users && row.uuid == old_.uuid && row.id == old_.id && row.mobile == old_.mobile
    ensures First(Replace(users, row), Uuid(row.uuid)) == Some(row)
  {
    hide Replace;
    ReplacedUsers(users, row, old_);
    FindsOnly(Replace(users, row), Uuid(row.uuid), row);
  }

  lemma ResetRevokes(env: Env, w: World, op: Op, u: UserEntity)
    requires op.ResetUserPassword? && u.mobile == op.mobile && Distinct(w.db.users) && u in w.db.users
    requires Act(env, w, op).1.Done?
    ensures Unheld(Act(env, w, op).0.db, u.id) <==> Unheld(w.db, u.id) || !FailsAt(w.db.faults, 2)
  {
    hide C.Verify, G.Clear, First, Replace, Distinct;
    FindsOnly(w.db.users, Mobile(op.mobile), u);
  }

  lemma LogoutRevokes(env: Env, w: World, op: Op, u: UserEntity)
    requires op.LogoutAll? && u.uuid == op.uuid && Distinct(w.db.users) && u in w.db.users
    requires Act(env, w, op).1.Done?
    ensures Unheld(Act(env, w, op).0.db, u.id) <==> Unheld(w.db, u.id) || !FailsAt(w.db.faults, 1)
  {
    hide First, Distinct;
    FindsOnly(w.db.users, Uuid(op.uuid), u);
  }

  lemma DeleteRevokes(env: Env, w: World, op: Op, u: UserEntity)
    requires op.DeleteAccount? && u.uuid == op.uuid && Distinct(w.db.users) && u in w.db.users
    requires Act(env, w, op).1.Done?
    ensures Unheld(Act(env, w, op).0.db, u.id) <==> Unheld(w.db, u.id) || !FailsAt(w.db.faults, 1)
  {
    hide C.Verify, First, Replace, Distinct, ToString;
    FindsOnly(w.db.users, Uuid(op.uuid), u);
  }

  lemma DisableRevokes(env: Env, w: World, op: Op, u: UserEntity)
    requires op.SetUserDisabled? && op.disabled && u.uuid == op.uuid && Distinct(w.db.users) && u in w.db.users
    requires Act(env, w, op).1.Done?
    ensures Unheld(Act(env, w, op).0.db, u.id) <==> Unheld(w.db, u.id) || (!u.disabled && !FailsAt(w.db.faults, 2))
  {
    hide First, Replace, Distinct;
    FindsOnly(w.db.users, Uuid(op.uuid), u);
  }

  /** A revoking call answered Done leaves the user no session exactly when there was none,
      or the call did delete and the deletion did not fail. */
  lemma RevokesExactly(env: Env, w: World, call: Call, u: UserEntity)
    requires Revokes(call.op, u) && WellKept(w.db) && u in w.db.users && Step(env, w, call).1.Done?
    ensures Unheld(Step(env, w, call).0.db, u.id)
       <==> Unheld(w.db, u.id) || (!Skips(call.op, u) && !FailsAt(call.dbFaults, DeletionPlace(call.op)))
  {
    hide ResetStep, LogoutAllStep, DeleteStep, DisableStep, Distinct;
    var w0 := World(w.redis.(faults := call.redisFaults), w.db.(faults := call.dbFaults));
    match call.op {
      case ResetUserPassword(_, _, _, _) => ResetRevokes(env, w0, call.op, u);
      case LogoutAll(_) => LogoutRevokes(env, w0, call.op, u);
      case DeleteAccount(_, _) => DeleteRevokes(env, w0, call.op, u);
      case SetUserDisabled(_, _) => DisableRevokes(env, w0, call.op, u);
    }
  }

  /** SetUserDisabled's early return is sound where disabled users hold no session, as in
      every state a working database reaches: then only the deletion can spoil it. */
  lemma DisablingRevokesExactly(env: Env, w: World, call: Call, u: UserEntity)
    requires call.op.SetUserDisabled? && Revokes(call.op, u) && WellKept(w.db) && NoneHeld(w.db) && u in w.db.users
    requires Step(env, w, call).1.Done?
    ensures Unheld(Step(env, w, call).0.db, u.id) <==> Unheld(w.db, u.id) || !FailsAt(call.dbFaults, 2)
  {
    hide Step, WellKept, Unheld;
    RevokesExactly(env, w, call, u);
  }

  /** After a failed deletion disabling the user once more answers Done and still deletes
      nothing: the sessions stay. */
  lemma FailedDisablingIsNotRepaired(env: Env, w: World, uuid: string, u: UserEntity)
    requires WellKept(w.db) && u in w.db.users && u.uuid == uuid && !u.disabled && !Unheld(w.db, u.id)
    requires Step(env, w, Call(SetUserDisabled(uuid, true), [], [false, false, true])).1.Done?
    ensures var w1 := Step(env, w, Call(SetUserDisabled(uuid, true), [], [false, false, true])).0;
            var (w2, answer) := Step(env, w1, Call(SetUserDisabled(uuid, true), [], []));
            answer.Done? && !Unheld(w2.db, u.id)
  {
    hide First, Replace, Distinct, Owned, IdsBelow;
    FindsOnly(w.db.users, Uuid(uuid), u);
    var row := u.(disabled := true);
    ReplacedUsers(w.db.users, row, u);
    ReplacedIsFound(w.db.users, row, u);
  }

  /** Some call revoked the session of a token that had one; no later call redeems it. */
  lemma RevokedIsNeverRedeemed(env: Env, w: World, calls: seq<Call>, known: set<string>, token: string,
      u: UserEntity, i: nat, j: nat)
    requires i < j < |calls| && FreshRun(env, w, calls, known) && w.db.sessions.Keys <= known && WellKept(w.db)
    requires var before := Before(env, w, calls, i).db;
             && u in before.users && env.hash(token) in before.sessions
             && before.sessions[env.hash(token)].userId == u.id
             && !Skips(calls[i].op, u)
    requires Revokes(calls[i].op, u) && AnswerAt(env, w, calls, i).Done?
    requires !FailsAt(calls[i].dbFaults, DeletionPlace(calls[i].op))
    ensures !RedeemsAt(env, w, calls, token, j)
  {
    hide Step, Known, Before, WellKept, AnswerAt, FreshRun;
    var h := env.hash(token);
    NextOf(env, w, calls, known, i);
    TablesStayWellKept(env, w, calls, i);
    SessionsAreKnown(env, w, calls, known, i);
    RevokesExactly(env, Before(env, w, calls, i), calls[i], u);
    StepGrows(env, Before(env, w, calls, i), calls[i]);
    NeverRedeemedAgain(env, w, calls, known, token, i, j);
  }

  /** The same for a logout whose deletion did not fail. */
  lemma LoggedOutIsNeverRedeemed(env: Env, w: World, calls: seq<Call>, known: set<string>, token: string, i: nat,
      j: nat)
    requires i < j < |calls| && FreshRun(env, w, calls, known) && w.db.sessions.Keys <= known
    requires token != "" && env.hash(token) in Known(env, w, calls[..i], known)
    requires calls[i].op == Logout(token) && !FailsAt(calls[i].dbFaults, 0)
    ensures !RedeemsAt(env, w, calls, token, j)
  {
    hide Known, Before, AnswerAt, FreshRun;
    NextOf(env, w, calls, known, i);
    LogoutTakes(env, Before(env, w, calls, i), calls[i]);
    NeverRedeemedAgain(env, w, calls, known, token, i, j);
  }

  lemma LogoutTakes(env: Env, w: World, call: Call)
    requires call.op.Logout? && call.op.token != "" && !FailsAt(call.dbFaults, 0)
    ensures env.hash(call.op.token) !in Step(env, w, call).0.db.sessions
  {
  }
}
