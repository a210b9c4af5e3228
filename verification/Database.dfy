/** The users and user_sessions tables, and what the repositories' statements do to them.
    Instants are seconds, as DATETIME columns hold them. `faults` says which of the coming
    repository calls fail; a failing call changes nothing. */
module Database {
  import opened Outcome
  import opened Users

  datatype Session = Session(userId: int, expiresAt: int)

  /** Sessions are stored under their token hash, the table's unique key. */
  datatype Db = Db(users: seq<UserEntity>, nextId: int, sessions: map<string, Session>, faults: seq<bool>)

  datatype Field = Id(id: int) | Uuid(uuid: string) | Mobile(mobile: string)

  predicate Matches(u: UserEntity, f: Field) {
    match f
    case Id(id) => u.id == id
    case Uuid(uuid) => u.uuid == uuid
    case Mobile(mobile) => u.mobile == mobile
  }

  function First(users: seq<UserEntity>, f: Field): (r: Option<UserEntity>)
    ensures r.Some? ==> r.value in users && Matches(r.value, f)
    ensures r.None? ==> forall u :: u in users ==> !Matches(u, f)
  {
    if users == [] then None else if Matches(users[0], f) then Some(users[0]) else First(users[1..], f)
  }

  function Replace(users: seq<UserEntity>, row: UserEntity): (r: seq<UserEntity>)
    ensures |r| == |users|
    ensures forall i :: 0 <= i < |users| ==> r[i] == if users[i].uuid == row.uuid then row else users[i]
  {
    seq(|users|, i requires 0 <= i < |users| => if users[i].uuid == row.uuid then row else users[i])
  }

  predicate Faulty(db: Db) {
    db.faults != [] && db.faults[0]
  }

  function Issue(db: Db): Db {
    if db.faults == [] then db else db.(faults := db.faults[1..])
  }

  // ---------------------------------------------------------------------
  // UserDB.
  // ---------------------------------------------------------------------

  function FindBy(db: Db, f: Field): (Db, Result<UserEntity>) {
    if Faulty(db) then (Issue(db), Fail(ServiceUnavailable))
    else (Issue(db), match First(db.users, f) case None => Fail(UserNotFound) case Some(u) => Ok(u))
  }

  function ExistsBy(db: Db, f: Field): (Db, Result<bool>) {
    if Faulty(db) then (Issue(db), Fail(ServiceUnavailable)) else (Issue(db), Ok(First(db.users, f).Some?))
  }

  /** Insert, then read the row back by its uuid in a second call. */
  function Create(db: Db, row: UserEntity, now: int): (Db, Result<UserEntity>) {
    if Faulty(db) then (Issue(db), Fail(ServiceUnavailable))
    else if First(db.users, Uuid(row.uuid)).Some? then (Issue(db), Fail(UserAlreadyExists))
    else if First(db.users, Mobile(row.mobile)).Some? then (Issue(db), Fail(MobileTaken))
    else
      var inserted := row.(id := db.nextId, disabled := false, createdAt := now);
      FindBy(Issue(db).(users := db.users + [inserted], nextId := db.nextId + 1), Uuid(row.uuid))
  }

  /** Update writes name, password, disabled and role, never the mobile; a statement that
      changes no row, be it missing or already equal, is reported as UserNotFound. */
  function Update(db: Db, user: UserEntity): (Db, Result<()>) {
    if Faulty(db) then (Issue(db), Fail(ServiceUnavailable))
    else
      match First(db.users, Uuid(user.uuid))
      case None => (Issue(db), Fail(UserNotFound))
      case Some(old_) =>
        var row := old_.(displayName := user.displayName, passwordHash := user.passwordHash,
                         disabled := user.disabled, role := user.role);
        if row == old_ then (Issue(db), Fail(UserNotFound))
        else (Issue(db).(users := Replace(db.users, row)), Ok(()))
  }

  // ---------------------------------------------------------------------
  // TokenRepository.
  // ---------------------------------------------------------------------

  predicate Unexpired(s: Session, now: int) {
    s.expiresAt > now
  }

  /** The foreign key refuses unknown users, the unique key a hash that is already there. */
  function SaveRefreshToken(db: Db, userId: int, hash: string, ttl: int, now: int): (Db, Result<()>) {
    if Faulty(db) || First(db.users, Id(userId)).None? then (Issue(db), Fail(ServiceUnavailable))
    else if hash in db.sessions then (Issue(db), Fail(Internal))
    else (Issue(db).(sessions := db.sessions[hash := Session(userId, now + ttl)]), Ok(()))
  }

  function IsTokenValid(db: Db, hash: string, now: int): (Db, Result<bool>) {
    if Faulty(db) then (Issue(db), Fail(ServiceUnavailable))
    else (Issue(db), Ok(hash in db.sessions && Unexpired(db.sessions[hash], now)))
  }

  /** The hashes of a user's sessions that have not expired. */
  function ActiveSessions(db: Db, userId: int, now: int): set<string> {
    set h | h in db.sessions && db.sessions[h].userId == userId && Unexpired(db.sessions[h], now)
  }

  function CountActiveSessionsByUserId(db: Db, userId: int, now: int): (Db, Result<int>) {
    if Faulty(db) then (Issue(db), Fail(ServiceUnavailable)) else (Issue(db), Ok(|ActiveSessions(db, userId, now)|))
  }

  function DeleteByTokenHash(db: Db, hash: string): (Db, Result<()>) {
    if Faulty(db) then (Issue(db), Fail(ServiceUnavailable))
    else (Issue(db).(sessions := db.sessions - {hash}), Ok(()))
  }

  function DeleteByUserId(db: Db, userId: int): (Db, Result<()>) {
    if Faulty(db) then (Issue(db), Fail(ServiceUnavailable))
    else (Issue(db).(sessions := map h | h in db.sessions && db.sessions[h].userId != userId :: db.sessions[h]), Ok(()))
  }

  function CleanExpiredTokens(db: Db, now: int): (Db, Result<int>) {
    if Faulty(db) then (Issue(db), Fail(ServiceUnavailable))
    else
      var kept := map h | h in db.sessions && Unexpired(db.sessions[h], now) :: db.sessions[h];
      (Issue(db).(sessions := kept), Ok(|db.sessions| - |kept|))
  }
}

/** The repository objects. Each method is one statement on the shared tables. */
module Repositories {
  import opened Outcome
  import opened Users
  import opened Database
  import S = Sql
  import P = Paging

  /** The tables behind the connection pool, and the LIKE of their collation. */
  class MySql {
    const like: P.Like
    var users: seq<UserEntity>
    var nextId: int
    var sessions: map<string, Session>
    var faults: seq<bool>

    function State(): Db
      reads this
    {
      Db(users, nextId, sessions, faults)
    }

    constructor (like: P.Like, db: Db)
      ensures this.like == like && State() == db
    {
      this.like := like;
      users, nextId, sessions, faults := db.users, db.nextId, db.sessions, db.faults;
    }

    method Set(db: Db)
      modifies this
      ensures State() == db
    {
      users, nextId, sessions, faults := db.users, db.nextId, db.sessions, db.faults;
    }

    /** Takes a connection and tells whether the call fails. */
    method Connect() returns (failed: bool)
      modifies this
      ensures State() == Issue(old(State())) && failed == Faulty(old(State()))
    {
      failed := faults != [] && faults[0];
      if faults != [] { faults := faults[1..]; }
    }

    /** Query, for statements that select rows: the substituted text is what the server reads.
        A template that cannot be filled throws like a statement the server refuses. */
    method QueryUsers(sql: string, bindings: seq<S.Param>) returns (rows: Option<seq<UserEntity>>)
      ensures rows == if S.Holes(sql) != |bindings| then None
                      else P.Select(like, users, S.Fill(S.MysqlEscape, sql, bindings))
    {
      hide S.Fill, S.Holes, P.Select;
      var built := S.BuildSQL(S.MysqlEscape, sql, bindings);
      if !built.Sql? { return None; }
      rows := P.Select(like, users, built.text);
    }

    /** Query, for statements that count rows. */
    method QueryCount(sql: string, bindings: seq<S.Param>) returns (n: Option<nat>)
      ensures n == if S.Holes(sql) != |bindings| then None
                   else P.SelectCount(like, users, S.Fill(S.MysqlEscape, sql, bindings))
    {
      hide S.Fill, S.Holes, P.SelectCount;
      var built := S.BuildSQL(S.MysqlEscape, sql, bindings);
      if !built.Sql? { return None; }
      n := P.SelectCount(like, users, built.text);
    }
  }

  class UserDB {
    const mysql: MySql

    constructor (mysql: MySql)
      ensures this.mysql == mysql
    {
      this.mysql := mysql;
    }

    method FindByField(f: Field) returns (r: Result<UserEntity>)
      modifies mysql
      ensures (mysql.State(), r) == FindBy(old(mysql.State()), f)
    {
      var failed := mysql.Connect();
      if failed { return Fail(ServiceUnavailable); }
      var u := First(mysql.users, f);
      r := if u.None? then Fail(UserNotFound) else Ok(u.value);
    }

    method ExistsByField(f: Field) returns (r: Result<bool>)
      modifies mysql
      ensures (mysql.State(), r) == ExistsBy(old(mysql.State()), f)
    {
      var failed := mysql.Connect();
      if failed { return Fail(ServiceUnavailable); }
      r := Ok(First(mysql.users, f).Some?);
    }

    method Create(row: UserEntity, now: int) returns (r: Result<UserEntity>)
      modifies mysql
      ensures (mysql.State(), r) == Database.Create(old(mysql.State()), row, now)
    {
      var failed := mysql.Connect();
      if failed { return Fail(ServiceUnavailable); }
      if First(mysql.users, Uuid(row.uuid)).Some? { return Fail(UserAlreadyExists); }
      if First(mysql.users, Mobile(row.mobile)).Some? { return Fail(MobileTaken); }
      mysql.users := mysql.users + [row.(id := mysql.nextId, disabled := false, createdAt := now)];
      mysql.nextId := mysql.nextId + 1;
      r := FindByField(Uuid(row.uuid));
    }

    method Update(user: UserEntity) returns (r: Result<()>)
      modifies mysql
      ensures (mysql.State(), r) == Database.Update(old(mysql.State()), user)
    {
      var failed := mysql.Connect();
      if failed { return Fail(ServiceUnavailable); }
      var found := First(mysql.users, Uuid(user.uuid));
      if found.None? { return Fail(UserNotFound); }
      var row := found.value.(displayName := user.displayName, passwordHash := user.passwordHash,
                              disabled := user.disabled, role := user.role);
      if row == found.value { return Fail(UserNotFound); }
      mysql.users := Replace(mysql.users, row);
      r := Ok(());
    }

    /** The statement's text and its bindings grow side by side. */
    method Filter(q: P.Query, head: string) returns (sql: string, bindings: seq<S.Param>)
      ensures sql == head + P.Clauses(q) && bindings == P.Bindings(q)
    {
      sql, bindings := head, [];
      if q.mobileLike.Some? && q.mobileLike.value != "" {
        sql := sql + P.BY_MOBILE;
        bindings := bindings + [S.Text("%" + q.mobileLike.value + "%")];
      }
      if q.disabled.Some? {
        sql := sql + P.BY_DISABLED;
        bindings := bindings + [S.Bool(q.disabled.value)];
      }
    }

    method FindAll(q: P.Query) returns (r: Result<seq<UserEntity>>)
      modifies mysql
      ensures (mysql.State(), r) == P.FindUsers(mysql.like, old(mysql.State()), q)
    {
      hide P.PageRows, P.Clauses, P.Bindings, S.Fill, S.Holes, P.Select;
      var failed := mysql.Connect();
      if failed { return Fail(ServiceUnavailable); }
      var sql, bindings := Filter(q, P.FIND);
      sql := sql + P.PAGE;
      bindings := bindings + [S.Int(P.Offset(q)), S.Int(q.pageSize)];
      P.StatementsAreFilled(q, P.Offset(q), q.pageSize);
      P.StatementsMeanOnServer(mysql.like, mysql.users, q);
      var rows := mysql.QueryUsers(sql, bindings);
      if rows.None? { return Fail(ServiceUnavailable); }
      r := Ok(rows.value);
    }

    method Count(q: P.Query) returns (r: Result<int>)
      modifies mysql
      ensures (mysql.State(), r) == P.CountUsers(mysql.like, old(mysql.State()), q)
    {
      hide P.Matching, P.Clauses, P.Bindings, S.Fill, S.Holes, P.SelectCount;
      var failed := mysql.Connect();
      if failed { return Fail(ServiceUnavailable); }
      var sql, bindings := Filter(q, P.COUNT);
      P.StatementsAreFilled(q, 0, 0);
      P.StatementsMeanOnServer(mysql.like, mysql.users, q);
      var n := mysql.QueryCount(sql, bindings);
      if n.None? { return Fail(ServiceUnavailable); }
      r := Ok(n.value);
    }
  }

  class TokenRepository {
    const mysql: MySql

    constructor (mysql: MySql)
      ensures this.mysql == mysql
    {
      this.mysql := mysql;
    }

    method SaveRefreshToken(userId: int, hash: string, ttl: int, now: int) returns (r: Result<()>)
      modifies mysql
      ensures (mysql.State(), r) == Database.SaveRefreshToken(old(mysql.State()), userId, hash, ttl, now)
    {
      var failed := mysql.Connect();
      if failed || First(mysql.users, Id(userId)).None? { return Fail(ServiceUnavailable); }
      if hash in mysql.sessions { return Fail(Internal); }
      mysql.sessions := mysql.sessions[hash := Session(userId, now + ttl)];
      r := Ok(());
    }

    method IsTokenValid(hash: string, now: int) returns (r: Result<bool>)
      modifies mysql
      ensures (mysql.State(), r) == Database.IsTokenValid(old(mysql.State()), hash, now)
    {
      var failed := mysql.Connect();
      if failed { return Fail(ServiceUnavailable); }
      r := Ok(hash in mysql.sessions && Unexpired(mysql.sessions[hash], now));
    }

    method CountActiveSessionsByUserId(userId: int, now: int) returns (r: Result<int>)
      modifies mysql
      ensures (mysql.State(), r) == Database.CountActiveSessionsByUserId(old(mysql.State()), userId, now)
    {
      var failed := mysql.Connect();
      if failed { return Fail(ServiceUnavailable); }
      r := Ok(|ActiveSessions(mysql.State(), userId, now)|);
    }

    method DeleteByTokenHash(hash: string) returns (r: Result<()>)
      modifies mysql
      ensures (mysql.State(), r) == Database.DeleteByTokenHash(old(mysql.State()), hash)
      ensures forall h :: h in mysql.sessions <==> h in old(mysql.sessions) && (r.Fail? || h != hash)
      ensures forall h :: h in mysql.sessions ==> mysql.sessions[h] == old(mysql.sessions)[h]
    {
      var failed := mysql.Connect();
      if failed { return Fail(ServiceUnavailable); }
      mysql.sessions := mysql.sessions - {hash};
      r := Ok(());
    }

    method DeleteByUserId(userId: int) returns (r: Result<()>)
      modifies mysql
      ensures (mysql.State(), r) == Database.DeleteByUserId(old(mysql.State()), userId)
      ensures forall h :: h in mysql.sessions <==>
                h in old(mysql.sessions) && (r.Fail? || old(mysql.sessions)[h].userId != userId)
      ensures forall h :: h in mysql.sessions ==> mysql.sessions[h] == old(mysql.sessions)[h]
    {
      var failed := mysql.Connect();
      if failed { return Fail(ServiceUnavailable); }
      mysql.sessions := map h | h in mysql.sessions && mysql.sessions[h].userId != userId :: mysql.sessions[h];
      r := Ok(());
    }

    method CleanExpiredTokens(now: int) returns (r: Result<int>)
      modifies mysql
      ensures (mysql.State(), r) == Database.CleanExpiredTokens(old(mysql.State()), now)
      ensures forall h :: h in mysql.sessions <==>
                h in old(mysql.sessions) && (r.Fail? || old(mysql.sessions)[h].expiresAt > now)
      ensures forall h :: h in mysql.sessions ==> mysql.sessions[h] == old(mysql.sessions)[h]
    {
      var failed := mysql.Connect();
      if failed { return Fail(ServiceUnavailable); }
      var before := |mysql.sessions|;
      mysql.sessions := map h | h in mysql.sessions && Unexpired(mysql.sessions[h], now) :: mysql.sessions[h];
      r := Ok(before - |mysql.sessions|);
    }
  }
}
