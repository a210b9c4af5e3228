/** Listing users: the statements FindAll and Count build, what the server makes of them, and
    how the pages divide the result. */
module Paging {
  import opened Ints
  import opened Outcome
  import opened Users
  import opened Database
  import D = Decimal
  import S = Sql

  /** UserQueryParams with its page parameters. */
  datatype Query = Query(mobileLike: Option<string>, disabled: Option<bool>, page: int, pageSize: int)

  /** Does a mobile match a LIKE pattern under the server's collation. */
  type Like = (string, string) -> bool

  const FIND := "SELECT * FROM users WHERE 1=1"
  const COUNT := "SELECT COUNT(*) FROM users WHERE 1=1"
  const BY_MOBILE := " AND mobile LIKE ?"
  const BY_DISABLED := " AND disabled = ?"
  const PAGE := " ORDER BY created_at DESC, id DESC LIMIT ?, ?"

  // ---------------------------------------------------------------------
  // The server, on the tokens it lexes from the text it is sent.
  // ---------------------------------------------------------------------

  const MOBILE_LIKE := " AND mobile LIKE "
  const DISABLED_IS := " AND disabled = "
  const LIMIT := " ORDER BY created_at DESC, id DESC LIMIT "
  const COMMA := ", "

  datatype Condition = MobileLike(pattern: string) | DisabledIs(number: int)

  /** The disabled column holds 0 or 1. */
  predicate Holds(like: Like, c: Condition, u: UserEntity) {
    match c
    case MobileLike(pattern) => like(u.mobile, pattern)
    case DisabledIs(n) => n == if u.disabled then 1 else 0
  }

  /** What follows a text at the front of the tokens. */
  function Past(text: string, ts: seq<S.Token>): (r: Option<seq<S.Token>>)
    ensures r.Some? ==> |r.value| == |ts| - |text|
  {
    if S.Chars(text) <= ts then Some(ts[|text|..]) else None
  }

  function FrontDigits(ts: seq<S.Token>): (s: string)
    ensures |s| <= |ts| && forall i :: 0 <= i < |s| ==> D.IsDigit(s[i])
  {
    if ts != [] && ts[0].Char? && D.IsDigit(ts[0].c) then [ts[0].c] + FrontDigits(ts[1..]) else ""
  }

  /** An unsigned number at the front of the tokens, and what follows it. */
  function Number(ts: seq<S.Token>): (r: Option<(int, seq<S.Token>)>)
    ensures r.Some? ==> |r.value.1| < |ts|
  {
    var s := FrontDigits(ts);
    if s == "" then None else Some((D.Value(s), ts[|s|..]))
  }

  /** The AND clauses at the front of the tokens, and what follows them. */
  function Conditions(ts: seq<S.Token>): (seq<Condition>, seq<S.Token>)
    decreases |ts|
  {
    var mobile, disabled := Past(MOBILE_LIKE, ts), Past(DISABLED_IS, ts);
    if mobile.Some? && mobile.value != [] && mobile.value[0].Literal? then
      var (cs, rest) := Conditions(mobile.value[1..]);
      ([MobileLike(mobile.value[0].value)] + cs, rest)
    else if disabled.Some? && Number(disabled.value).Some? then
      var (n, tail) := Number(disabled.value).value;
      var (cs, rest) := Conditions(tail);
      ([DisabledIs(n)] + cs, rest)
    else ([], ts)
  }

  /** The two numbers of the final clause. */
  function Bounds(ts: seq<S.Token>): Option<(nat, nat)> {
    var limit := Past(LIMIT, ts);
    if limit.None? || Number(limit.value).None? then None
    else
      var (offset, tail) := Number(limit.value).value;
      var comma := Past(COMMA, tail);
      if comma.None? || Number(comma.value).None? || Number(comma.value).value.1 != [] then None
      else Some((offset, Number(comma.value).value.0))
  }

  function Where(like: Like, users: seq<UserEntity>, cs: seq<Condition>): seq<UserEntity> {
    if users == [] then []
    else (if forall c :: c in cs ==> Holds(like, c, users[0]) then [users[0]] else []) + Where(like, users[1..], cs)
  }

  /** created_at DESC, id DESC. */
  predicate Before(u: UserEntity, v: UserEntity) {
    u.createdAt > v.createdAt || (u.createdAt == v.createdAt && u.id > v.id)
  }

  function Insert(u: UserEntity, rows: seq<UserEntity>): seq<UserEntity> {
    if rows == [] || !Before(rows[0], u) then [u] + rows else [rows[0]] + Insert(u, rows[1..])
  }

  function Sort(rows: seq<UserEntity>): seq<UserEntity> {
    if rows == [] then [] else Insert(rows[0], Sort(rows[1..]))
  }

  function Upto(n: int, size: nat): nat {
    if n <= 0 then 0 else if n >= size then size else n
  }

  /** LIMIT offset, count. */
  function Limit(rows: seq<UserEntity>, offset: nat, count: nat): seq<UserEntity> {
    rows[Upto(offset, |rows|)..Upto(offset + count, |rows|)]
  }

  /** The rows a statement text selects; None is a syntax error, as for a negative LIMIT. */
  function Select(like: Like, users: seq<UserEntity>, text: string): Option<seq<UserEntity>> {
    match S.Lex(text)
    case None => None
    case Some(ts) =>
      var body := Past(FIND, ts);
      if body.None? then None
      else
        var (cs, tail) := Conditions(body.value);
        match Bounds(tail)
        case None => None
        case Some((offset, count)) => Some(Limit(Sort(Where(like, users, cs)), offset, count))
  }

  function SelectCount(like: Like, users: seq<UserEntity>, text: string): Option<nat> {
    match S.Lex(text)
    case None => None
    case Some(ts) =>
      var body := Past(COUNT, ts);
      if body.None? then None
      else
        var (cs, tail) := Conditions(body.value);
        if tail != [] then None else Some(|Where(like, users, cs)|)
  }

  // ---------------------------------------------------------------------
  // What the two statements mean.
  // ---------------------------------------------------------------------

  /** An empty mobile filter is no filter. */
  predicate FiltersMobile(q: Query) {
    q.mobileLike.Some? && q.mobileLike.value != ""
  }

  function Pattern(q: Query): string
    requires FiltersMobile(q)
  {
    "%" + q.mobileLike.value + "%"
  }

  predicate Accepts(like: Like, q: Query, u: UserEntity) {
    (FiltersMobile(q) ==> like(u.mobile, Pattern(q))) && (q.disabled.Some? ==> u.disabled == q.disabled.value)
  }

  function Matching(like: Like, users: seq<UserEntity>, q: Query): seq<UserEntity> {
    if users == [] then []
    else (if Accepts(like, q, users[0]) then [users[0]] else []) + Matching(like, users[1..], q)
  }

  /** PageParams::Offset in int arithmetic. */
  function Offset(q: Query): int {
    Wrap32((q.page - 1) * q.pageSize)
  }

  /** The rows FindAll returns, when it returns any. */
  function PageRows(like: Like, users: seq<UserEntity>, q: Query): Option<seq<UserEntity>> {
    if Offset(q) < 0 || q.pageSize < 0 then None else Some(Limit(Sort(Matching(like, users, q)), Offset(q), q.pageSize))
  }

  /** The conditions a query stands for. */
  function ConditionsOf(q: Query): seq<Condition> {
    if FiltersMobile(q) then [MobileLike(Pattern(q))] + DisabledConditions(q) else DisabledConditions(q)
  }

  function DisabledConditions(q: Query): seq<Condition> {
    if q.disabled.Some? then [DisabledIs(if q.disabled.value then 1 else 0)] else []
  }

  lemma ConditionsAccept(like: Like, q: Query, u: UserEntity)
    ensures (forall c :: c in ConditionsOf(q) ==> Holds(like, c, u)) <==> Accepts(like, q, u)
  {
    var byDisabled := DisabledConditions(q);
    assert (forall c :: c in byDisabled ==> Holds(like, c, u)) <==> (q.disabled.Some? ==>
      u.disabled == q.disabled.value) by {
      if q.disabled.Some? {
        assert byDisabled[0] == DisabledIs(if q.disabled.value then 1 else 0);
        assert Holds(like, byDisabled[0], u) <==> u.disabled == q.disabled.value;
      }
    }
    if FiltersMobile(q) {
      assert forall c :: c in ConditionsOf(q) <==> c == MobileLike(Pattern(q)) || c in byDisabled;
      assert Holds(like, MobileLike(Pattern(q)), u) <==> like(u.mobile, Pattern(q));
    }
  }

  lemma {:induction false} WhereIsMatching(like: Like, users: seq<UserEntity>, q: Query)
    ensures Where(like, users, ConditionsOf(q)) == Matching(like, users, q)
  {
    hide Holds, Accepts, ConditionsOf;
    if users != [] {
      WhereIsMatching(like, users[1..], q);
      ConditionsAccept(like, q, users[0]);
    }
  }

  /** The clauses and the bindings both builders append. */
  function Clauses(q: Query): string {
    if FiltersMobile(q) then BY_MOBILE + DisabledClauses(q) else DisabledClauses(q)
  }

  function DisabledClauses(q: Query): string {
    if q.disabled.Some? then BY_DISABLED else ""
  }

  function Bindings(q: Query): seq<S.Param> {
    if FiltersMobile(q) then [S.Text(Pattern(q))] + DisabledBindings(q) else DisabledBindings(q)
  }

  function DisabledBindings(q: Query): seq<S.Param> {
    if q.disabled.Some? then [S.Bool(q.disabled.value)] else []
  }

  lemma {:induction false} NoHoles(s: string)
    requires '?' !in s
    ensures S.Holes(s) == 0
  {
    if s != "" { NoHoles(s[1..]); }
  }

  lemma OneHole(head: string)
    requires '?' !in head
    ensures S.Holes(head + "?") == 1
  {
    NoHoles(head);
    S.HolesOfSum(head, "?");
    assert "?"[1..] == "";
  }

  lemma FilterHoles()
    ensures S.Holes(BY_MOBILE) == 1 && S.Holes(BY_DISABLED) == 1
  {
    hide S.Holes;
    OneHole(" AND mobile LIKE ");
    assert BY_MOBILE == " AND mobile LIKE " + "?";
    OneHole(" AND disabled = ");
    assert BY_DISABLED == " AND disabled = " + "?";
  }

  lemma PageHoles()
    ensures S.Holes(PAGE) == 2
  {
    hide S.Holes;
    var head := " ORDER BY created_at DESC, id DESC LIMIT ";
    OneHole(head);
    OneHole(", ");
    S.HolesOfSum(head + "?", ", " + "?");
    assert PAGE == (head + "?") + (", " + "?");
  }

  lemma HeadHoles()
    ensures S.Holes(FIND) == 0 && S.Holes(COUNT) == 0
  {
    hide S.Holes;
    NoHoles(FIND);
    NoHoles(COUNT);
  }

  /** Both statements have as many placeholders as bindings, so BuildSQL accepts them. */
  lemma StatementsAreFilled(q: Query, offset: int, size: int)
    ensures S.Holes(FIND + Clauses(q) + PAGE) == |Bindings(q) + [S.Int(offset), S.Int(size)]|
    ensures S.Holes(COUNT + Clauses(q)) == |Bindings(q)|
  {
    hide S.Holes;
    FilterHoles();
    PageHoles();
    HeadHoles();
    NoHoles("");
    S.HolesOfSum(BY_MOBILE, DisabledClauses(q));
    S.HolesOfSum(FIND, Clauses(q));
    S.HolesOfSum(FIND + Clauses(q), PAGE);
    S.HolesOfSum(COUNT, Clauses(q));
  }

  // ---------------------------------------------------------------------
  // The texts the server is sent.
  // ---------------------------------------------------------------------

  /** The text FindAll sends. */
  function FindText(escape: S.Escape, q: Query): string {
    StatementsAreFilled(q, Offset(q), q.pageSize);
    S.Fill(escape, FIND + Clauses(q) + PAGE, Bindings(q) + [S.Int(Offset(q)), S.Int(q.pageSize)])
  }

  /** The text Count sends. */
  function CountText(escape: S.Escape, q: Query): string {
    StatementsAreFilled(q, 0, 0);
    S.Fill(escape, COUNT + Clauses(q), Bindings(q))
  }

  function ClauseTokens(q: Query): seq<S.Token> {
    (if FiltersMobile(q) then S.Chars(MOBILE_LIKE) + [S.Literal(Pattern(q))] else []) + DisabledTokens(q)
  }

  function DisabledTokens(q: Query): seq<S.Token> {
    if q.disabled.Some? then S.Chars(DISABLED_IS) + S.Chars(if q.disabled.value then "1" else "0") else []
  }

  function PageTokens(offset: int, size: int): seq<S.Token> {
    S.Chars(LIMIT) + S.Chars(D.ToString(offset)) + (S.Chars(COMMA) + S.Chars(D.ToString(size)))
  }

  lemma ClausesExpected(escape: S.Escape, q: Query)
    ensures S.Holes(Clauses(q)) == |Bindings(q)| && S.Expected(escape, Clauses(q), Bindings(q)) == ClauseTokens(q)
  {
    hide S.Holes, S.Expected;
    S.ExpectedOfText(escape, "");
    assert S.Chars("") == [];
    assert BY_MOBILE == MOBILE_LIKE + "?" && BY_DISABLED == DISABLED_IS + "?";
    if q.disabled.Some? { S.ExpectedOfHole(escape, DISABLED_IS, S.Bool(q.disabled.value)); }
    assert S.Holes(DisabledClauses(q)) == |DisabledBindings(q)|;
    assert S.Expected(escape, DisabledClauses(q), DisabledBindings(q)) == DisabledTokens(q);
    if FiltersMobile(q) {
      S.ExpectedOfHole(escape, MOBILE_LIKE, S.Text(Pattern(q)));
      S.ExpectedOfSum(escape, BY_MOBILE, DisabledClauses(q), [S.Text(Pattern(q))], DisabledBindings(q));
    } else {
      assert ClauseTokens(q) == DisabledTokens(q);
    }
  }

  lemma PageExpected(escape: S.Escape, offset: int, size: int)
    ensures S.Holes(PAGE) == 2 && S.Expected(escape, PAGE, [S.Int(offset), S.Int(size)]) == PageTokens(offset, size)
  {
    hide S.Holes, S.Expected;
    S.ExpectedOfHole(escape, LIMIT, S.Int(offset));
    S.ExpectedOfHole(escape, COMMA, S.Int(size));
    S.ExpectedOfSum(escape, LIMIT + "?", COMMA + "?", [S.Int(offset)], [S.Int(size)]);
    assert PAGE == (LIMIT + "?") + (COMMA + "?");
    assert [S.Int(offset)] + [S.Int(size)] == [S.Int(offset), S.Int(size)];
  }

  lemma QuoteFreeOfSum(a: string, b: string)
    requires S.QuoteFree(a) && S.QuoteFree(b)
    ensures S.QuoteFree(a + b)
  {
  }

  lemma HeadsAreQuoteFree()
    ensures S.QuoteFree(FIND) && S.QuoteFree(COUNT)
  {
  }

  lemma LimitIsQuoteFree()
    ensures S.QuoteFree(LIMIT)
  {
  }

  lemma PageIsQuoteFree()
    ensures S.QuoteFree(PAGE)
  {
    LimitIsQuoteFree();
    QuoteFreeOfSum(LIMIT, "?, ?");
    assert PAGE == LIMIT + "?, ?";
  }

  lemma ClausesAreQuoteFree(q: Query)
    ensures S.QuoteFree(Clauses(q))
  {
    QuoteFreeOfSum(BY_MOBILE, DisabledClauses(q));
  }

  lemma TemplatesAreQuoteFree(q: Query)
    ensures S.QuoteFree(FIND + Clauses(q) + PAGE) && S.QuoteFree(COUNT + Clauses(q))
  {
    hide S.QuoteFree, Clauses;
    HeadsAreQuoteFree();
    PageIsQuoteFree();
    ClausesAreQuoteFree(q);
    QuoteFreeOfSum(FIND, Clauses(q));
    QuoteFreeOfSum(FIND + Clauses(q), PAGE);
    QuoteFreeOfSum(COUNT, Clauses(q));
  }

  lemma TextsStandAlone(q: Query, sql: string, more: seq<S.Param>)
    requires S.Holes(sql) == |Bindings(q) + more| && forall p :: p in more ==> p.Int?
    ensures !S.TextsTouch(sql, Bindings(q) + more) && S.RealsArePlain(Bindings(q) + more)
  {
    var params := Bindings(q) + more;
    forall i | 1 <= i < |params| ensures !params[i].Text? {
      assert params[i] in DisabledBindings(q) + more;
    }
    if S.TextsTouch(sql, params) {
      var i := S.TouchingTextsAreNeighbours(sql, params);
    }
  }

  /** For every filter text, whatever quotes or backslashes it holds, the server lexes the
      texts it is sent into the statements' own tokens. */
  lemma TextsLex(escape: S.Escape, q: Query)
    requires S.Inverted(escape)
    ensures S.Lex(FindText(escape, q)) == Some(S.Chars(FIND) + ClauseTokens(q) + PageTokens(Offset(q), q.pageSize))
    ensures S.Lex(CountText(escape, q)) == Some(S.Chars(COUNT) + ClauseTokens(q))
  {
    hide S.Lex, S.Fill, S.Expected, S.Holes, S.TextsTouch, S.QuoteFree, S.Inverted, Clauses, Bindings, ClauseTokens,
         PageTokens, Offset;
    var bounds := [S.Int(Offset(q)), S.Int(q.pageSize)];
    StatementsAreFilled(q, Offset(q), q.pageSize);
    TemplatesAreQuoteFree(q);
    TextsStandAlone(q, FIND + Clauses(q) + PAGE, bounds);
    S.LexFill(escape, FIND + Clauses(q) + PAGE, Bindings(q) + bounds);
    ClausesExpected(escape, q);
    PageExpected(escape, Offset(q), q.pageSize);
    S.ExpectedOfText(escape, FIND);
    S.ExpectedOfSum(escape, FIND, Clauses(q), [], Bindings(q));
    assert [] + Bindings(q) == Bindings(q) && Bindings(q) + [] == Bindings(q);
    S.ExpectedOfSum(escape, FIND + Clauses(q), PAGE, Bindings(q), bounds);
    S.ExpectedOfText(escape, COUNT);
    S.ExpectedOfSum(escape, COUNT, Clauses(q), [], Bindings(q));
    TextsStandAlone(q, COUNT + Clauses(q), []);
    S.LexFill(escape, COUNT + Clauses(q), Bindings(q));
  }

  // ---------------------------------------------------------------------
  // What the server reads in them.
  // ---------------------------------------------------------------------

  lemma PastText(text: string, rest: seq<S.Token>)
    ensures Past(text, S.Chars(text) + rest) == Some(rest)
  {
    assert (S.Chars(text) + rest)[|text|..] == rest;
  }

  // Tokens that do not go on with a digit.
  predicate EndsNumber(rest: seq<S.Token>) {
    rest == [] || !rest[0].Char? || !D.IsDigit(rest[0].c)
  }

  lemma {:induction false} FrontDigitsOf(s: string, rest: seq<S.Token>)
    requires EndsNumber(rest) && forall i :: 0 <= i < |s| ==> D.IsDigit(s[i])
    ensures FrontDigits(S.Chars(s) + rest) == s
  {
    if s == "" {
      assert S.Chars(s) + rest == rest;
    } else {
      assert (S.Chars(s) + rest)[1..] == S.Chars(s[1..]) + rest;
      FrontDigitsOf(s[1..], rest);
    }
  }

  /** A printed number reads as itself, unless it is negative. */
  lemma NumberOf(n: int, rest: seq<S.Token>)
    requires EndsNumber(rest)
    ensures Number(S.Chars(D.ToString(n)) + rest) == if n < 0 then None else Some((n, rest))
  {
    hide D.Value, D.Digits;
    if n < 0 {
      assert D.ToString(n)[0] == '-';
      assert (S.Chars(D.ToString(n)) + rest)[0] == S.Char('-');
    } else {
      var s := D.Digits(n);
      D.ValueOfDigits(n);
      FrontDigitsOf(s, rest);
      assert (S.Chars(s) + rest)[|s|..] == rest;
    }
  }

  lemma FlagOf(flag: bool, rest: seq<S.Token>)
    requires EndsNumber(rest)
    ensures Number(S.Chars(if flag then "1" else "0") + rest) == Some((if flag then 1 else 0, rest))
  {
    NumberOf(if flag then 1 else 0, rest);
  }

  // The rest of a statement that holds no clause.
  predicate NoClause(ts: seq<S.Token>) {
    ts == [] || (|ts| > 1 && ts[0] == S.Char(' ') && ts[1] == S.Char('O'))
  }

  lemma NoConditions(ts: seq<S.Token>)
    requires NoClause(ts)
    ensures Conditions(ts) == ([], ts)
  {
    assert |MOBILE_LIKE| == 17 && |DISABLED_IS| == 16;
    assert S.Chars(MOBILE_LIKE)[1] == S.Char('A') && S.Chars(DISABLED_IS)[1] == S.Char('A');
  }

  lemma MobileClause(pattern: string, tail: seq<S.Token>)
    ensures var (cs, rest) := Conditions(tail);
            Conditions(S.Chars(MOBILE_LIKE) + ([S.Literal(pattern)] + tail)) == ([MobileLike(pattern)] + cs, rest)
  {
    PastText(MOBILE_LIKE, [S.Literal(pattern)] + tail);
    assert ([S.Literal(pattern)] + tail)[1..] == tail;
  }

  lemma DisabledClause(flag: bool, tail: seq<S.Token>)
    requires EndsNumber(tail)
    ensures var (cs, rest) := Conditions(tail);
            Conditions(S.Chars(DISABLED_IS) + (S.Chars(if flag then "1" else "0") + tail))
            == ([DisabledIs(if flag then 1 else 0)] + cs, rest)
  {
    var number := S.Chars(if flag then "1" else "0") + tail;
    var ts := S.Chars(DISABLED_IS) + number;
    PastText(DISABLED_IS, number);
    FlagOf(flag, tail);
    assert |MOBILE_LIKE| == 17 && |DISABLED_IS| == 16;
    assert S.Chars(MOBILE_LIKE)[5] == S.Char('m') && ts[5] == S.Char('d');
  }

  lemma ClausesReadBack(q: Query, tail: seq<S.Token>)
    requires NoClause(tail)
    ensures Conditions(ClauseTokens(q) + tail) == (ConditionsOf(q), tail)
  {
    hide Conditions;
    NoConditions(tail);
    var middle := DisabledTokens(q) + tail;
    if q.disabled.Some? {
      DisabledClause(q.disabled.value, tail);
      assert middle == S.Chars(DISABLED_IS) + (S.Chars(if q.disabled.value then "1" else "0") + tail);
      assert [DisabledIs(if q.disabled.value then 1 else 0)] + [] == DisabledConditions(q);
    } else {
      assert middle == tail;
    }
    assert Conditions(middle) == (DisabledConditions(q), tail);
    if FiltersMobile(q) {
      MobileClause(Pattern(q), middle);
      assert ClauseTokens(q) + tail == S.Chars(MOBILE_LIKE) + ([S.Literal(Pattern(q))] + middle);
    } else {
      assert ClauseTokens(q) + tail == middle;
    }
  }

  lemma PageReadsBack(offset: int, size: int)
    ensures Bounds(PageTokens(offset, size)) == if offset < 0 || size < 0 then None else Some((offset, size))
    ensures NoClause(PageTokens(offset, size))
  {
    hide Number, D.ToString;
    var sizes := S.Chars(D.ToString(size));
    var tail := S.Chars(COMMA) + sizes;
    assert PageTokens(offset, size) == S.Chars(LIMIT) + (S.Chars(D.ToString(offset)) + tail);
    PastText(LIMIT, S.Chars(D.ToString(offset)) + tail);
    assert |COMMA| == 2 && tail[0] == S.Char(',');
    NumberOf(offset, tail);
    PastText(COMMA, sizes);
    assert sizes + [] == sizes;
    NumberOf(size, []);
    assert |LIMIT| > 1 && LIMIT[0] == ' ' && LIMIT[1] == 'O';
  }

  /** The server answers the text FindAll sends with the page's rows, and the text Count sends
      with the number of matching ones: both apply exactly the query's filter. */
  lemma StatementsMean(escape: S.Escape, like: Like, users: seq<UserEntity>, q: Query)
    requires S.Inverted(escape)
    ensures Select(like, users, FindText(escape, q)) == PageRows(like, users, q)
    ensures SelectCount(like, users, CountText(escape, q)) == Some(|Matching(like, users, q)|)
  {
    hide S.Lex, Conditions, Sort, ClauseTokens, Where, Matching, Limit, FindText, CountText, Bounds, PageTokens,
         S.Inverted;
    TextsLex(escape, q);
    WhereIsMatching(like, users, q);
    var clauses, page := ClauseTokens(q), PageTokens(Offset(q), q.pageSize);
    PageReadsBack(Offset(q), q.pageSize);
    ClausesReadBack(q, page);
    assert S.Chars(FIND) + clauses + page == S.Chars(FIND) + (clauses + page);
    PastText(FIND, clauses + page);
    ClausesReadBack(q, []);
    assert clauses + [] == clauses;
    PastText(COUNT, clauses);
  }

  /** The same with the client library's escaping. */
  lemma StatementsMeanOnServer(like: Like, users: seq<UserEntity>, q: Query)
    ensures Select(like, users, FindText(S.MysqlEscape, q)) == PageRows(like, users, q)
    ensures SelectCount(like, users, CountText(S.MysqlEscape, q)) == Some(|Matching(like, users, q)|)
  {
    hide Select, SelectCount, FindText, CountText, PageRows, Matching, S.Inverted;
    S.MysqlEscapeIsInverted();
    StatementsMean(S.MysqlEscape, like, users, q);
  }

  // ---------------------------------------------------------------------
  // The order of the rows.
  // ---------------------------------------------------------------------

  /** Strictly descending in (created_at, id). */
  predicate Descending(rows: seq<UserEntity>) {
    forall i, j :: 0 <= i < j < |rows| ==> Before(rows[i], rows[j])
  }

  predicate DistinctIds(rows: seq<UserEntity>) {
    forall i, j :: 0 <= i < j < |rows| ==> rows[i].id != rows[j].id
  }

  lemma {:induction false} InsertKeepsRows(u: UserEntity, rows: seq<UserEntity>)
    ensures multiset(Insert(u, rows)) == multiset{u} + multiset(rows)
  {
    if rows != [] && Before(rows[0], u) {
      InsertKeepsRows(u, rows[1..]);
      assert rows == [rows[0]] + rows[1..];
    }
  }

  /** Sorting returns every row as often as it was there. */
  lemma {:induction false} SortKeepsRows(rows: seq<UserEntity>)
    ensures multiset(Sort(rows)) == multiset(rows)
  {
    if rows != [] {
      SortKeepsRows(rows[1..]);
      InsertKeepsRows(rows[0], Sort(rows[1..]));
      assert rows == [rows[0]] + rows[1..];
    }
  }

  lemma SameLength(rows: seq<UserEntity>)
    ensures |Sort(rows)| == |rows|
  {
    SortKeepsRows(rows);
    assert |multiset(Sort(rows))| == |multiset(rows)|;
  }

  lemma {:induction false} InsertDescends(u: UserEntity, rows: seq<UserEntity>)
    requires Descending(rows) && forall v :: v in rows ==> v.id != u.id
    ensures Descending(Insert(u, rows))
  {
    if rows != [] {
      if Before(rows[0], u) {
        var tail := Insert(u, rows[1..]);
        InsertDescends(u, rows[1..]);
        InsertKeepsRows(u, rows[1..]);
        forall j | 0 <= j < |tail| ensures Before(rows[0], tail[j]) {
          assert tail[j] in multiset(tail);
          assert tail[j] == u || tail[j] in rows[1..];
        }
      } else {
        assert rows[0] in rows;
        assert Before(u, rows[0]);
        forall j | 0 <= j < |rows| ensures Before(u, rows[j]) {
          if j > 0 { assert Before(rows[0], rows[j]); }
        }
      }
    }
  }

  lemma {:induction false} SortDescends(rows: seq<UserEntity>)
    requires DistinctIds(rows)
    ensures Descending(Sort(rows))
  {
    if rows != [] {
      SortDescends(rows[1..]);
      SortKeepsRows(rows[1..]);
      forall v | v in Sort(rows[1..]) ensures v.id != rows[0].id {
        assert v in multiset(Sort(rows[1..]));
        assert v in rows[1..];
        var k :| 0 <= k < |rows[1..]| && rows[1..][k] == v;
        assert rows[k + 1] == v;
      }
      InsertDescends(rows[0], Sort(rows[1..]));
    }
  }

  /** Matching picks exactly the accepted rows and keeps ids distinct. */
  lemma {:induction false} MatchingIsExact(like: Like, users: seq<UserEntity>, q: Query)
    ensures forall u :: u in Matching(like, users, q) <==> u in users && Accepts(like, q, u)
    ensures DistinctIds(users) ==> DistinctIds(Matching(like, users, q))
  {
    hide Accepts;
    if users != [] {
      var rest := Matching(like, users[1..], q);
      MatchingIsExact(like, users[1..], q);
      assert users == [users[0]] + users[1..];
      if DistinctIds(users) {
        forall v | v in rest ensures v.id != users[0].id {
          var k :| 0 <= k < |users[1..]| && users[1..][k] == v;
          assert users[k + 1] == v;
        }
        assert forall j :: 0 <= j < |rest| ==> rest[j] in rest;
      }
    }
  }

  // ---------------------------------------------------------------------
  // Pages.
  // ---------------------------------------------------------------------

  /** total_pages, for counts that are never negative. */
  function PageCount(count: int, size: int): int
    requires size > 0
  {
    (count + size - 1) / size
  }

  /** It is the count divided by the page size, rounded up. */
  function TotalPages(count: nat, size: int): (n: nat)
    requires size > 0
    ensures (n - 1) * size < count <= n * size
  {
    RoundsUp(count, size);
    PageCount(count, size)
  }

  lemma RoundsUp(count: nat, size: int)
    requires size > 0
    ensures var n := (count + size - 1) / size; 0 <= n && (n - 1) * size < count <= n * size
  {
    var a := count + size - 1;
    var n := a / size;
    assert a == n * size + a % size;
    assert (n - 1) * size == n * size - size;
  }

  /** The pages 1 to k, one after the other. */
  function Pages(like: Like, users: seq<UserEntity>, q: Query, k: nat): seq<UserEntity> {
    if k == 0 then []
    else
      Pages(like, users, q, k - 1)
      + match PageRows(like, users, q.(page := k)) case None => [] case Some(rows) => rows
  }

  lemma OffsetFits(q: Query, k: nat)
    requires 1 <= k && 1 <= q.pageSize && (k - 1) * q.pageSize <= MAX32
    ensures 0 <= (k - 1) * q.pageSize == Offset(q.(page := k))
  {
    assert (k - 1) * q.pageSize >= 0;
  }

  lemma Steps(k: nat, size: int)
    requires 1 <= k && 1 <= size
    ensures k * size == (k - 1) * size + size
    ensures k >= 2 ==> (k - 2) * size <= (k - 1) * size
  {
  }

  lemma PageIsSlice(like: Like, users: seq<UserEntity>, q: Query, k: nat)
    requires 1 <= k && 1 <= q.pageSize && (k - 1) * q.pageSize <= MAX32
    ensures var all := Sort(Matching(like, users, q));
            (k - 1) * q.pageSize >= 0
            && PageRows(like, users, q.(page := k)) == Some(Limit(all, (k - 1) * q.pageSize, q.pageSize))
  {
    hide Sort, Limit, Wrap32;
    OffsetFits(q, k);
    SameFilter(like, users, q, k);
  }

  lemma {:induction false} SameFilter(like: Like, users: seq<UserEntity>, q: Query, k: int)
    ensures Matching(like, users, q.(page := k)) == Matching(like, users, q)
  {
    if users != [] { SameFilter(like, users[1..], q, k); }
  }

  /** The first k pages are the first k * size rows. */
  lemma {:induction false} PagesArePrefix(like: Like, users: seq<UserEntity>, q: Query, k: nat)
    requires 1 <= q.pageSize && (k - 1) * q.pageSize <= MAX32
    ensures var all := Sort(Matching(like, users, q)); Pages(like, users, q, k) == all[..Upto(k * q.pageSize, |all|)]
  {
    hide Sort, PageRows, Matching, Upto;
    var all, size := Sort(Matching(like, users, q)), q.pageSize;
    if k == 0 {
      UptoBounds(0, 0, |all|);
    } else {
      Steps(k, size);
      PagesArePrefix(like, users, q, k - 1);
      PageIsSlice(like, users, q, k);
      UptoBounds((k - 1) * size, k * size, |all|);
    }
  }

  lemma UptoBounds(a: int, b: int, n: nat)
    requires a <= b
    ensures Upto(a, n) <= Upto(b, n) <= n
    ensures Upto(0, n) == 0
  {
  }

  /** For any table with unique ids and any filters: the pages 1 to total_pages, put together,
      are every matching row exactly once in descending (created_at, id) order, and every
      page but the last is full. */
  lemma PagesPartition(like: Like, users: seq<UserEntity>, q: Query)
    requires 1 <= q.pageSize && DistinctIds(users)
    requires |Matching(like, users, q)| <= MAX32
    ensures var n := TotalPages(|Matching(like, users, q)|, q.pageSize);
            var whole := Pages(like, users, q, n);
            && Descending(whole)
            && multiset(whole) == multiset(Matching(like, users, q))
            && (forall u :: u in whole <==> u in users && Accepts(like, q, u))
            && forall k :: 1 <= k <= n ==>
                 match PageRows(like, users, q.(page := k))
                 case None => false
                 case Some(rows) => 1 <= |rows| <= q.pageSize && (k < n ==> |rows| == q.pageSize)
  {
    hide Sort, Matching, Pages, PageRows, Accepts, Limit;
    var found := Matching(like, users, q);
    var all, size := Sort(found), q.pageSize;
    var n := TotalPages(|found|, size);
    SameLength(found);
    MatchingIsExact(like, users, q);
    SortDescends(found);
    SortKeepsRows(found);
    PagesArePrefix(like, users, q, n);
    assert all[..Upto(n * size, |all|)] == all;
    forall u ensures u in all <==> u in found {
      assert u in all <==> u in multiset(all);
      assert u in found <==> u in multiset(found);
    }
    forall k | 1 <= k <= n
      ensures match PageRows(like, users, q.(page := k))
              case None => false
              case Some(rows) => 1 <= |rows| <= size && (k < n ==> |rows| == size)
    {
      PageSize(|all|, n, k, size);
      PageIsSlice(like, users, q, k);
      LimitLength(all, (k - 1) * size, size);
    }
  }

  lemma PageSize(count: nat, n: nat, k: nat, size: int)
    requires 1 <= size && 1 <= k <= n && (n - 1) * size < count <= MAX32
    ensures 0 <= (k - 1) * size < count && (k - 1) * size + size == k * size
    ensures k < n ==> k * size < count
  {
    Monotone(k - 1, n - 1, size);
    Monotone(0, k - 1, size);
    Steps(k, size);
    if k < n { Monotone(k, n - 1, size); }
  }

  lemma Monotone(a: int, b: int, size: int)
    requires a <= b && 0 <= size
    ensures a * size <= b * size
  {
  }

  lemma LimitLength(rows: seq<UserEntity>, offset: nat, count: nat)
    ensures |Limit(rows, offset, count)| == Upto(|rows| - offset, count)
  {
  }

  predicate PageIsRight(like: Like, users: seq<UserEntity>, q: Query) {
    var offset := (q.page - 1) * q.pageSize;
    offset >= 0 && q.pageSize >= 0
    && PageRows(like, users, q) == Some(Limit(Sort(Matching(like, users, q)), offset, q.pageSize))
  }

  /** What the users table can hold: ids, uuids and mobiles are unique keys. */
  predicate IsTable(users: seq<UserEntity>) {
    forall i, j :: 0 <= i < j < |users| ==>
      users[i].id != users[j].id && users[i].uuid != users[j].uuid && users[i].mobile != users[j].mobile
  }

  // A mobile number that begins with the filter's text, one for every n.
  function MobileOf(q: Query, n: nat): string {
    (if FiltersMobile(q) then q.mobileLike.value else "") + D.ToString(n)
  }

  /** A table of n users the query accepts. */
  function Accepted(q: Query, n: nat): seq<UserEntity> {
    seq(n, i requires 0 <= i < n =>
      UserEntity(i, D.ToString(i), MobileOf(q, i), "", "", User, q.disabled.Some? && q.disabled.value, 0))
  }

  lemma PrintedDiffer(q: Query, i: nat, j: nat)
    requires i != j
    ensures D.ToString(i) != D.ToString(j) && MobileOf(q, i) != MobileOf(q, j)
  {
    hide D.Strtoll, D.ToString;
    D.ReadBack(i);
    D.ReadBack(j);
    var prefix := if FiltersMobile(q) then q.mobileLike.value else "";
    assert MobileOf(q, i)[|prefix|..] == D.ToString(i) && MobileOf(q, j)[|prefix|..] == D.ToString(j);
  }

  lemma AcceptedIsTable(q: Query, n: nat)
    ensures IsTable(Accepted(q, n))
  {
    hide D.ToString, MobileOf;
    var users := Accepted(q, n);
    forall i, j | 0 <= i < j < n
      ensures users[i].id != users[j].id && users[i].uuid != users[j].uuid && users[i].mobile != users[j].mobile
    {
      PrintedDiffer(q, i, j);
    }
  }

  lemma {:induction false} AllMatch(like: Like, q: Query, users: seq<UserEntity>)
    requires forall i :: 0 <= i < |users| ==> Accepts(like, q, users[i])
    ensures Matching(like, users, q) == users
  {
    hide Accepts;
    if users != [] { AllMatch(like, q, users[1..]); }
  }

  /** A page shows the rows its number promises, in every table the unique keys allow, exactly
      when its offset fits a 32-bit int. Past that the statement is refused, or the rows at the
      wrapped offset are shown. A LIKE on the filter's text is asked to accept the numbers that
      begin with it. */
  lemma PageIsRightExactly(like: Like, q: Query)
    requires 1 <= q.page <= MAX32 && 1 <= q.pageSize <= 100
    requires FiltersMobile(q) ==> forall n: nat :: like(MobileOf(q, n), Pattern(q))
    ensures (forall users :: IsTable(users) ==> PageIsRight(like, users, q)) <==> (q.page - 1) * q.pageSize <= MAX32
  {
    hide Sort, Matching, Limit, IsTable, MobileOf, Pattern;
    var offset := (q.page - 1) * q.pageSize;
    Monotone(0, q.page - 1, q.pageSize);
    assert q.(page := q.page) == q;
    if offset <= MAX32 {
      forall users ensures PageIsRight(like, users, q) {
        PageIsSlice(like, users, q, q.page);
      }
    } else {
      var w := Offset(q);
      assert w <= MAX32 < offset;
      var users := Accepted(q, if w < 0 then 0 else w + 1);
      AcceptedIsTable(q, |users|);
      if w >= 0 {
        AllMatch(like, q, users);
        SameLength(users);
        LimitLength(Sort(users), w, q.pageSize);
        LimitLength(Sort(users), offset, q.pageSize);
      }
      assert !PageIsRight(like, users, q);
    }
  }

  // ---------------------------------------------------------------------
  // ListUsers.
  // ---------------------------------------------------------------------

  datatype Listing = Listing(users: seq<UserEntity>, totalRecords: int, totalPages: int, page: int, pageSize: int)

  /** The query of a request: pages from 1, sizes from 1 to 100 and 20 by default. */
  function QueryOf(mobile: Option<string>, disabled: Option<bool>, page: int, pageSize: int): (q: Query)
    ensures q.page >= 1 && 1 <= q.pageSize <= 100
  {
    Query(if mobile.Some? && mobile.value != "" then mobile else None, disabled,
          if page > 0 then page else 1,
          if pageSize <= 0 then 20 else if pageSize > 100 then 100 else pageSize)
  }

  function CountUsers(like: Like, db: Db, q: Query): (Db, Result<int>) {
    if Faulty(db) then (Issue(db), Fail(ServiceUnavailable)) else (Issue(db), Ok(|Matching(like, db.users, q)|))
  }

  /** A statement the server refuses is one more unavailable service. */
  function FindUsers(like: Like, db: Db, q: Query): (Db, Result<seq<UserEntity>>) {
    if Faulty(db) then (Issue(db), Fail(ServiceUnavailable))
    else (Issue(db), match PageRows(like, db.users,
      q) case None => Fail(ServiceUnavailable) case Some(rows) => Ok(rows))
  }

  function AllHidden(rows: seq<UserEntity>): seq<UserEntity> {
    seq(|rows|, i requires 0 <= i < |rows| => Hidden(rows[i]))
  }

  /** The counts are narrowed to int. */
  function ListUsers(like: Like, db: Db, mobile: Option<string>, disabled: Option<bool>, page: int, pageSize: int)
    : (Db, Result<Listing>)
  {
    var q := QueryOf(mobile, disabled, page, pageSize);
    var (db1, count) := CountUsers(like, db, q);
    match count
    case Fail(code) => (db1, Fail(code))
    case Ok(n) =>
      var (db2, found) := FindUsers(like, db1, q);
      match found
      case Fail(code) => (db2, Fail(code))
      case Ok(rows) =>
        (db2, Ok(Listing(AllHidden(rows), Wrap32(n), Wrap32(PageCount(n, q.pageSize)), q.page, q.pageSize)))
  }

  /** What a caller collects who asks for the pages 1 to k. */
  function Collected(like: Like, db: Db, mobile: Option<string>, disabled: Option<bool>, pageSize: int,
      k: nat): seq<UserEntity> {
    if k == 0 then []
    else
      Collected(like, db, mobile, disabled, pageSize, k - 1)
      + match ListUsers(like, db, mobile, disabled, k, pageSize).1 case Fail(_) => [] case Ok(listing) => listing.users
  }

  lemma {:induction false} CollectedArePages(like: Like, db: Db, mobile: Option<string>, disabled: Option<bool>,
      pageSize: int, k: nat)
    requires db.faults == []
    ensures Collected(like, db, mobile, disabled, pageSize, k)
         == AllHidden(Pages(like, db.users, QueryOf(mobile, disabled, 1, pageSize), k))
  {
    hide PageRows, Matching;
    if k > 0 {
      CollectedArePages(like, db, mobile, disabled, pageSize, k - 1);
      var q := QueryOf(mobile, disabled, 1, pageSize);
      assert QueryOf(mobile, disabled, k, pageSize) == q.(page := k);
      assert Issue(db) == db;
      HiddenOfSum(Pages(like, db.users, q, k - 1),
                  match PageRows(like, db.users, q.(page := k)) case None => [] case Some(rows) => rows);
      assert AllHidden([]) == [];
    }
  }

  lemma HiddenOfSum(a: seq<UserEntity>, b: seq<UserEntity>)
    ensures AllHidden(a + b) == AllHidden(a) + AllHidden(b)
  {
  }

  lemma TotalsFit(count: nat, size: int)
    requires 1 <= size && count <= MAX32
    ensures 0 <= PageCount(count, size) <= count
  {
    RoundsUp(count, size);
    var n := PageCount(count, size);
    if n > count {
      Monotone(count, n - 1, size);
      Monotone(1, size, count);
    }
  }

  /** A caller who asks for the pages 1 to the total_pages of any answer collects every
      matching user exactly once, newest first, without password hashes. */
  lemma ListingPartitions(like: Like, db: Db, mobile: Option<string>, disabled: Option<bool>, page: int, pageSize: int)
    requires db.faults == [] && DistinctIds(db.users)
    requires var q := QueryOf(mobile, disabled, page, pageSize);
             |Matching(like, db.users, q)| <= MAX32 && (q.page - 1) * q.pageSize <= MAX32
    ensures var q := QueryOf(mobile, disabled, page, pageSize);
            var (_, r) := ListUsers(like, db, mobile, disabled, page, pageSize);
            && r.Ok? && r.value.totalRecords == |Matching(like, db.users, q)| && r.value.totalPages >= 0
            && var all := Sort(Matching(like, db.users, q));
               && Descending(all) && multiset(all) == multiset(Matching(like, db.users, q))
               && Collected(like, db, mobile, disabled, pageSize, r.value.totalPages) == AllHidden(all)
  {
    hide Sort, Matching, Pages, PageRows, Limit, Wrap32, DistinctIds, Descending;
    var q, q1 := QueryOf(mobile, disabled, page, pageSize), QueryOf(mobile, disabled, 1, pageSize);
    var found := Matching(like, db.users, q);
    var n := TotalPages(|found|, q.pageSize);
    assert Issue(db) == db && q.(page := q.page) == q && q1.(page := q.page) == q;
    SameFilter(like, db.users, q1, q.page);
    PageIsSlice(like, db.users, q, q.page);
    TotalsFit(|found|, q.pageSize);
    MatchingIsExact(like, db.users, q);
    SortKeepsRows(found);
    SortDescends(found);
    SameLength(found);
    PagesUpToAll(like, db.users, q1, n);
    CollectedArePages(like, db, mobile, disabled, pageSize, n);
  }

  lemma PagesUpToAll(like: Like, users: seq<UserEntity>, q: Query, n: nat)
    requires 1 <= q.pageSize && n == TotalPages(|Matching(like, users, q)|, q.pageSize)
    requires |Matching(like, users, q)| <= MAX32
    ensures Pages(like, users, q, n) == Sort(Matching(like, users, q))
  {
    hide Sort, Matching, Pages;
    PagesArePrefix(like, users, q, n);
    SameLength(Matching(like, users, q));
  }
}
