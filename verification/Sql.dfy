/** BuildSQL: parameters for placeholders, and what the server's lexer reads back. */
module Sql {
  import opened Outcome
  import opened Decimal

  /** A bound parameter; a double carries the text std::to_string gives it. */
  datatype Param =
    | Null
    | Int(value: int)
    | UInt(count: nat)
    | Real(printed: string)
    | Text(text: string)
    | Bool(flag: bool)

  datatype Built = Sql(text: string) | NotEnough | TooMany

  type Escape = string -> string

  /** The text that replaces a placeholder. */
  function Printed(escape: Escape, p: Param): string {
    match p
    case Null => "NULL"
    case Int(n) => ToString(n)
    case UInt(n) => ToString(n)
    case Real(s) => s
    case Text(s) => "'" + escape(s) + "'"
    case Bool(b) => if b then "1" else "0"
  }

  function Holes(sql: string): (n: nat)
    ensures n <= |sql|
  {
    if sql == "" then 0 else (if sql[0] == '?' then 1 else 0) + Holes(sql[1..])
  }

  /** The template with its placeholders replaced from left to right. */
  function Fill(escape: Escape, sql: string, params: seq<Param>): string
    requires Holes(sql) == |params|
  {
    if sql == "" then ""
    else if sql[0] == '?' then Printed(escape, params[0]) + Fill(escape, sql[1..], params[1..])
    else [sql[0]] + Fill(escape, sql[1..], params)
  }

  lemma {:induction false} HolesOfSum(a: string, b: string)
    ensures Holes(a + b) == Holes(a) + Holes(b)
  {
    if a == "" {
      assert a + b == b;
    } else {
      assert (a + b)[1..] == a[1..] + b;
      HolesOfSum(a[1..], b);
    }
  }

  /** Substituted text is never scanned again: a template is filled piece by piece. */
  lemma {:induction false} FillOfSum(escape: Escape, a: string, b: string, p: seq<Param>, q: seq<Param>)
    requires Holes(a) == |p| && Holes(b) == |q|
    ensures Holes(a + b) == |p + q|
    ensures Fill(escape, a + b, p + q) == Fill(escape, a, p) + Fill(escape, b, q)
  {
    hide Printed;
    HolesOfSum(a, b);
    if a == "" {
      assert a + b == b && p + q == q;
    } else {
      assert (a + b)[1..] == a[1..] + b;
      if a[0] == '?' {
        assert (p + q)[1..] == p[1..] + q;
        FillOfSum(escape, a[1..], b, p[1..], q);
      } else {
        FillOfSum(escape, a[1..], b, p, q);
      }
    }
  }

  lemma FillPrefix(escape: Escape, sql: string, params: seq<Param>, i: nat, k: nat)
    requires i < |sql| && Holes(sql[..i]) == k <= |params|
    ensures sql[..i + 1] == sql[..i] + [sql[i]]
    ensures Holes(sql[..i + 1]) == k + if sql[i] == '?' then 1 else 0
    ensures sql[i] != '?' ==> Fill(escape, sql[..i + 1], params[..k]) == Fill(escape, sql[..i], params[..k]) + [sql[i]]
    ensures sql[i] == '?' && k < |params| ==>
              Fill(escape, sql[..i + 1], params[..k + 1])
              == Fill(escape, sql[..i], params[..k]) + Printed(escape, params[k])
  {
    hide Printed, Fill;
    var last := [sql[i]];
    assert sql[..i + 1] == sql[..i] + last;
    OneCharacter(escape, sql[i], if k < |params| then params[k] else Null);
    HolesOfSum(sql[..i], last);
    if sql[i] != '?' {
      assert params[..k] + [] == params[..k];
      FillOfSum(escape, sql[..i], last, params[..k], []);
    } else if k < |params| {
      assert params[..k + 1] == params[..k] + [params[k]];
      FillOfSum(escape, sql[..i], last, params[..k], [params[k]]);
    }
  }

  lemma OneCharacter(escape: Escape, c: char, p: Param)
    ensures Holes([c]) == if c == '?' then 1 else 0
    ensures c != '?' ==> Fill(escape, [c], []) == [c]
    ensures c == '?' ==> Fill(escape, [c], [p]) == Printed(escape, p)
  {
    hide Printed;
    assert [c][1..] == "";
    assert [p][1..] == [];
  }

  /** BuildSQL succeeds exactly when placeholders and parameters are equally many. */
  method BuildSQL(escape: Escape, sql: string, params: seq<Param>) returns (r: Built)
    ensures r.NotEnough? <==> Holes(sql) > |params|
    ensures r.TooMany? <==> Holes(sql) < |params|
    ensures r.Sql? <==> Holes(sql) == |params|
    ensures r.Sql? ==> r.text == Fill(escape, sql, params)
  {
    hide Holes, Fill, Printed;
    var result, param := "", 0;
    EmptyFill(escape);
    assert sql[..0] == "" && params[..0] == [];
    for i := 0 to |sql|
      invariant param <= |params| && Holes(sql[..i]) == param
      invariant result == Fill(escape, sql[..i], params[..param])
    {
      FillPrefix(escape, sql, params, i, param);
      if sql[i] == '?' {
        if param == |params| {
          assert sql == sql[..i + 1] + sql[i + 1..];
          HolesOfSum(sql[..i + 1], sql[i + 1..]);
          return NotEnough;
        }
        result := result + Printed(escape, params[param]);
        param := param + 1;
      } else {
        result := result + [sql[i]];
      }
    }
    assert sql[..|sql|] == sql;
    if param != |params| { return TooMany; }
    assert params[..param] == params;
    r := Sql(result);
  }

  lemma EmptyFill(escape: Escape)
    ensures Holes("") == 0 && Fill(escape, "", []) == ""
  {
  }

  // ---------------------------------------------------------------------
  // The server's lexer, as far as single-quoted literals go.
  // ---------------------------------------------------------------------

  datatype Token = Char(c: char) | Literal(value: string)

  /** What a backslash and a letter stand for inside a literal. */
  function Unescaped(c: char): string {
    match c
    case '0' => [0 as char]
    case 'b' => [8 as char]
    case 't' => [9 as char]
    case 'n' => [10 as char]
    case 'r' => [13 as char]
    case 'Z' => [26 as char]
    case '%' => "\\%"
    case '_' => "\\_"
    case _ => [c]
  }

  function Prepend(s: string, r: Option<(string, string)>): Option<(string, string)> {
    match r case None => None case Some(p) => Some((s + p.0, p.1))
  }

  /** Reads a literal past its opening quote: the value, and the text after the closing
      quote. A doubled quote stands for one. */
  function ReadLiteral(s: string): (r: Option<(string, string)>)
    ensures r.Some? ==> |r.value.1| < |s|
  {
    if s == "" then None
    else if s[0] == '\'' then
      if |s| > 1 && s[1] == '\'' then Prepend("'", ReadLiteral(s[2..])) else Some(("", s[1..]))
    else if s[0] == '\\' then
      if |s| == 1 then None else Prepend(Unescaped(s[1]), ReadLiteral(s[2..]))
    else Prepend([s[0]], ReadLiteral(s[1..]))
  }

  /** Characters outside literals are their own tokens; other quotes are not read. */
  function Lex(s: string): Option<seq<Token>>
    decreases |s|
  {
    if s == "" then Some([])
    else if s[0] == '\'' then
      var r := ReadLiteral(s[1..]);
      if r.None? then None
      else (match Lex(r.value.1) case None => None case Some(ts) => Some([Literal(r.value.0)] + ts))
    else if s[0] == '"' || s[0] == '`' then None
    else (match Lex(s[1..]) case None => None case Some(ts) => Some([Char(s[0])] + ts))
  }

  predicate QuoteFree(s: string) {
    forall i :: 0 <= i < |s| ==> s[i] != '\'' && s[i] != '"' && s[i] != '`'
  }

  /** What the server promises of its escaping: a literal reader reads it back. */
  ghost predicate Inverted(escape: Escape) {
    forall v, rest :: ReadsBack(escape, v, rest)
  }

  predicate ReadsBack(escape: Escape, v: string, rest: string) {
    ReadLiteral(escape(v) + rest) == Prepend(v, ReadLiteral(rest))
  }

  function Chars(s: string): seq<Token> {
    seq(|s|, i requires 0 <= i < |s| => Char(s[i]))
  }

  /** A parameter as the server should read it. */
  function ParamTokens(escape: Escape, p: Param): seq<Token> {
    if p.Text? then [Literal(p.text)] else Chars(Printed(escape, p))
  }

  /** The template's tokens, each text parameter a single literal of its value. */
  function Expected(escape: Escape, sql: string, params: seq<Param>): seq<Token>
    requires Holes(sql) == |params|
  {
    if sql == "" then []
    else if sql[0] != '?' then [Char(sql[0])] + Expected(escape, sql[1..], params)
    else ParamTokens(escape, params[0]) + Expected(escape, sql[1..], params[1..])
  }

  /** Two text parameters stand side by side. */
  predicate TextsTouch(sql: string, params: seq<Param>)
    requires Holes(sql) == |params|
  {
    if sql == "" then false
    else if sql[0] != '?' then TextsTouch(sql[1..], params)
    else (TextFirst(sql[1..], params[1..]) && params[0].Text?) || TextsTouch(sql[1..], params[1..])
  }

  // The rest of the template begins with a text parameter.
  predicate TextFirst(sql: string, params: seq<Param>)
    requires Holes(sql) == |params|
  {
    sql != "" && sql[0] == '?' && params[0].Text?
  }

  predicate RealsArePlain(params: seq<Param>) {
    forall p :: p in params && p.Real? ==> p.printed != "" && QuoteFree(p.printed)
  }

  lemma {:induction false} LexChars(s: string, rest: string)
    requires QuoteFree(s)
    ensures Lex(s + rest) == match Lex(rest) case None => None case Some(ts) => Some(Chars(s) + ts)
  {
    if s == "" {
      assert s + rest == rest;
      assert Chars(s) == [];
      if Lex(rest).Some? { assert Chars(s) + Lex(rest).value == Lex(rest).value; }
    } else {
      assert (s + rest)[1..] == s[1..] + rest;
      LexChars(s[1..], rest);
      assert Chars(s) == [Char(s[0])] + Chars(s[1..]);
      if Lex(rest).Some? { assert [Char(s[0])] + (Chars(s[1..]) + Lex(rest).value) == Chars(s) + Lex(rest).value; }
    }
  }

  lemma PrintedIsPlain(escape: Escape, p: Param)
    requires !p.Text? && RealsArePlain([p])
    ensures Printed(escape, p) != "" && QuoteFree(Printed(escape, p))
  {
    assert p in [p];
  }

  /** The filled template begins with a quote exactly when a text parameter comes first. */
  lemma StartsWithQuote(escape: Escape, sql: string, params: seq<Param>)
    requires Holes(sql) == |params| && QuoteFree(sql) && RealsArePlain(params)
    ensures var s := Fill(escape, sql, params); s != "" && s[0] == '\'' <==> TextFirst(sql, params)
  {
    hide QuoteFree, Printed;
    if sql != "" {
      if sql[0] == '?' {
        if params[0].Text? {
          TextIsQuoted(escape, params[0]);
        } else {
          assert RealsArePlain([params[0]]) by { assert params[0] in params; }
          PrintedIsPlain(escape, params[0]);
          FirstIsPlain(Printed(escape, params[0]));
        }
      } else {
        FirstIsPlain(sql);
      }
    }
  }

  lemma FirstIsPlain(s: string)
    requires QuoteFree(s) && s != ""
    ensures s[0] != '\''
  {
  }

  lemma TextIsQuoted(escape: Escape, p: Param)
    requires p.Text?
    ensures Printed(escape, p) == "'" + escape(p.text) + "'"
  {
  }

  /** Lexing a quoted text: the literal is its value when no quote follows, and otherwise
      runs on or never ends. */
  lemma LexText(escape: Escape, v: string, rest: string)
    requires Inverted(escape)
    ensures var r := Lex("'" + escape(v) + "'" + rest);
            if rest != "" && rest[0] == '\'' then r.None? || (r.value != [] && r.value[0] != Literal(v))
            else r == match Lex(rest) case None => None case Some(ts) => Some([Literal(v)] + ts)
  {
    var s := "'" + escape(v) + "'" + rest;
    assert s[1..] == escape(v) + ("'" + rest);
    assert ReadsBack(escape, v, "'" + rest);
    assert ("'" + rest)[1..] == rest;
    if rest != "" && rest[0] == '\'' {
      assert ("'" + rest)[2..] == rest[1..];
    } else {
      assert v + "" == v;
    }
  }

  /** Given the escaping contract and a template without quotes, the server reads the
      template's own tokens, each text parameter as one literal of exactly its value, if
      and only if no two text parameters touch. */
  lemma {:induction false} LexFill(escape: Escape, sql: string, params: seq<Param>)
    requires Holes(sql) == |params| && QuoteFree(sql) && RealsArePlain(params) && Inverted(escape)
    ensures Lex(Fill(escape, sql, params)) == Some(Expected(escape, sql, params)) <==> !TextsTouch(sql, params)
  {
    hide Printed, ReadLiteral, Inverted;
    if sql != "" {
      var tail := sql[1..];
      if sql[0] != '?' {
        LexFill(escape, tail, params);
        assert (Fill(escape, sql, params))[1..] == Fill(escape, tail, params);
        SameTails([Char(sql[0])], Lex(Fill(escape, tail, params)), Expected(escape, tail, params));
      } else {
        assert params == [params[0]] + params[1..];
        var rest, ts := Fill(escape, tail, params[1..]), Expected(escape, tail, params[1..]);
        LexFill(escape, tail, params[1..]);
        if params[0].Text? {
          TextIsQuoted(escape, params[0]);
          LexText(escape, params[0].text, rest);
          StartsWithQuote(escape, tail, params[1..]);
          SameTails([Literal(params[0].text)], Lex(rest), ts);
        } else {
          assert RealsArePlain([params[0]]) by { assert params[0] in params; }
          PrintedIsPlain(escape, params[0]);
          LexChars(Printed(escape, params[0]), rest);
          SameTails(Chars(Printed(escape, params[0])), Lex(rest), ts);
        }
      }
    }
  }

  lemma {:induction false} ExpectedOfSum(escape: Escape, a: string, b: string, p: seq<Param>, q: seq<Param>)
    requires Holes(a) == |p| && Holes(b) == |q|
    ensures Holes(a + b) == |p + q|
    ensures Expected(escape, a + b, p + q) == Expected(escape, a, p) + Expected(escape, b, q)
  {
    hide ParamTokens;
    HolesOfSum(a, b);
    if a == "" {
      assert a + b == b && p + q == q;
    } else {
      assert (a + b)[1..] == a[1..] + b;
      if a[0] == '?' {
        assert (p + q)[1..] == p[1..] + q;
        ExpectedOfSum(escape, a[1..], b, p[1..], q);
      } else {
        ExpectedOfSum(escape, a[1..], b, p, q);
      }
    }
  }

  /** A piece without placeholders is its characters. */
  lemma {:induction false} ExpectedOfText(escape: Escape, s: string)
    requires '?' !in s
    ensures Holes(s) == 0 && Expected(escape, s, []) == Chars(s)
  {
    if s == "" {
      assert Chars(s) == [];
    } else {
      ExpectedOfText(escape, s[1..]);
      assert Chars(s) == [Char(s[0])] + Chars(s[1..]);
    }
  }

  /** A piece that ends in its only placeholder. */
  lemma ExpectedOfHole(escape: Escape, s: string, p: Param)
    requires '?' !in s
    ensures Holes(s + "?") == 1 && Expected(escape, s + "?", [p]) == Chars(s) + ParamTokens(escape, p)
  {
    hide ParamTokens;
    ExpectedOfText(escape, s);
    assert "?"[1..] == "" && [p][1..] == [] && [] + [p] == [p];
    assert Holes("?") == 1 && Expected(escape, "?", [p]) == ParamTokens(escape, p) + [];
    ExpectedOfSum(escape, s, "?", [], [p]);
  }

  /** Texts that touch are neighbours among the parameters. */
  lemma {:induction false} TouchingTextsAreNeighbours(sql: string, params: seq<Param>) returns (i: nat)
    requires Holes(sql) == |params| && TextsTouch(sql, params)
    ensures i + 1 < |params| && params[i].Text? && params[i + 1].Text?
  {
    if sql[0] != '?' {
      i := TouchingTextsAreNeighbours(sql[1..], params);
    } else if TextFirst(sql[1..], params[1..]) && params[0].Text? {
      i := 0;
    } else {
      var j := TouchingTextsAreNeighbours(sql[1..], params[1..]);
      i := j + 1;
    }
  }

  lemma SameTails(head: seq<Token>, tail: Option<seq<Token>>, ts: seq<Token>)
    ensures tail.Some? ==> (head + tail.value == head + ts <==> tail.value == ts)
  {
    if tail.Some? && head + tail.value == head + ts {
      assert tail.value == (head + tail.value)[|head|..] == (head + ts)[|head|..] == ts;
    }
  }

  // ---------------------------------------------------------------------
  // The server's escaping meets its contract.
  // ---------------------------------------------------------------------

  function EscapeChar(c: char): string {
    match c as int
    case 0 => "\\0"
    case 10 => "\\n"
    case 13 => "\\r"
    case 26 => "\\Z"
    case _ => if c == '\\' || c == '\'' || c == '"' then ['\\', c] else [c]
  }

  /** mysql_real_escape_string with backslash escapes on. */
  function MysqlEscape(s: string): string {
    if s == "" then "" else EscapeChar(s[0]) + MysqlEscape(s[1..])
  }

  lemma CharReadsBack(c: char, rest: string)
    ensures ReadLiteral(EscapeChar(c) + rest) == Prepend([c], ReadLiteral(rest))
  {
    var e := EscapeChar(c);
    assert (e + rest)[|e|..] == rest;
  }

  lemma {:induction false} EscapeReadsBack(v: string, rest: string)
    ensures ReadsBack(MysqlEscape, v, rest)
  {
    hide EscapeChar, ReadLiteral;
    if v == "" {
      assert MysqlEscape(v) + rest == rest;
      if ReadLiteral(rest).Some? { assert "" + ReadLiteral(rest).value.0 == ReadLiteral(rest).value.0; }
    } else {
      assert MysqlEscape(v) + rest == EscapeChar(v[0]) + (MysqlEscape(v[1..]) + rest);
      CharReadsBack(v[0], MysqlEscape(v[1..]) + rest);
      EscapeReadsBack(v[1..], rest);
      if ReadLiteral(rest).Some? {
        assert [v[0]] + (v[1..] + ReadLiteral(rest).value.0) == v + ReadLiteral(rest).value.0;
      }
    }
  }

  /** So the theorem above holds of the escaping the client library does. */
  lemma MysqlEscapeIsInverted()
    ensures Inverted(MysqlEscape)
  {
    forall v, rest ensures ReadsBack(MysqlEscape, v, rest) {
      EscapeReadsBack(v, rest);
    }
  }
}
