/** The token service's JSON printer and cursor parser. A std::map<string, string> is
    the list of its entries in iteration order, which is increasing order of the keys. */
module ClaimsJson {
  import opened Decimal

  type Claims = seq<(string, string)>

  // ---------------------------------------------------------------------
  // std::map: lookup, assignment and order.
  // ---------------------------------------------------------------------

  /** std::string's operator<. */
  predicate Less(a: string, b: string) {
    if b == [] then false
    else if a == [] then true
    else a[0] < b[0] || (a[0] == b[0] && Less(a[1..], b[1..]))
  }

  lemma {:induction false} LessIsAsymmetric(a: string, b: string)
    requires Less(a, b)
    ensures !Less(b, a) && a != b
  {
    if a != [] && a[0] == b[0] {
      LessIsAsymmetric(a[1..], b[1..]);
    }
  }

  predicate AllLess(c: Claims, key: string) {
    forall i :: 0 <= i < |c| ==> Less(c[i].0, key)
  }

  predicate Sorted(c: Claims) {
    forall i, j :: 0 <= i < j < |c| ==> Less(c[i].0, c[j].0)
  }

  /** claims[key] for a key that is present; the empty string otherwise. */
  function Get(c: Claims, key: string): string {
    if c == [] then "" else if c[0].0 == key then c[0].1 else Get(c[1..], key)
  }

  predicate Has(c: Claims, key: string) {
    c != [] && (c[0].0 == key || Has(c[1..], key))
  }

  /** claims[key] = value. */
  function Put(c: Claims, key: string, value: string): Claims {
    if c == [] then [(key, value)]
    else if c[0].0 == key then [(key, value)] + c[1..]
    else if Less(key, c[0].0) then [(key, value)] + c
    else [c[0]] + Put(c[1..], key, value)
  }

  lemma {:induction false} PutThenGet(c: Claims, key: string, value: string, k: string)
    ensures Get(Put(c, key, value), k) == if k == key then value else Get(c, k)
  {
    if c != [] && c[0].0 != key && !Less(key, c[0].0) {
      PutThenGet(c[1..], key, value, k);
    }
  }

  lemma {:induction false} PutLast(c: Claims, key: string, value: string)
    requires AllLess(c, key)
    ensures Put(c, key, value) == c + [(key, value)]
  {
    if c != [] {
      assert Less(c[0].0, key);
      LessIsAsymmetric(c[0].0, key);
      PutLast(c[1..], key, value);
    }
  }

  lemma {:induction false} GetLast(c: Claims, key: string, value: string)
    requires AllLess(c, key)
    ensures Get(c + [(key, value)], key) == value
  {
    if c != [] {
      assert Less(c[0].0, key);
      LessIsAsymmetric(c[0].0, key);
      assert (c + [(key, value)])[1..] == c[1..] + [(key, value)];
      GetLast(c[1..], key, value);
    }
  }

  lemma {:induction false} LessIsTransitive(a: string, b: string, c: string)
    requires Less(a, b) && Less(b, c)
    ensures Less(a, c)
  {
    if a != [] && a[0] == b[0] && b[0] == c[0] {
      LessIsTransitive(a[1..], b[1..], c[1..]);
    }
  }

  lemma {:induction false} ChainIsSorted(c: Claims)
    requires forall i :: 0 <= i < |c| - 1 ==> Less(c[i].0, c[i + 1].0)
    ensures Sorted(c)
  {
    hide Less;
    if |c| > 1 {
      var t := c[1..];
      forall i | 0 <= i < |t| - 1 ensures Less(t[i].0, t[i + 1].0) {
        assert Less(c[i + 1].0, c[i + 1 + 1].0);
      }
      ChainIsSorted(t);
      assert Less(c[0].0, c[0 + 1].0);
      forall j | 0 < j < |c| ensures Less(c[0].0, c[j].0) {
        if j > 1 {
          assert Less(t[0].0, t[j - 1].0);
          LessIsTransitive(c[0].0, c[1].0, c[j].0);
        }
      }
      forall i, j | 0 <= i < j < |c| ensures Less(c[i].0, c[j].0) {
        if i > 0 {
          assert Less(t[i - 1].0, t[j - 1].0);
        }
      }
    }
  }

  /** In a map every entry is found under its own key. */
  lemma {:induction false} GetAt(c: Claims, i: nat)
    requires Sorted(c) && i < |c|
    ensures Has(c, c[i].0) && Get(c, c[i].0) == c[i].1
  {
    if i > 0 {
      assert Less(c[0].0, c[i].0);
      LessIsAsymmetric(c[0].0, c[i].0);
      GetAt(c[1..], i - 1);
    }
  }

  // ---------------------------------------------------------------------
  // The printer.
  // ---------------------------------------------------------------------

  const QUOTE := '\"'
  const BACKSLASH := '\\'
  const BACKSPACE: char := 8 as char
  const FORMFEED: char := 12 as char

  function EscapeChar(c: char): (r: string)
    ensures 1 <= |r| <= 2
  {
    if c == QUOTE then [BACKSLASH, QUOTE]
    else if c == BACKSLASH then [BACKSLASH, BACKSLASH]
    else if c == BACKSPACE then [BACKSLASH, 'b']
    else if c == FORMFEED then [BACKSLASH, 'f']
    else if c == '\n' then [BACKSLASH, 'n']
    else if c == '\r' then [BACKSLASH, 'r']
    else if c == '\t' then [BACKSLASH, 't']
    else [c]
  }

  function Escape(s: string): string {
    if s == [] then [] else EscapeChar(s[0]) + Escape(s[1..])
  }

  /** The test that decides whether a value is printed without quotes. */
  predicate IsNumber(value: string) {
    value != [] && (IsDigit(value[0]) || (value[0] == '-' && |value| > 1))
  }

  function PrintValue(value: string): (r: string)
    ensures r != []
  {
    if IsNumber(value) then value else [QUOTE] + Escape(value) + [QUOTE]
  }

  function PrintMember(key: string, value: string): string {
    [QUOTE] + Escape(key) + [QUOTE, ':'] + PrintValue(value)
  }

  function PrintMembers(c: Claims): string {
    if c == [] then []
    else if |c| == 1 then PrintMember(c[0].0, c[0].1)
    else PrintMember(c[0].0, c[0].1) + [','] + PrintMembers(c[1..])
  }

  function Print(c: Claims): string {
    ['{'] + PrintMembers(c) + ['}']
  }

  // ---------------------------------------------------------------------
  // The parser, as functions from the unread text to a value and the rest.
  // ---------------------------------------------------------------------

  /** json[i] of a std::string: the terminating NUL at the end. */
  function At(s: string): char {
    if s == [] then 0 as char else s[0]
  }

  function Unescape(c: char): char {
    if c == 'n' then '\n' else if c == 'r' then '\r' else if c == 't' then '\t' else c
  }

  /** The rest of a string after its opening quote. */
  function StringBody(s: string): (r: (string, string))
    ensures |r.0| <= |s| && |r.1| <= |s|
  {
    if s == [] then ([], [])
    else if s[0] == QUOTE then ([], s[1..])
    else if s[0] == BACKSLASH && |s| > 1 then
      var (text, rest) := StringBody(s[2..]);
      ([Unescape(s[1])] + text, rest)
    else
      var (text, rest) := StringBody(s[1..]);
      ([s[0]] + text, rest)
  }

  /** parse_string: consumes nothing when there is no opening quote. */
  function ParseString(s: string): (r: (string, string))
    ensures |r.0| <= |s| && |r.1| <= |s|
    ensures At(s) == QUOTE ==> |r.1| < |s|
    ensures At(s) != QUOTE ==> r == ("", s)
  {
    if At(s) == QUOTE then StringBody(s[1..]) else ("", s)
  }

  /** An unquoted value: everything but white space up to a ',' or '}'. */
  function Bare(s: string): (r: (string, string))
    ensures |r.0| <= |s| && |r.1| <= |s|
    ensures s != [] && s[0] != ',' && s[0] != '}' ==> |r.1| < |s|
  {
    if s == [] || s[0] == ',' || s[0] == '}' then ([], s)
    else
      var (text, rest) := Bare(s[1..]);
      (if IsSpace(s[0]) then text else [s[0]] + text, rest)
  }

  function ParseValue(s: string): (r: (string, string))
    ensures |r.0| <= |s| && |r.1| <= |s|
    ensures s != [] && !IsSpace(s[0]) && s[0] != ',' && s[0] != '}' ==> |r.1| < |s|
  {
    var t := SkipSpace(s);
    if t == [] then ("", [])
    else if t[0] == QUOTE then ParseString(t)
    else Bare(t)
  }

  /** One key and its value, from text that starts with neither space, ',' nor '}'. */
  function ParseMember(s: string): (r: (string, string, string))
    ensures |r.1| <= |s| && |r.2| <= |s|
    ensures s != [] && !IsSpace(s[0]) && s[0] != ',' && s[0] != '}' ==> |r.2| < |s|
  {
    var (key, afterKey) := ParseString(s);
    var colon := SkipSpace(afterKey);
    var (value, rest) := ParseValue(if At(colon) == ':' then colon[1..] else colon);
    (key, value, rest)
  }

  /** The member loop. Every iteration consumes text, even when no string is found. */
  function ParseMembers(s: string, acc: Claims): Claims
    decreases |s|
  {
    if s == [] then acc
    else
      var t := SkipSpace(s);
      if At(t) == '}' then acc
      else if At(t) == ',' then ParseMembers(t[1..], acc)
      else
        var (key, value, rest) := ParseMember(t);
        ParseMembers(rest, if key != "" then Put(acc, key, value) else acc)
  }

  function Parse(json: string): Claims {
    var t := SkipSpace(json);
    if At(t) != '{' then [] else ParseMembers(t[1..], [])
  }

  // ---------------------------------------------------------------------
  // The round trip.
  // ---------------------------------------------------------------------

  /** Text that survives quoting: the parser does not decode \b and \f. */
  predicate Quotable(s: string) {
    BACKSPACE !in s && FORMFEED !in s
  }

  /** Text that survives being printed without quotes. */
  predicate Unbroken(s: string) {
    forall i :: 0 <= i < |s| ==> s[i] != ',' && s[i] != '}' && !IsSpace(s[i])
  }

  predicate GoodKey(key: string) {
    key != "" && Quotable(key)
  }

  predicate GoodValue(value: string) {
    if IsNumber(value) then Unbroken(value) else Quotable(value)
  }

  predicate Good(c: Claims) {
    forall i :: 0 <= i < |c| ==> GoodKey(c[i].0) && GoodValue(c[i].1)
  }

  predicate AtDelimiter(rest: string) {
    rest != [] && (rest[0] == ',' || rest[0] == '}')
  }

  /** What quoting and parsing does to a character: \b and \f come back as letters. */
  function Requote(c: char): char {
    if c == BACKSPACE then 'b' else if c == FORMFEED then 'f' else c
  }

  function Requoted(s: string): (r: string)
    ensures |r| == |s| && forall i :: 0 <= i < |s| ==> r[i] == Requote(s[i])
  {
    seq(|s|, i requires 0 <= i < |s| => Requote(s[i]))
  }

  lemma QuotableIsFixed(s: string)
    ensures Requoted(s) == s <==> Quotable(s)
  {
    if Requoted(s) == s {
      forall i | 0 <= i < |s| ensures s[i] != BACKSPACE && s[i] != FORMFEED {
        assert Requote(s[i]) == s[i];
      }
    }
  }

  lemma BodyOfPair(e: char, tail: string)
    ensures StringBody([BACKSLASH, e] + tail) == ([Unescape(e)] + StringBody(tail).0, StringBody(tail).1)
  {
    hide Unescape;
    assert ([BACKSLASH, e] + tail)[2..] == tail;
  }

  lemma BodyOfPlain(c: char, tail: string)
    requires c != QUOTE && c != BACKSLASH
    ensures StringBody([c] + tail) == ([c] + StringBody(tail).0, StringBody(tail).1)
  {
    assert ([c] + tail)[1..] == tail;
  }

  lemma BodyOfChar(c: char, tail: string)
    ensures StringBody(EscapeChar(c) + tail) == ([Requote(c)] + StringBody(tail).0, StringBody(tail).1)
  {
    hide StringBody;
    if |EscapeChar(c)| == 2 {
      BodyOfPair(EscapeChar(c)[1], tail);
    } else {
      BodyOfPlain(c, tail);
    }
  }

  lemma {:induction false} BodyOfEscape(s: string, rest: string)
    ensures StringBody(Escape(s) + [QUOTE] + rest) == (Requoted(s), rest)
  {
    hide EscapeChar, Requote;
    if s == [] {
      assert Escape(s) + [QUOTE] + rest == [QUOTE] + rest;
    } else {
      BodyOfEscape(s[1..], rest);
      var tail := Escape(s[1..]) + [QUOTE] + rest;
      assert Escape(s) + [QUOTE] + rest == EscapeChar(s[0]) + tail;
      BodyOfChar(s[0], tail);
      assert Requoted(s) == [Requote(s[0])] + Requoted(s[1..]);
    }
  }

  lemma {:induction false} BareOfUnbroken(s: string, rest: string)
    requires Unbroken(s) && AtDelimiter(rest)
    ensures Bare(s + rest) == (s, rest)
  {
    if s == [] {
      assert s + rest == rest;
    } else {
      assert (s + rest)[1..] == s[1..] + rest;
      BareOfUnbroken(s[1..], rest);
      assert s == [s[0]] + s[1..];
    }
  }

  lemma ParseQuoted(value: string, rest: string)
    ensures ParseValue([QUOTE] + Escape(value) + [QUOTE] + rest) == (Requoted(value), rest)
  {
    hide Escape, StringBody, Requoted;
    var s := [QUOTE] + Escape(value) + [QUOTE] + rest;
    BodyOfEscape(value, rest);
    assert s[1..] == Escape(value) + [QUOTE] + rest;
    assert SkipSpace(s) == s;
  }

  lemma ParseUnquoted(value: string, rest: string)
    requires IsNumber(value)
    ensures ParseValue(value + rest) == Bare(value + rest)
  {
    hide Bare, StringBody;
    assert (value + rest)[0] == value[0];
    assert SkipSpace(value + rest) == value + rest;
  }

  lemma ParseValueOfPrint(value: string, rest: string)
    requires GoodValue(value) && AtDelimiter(rest)
    ensures ParseValue(PrintValue(value) + rest) == (value, rest)
  {
    hide ParseValue, Escape, Bare, IsNumber, Requoted;
    if IsNumber(value) {
      ParseUnquoted(value, rest);
      BareOfUnbroken(value, rest);
    } else {
      ParseQuoted(value, rest);
      QuotableIsFixed(value);
    }
  }

  /** A printed key leads the parser to exactly the text of its value. */
  lemma ParseKeyOfPrint(key: string, text: string)
    requires GoodKey(key)
    ensures var r := ParseMember([QUOTE] + Escape(key) + [QUOTE, ':'] + text);
            r.0 == key && (r.1, r.2) == ParseValue(text)
  {
    hide StringBody, Escape, ParseValue, Requoted;
    var s := [QUOTE] + Escape(key) + [QUOTE, ':'] + text;
    BodyOfEscape(key, [':'] + text);
    QuotableIsFixed(key);
    assert s[1..] == Escape(key) + [QUOTE] + ([':'] + text);
    assert ([':'] + text)[1..] == text;
  }

  lemma ParseMembersOfPrint(key: string, value: string, rest: string, acc: Claims)
    requires GoodKey(key) && GoodValue(value) && AtDelimiter(rest)
    ensures ParseMembers(PrintMember(key, value) + rest, acc) == ParseMembers(rest, Put(acc, key, value))
  {
    hide ParseValue, Escape, GoodValue, Put, PrintValue, ParseMember;
    var text := PrintValue(value) + rest;
    var s := PrintMember(key, value) + rest;
    assert s == [QUOTE] + Escape(key) + [QUOTE, ':'] + text;
    ParseKeyOfPrint(key, text);
    ParseValueOfPrint(value, rest);
    assert SkipSpace(s) == s;
  }

  /** The printed claims before the last one, each with its comma. */
  function PrintHead(c: Claims): string {
    if c == [] then [] else PrintMember(c[0].0, c[0].1) + [','] + PrintHead(c[1..])
  }

  lemma {:induction false} PrintMembersLast(c: Claims, key: string, value: string)
    ensures PrintMembers(c + [(key, value)]) == PrintHead(c) + PrintMember(key, value)
  {
    hide PrintMember;
    var all := c + [(key, value)];
    if c != [] {
      assert all[1..] == c[1..] + [(key, value)];
      PrintMembersLast(c[1..], key, value);
    }
  }

  /** Good claims in increasing order are read back one by one. */
  lemma {:induction false} ParseHead(c: Claims, acc: Claims, text: string)
    requires Good(c) && Sorted(acc + c)
    ensures ParseMembers(PrintHead(c) + text, acc) == ParseMembers(text, acc + c)
    decreases |c|
  {
    hide PrintMember, Less, GoodKey, GoodValue;
    if c == [] {
      assert PrintHead(c) + text == text && acc + c == acc;
    } else {
      var (key, value) := c[0];
      forall i | 0 <= i < |acc| ensures Less(acc[i].0, key) {
        assert (acc + c)[i] == acc[i] && (acc + c)[|acc|] == c[0];
      }
      PutLast(acc, key, value);
      assert (acc + [c[0]]) + c[1..] == acc + c;
      var more := PrintHead(c[1..]) + text;
      assert PrintHead(c) + text == PrintMember(key, value) + ([','] + more);
      ParseMembersOfPrint(key, value, [','] + more, acc);
      ParseComma(more, acc + [c[0]]);
      ParseHead(c[1..], acc + [c[0]], text);
    }
  }

  lemma ParseComma(more: string, acc: Claims)
    ensures ParseMembers([','] + more, acc) == ParseMembers(more, acc)
  {
    assert ([','] + more)[1..] == more;
    assert SkipSpace([','] + more) == [','] + more;
  }

  lemma ParseStart(text: string)
    ensures Parse(['{'] + text) == ParseMembers(text, [])
  {
    assert (['{'] + text)[1..] == text;
    assert SkipSpace(['{'] + text) == ['{'] + text;
  }

  lemma ParseEnd(acc: Claims)
    ensures ParseMembers(['}'], acc) == acc
  {
    assert SkipSpace(['}']) == ['}'];
  }

  lemma PrintLast(c: Claims, key: string, value: string)
    ensures Print(c + [(key, value)]) == ['{'] + (PrintHead(c) + (PrintMember(key, value) + ['}']))
  {
    hide PrintMember, PrintHead, PrintMembers;
    PrintMembersLast(c, key, value);
  }

  lemma ParsePrintLast(c: Claims, key: string, value: string)
    requires Good(c) && Sorted(c) && AllLess(c, key) && GoodKey(key) && GoodValue(value)
    ensures Parse(Print(c + [(key, value)])) == c + [(key, value)]
  {
    hide PrintMember, Less, GoodKey, GoodValue, Parse, ParseMembers, PrintHead, Put, Print;
    var text := PrintMember(key, value) + ['}'];
    PrintLast(c, key, value);
    ParseStart(PrintHead(c) + text);
    assert [] + c == c;
    ParseHead(c, [], text);
    ParseMembersOfPrint(key, value, ['}'], c);
    ParseEnd(Put(c, key, value));
    PutLast(c, key, value);
  }

  /** Parsing what was printed gives the same map, for every map of good entries. */
  lemma ParsePrint(c: Claims)
    requires Good(c) && Sorted(c)
    ensures Parse(Print(c)) == c
  {
    hide Less, GoodKey, GoodValue, Parse, ParseMembers, PrintHead;
    if c == [] {
      ParseStart(['}']);
      ParseEnd(c);
      assert Print(c) == ['{'] + ['}'];
    } else {
      var init, last := c[..|c| - 1], c[|c| - 1];
      assert c == init + [(last.0, last.1)];
      ParsePrintLast(init, last.0, last.1);
    }
  }

  // ---------------------------------------------------------------------
  // The round trip fails whenever the last value is not good.
  // ---------------------------------------------------------------------

  /** No value the parser finds is longer than the text it reads. */
  lemma {:induction false} ParsedValuesAreShort(s: string, acc: Claims, k: string)
    ensures Get(ParseMembers(s, acc), k) == Get(acc, k) || |Get(ParseMembers(s, acc), k)| <= |s|
    decreases |s|
  {
    if s != [] {
      var t := SkipSpace(s);
      if At(t) == '}' {
      } else if At(t) == ',' {
        ParsedValuesAreShort(t[1..], acc, k);
      } else {
        var (key, value, rest) := ParseMember(t);
        var next := if key != "" then Put(acc, key, value) else acc;
        if key != "" { PutThenGet(acc, key, value, k); }
        ParsedValuesAreShort(rest, next, k);
      }
    }
  }

  lemma {:induction false} BareOfBroken(s: string)
    requires !Unbroken(s)
    ensures |Bare(s + ['}']).0| < |s|
    ensures |Bare(s + ['}']).1| <= |s| + 1 - |Bare(s + ['}']).0|
    ensures AtDelimiter(Bare(s + ['}']).1)
  {
    var r := s + ['}'];
    assert s[0] == r[0];
    if s[0] != ',' && s[0] != '}' {
      assert r[1..] == s[1..] + ['}'];
      if Unbroken(s[1..]) {
        BareOfUnbroken(s[1..], ['}']);
      } else {
        BareOfBroken(s[1..]);
      }
    }
  }


  /** The value the parser first reads for a bad value, and what it can read after it. */
  lemma BadValueIsNotReadBack(value: string)
    requires !GoodValue(value)
    ensures var (found, rest) := ParseValue(PrintValue(value) + ['}']);
            found != value && AtDelimiter(rest) && (rest == ['}'] || |rest| <= |value|)
  {
    hide ParseValue, Escape, Bare, IsNumber, Requoted;
    if IsNumber(value) {
      ParseUnquoted(value, ['}']);
      BareOfBroken(value);
      NumberReadsSomething(value);
    } else {
      ParseQuoted(value, ['}']);
      QuotableIsFixed(value);
    }
  }

  lemma NumberReadsSomething(value: string)
    requires IsNumber(value)
    ensures Bare(value + ['}']).0 != []
  {
    assert (value + ['}'])[0] == value[0];
  }

  lemma BadLastValue(c: Claims, key: string, value: string)
    requires Good(c) && Sorted(c) && GoodKey(key) && !GoodValue(value)
    ensures Get(ParseMembers(PrintHead(c) + (PrintMember(key, value) + ['}']), []), key) != value
  {
    hide Escape, Sorted, Good, GoodKey, GoodValue, ParseValue, ParseMember, Get, Put, PrintHead, IsNumber;
    var printed := PrintValue(value) + ['}'];
    var text := PrintMember(key, value) + ['}'];
    assert text == [QUOTE] + Escape(key) + [QUOTE, ':'] + printed;
    assert [] + c == c;
    ParseHead(c, [], text);
    ParseKeyOfPrint(key, printed);
    BadValueIsNotReadBack(value);
    var (k, found, rest) := ParseMember(text);
    assert SkipSpace(text) == text;
    GoodKeyIsNotEmpty(key);
    PutThenGet(c, key, found, key);
    ParseTheRest(rest, Put(c, key, found), key);
  }

  lemma ParseTheRest(rest: string, acc: Claims, key: string)
    requires AtDelimiter(rest)
    ensures var r := Get(ParseMembers(rest, acc), key);
            r == Get(acc, key) || (rest != ['}'] && |r| < |rest|)
  {
    hide Get;
    assert SkipSpace(rest) == rest;
    if rest[0] == ',' {
      ParsedValuesAreShort(rest[1..], acc, key);
    }
  }

  lemma GoodKeyIsNotEmpty(key: string)
    requires GoodKey(key)
    ensures key != ""
  {
  }

  /** With good claims before it, the last claim comes back exactly when its value is good. */
  lemma ParsePrintExactly(c: Claims, key: string, value: string)
    requires Good(c) && Sorted(c) && AllLess(c, key) && GoodKey(key)
    ensures Parse(Print(c + [(key, value)])) == c + [(key, value)] <==> GoodValue(value)
    ensures Get(Parse(Print(c + [(key, value)])), key) == value <==> GoodValue(value)
  {
    hide Less, GoodKey, GoodValue, Parse, PrintMember, ParseMembers, PrintHead, Get, Print;
    GetLast(c, key, value);
    if GoodValue(value) {
      ParsePrintLast(c, key, value);
    } else {
      PrintLast(c, key, value);
      ParseStart(PrintHead(c) + (PrintMember(key, value) + ['}']));
      BadLastValue(c, key, value);
    }
  }

  // ---------------------------------------------------------------------
  // The loops of the source.
  // ---------------------------------------------------------------------

  method EscapeJsonString(s: string) returns (result: string)
    ensures result == Escape(s)
  {
    hide EscapeChar;
    result := "";
    for i := 0 to |s|
      invariant result + Escape(s[i..]) == Escape(s)
    {
      assert s[i..][0] == s[i] && s[i..][1..] == s[i + 1..];
      result := result + EscapeChar(s[i]);
    }
  }

  lemma {:induction false} HeadIsMembers(c: Claims)
    ensures PrintHead(c) == if c == [] then [] else PrintMembers(c) + [',']
  {
    hide PrintMember;
    if |c| > 1 {
      HeadIsMembers(c[1..]);
    }
  }

  lemma PrintSnoc(c: Claims, key: string, value: string)
    ensures PrintMembers(c + [(key, value)])
         == (if c == [] then [] else PrintMembers(c) + [',']) + PrintMember(key, value)
  {
    hide PrintMember, PrintMembers, PrintHead;
    PrintMembersLast(c, key, value);
    HeadIsMembers(c);
  }

  method BuildJson(claims: Claims) returns (json: string)
    ensures json == Print(claims)
  {
    hide PrintMember, PrintMembers, PrintHead;
    json := "{";
    var first := true;
    EmptyPrintsNothing();
    for i := 0 to |claims|
      invariant first <==> i == 0
      invariant json == ['{'] + PrintMembers(claims[..i])
    {
      var (key, value) := claims[i];
      assert claims[..i + 1] == claims[..i] + [(key, value)];
      PrintSnoc(claims[..i], key, value);
      if !first { json := json + ","; }
      first := false;
      json := AppendMember(json, key, value);
    }
    assert claims[..|claims|] == claims;
    json := json + "}";
  }

  // The body of the printing loop after the comma.
  method AppendMember(json: string, key: string, value: string) returns (r: string)
    ensures r == json + PrintMember(key, value)
  {
    hide Escape, IsNumber;
    var k := EscapeJsonString(key);
    r := json + "\"" + k + "\":";
    if IsNumber(value) {
      r := r + value;
    } else {
      var v := EscapeJsonString(value);
      r := r + "\"" + v + "\"";
    }
  }

  lemma EmptyPrintsNothing()
    ensures PrintMembers([]) == []
  {
  }

  method SkipWhitespaceAt(json: string, start: nat) returns (i: nat)
    requires start <= |json|
    ensures start <= i <= |json| && json[i..] == SkipSpace(json[start..])
  {
    i := start;
    while i < |json| && IsSpace(json[i])
      invariant start <= i <= |json| && SkipSpace(json[i..]) == SkipSpace(json[start..])
    {
      assert json[i..][1..] == json[i + 1..];
      i := i + 1;
    }
  }

  method ParseStringAt(json: string, start: nat) returns (s: string, i: nat)
    requires start <= |json|
    ensures start <= i <= |json| && (s, json[i..]) == ParseString(json[start..])
  {
    hide Unescape, StringBody;
    s, i := "", start;
    if start == |json| || json[start] != QUOTE { return; }
    i := start + 1;
    ghost var body := json[i..];
    assert json[start..][1..] == body;
    while i < |json| && json[i] != QUOTE
      invariant start < i <= |json|
      invariant StringBody(body).0 == s + StringBody(json[i..]).0
      invariant StringBody(body).1 == StringBody(json[i..]).1
    {
      StringBodyStep(json, i);
      if json[i] == BACKSLASH && i + 1 < |json| {
        i := i + 1;
        s := s + [Unescape(json[i])];
      } else {
        s := s + [json[i]];
      }
      i := i + 1;
    }
    StringBodyEnd(json, i);
    assert s + [] == s;
    if i < |json| { i := i + 1; }
  }

  lemma StringBodyEnd(json: string, i: nat)
    requires i <= |json| && (i < |json| ==> json[i] == QUOTE)
    ensures StringBody(json[i..]) == ([], if i < |json| then json[i + 1..] else json[i..])
  {
  }

  lemma StringBodyStep(json: string, i: nat)
    requires i < |json| && json[i] != QUOTE
    ensures StringBody(json[i..]) ==
            if json[i] == BACKSLASH && i + 1 < |json|
            then ([Unescape(json[i + 1])] + StringBody(json[i + 2..]).0, StringBody(json[i + 2..]).1)
            else ([json[i]] + StringBody(json[i + 1..]).0, StringBody(json[i + 1..]).1)
  {
    hide Unescape;
    var t := json[i..];
    if json[i] == BACKSLASH && i + 1 < |json| {
      assert t[1] == json[i + 1] && t[2..] == json[i + 2..];
    } else {
      assert t[1..] == json[i + 1..];
    }
  }

  method ParseValueAt(json: string, start: nat) returns (value: string, i: nat)
    requires start <= |json|
    ensures start <= i <= |json| && (value, json[i..]) == ParseValue(json[start..])
  {
    hide Bare, ParseString, SkipSpace;
    value := "";
    i := SkipWhitespaceAt(json, start);
    if i >= |json| { return; }
    if json[i] == QUOTE {
      value, i := ParseStringAt(json, i);
      return;
    }
    ghost var bare := json[i..];
    while i < |json| && json[i] != ',' && json[i] != '}'
      invariant start <= i <= |json|
      invariant Bare(bare).0 == value + Bare(json[i..]).0
      invariant Bare(bare).1 == Bare(json[i..]).1
    {
      BareStep(json, i);
      if !IsSpace(json[i]) { value := value + [json[i]]; }
      i := i + 1;
    }
    BareEnd(json, i);
    assert value + [] == value;
  }

  lemma BareStep(json: string, i: nat)
    requires i < |json| && json[i] != ',' && json[i] != '}'
    ensures Bare(json[i..])
         == (if IsSpace(json[i]) then Bare(json[i + 1..]).0 else [json[i]] + Bare(json[i + 1..]).0,
           Bare(json[i + 1..]).1)
  {
    assert json[i..][1..] == json[i + 1..];
  }

  lemma BareEnd(json: string, i: nat)
    requires i <= |json| && (i < |json| ==> json[i] == ',' || json[i] == '}')
    ensures Bare(json[i..]) == ([], json[i..])
  {
  }

  /** The parser terminates on every text, with the length of the unread text as measure. */
  method ParseJson(json: string) returns (result: Claims)
    ensures result == Parse(json)
  {
    hide ParseString, ParseValue, Put, Bare, StringBody, SkipSpace;
    result := [];
    assert json[0..] == json;
    var i := SkipWhitespaceAt(json, 0);
    if i >= |json| || json[i] != '{' { return; }
    assert json[i..][1..] == json[i + 1..];
    i := i + 1;
    while i < |json|
      invariant i <= |json|
      invariant Parse(json) == ParseMembers(json[i..], result)
      decreases |json| - i
    {
      i := SkipWhitespaceAt(json, i);
      if i < |json| && json[i] == '}' { return; }
      if i < |json| && json[i] == ',' {
        assert json[i..][1..] == json[i + 1..];
        i := i + 1;
        continue;
      }
      ghost var t := json[i..];
      var key, value;
      key, i := ParseStringAt(json, i);
      i := SkipWhitespaceAt(json, i);
      if i < |json| && json[i] == ':' {
        assert json[i..][1..] == json[i + 1..];
        i := i + 1;
      }
      value, i := ParseValueAt(json, i);
      assert ParseMember(t) == (key, value, json[i..]);
      if key != "" { result := Put(result, key, value); }
    }
    assert json[i..] == [];
  }
}
