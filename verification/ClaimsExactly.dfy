/** Exactly which maps come back from the token service's JSON: those whose every value the
    printer can carry. The hard half is that nothing repairs a value that broke. */
module ClaimsExactly {
  import opened Decimal
  import opened ClaimsJson

  predicate GoodKeys(c: Claims) {
    forall i :: 0 <= i < |c| ==> GoodKey(c[i].0)
  }

  /** The characters that end a bare value or mean nothing between members. */
  predicate Soft(ch: char) {
    ch == ',' || ch == '}' || IsSpace(ch)
  }

  predicate HasHard(x: string) {
    x != [] && (!Soft(x[0]) || HasHard(x[1..]))
  }

  /** After a comma the parser finds something of the value to take for a member. */
  predicate Derails(x: string) {
    x != [] && ((x[0] == ',' && HasHard(x[1..])) || Derails(x[1..]))
  }

  // ---------------------------------------------------------------------
  // The printed text, member by member.
  // ---------------------------------------------------------------------

  /** What is printed from the first member on. */
  function Rest(c: Claims): (r: string)
    requires c != []
    ensures |r| > |PrintMember(c[0].0, c[0].1)|
    decreases |c|, 1
  {
    PrintMember(c[0].0, c[0].1) + Tail(c)
  }

  /** What follows the first member. */
  function Tail(c: Claims): (r: string)
    requires c != []
    ensures AtDelimiter(r)
    decreases |c|, 0
  {
    if |c| == 1 then ['}'] else [','] + Rest(c[1..])
  }

  lemma RestIsPrinted(c: Claims)
    requires c != []
    ensures Print(c) == ['{'] + Rest(c)
  {
    MembersAreRest(c);
  }

  lemma {:induction false} MembersAreRest(c: Claims)
    requires c != []
    ensures PrintMembers(c) + ['}'] == Rest(c)
  {
    hide PrintMember;
    if |c| > 1 { MembersAreRest(c[1..]); }
  }

  // ---------------------------------------------------------------------
  // Where no value derails, the parser stays in step or stops.
  // ---------------------------------------------------------------------

  lemma {:induction false} BareIsUnbroken(s: string)
    ensures Unbroken(Bare(s).0)
  {
    if s != [] && s[0] != ',' && s[0] != '}' { BareIsUnbroken(s[1..]); }
  }

  lemma ParseSpace(ch: char, s: string, acc: Claims)
    requires IsSpace(ch)
    ensures ParseMembers([ch] + s, acc) == ParseMembers(s, acc)
  {
    hide ParseMember;
    assert ([ch] + s)[1..] == s;
    assert SkipSpace([ch] + s) == SkipSpace(s);
    if s == [] { ParseNothing(acc); }
  }

  lemma ParseNothing(acc: Claims)
    ensures ParseMember([]).0 == "" && ParseMember([]).2 == [] && SkipSpace([]) == []
  {
  }

  lemma {:induction false} ParseSoft(t: string, rest: string, acc: Claims)
    requires !HasHard(t)
    ensures ParseMembers(t + rest, acc) == acc || ParseMembers(t + rest, acc) == ParseMembers(rest, acc)
  {
    hide ParseMembers, ParseMember;
    if t == [] {
      assert t + rest == rest;
    } else {
      var s := t[1..] + rest;
      assert t + rest == [t[0]] + s;
      ParseSoft(t[1..], rest, acc);
      if t[0] == ',' {
        ParseComma(s, acc);
      } else if t[0] == '}' {
        ParseBrace(s, acc);
      } else {
        ParseSpace(t[0], s, acc);
      }
    }
  }

  lemma ParseBrace(s: string, acc: Claims)
    ensures ParseMembers(['}'] + s, acc) == acc
  {
    assert SkipSpace(['}'] + s) == ['}'] + s;
  }

  lemma {:induction false} AfterBare(x: string, rest: string, acc: Claims)
    requires !Derails(x) && AtDelimiter(rest)
    ensures var r := ParseMembers(Bare(x + rest).1, acc); r == acc || r == ParseMembers(rest, acc)
  {
    hide ParseMembers;
    if x == [] {
      assert x + rest == rest;
    } else {
      assert (x + rest)[1..] == x[1..] + rest && x + rest == [x[0]] + (x[1..] + rest);
      if x[0] == '}' {
        ParseBrace(x[1..] + rest, acc);
      } else if x[0] == ',' {
        ParseComma(x[1..] + rest, acc);
        ParseSoft(x[1..], rest, acc);
      } else {
        AfterBare(x[1..], rest, acc);
      }
    }
  }

  /** A member that does not derail is taken in or ends the parse; what is found for its key is
      its value exactly when that is good. */
  lemma AnyMember(key: string, x: string, rest: string, acc: Claims) returns (found: string)
    requires GoodKey(key) && (IsNumber(x) ==> !Derails(x)) && AtDelimiter(rest)
    ensures found == x <==> GoodValue(x)
    ensures var r := ParseMembers(PrintMember(key, x) + rest, acc);
            r == Put(acc, key, found) || r == ParseMembers(rest, Put(acc, key, found))
  {
    hide ParseValue, Escape, Bare, Requoted, Put, ParseMember, GoodKey;
    var text := PrintValue(x) + rest;
    var s := PrintMember(key, x) + rest;
    assert s == [QUOTE] + Escape(key) + [QUOTE, ':'] + text;
    ParseKeyOfPrint(key, text);
    assert SkipSpace(s) == s;
    GoodKeyIsNotEmpty(key);
    found := ParseValue(text).0;
    if IsNumber(x) {
      ParseUnquoted(x, rest);
      BareIsUnbroken(x + rest);
      if Unbroken(x) { BareOfUnbroken(x, rest); }
      AfterBare(x, rest, Put(acc, key, found));
    } else {
      ParseQuoted(x, rest);
      QuotableIsFixed(x);
    }
  }

  predicate NoneDerails(c: Claims) {
    forall i :: 0 <= i < |c| && IsNumber(c[i].1) ==> !Derails(c[i].1)
  }

  lemma {:induction false} OtherKeysStay(c: Claims, acc: Claims, k: string)
    requires c != [] && GoodKeys(c) && NoneDerails(c) && forall i :: 0 <= i < |c| ==> c[i].0 != k
    ensures Get(ParseMembers(Rest(c), acc), k) == Get(acc, k)
    decreases |c|
  {
    hide ParseMembers, PrintMember, Get, Put, GoodKey, GoodValue, Derails;
    var found := AnyMember(c[0].0, c[0].1, Tail(c), acc);
    PutThenGet(acc, c[0].0, found, k);
    TailStays(c, Put(acc, c[0].0, found), k);
  }

  lemma {:induction false} TailStays(c: Claims, acc: Claims, k: string)
    requires c != [] && GoodKeys(c) && NoneDerails(c) && forall i :: 0 < i < |c| ==> c[i].0 != k
    ensures Get(ParseMembers(Tail(c), acc), k) == Get(acc, k)
    decreases |c|, 0
  {
    hide ParseMembers, PrintMember, Get, GoodKey, GoodValue, Derails;
    if |c| == 1 {
      ParseEnd(acc);
    } else {
      ParseComma(Rest(c[1..]), acc);
      OtherKeysStay(c[1..], acc, k);
    }
  }

  /** A bad value stays bad: its key keeps what was first found, if the parser gets there. */
  lemma {:induction false} BadStaysBad(c: Claims, acc: Claims, j: nat)
    requires j < |c| && GoodKeys(c) && Sorted(c) && NoneDerails(c) && !GoodValue(c[j].1) && Get(acc, c[j].0) == ""
    ensures Get(ParseMembers(Rest(c), acc), c[j].0) != c[j].1
    decreases |c|
  {
    hide ParseMembers, PrintMember, Get, Put, GoodKey, Derails, Less;
    var k := c[j].0;
    var found := AnyMember(c[0].0, c[0].1, Tail(c), acc);
    var next := Put(acc, c[0].0, found);
    PutThenGet(acc, c[0].0, found, k);
    assert c[j].1 != "" by { EmptyIsGood(); }
    forall i | 0 <= i < |c| && i != j ensures c[i].0 != k { KeysDiffer(c, i, j); }
    if j == 0 {
      TailStays(c, next, k);
    } else {
      ParseComma(Rest(c[1..]), next);
      BadStaysBad(c[1..], next, j - 1);
    }
  }

  lemma EmptyIsGood()
    ensures GoodValue("")
  {
  }

  lemma KeysDiffer(c: Claims, i: nat, j: nat)
    requires Sorted(c) && i < |c| && j < |c| && i != j
    ensures c[i].0 != c[j].0
  {
    LessIsAsymmetric(c[if i < j then i else j].0, c[if i < j then j else i].0);
  }

  // ---------------------------------------------------------------------
  // Positions in the printed text.
  // ---------------------------------------------------------------------

  lemma {:induction false} SkipPos(x: string, p: nat) returns (q: nat)
    requires p <= |x|
    ensures p <= q <= |x| && x[q..] == SkipSpace(x[p..])
    ensures q > p ==> IsSpace(x[q - 1])
    decreases |x| - p
  {
    q := p;
    if p < |x| && IsSpace(x[p]) {
      assert x[p..][1..] == x[p + 1..];
      q := SkipPos(x, p + 1);
    }
  }

  /** A string ends past a quote, or at the end of the text. */
  lemma {:induction false} BodyPos(x: string, p: nat) returns (q: nat)
    requires p <= |x|
    ensures p <= q <= |x| && x[q..] == StringBody(x[p..]).1
    ensures p < |x| ==> p < q
    ensures q < |x| ==> p < q && x[q - 1] == QUOTE
    decreases |x| - p
  {
    q := p;
    if p < |x| {
      assert x[p..][1..] == x[p + 1..];
      if x[p] == QUOTE {
        q := p + 1;
      } else if x[p] == BACKSLASH && p + 1 < |x| {
        assert x[p..][2..] == x[p + 2..];
        q := BodyPos(x, p + 2);
      } else {
        q := BodyPos(x, p + 1);
      }
    }
  }

  lemma {:induction false} BarePos(x: string, p: nat) returns (q: nat)
    requires p <= |x|
    ensures p <= q <= |x| && x[q..] == Bare(x[p..]).1
    ensures q < |x| ==> x[q] == ',' || x[q] == '}'
    decreases |x| - p
  {
    q := p;
    if p < |x| && x[p] != ',' && x[p] != '}' {
      assert x[p..][1..] == x[p + 1..];
      q := BarePos(x, p + 1);
    }
  }

  /** Where the parser may stand: not at a quote that a backslash precedes. */
  predicate Legal(x: string, p: nat) {
    1 <= p <= |x| && (p < |x| && x[p] == QUOTE ==> x[p - 1] != BACKSLASH)
  }

  // The white space and the colon between a key and its value.
  lemma ColonPos(x: string, e: nat) returns (q: nat)
    requires e <= |x|
    ensures e <= q <= |x|
    ensures var colon := SkipSpace(x[e..]); SkipSpace(if At(colon) == ':' then colon[1..] else colon) == x[q..]
    ensures q > e ==> IsSpace(x[q - 1]) || x[q - 1] == ':'
    ensures q >= 2 && q > e && x[q - 1] == ':' && x[q - 2] == QUOTE ==> e == q - 1
  {
    hide SkipSpace;
    var a := SkipPos(x, e);
    var b := if a < |x| && x[a] == ':' then a + 1 else a;
    assert a < |x| ==> At(x[a..]) == x[a] && x[a..][1..] == x[a + 1..];
    q := SkipPos(x, b);
  }

  /** Where the value of a member begins that has a key, and what precedes it. */
  lemma ValuePos(x: string, p: nat) returns (e: nat, v: nat)
    requires p < |x| && x[p] == QUOTE
    ensures p < e <= v <= |x| && x[e..] == StringBody(x[p + 1..]).1
    ensures ParseMember(x[p..]).0 == StringBody(x[p + 1..]).0
    ensures v < |x| && x[v] == QUOTE ==> ParseMember(x[p..]).1 == StringBody(x[v + 1..]).0
    ensures v == |x| || x[v] != QUOTE ==> Unbroken(ParseMember(x[p..]).1)
    ensures v < |x| ==> IsSpace(x[v - 1]) || x[v - 1] == ':' || x[v - 1] == QUOTE
    ensures v < |x| && x[v - 1] == ':' && x[v - 2] == QUOTE ==> e == v - 1
  {
    hide SkipSpace, StringBody, Bare;
    assert x[p..][1..] == x[p + 1..];
    e := BodyPos(x, p + 1);
    v := ColonPos(x, e);
    BareIsUnbroken(x[v..]);
    if v < |x| { assert x[v..][0] == x[v] && x[v..][1..] == x[v + 1..]; }
  }

  // ---------------------------------------------------------------------
  // What a string can hold that begins at a quote of the printed text.
  // ---------------------------------------------------------------------

  lemma BodyFirst(s: string)
    requires s != [] && s[0] != QUOTE && s[0] != BACKSLASH
    ensures StringBody(s).0 != [] && StringBody(s).0[0] == s[0]
  {
  }

  lemma {:induction false} EscapedQuote(s: string, i: nat)
    requires i < |Escape(s)| && Escape(s)[i] == QUOTE
    ensures i > 0 && Escape(s)[i - 1] == BACKSLASH
  {
    var e := EscapeChar(s[0]);
    if i >= |e| {
      EscapedQuote(s[1..], i - |e|);
    }
  }

  lemma {:induction false} SuffixDerails(x: string, a: nat)
    requires a <= |x| && Derails(x[a..])
    ensures Derails(x)
    decreases a
  {
    if a > 0 {
      assert x[1..][a - 1..] == x[a..];
      SuffixDerails(x[1..], a - 1);
    }
  }

  /** What ends a member: the last brace, or a comma and the next key's quote. */
  predicate Ends(rest: string) {
    rest == ['}'] || (|rest| > 1 && rest[0] == ',' && rest[1] == QUOTE)
  }

  lemma HeadOfSum(t: string, rest: string)
    ensures t != [] ==> t + rest == [t[0]] + (t[1..] + rest)
    ensures |t| > 1 ==> t + rest == [t[0], t[1]] + (t[2..] + rest) && t[1..][1..] == t[2..]
    ensures |t| == 1 && rest != [] ==> t + rest == [t[0], rest[0]] + rest[1..]
    ensures t == [] ==> t + rest == rest
  {
  }

  /** A string that begins inside an unquoted value holds at most what is left of it and the
      comma, and derails only if that does. */
  lemma {:induction false} BodyInside(t: string, rest: string)
    requires Ends(rest)
    ensures var r := StringBody(t + rest).0;
            |r| <= |t| + 1 && (HasHard(r) ==> HasHard(t)) && (Derails(r) ==> Derails(t))
    decreases |t|
  {
    hide StringBody, HasHard, Derails, Unescape, Soft;
    HeadOfSum(t, rest);
    if t == [] {
      BodyOfEnd(rest);
      OneIsSoft(rest[0]);
    } else {
      if t[0] == BACKSLASH {
        if |t| == 1 {
          BodyOfPair(rest[0], rest[1..]);
          BodyOfClosed(rest);
          OneIsSoft(rest[0]);
          assert StringBody(t + rest).0 == [rest[0]];
        } else {
          BodyOfPair(t[1], t[2..] + rest);
          BodyInside(t[2..], rest);
          PairDerails(t, StringBody(t[2..] + rest).0);
        }
      } else if t[0] == QUOTE {
        BodyOfQuote(t[1..] + rest);
      } else {
        BodyOfPlain(t[0], t[1..] + rest);
        BodyInside(t[1..], rest);
        PlainDerails(t[0], StringBody(t[1..] + rest).0);
        PlainDerails(t[0], t[1..]);
        assert [t[0]] + t[1..] == t;
      }
    }
  }

  lemma BodyOfQuote(s: string)
    ensures StringBody([QUOTE] + s).0 == [] && !HasHard([]) && !Derails([])
  {
  }

  lemma BodyOfClosed(rest: string)
    requires Ends(rest)
    ensures StringBody(rest[1..]).0 == [] && Unescape(rest[0]) == rest[0]
  {
  }

  lemma OneIsSoft(ch: char)
    requires ch == ',' || ch == '}'
    ensures !HasHard([ch]) && !Derails([ch])
  {
    assert [ch][1..] == [];
  }

  lemma BodyOfEnd(rest: string)
    requires Ends(rest)
    ensures StringBody(rest).0 == [rest[0]]
  {
    assert rest == [rest[0]] + rest[1..];
    BodyOfPlain(rest[0], rest[1..]);
    BodyOfClosed(rest);
  }

  lemma PlainDerails(ch: char, more: string)
    ensures HasHard([ch] + more) <==> !Soft(ch) || HasHard(more)
    ensures Derails([ch] + more) <==> (ch == ',' && HasHard(more)) || Derails(more)
  {
    assert ([ch] + more)[1..] == more;
  }

  lemma PairDerails(t: string, more: string)
    requires |t| >= 2 && t[0] == BACKSLASH && (HasHard(more) ==> HasHard(t[2..])) && (Derails(more) ==> Derails(t[2..]))
    ensures HasHard(t)
    ensures Derails([Unescape(t[1])] + more) ==> Derails(t)
  {
    PlainDerails(Unescape(t[1]), more);
    assert t[1..][1..] == t[2..];
  }

  /** A string that begins before a comma and a quote ends at that quote at the latest. */
  lemma {:induction false} BodyStops(a: string, rest: string)
    ensures |StringBody(a + [','] + [QUOTE] + rest).1| >= |rest|
    decreases |a|
  {
    var s := a + [','] + [QUOTE] + rest;
    if a == [] {
      assert s == [','] + ([QUOTE] + rest);
      BodyOfPlain(',', [QUOTE] + rest);
      assert ([QUOTE] + rest)[1..] == rest;
    } else if a[0] == QUOTE {
      assert |s| == |a| + 2 + |rest|;
    } else if a[0] != BACKSLASH {
      assert s == [a[0]] + (a[1..] + [','] + [QUOTE] + rest);
      BodyOfPlain(a[0], a[1..] + [','] + [QUOTE] + rest);
      BodyStops(a[1..], rest);
    } else if |a| == 1 {
      assert s == [BACKSLASH, ','] + ([QUOTE] + rest);
      BodyOfPair(',', [QUOTE] + rest);
      assert ([QUOTE] + rest)[1..] == rest;
    } else {
      assert s == [BACKSLASH, a[1]] + (a[2..] + [','] + [QUOTE] + rest);
      BodyOfPair(a[1], a[2..] + [','] + [QUOTE] + rest);
      BodyStops(a[2..], rest);
    }
  }

  // ---------------------------------------------------------------------
  // Which member a position belongs to.
  // ---------------------------------------------------------------------

  /** Member i of x == Print(c) begins at position p. */
  predicate BeginsAt(c: Claims, x: string, i: nat, p: nat)
    requires i < |c|
  {
    && 1 <= p <= |x| && x[p..] == Rest(c[i..])
    && (if i == 0 then p == 1 && x[0] == '{' else p >= 2 && x[p - 1] == ',')
  }

  lemma TailEnds(c: Claims)
    requires c != []
    ensures Ends(Tail(c))
  {
    if |c| > 1 { assert PrintMember(c[1].0, c[1].1)[0] == QUOTE && c[1..][0] == c[1]; }
  }

  lemma NextMember(c: Claims, x: string, i: nat, b: nat)
    requires i < |c| && BeginsAt(c, x, i, b)
    ensures var next := b + |PrintMember(c[i].0, c[i].1)| + 1;
            next <= |x| && (next < |x| ==> i + 1 < |c| && BeginsAt(c, x, i + 1, next))
  {
    hide PrintMember;
    var d := c[i..];
    var m := PrintMember(d[0].0, d[0].1);
    var t := Tail(d);
    assert x[b..] == m + t && |x| == b + |m| + |t|;
    if |d| > 1 {
      var next := b + |m| + 1;
      assert d[1..] == c[i + 1..];
      assert x[next..] == x[b..][|m| + 1..] == t[1..] == Rest(d[1..]);
      assert x[next - 1] == x[b..][|m|] == t[0];
    }
  }

  lemma {:induction false} Locate(c: Claims, x: string, p: nat, i: nat, b: nat) returns (j: nat, s: nat)
    requires i < |c| && BeginsAt(c, x, i, b) && b <= p < |x|
    ensures j < |c| && BeginsAt(c, x, j, s) && s <= p <= s + |PrintMember(c[j].0, c[j].1)|
    decreases |c| - i
  {
    hide PrintMember, BeginsAt;
    var n := |PrintMember(c[i].0, c[i].1)|;
    NextMember(c, x, i, b);
    if p <= b + n {
      j, s := i, b;
    } else {
      j, s := Locate(c, x, p, i + 1, b + n + 1);
    }
  }

  /** A key string that ends where member i's key does is member i's key. */
  lemma KeyIsOwn(c: Claims, x: string, i: nat, s: nat, p: nat, e: nat)
    requires i < |c| && BeginsAt(c, x, i, s) && GoodKey(c[i].0)
    requires p < |x| && x[p] == QUOTE && Legal(x, p)
    requires e == s + |Escape(c[i].0)| + 2 && p < e <= |x| && x[e..] == StringBody(x[p + 1..]).1
    ensures StringBody(x[p + 1..]).0 == c[i].0
  {
    hide StringBody, Escape, PrintValue, Requoted, Tail, GoodKey;
    var key := c[i].0;
    var esc := Escape(key);
    var r := Rest(c[i..]);
    var more := [':'] + PrintValue(c[i].1) + Tail(c[i..]);
    assert r == [QUOTE] + esc + [QUOTE] + more;
    assert x[e..] == x[s..][|esc| + 2..] == more;
    if p == s {
      assert x[p + 1..] == r[1..] == esc + [QUOTE] + more;
      BodyOfEscape(key, more);
      KeyIsFixed(key);
    } else if p > s {
      var o := p - s;
      assert x[p] == r[o] && x[p - 1] == r[o - 1];
      if o <= |esc| {
        EscapedQuote(key, o - 1);
        assert false;
      } else {
        assert x[p + 1..] == more;
        ShorterBody(more);
        assert false;
      }
    } else {
      assert i > 0;
      var a := x[p + 1..s - 1];
      assert x[s - 1] == ',' && x[p] != ',';
      assert x[p + 1..] == a + [','] + [QUOTE] + r[1..];
      BodyStops(a, r[1..]);
      assert false;
    }
  }

  lemma KeyIsFixed(key: string)
    requires GoodKey(key)
    ensures Requoted(key) == key
  {
    QuotableIsFixed(key);
  }

  lemma ShorterBody(s: string)
    requires s != []
    ensures |StringBody(s).1| < |s|
  {
  }

  // ---------------------------------------------------------------------
  // The longest derailing value is never read for its key.
  // ---------------------------------------------------------------------

  predicate IsLongest(c: Claims, m: nat) {
    && m < |c| && IsNumber(c[m].1) && Derails(c[m].1)
    && forall i :: 0 <= i < |c| && IsNumber(c[i].1) && Derails(c[i].1) ==> |c[i].1| <= |c[m].1|
  }

  lemma {:induction false} Longest(c: Claims, i: nat) returns (m: nat)
    requires i < |c| && IsNumber(c[i].1) && Derails(c[i].1)
    ensures IsLongest(c, m)
  {
    m := i;
    for n := 0 to |c|
      invariant m < |c| && IsNumber(c[m].1) && Derails(c[m].1)
      invariant forall j :: 0 <= j < n && IsNumber(c[j].1) && Derails(c[j].1) ==> |c[j].1| <= |c[m].1|
    {
      if IsNumber(c[n].1) && Derails(c[n].1) && |c[n].1| > |c[m].1| { m := n; }
    }
  }

  /** Inside an unquoted value no string holds the longest derailing one. */
  lemma InsideIsShorter(c: Claims, m: nat, value: string, a: nat, rest: string)
    requires IsLongest(c, m) && Ends(rest) && 1 <= a < |value|
    requires Derails(value) ==> |value| <= |c[m].1|
    ensures StringBody(value[a + 1..] + rest).0 != c[m].1
  {
    hide StringBody;
    BodyInside(value[a + 1..], rest);
    if Derails(value[a + 1..]) { SuffixDerails(value, a + 1); }
  }

  lemma StartsUnlike(s: string, w: string)
    requires s != [] && (s[0] == ':' || s[0] == ',' || s[0] == '}') && IsNumber(w)
    ensures StringBody(s).0 != w
  {
    BodyFirst(s);
  }

  lemma EndsPlainly(rest: string)
    requires Ends(rest)
    ensures rest != [] && rest[0] != QUOTE
  {
  }

  // At a quote within an unquoted value.
  lemma NumberAt(c: Claims, m: nat, value: string, rest: string, a: nat)
    requires IsLongest(c, m) && Ends(rest) && IsNumber(value)
    requires Derails(value) ==> |value| <= |c[m].1|
    requires a <= |value| && (PrintValue(value) + rest)[a] == QUOTE
    ensures StringBody((PrintValue(value) + rest)[a + 1..]).0 != c[m].1
  {
    hide *;
    WIsNumber(c, m);
    NumberBegins(value);
    assert 1 <= a < |value| by {
      EndsPlainly(rest);
      IndexOfSum(value, rest);
    }
    assert (value + rest)[a + 1..] == value[a + 1..] + rest by { SliceOfSum(value, rest, a + 1); }
    InsideIsShorter(c, m, value, a, rest);
  }

  lemma IndexOfSum(s: string, t: string)
    requires s != "" && t != ""
    ensures (s + t)[0] == s[0] && (s + t)[|s|] == t[0]
  {
  }

  lemma SliceOfSum(s: string, t: string, n: nat)
    ensures n <= |s| ==> (s + t)[n..] == s[n..] + t
  {
  }

  // The same within a quoted value.
  lemma QuotedAt(value: string, rest: string, a: nat, w: string)
    requires !IsNumber(value) && Ends(rest) && IsNumber(w)
    requires a <= |PrintValue(value)| && (PrintValue(value) + rest)[a] == QUOTE
    ensures a == 0 || (PrintValue(value) + rest)[a - 1] == BACKSLASH
            || StringBody((PrintValue(value) + rest)[a + 1..]).0 != w
  {
    hide StringBody, Escape, IsNumber;
    var e := Escape(value);
    var r := PrintValue(value) + rest;
    assert r == [QUOTE] + e + [QUOTE] + rest;
    if 1 <= a <= |e| {
      EscapedQuote(value, a - 1);
    } else if a == |e| + 1 {
      assert r[a + 1..] == rest;
      StartsUnlike(rest, w);
    }
  }

  lemma WIsNumber(c: Claims, m: nat)
    requires IsLongest(c, m)
    ensures m < |c| && IsNumber(c[m].1)
  {
  }

  lemma LongestBounds(c: Claims, m: nat, i: nat)
    requires IsLongest(c, m) && i < |c|
    ensures m < |c| && (IsNumber(c[i].1) && Derails(c[i].1) ==> |c[i].1| <= |c[m].1|)
  {
  }

  lemma NumberBegins(value: string)
    requires IsNumber(value)
    ensures value != [] && value[0] != QUOTE && PrintValue(value) == value
  {
  }

  /** A string that begins in a member's text is not the longest derailing value, unless it
      is the member's quoted value itself, or begins where no value can. */
  lemma QuoteInMember(c: Claims, m: nat, key: string, value: string, rest: string, o: nat)
    requires IsLongest(c, m) && Ends(rest)
    requires IsNumber(value) && Derails(value) ==> |value| <= |c[m].1|
    requires o <= |PrintMember(key, value)| && (PrintMember(key, value) + rest)[o] == QUOTE
    ensures var r := PrintMember(key, value) + rest;
            || o == 0 || r[o - 1] == BACKSLASH
            || StringBody(r[o + 1..]).0 != c[m].1
            || (!IsNumber(value) && o == |Escape(key)| + 3)
  {
    hide StringBody, Escape, Derails, IsNumber, IsLongest, PrintValue;
    WIsNumber(c, m);
    var e := Escape(key);
    var h, more := |e|, PrintValue(value) + rest;
    var r := PrintMember(key, value) + rest;
    assert r == [QUOTE] + e + [QUOTE, ':'] + more;
    if 1 <= o <= h {
      EscapedQuote(key, o - 1);
    } else if o == h + 1 {
      assert r[o + 1] == ':';
      StartsUnlike(r[o + 1..], c[m].1);
    } else if o >= h + 3 {
      var a := o - h - 3;
      assert r[h + 3..] == more && r[o] == more[a] && r[o + 1..] == more[a + 1..];
      if IsNumber(value) {
        NumberBegins(value);
        NumberAt(c, m, value, rest, a);
      } else {
        QuotedAt(value, rest, a, c[m].1);
        assert a > 0 ==> r[o - 1] == more[a - 1];
      }
    }
  }

  /** The same of the whole text, for a position where a value can begin. */
  lemma QuoteAt(c: Claims, m: nat, x: string, i: nat, s: nat, v: nat)
    requires IsLongest(c, m) && i < |c| && BeginsAt(c, x, i, s)
    requires s <= v <= s + |PrintMember(c[i].0, c[i].1)| && v < |x| && x[v] == QUOTE
    requires IsSpace(x[v - 1]) || x[v - 1] == ':' || x[v - 1] == QUOTE
    ensures StringBody(x[v + 1..]).0 != c[m].1
         || (!IsNumber(c[i].1) && v == s + |Escape(c[i].0)| + 3 && x[v - 1] == ':' && x[v - 2] == QUOTE)
  {
    hide StringBody, Escape, Tail, Derails, IsNumber, IsLongest, PrintValue;
    var (key, value) := c[i];
    assert c[i..][0] == c[i];
    var t, o := Tail(c[i..]), v - s;
    TailEnds(c[i..]);
    var r := PrintMember(key, value) + t;
    assert x[s..] == r && x[v] == r[o] && x[v + 1..] == r[o + 1..];
    assert o > 0 ==> x[v - 1] == r[o - 1];
    SpaceIsNoBackslash();
    LongestBounds(c, m, i);
    QuoteInMember(c, m, key, value, t, o);
    if o == |Escape(key)| + 3 {
      assert x[v - 1] == r[o - 1] == ':' && x[v - 2] == r[o - 2] == QUOTE;
    }
  }

  /** Wherever the parser may stand, the member it reads is not that value under its key. */
  lemma NeverRead(c: Claims, m: nat, x: string, p: nat)
    requires c != [] && x == ['{'] + Rest(c) && GoodKeys(c) && Sorted(c) && IsLongest(c, m)
    requires Legal(x, p) && p < |x|
    ensures var r := ParseMember(x[p..]); !(r.0 == c[m].0 && r.1 == c[m].1)
  {
    hide ParseMember, StringBody, PrintMember, Rest, Sorted, Derails, Escape, IsNumber, GoodKey, IsLongest;
    WIsNumber(c, m);
    if x[p] != QUOTE {
      KeylessMember(x, p);
      GoodKeyIsNotEmpty(c[m].0);
    } else {
      var e, v := ValuePos(x, p);
      LongestIsBroken(c, m);
      if v < |x| && x[v] == QUOTE {
        FirstBegins(c, x);
        var i, s := Locate(c, x, v, 0, 1);
        QuoteAt(c, m, x, i, s, v);
        if !IsNumber(c[i].1) && v == s + |Escape(c[i].0)| + 3 && x[v - 1] == ':' && x[v - 2] == QUOTE {
          KeyIsOwn(c, x, i, s, p, e);
          KeysDiffer(c, i, m);
        }
      }
    }
  }

  lemma FirstBegins(c: Claims, x: string)
    requires c != [] && x == ['{'] + Rest(c)
    ensures BeginsAt(c, x, 0, 1)
  {
    assert c[0..] == c && x[1..] == Rest(c);
  }

  lemma KeylessMember(x: string, p: nat)
    requires p < |x| && x[p] != QUOTE
    ensures ParseMember(x[p..]).0 == ""
  {
    assert At(x[p..]) == x[p];
  }

  lemma LongestIsBroken(c: Claims, m: nat)
    requires IsLongest(c, m)
    ensures !Unbroken(c[m].1)
  {
    DerailingIsBroken(c[m].1);
  }

  lemma {:induction false} DerailingIsBroken(x: string)
    requires Derails(x)
    ensures !Unbroken(x)
  {
    if x[0] != ',' {
      DerailingIsBroken(x[1..]);
      if Unbroken(x) {
        assert forall i :: 0 <= i < |x[1..]| ==> x[1..][i] == x[i + 1];
      }
    }
  }

  /** After a member the parser may stand where it does. */
  lemma MemberPos(x: string, p: nat) returns (q: nat)
    requires Legal(x, p)
    ensures Legal(x, q) && x[q..] == ParseMember(x[p..]).2
  {
    hide SkipSpace, StringBody, Bare;
    var e := p;
    if p < |x| && x[p] == QUOTE {
      assert x[p..][1..] == x[p + 1..];
      e := BodyPos(x, p + 1);
    }
    assert At(x[p..]) == if p < |x| then x[p] else 0 as char;
    var v := ColonPos(x, e);
    if v < |x| && x[v] == QUOTE {
      assert x[v..][0] == x[v] && x[v..][1..] == x[v + 1..];
      q := BodyPos(x, v + 1);
    } else {
      assert v < |x| ==> x[v..][0] == x[v];
      q := BarePos(x, v);
    }
  }

  // One round of the member loop, from place p.
  lemma OneRound(x: string, p: nat, q: nat, acc: Claims)
    requires p < |x| && q <= |x| && x[q..] == SkipSpace(x[p..])
    ensures q == |x| || x[q] == '}' ==> ParseMembers(x[p..], acc) == acc
    ensures q < |x| && x[q] == ',' ==> ParseMembers(x[p..], acc) == ParseMembers(x[q + 1..], acc)
    ensures q < |x| && x[q] != '}' && x[q] != ',' ==>
              var (key, value, rest) := ParseMember(x[q..]);
              ParseMembers(x[p..], acc) == ParseMembers(rest, if key != "" then Put(acc, key, value) else acc)
  {
    hide ParseMember, SkipSpace, Put;
    var t := x[q..];
    if q == |x| {
      assert t == [];
      ParseNothing(acc);
    } else {
      assert At(t) == x[q] && t[1..] == x[q + 1..];
    }
  }

  // What one round leaves to read, with the value still unread.
  lemma NextRound(c: Claims, m: nat, x: string, p: nat, acc: Claims) returns (n: nat, next: Claims)
    requires c != [] && x == ['{'] + Rest(c) && GoodKeys(c) && Sorted(c) && IsLongest(c, m)
    requires Legal(x, p) && p < |x| && Get(acc, c[m].0) != c[m].1
    ensures p < n <= |x| && Legal(x, n) && Get(next, c[m].0) != c[m].1
    ensures ParseMembers(x[p..], acc) == if n == |x| then next else ParseMembers(x[n..], next)
  {
    hide ParseMembers, ParseMember, Get, Put, Rest, Sorted, Derails, IsLongest, GoodKeys, SkipSpace, IsSpace;
    WIsNumber(c, m);
    var q := SkipPos(x, p);
    assert Legal(x, q) by { SpaceIsNoBackslash(); }
    OneRound(x, p, q, acc);
    n, next := |x|, acc;
    if q < |x| && x[q] == ',' {
      n := q + 1;
      if n == |x| { AtTheEnd(x, acc); }
    } else if q < |x| && x[q] != '}' {
      var (key, value, rest) := ParseMember(x[q..]);
      n := MemberPos(x, q);
      NeverRead(c, m, x, q);
      PutThenGet(acc, key, value, c[m].0);
      next := if key != "" then Put(acc, key, value) else acc;
      if n == |x| { AtTheEnd(x, next); }
    }
  }

  lemma AtTheEnd(x: string, acc: Claims)
    ensures ParseMembers(x[|x|..], acc) == acc
  {
  }

  lemma {:induction false} NeverFound(c: Claims, m: nat, x: string, p: nat, acc: Claims)
    requires c != [] && x == ['{'] + Rest(c) && GoodKeys(c) && Sorted(c) && IsLongest(c, m)
    requires Legal(x, p) && Get(acc, c[m].0) != c[m].1
    ensures Get(ParseMembers(x[p..], acc), c[m].0) != c[m].1
    decreases |x| - p
  {
    hide ParseMembers, Get, Rest, Sorted, IsLongest, GoodKeys;
    WIsNumber(c, m);
    if p < |x| {
      var n, next := NextRound(c, m, x, p, acc);
      if n < |x| { NeverFound(c, m, x, n, next); }
    } else {
      AtTheEnd(x, acc);
    }
  }

  lemma SpaceIsNoBackslash()
    ensures !IsSpace(BACKSLASH)
  {
  }

  // ---------------------------------------------------------------------
  // The round trip, exactly.
  // ---------------------------------------------------------------------

  /** A map with a bad value loses one of its entries. */
  lemma BadIsLost(c: Claims, bad: nat) returns (j: nat)
    requires Sorted(c) && GoodKeys(c) && bad < |c| && !GoodValue(c[bad].1)
    ensures j < |c| && !GoodValue(c[j].1) && Get(Parse(Print(c)), c[j].0) != c[j].1
  {
    hide Rest, PrintMember, Parse, ParseMembers, Print, Sorted, Derails, GoodKey, Get, Unbroken, IsNumber, IsLongest;
    var x := ['{'] + Rest(c);
    RestIsPrinted(c);
    ParseStart(Rest(c));
    assert x[1..] == Rest(c);
    NothingYet(c[bad].0);
    if NoneDerails(c) {
      j := bad;
      BadStaysBad(c, [], bad);
    } else {
      var i :| 0 <= i < |c| && IsNumber(c[i].1) && Derails(c[i].1);
      j := Longest(c, i);
      WIsNumber(c, j);
      LongestIsBroken(c, j);
      NothingYet(c[j].0);
      RestBegins(c);
      assert c[j].1 != "" by { NumberBegins(c[j].1); }
      NeverFound(c, j, x, 1, []);
    }
  }

  lemma NothingYet(k: string)
    ensures Get([], k) == ""
  {
  }

  lemma RestBegins(c: Claims)
    requires c != []
    ensures Legal(['{'] + Rest(c), 1)
  {
  }

  /** A map with good keys comes back from printing and parsing if and only if all its values
      are good; otherwise one of its bad values is the one that does not. */
  lemma ParsePrintIff(c: Claims)
    requires Sorted(c) && GoodKeys(c)
    ensures Parse(Print(c)) == c <==> forall i :: 0 <= i < |c| ==> GoodValue(c[i].1)
    ensures Parse(Print(c)) == c <==> forall i :: 0 <= i < |c| ==> Get(Parse(Print(c)), c[i].0) == c[i].1
  {
    hide Sorted, Parse, Print, Get, GoodKey, GoodValue;
    if forall i :: 0 <= i < |c| ==> GoodValue(c[i].1) {
      ParsePrint(c);
      forall i | 0 <= i < |c| ensures Get(c, c[i].0) == c[i].1 { GetAt(c, i); }
    } else {
      var bad :| 0 <= bad < |c| && !GoodValue(c[bad].1);
      var j := BadIsLost(c, bad);
      GetAt(c, j);
    }
  }
}
