/** Decimal text of integers: std::to_string, std::stoll, std::stoi and the strict
    integer reading that Redis applies before INCR. */
module Decimal {
  import opened Ints
  import opened Outcome

  /** isspace in the "C" locale. */
  predicate IsSpace(c: char) {
    c == ' ' || 9 <= c as int <= 13
  }

  /** isdigit. */
  predicate IsDigit(c: char) {
    '0' <= c <= '9'
  }

  function DigitChar(d: int): (c: char)
    requires 0 <= d < 10
    ensures IsDigit(c) && c as int - '0' as int == d
  {
    ('0' as int + d) as char
  }

  function Digits(n: nat): (s: string)
    ensures s != [] && forall i :: 0 <= i < |s| ==> IsDigit(s[i])
  {
    if n < 10 then [DigitChar(n)] else Digits(n / 10) + [DigitChar(n % 10)]
  }

  /** std::to_string of an integer. */
  function ToString(n: int): (s: string)
    ensures s != [] && (IsDigit(s[0]) || (s[0] == '-' && |s| > 1))
    ensures forall i :: 0 <= i < |s| ==> IsDigit(s[i]) || s[i] == '-'
  {
    if n < 0 then "-" + Digits(-n) else Digits(n)
  }

  /** The value of a run of digits, most significant first. */
  function Value(s: string): nat
    requires forall i :: 0 <= i < |s| ==> IsDigit(s[i])
  {
    if s == [] then 0 else assert IsDigit(s[|s| - 1]); Value(s[..|s| - 1]) * 10 + (s[|s| - 1] as int - '0' as int)
  }

  /** The longest prefix of s that consists of digits. */
  function DigitRun(s: string): (r: string)
    ensures forall i :: 0 <= i < |r| ==> IsDigit(r[i])
  {
    if s == [] || !IsDigit(s[0]) then [] else [s[0]] + DigitRun(s[1..])
  }

  function SkipSpace(s: string): (r: string)
    ensures |r| <= |s|
    ensures r != [] ==> !IsSpace(r[0])
    ensures s != [] && !IsSpace(s[0]) ==> r == s
  {
    if s == [] || !IsSpace(s[0]) then s else SkipSpace(s[1..])
  }

  /** strtoll in base 10: leading space, an optional sign, then digits up to the
      first other character. None when there is no digit (std::invalid_argument). */
  function Strtoll(s: string): Option<int> {
    var t := SkipSpace(s);
    var negative := t != [] && t[0] == '-';
    var signed := t != [] && (t[0] == '-' || t[0] == '+');
    var digits := DigitRun(if signed then t[1..] else t);
    if digits == [] then None
    else var n: int := Value(digits); Some(if negative then -n else n)
  }

  /** std::stoll: None stands for either exception it throws. */
  function Stoll(s: string): Option<int> {
    match Strtoll(s)
    case None => None
    case Some(n) => if MIN64 <= n <= MAX64 then Some(n) else None
  }

  /** std::stoi: None stands for either exception it throws. */
  function Stoi(s: string): Option<int> {
    match Strtoll(s)
    case None => None
    case Some(n) => if MIN32 <= n <= MAX32 then Some(n) else None
  }

  /** The reading INCR applies to a stored value: canonical 64-bit decimal only. */
  function StrictInteger(s: string): Option<int> {
    match Stoll(s)
    case None => None
    case Some(n) => if ToString(n) == s then Some(n) else None
  }

  lemma {:induction false} DigitRunOfDigits(s: string)
    requires forall i :: 0 <= i < |s| ==> IsDigit(s[i])
    ensures DigitRun(s) == s
  {
    if s != [] {
      DigitRunOfDigits(s[1..]);
    }
  }

  lemma {:induction false} ValueOfDigits(n: nat)
    ensures Value(Digits(n)) == n
  {
    if n >= 10 {
      ValueOfDigits(n / 10);
      assert Digits(n)[..|Digits(n)| - 1] == Digits(n / 10);
    }
  }

  lemma {:induction false} DigitRunStops(s: string, t: string)
    requires forall i :: 0 <= i < |s| ==> IsDigit(s[i])
    requires t == [] || !IsDigit(t[0])
    ensures DigitRun(s + t) == s
  {
    if s == [] {
      assert s + t == t;
    } else {
      assert (s + t)[1..] == s[1..] + t;
      DigitRunStops(s[1..], t);
    }
  }

  lemma {:induction false} SkipsSpace(space: string, s: string)
    requires forall i :: 0 <= i < |space| ==> IsSpace(space[i])
    requires s != [] && !IsSpace(s[0])
    ensures SkipSpace(space + s) == s
  {
    if space == [] {
      assert space + s == s;
    } else {
      assert (space + s)[1..] == space[1..] + s;
      SkipsSpace(space[1..], s);
    }
  }

  lemma StrtollPositive(s: string, digits: string, t: string)
    requires digits != [] && (forall i :: 0 <= i < |digits| ==> IsDigit(digits[i])) && (t == [] || !IsDigit(t[0]))
    requires SkipSpace(s) == digits + t
    ensures Strtoll(s) == Some(Value(digits))
  {
    hide SkipSpace, DigitRun, Value;
    DigitRunStops(digits, t);
  }

  lemma StrtollNegative(s: string, digits: string, t: string)
    requires digits != [] && (forall i :: 0 <= i < |digits| ==> IsDigit(digits[i])) && (t == [] || !IsDigit(t[0]))
    requires SkipSpace(s) == ['-'] + (digits + t)
    ensures var n: int := Value(digits); Strtoll(s) == Some(-n)
  {
    hide SkipSpace, DigitRun, Value;
    DigitRunStops(digits, t);
    assert SkipSpace(s)[1..] == digits + t;
  }

  lemma StrtollInContext(space: string, n: int, t: string)
    requires forall i :: 0 <= i < |space| ==> IsSpace(space[i])
    requires t == [] || !IsDigit(t[0])
    ensures Strtoll(space + (ToString(n) + t)) == Some(n)
  {
    hide Digits, Value, DigitRun, SkipSpace, Strtoll;
    var s := ToString(n) + t;
    SkipsSpace(space, s);
    if n < 0 {
      ValueOfDigits(-n);
      assert s == ['-'] + (Digits(-n) + t);
      StrtollNegative(space + s, Digits(-n), t);
    } else {
      ValueOfDigits(n);
      StrtollPositive(space + s, Digits(n), t);
    }
  }

  /** The library reads a number between leading space and whatever follows its digits; INCR takes
      only the bare number. */
  lemma ReadsInContext(space: string, n: int, t: string)
    requires forall i :: 0 <= i < |space| ==> IsSpace(space[i])
    requires t == [] || !IsDigit(t[0])
    ensures Strtoll(space + (ToString(n) + t)) == Some(n)
    ensures MIN64 <= n <= MAX64 ==> Stoll(space + (ToString(n) + t)) == Some(n)
    ensures space + t != [] ==> StrictInteger(space + (ToString(n) + t)) == None
  {
    hide Strtoll, ToString;
    StrtollInContext(space, n, t);
    assert |space + (ToString(n) + t)| == |space + t| + |ToString(n)|;
  }

  /** Printing and reading back a decimal gives the number again. */
  lemma ReadBack(n: int)
    ensures Strtoll(ToString(n)) == Some(n)
    ensures MIN64 <= n <= MAX64 ==> Stoll(ToString(n)) == Some(n) && StrictInteger(ToString(n)) == Some(n)
    ensures MIN32 <= n <= MAX32 ==> Stoi(ToString(n)) == Some(n)
  {
    hide Strtoll, ToString;
    StrtollInContext("", n, "");
    assert "" + (ToString(n) + "") == ToString(n);
  }
}
