/** The printed strings for a reader that follows section 7 of RFC 8259. */
module JsonTheorems {
  import opened Outcome
  import opened ClaimsJson

  /** The character a two-character escape stands for. The six-character form is not read here:
      the printer never writes it. */
  function Escaped(e: char): Option<char> {
    if e == '\"' || e == '\\' || e == '/' then Some(e)
    else if e == 'b' then Some(8 as char)
    else if e == 't' then Some(9 as char)
    else if e == 'n' then Some(10 as char)
    else if e == 'f' then Some(12 as char)
    else if e == 'r' then Some(13 as char)
    else None
  }

  /** A string after its opening quote, and what follows its closing one; None for text that is
      no JSON string: an unknown escape, a bare control character or no closing quote. */
  function ReadString(t: string): Option<(string, string)> {
    if t == [] || t[0] as int < 32 then None
    else if t[0] == '\"' then Some(([], t[1..]))
    else if t[0] != '\\' then
      match ReadString(t[1..])
      case None => None
      case Some((s, rest)) => Some(([t[0]] + s, rest))
    else if |t| < 2 || Escaped(t[1]).None? then None
    else
      match ReadString(t[2..])
      case None => None
      case Some((s, rest)) => Some(([Escaped(t[1]).value] + s, rest))
  }

  /** Control characters that have no two-character escape. */
  predicate IsBareControl(c: char) {
    c as int < 32 && c as int !in {8, 9, 10, 12, 13}
  }

  predicate Legible(s: string) {
    forall i :: 0 <= i < |s| ==> !IsBareControl(s[i])
  }

  lemma ReadsOne(c: char, tail: string)
    requires !IsBareControl(c)
    ensures ReadString(EscapeChar(c) + tail)
         == match ReadString(tail) case None => None case Some((s, rest)) => Some(([c] + s, rest))
  {
    var e := EscapeChar(c);
    if |e| == 1 {
      assert (e + tail)[1..] == tail;
    } else {
      assert (e + tail)[2..] == tail;
    }
  }

  lemma BareControlIsNotRead(c: char, tail: string)
    requires IsBareControl(c)
    ensures ReadString(EscapeChar(c) + tail).None?
  {
  }

  /** A standard reader gets a printed string back, with what follows it, if and only if the string
      holds no control character but the five that are escaped; otherwise it refuses the text. */
  lemma {:induction false} StandardReaderReadsBack(s: string, rest: string)
    ensures ReadString(Escape(s) + ['\"'] + rest) == if Legible(s) then Some((s, rest)) else None
  {
    var t := Escape(s) + ['\"'] + rest;
    if s == [] {
      assert t == ['\"'] + rest;
      assert t[1..] == rest;
    } else {
      var tail := Escape(s[1..]) + ['\"'] + rest;
      assert t == EscapeChar(s[0]) + tail;
      StandardReaderReadsBack(s[1..], rest);
      if IsBareControl(s[0]) {
        BareControlIsNotRead(s[0], tail);
      } else {
        ReadsOne(s[0], tail);
        assert Legible(s) <==> Legible(s[1..]) by {
          if Legible(s[1..]) {
            forall i | 0 <= i < |s| ensures !IsBareControl(s[i]) {
              if i > 0 { assert s[i] == s[1..][i - 1]; }
            }
          }
        }
        assert [s[0]] + s[1..] == s;
      }
    }
  }
}
