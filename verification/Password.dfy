/** Stored passwords: "$sha256$<salt in hex>$<digest in hex>". SHA-256 is an arbitrary
    function from text to digest bytes. */
module Password {
  import opened Outcome
  import opened Base64Url
  import opened Jwt

  type Digest = string -> seq<byte>

  const PREFIX: string := "$sha256$"

  function HexDigit(x: int): (c: char)
    requires 0 <= x < 16
    ensures c != '$' && HexValue(c) == x
  {
    if x < 10 then ('0' as int + x) as char else ('a' as int + (x - 10)) as char
  }

  function HexValue(c: char): int {
    if c <= '9' then c as int - '0' as int else c as int - 'a' as int + 10
  }

  /** Two lower-case hex digits a byte, most significant first. */
  function Hex(bytes: seq<byte>): (s: string)
    ensures |s| == 2 * |bytes|
  {
    if bytes == [] then []
    else Hex(bytes[..|bytes| - 1]) + [HexDigit(bytes[|bytes| - 1] / 16), HexDigit(bytes[|bytes| - 1] % 16)]
  }

  lemma {:induction false} HexHasNoDollar(bytes: seq<byte>)
    ensures forall i :: 0 <= i < |Hex(bytes)| ==> Hex(bytes)[i] != '$'
  {
    if bytes != [] {
      HexHasNoDollar(bytes[..|bytes| - 1]);
    }
  }

  /** Hex printing loses nothing. */
  lemma {:induction false} HexIsInjective(a: seq<byte>, b: seq<byte>)
    requires Hex(a) == Hex(b)
    ensures a == b
  {
    hide HexDigit;
    if a != [] {
      var n := |a| - 1;
      assert |b| == |a|;
      assert Hex(a)[..2 * n] == Hex(a[..n]) && Hex(b)[..2 * n] == Hex(b[..n]);
      HexIsInjective(a[..n], b[..n]);
      assert Hex(a)[2 * n] == HexDigit(a[n] / 16) && Hex(b)[2 * n] == HexDigit(b[n] / 16);
      assert Hex(a)[2 * n + 1] == HexDigit(a[n] % 16) && Hex(b)[2 * n + 1] == HexDigit(b[n] % 16);
      HexDigitIsInjective(a[n] / 16, b[n] / 16);
      HexDigitIsInjective(a[n] % 16, b[n] % 16);
      assert a == a[..n] + [a[n]] && b == b[..n] + [b[n]];
    }
  }

  lemma HexDigitIsInjective(x: int, y: int)
    requires 0 <= x < 16 && 0 <= y < 16 && HexDigit(x) == HexDigit(y)
    ensures x == y
  {
  }

  method BytesToHex(data: seq<byte>) returns (s: string)
    ensures s == Hex(data)
  {
    hide HexDigit;
    s := "";
    for i := 0 to |data|
      invariant s == Hex(data[..i])
    {
      assert data[..i + 1][..i] == data[..i];
      s := s + [HexDigit(data[i] / 16), HexDigit(data[i] % 16)];
    }
    assert data[..|data|] == data;
  }

  function Bit(n: int, weight: int): int
    requires weight > 0
  {
    n / weight % 2
  }

  function Assemble(b7: bool, b6: bool, b5: bool, b4: bool, b3: bool, b2: bool, b1: bool, b0: bool): bv8 {
    (if b7 then 128 else 0) | (if b6 then 64 else 0) | (if b5 then 32 else 0) | (if b4 then 16 else 0)
    | (if b3 then 8 else 0) | (if b2 then 4 else 0) | (if b1 then 2 else 0) | (if b0 then 1 else 0)
  }

  /** A character as the eight bits the comparison loop sees. */
  function Bits(c: char): bv8 {
    var n := c as int;
    Assemble(Bit(n, 128) == 1, Bit(n, 64) == 1, Bit(n, 32) == 1, Bit(n, 16) == 1,
             Bit(n, 8) == 1, Bit(n, 4) == 1, Bit(n, 2) == 1, Bit(n, 1) == 1)
  }

  lemma AssembleIsInjective(b7: bool, b6: bool, b5: bool, b4: bool, b3: bool, b2: bool, b1: bool, b0: bool,
                            d7: bool, d6: bool, d5: bool, d4: bool, d3: bool, d2: bool, d1: bool, d0: bool)
    requires Assemble(b7, b6, b5, b4, b3, b2, b1, b0) == Assemble(d7, d6, d5, d4, d3, d2, d1, d0)
    ensures b7 == d7 && b6 == d6 && b5 == d5 && b4 == d4 && b3 == d3 && b2 == d2 && b1 == d1 && b0 == d0
  {
  }

  lemma SumOfBits(n: int)
    requires 0 <= n < 256
    ensures n == 128 * Bit(n, 128) + 64 * Bit(n, 64) + 32 * Bit(n, 32) + 16 * Bit(n, 16)
                 + 8 * Bit(n, 8) + 4 * Bit(n, 4) + 2 * Bit(n, 2) + Bit(n, 1)
    ensures forall w :: w > 0 ==> Bit(n, w) == 0 || Bit(n, w) == 1
  {
    assert n / 2 / 2 == n / 4 && n / 4 / 2 == n / 8 && n / 8 / 2 == n / 16;
    assert n / 16 / 2 == n / 32 && n / 32 / 2 == n / 64 && n / 64 / 2 == n / 128;
  }

  lemma BitsAreInjective(c: char, d: char)
    requires c as int < 256 && d as int < 256
    ensures Bits(c) == Bits(d) <==> c == d
  {
    hide Assemble, Bit;
    var m, n := c as int, d as int;
    if Bits(c) == Bits(d) {
      AssembleIsInjective(Bit(m, 128) == 1, Bit(m, 64) == 1, Bit(m, 32) == 1, Bit(m, 16) == 1,
                          Bit(m, 8) == 1, Bit(m, 4) == 1, Bit(m, 2) == 1, Bit(m, 1) == 1,
                          Bit(n, 128) == 1, Bit(n, 64) == 1, Bit(n, 32) == 1, Bit(n, 16) == 1,
                          Bit(n, 8) == 1, Bit(n, 4) == 1, Bit(n, 2) == 1, Bit(n, 1) == 1);
      SumOfBits(m);
      SumOfBits(n);
    }
  }

  lemma XorIsZero(x: bv8, y: bv8)
    ensures x ^ y == 0 <==> x == y
  {
  }

  lemma OrIsZero(x: bv8, y: bv8)
    ensures x | y == 0 <==> x == 0 && y == 0
  {
  }

  /** The OR of the XORs is zero exactly for equal strings; every position is visited. */
  method ConstantTimeCompare(a: string, b: string) returns (equal: bool)
    requires IsBytes(a) && IsBytes(b)
    ensures equal <==> a == b
  {
    hide Bits;
    if |a| != |b| { return false; }
    var result: bv8 := 0;
    for i := 0 to |a|
      invariant result == 0 <==> a[..i] == b[..i]
    {
      BitsAreInjective(a[i], b[i]);
      XorIsZero(Bits(a[i]), Bits(b[i]));
      OrIsZero(result, Bits(a[i]) ^ Bits(b[i]));
      assert a[..i + 1] == a[..i] + [a[i]] && b[..i + 1] == b[..i] + [b[i]];
      result := result | (Bits(a[i]) ^ Bits(b[i]));
    }
    assert a[..|a|] == a && b[..|b|] == b;
    return result == 0;
  }

  function Hash(sha: Digest, salt: seq<byte>, password: string): string {
    PREFIX + Hex(salt) + "$" + Hex(sha(Hex(salt) + password))
  }

  /** The salt and the digest text of a stored record. */
  function Split(stored: string): Option<(string, string)> {
    if |stored| < 8 || stored[..8] != PREFIX then None
    else
      match Find(stored, '$', 8)
      case None => None
      case Some(end) => Some((stored[8..end], stored[end + 1..]))
  }

  predicate Verify(sha: Digest, password: string, stored: string) {
    var parts := Split(stored);
    parts.Some? && parts.value.1 == Hex(sha(parts.value.0 + password))
  }

  /** A record is split into the salt and digest it was made of. */
  lemma SplitHash(sha: Digest, salt: seq<byte>, password: string)
    ensures Split(Hash(sha, salt, password)) == Some((Hex(salt), Hex(sha(Hex(salt) + password))))
  {
    hide Hex;
    HexHasNoDollar(salt);
    var h, d := Hex(salt), Hex(sha(Hex(salt) + password));
    var stored := Hash(sha, salt, password);
    assert |PREFIX| == 8;
    assert stored == PREFIX + (h + "$" + d);
    assert stored[..8] == PREFIX;
    var end := 8 + |h|;
    assert stored[end] == '$';
    forall i | 8 <= i < end ensures stored[i] != '$' {
      assert stored[i] == h[i - 8];
    }
    var found := Find(stored, '$', 8);
    assert found == Some(end);
    assert stored[8..end] == h && stored[end + 1..] == d;
  }

  /** A password is accepted exactly when it digests like the one that was hashed. */
  lemma VerifyExactly(sha: Digest, salt: seq<byte>, password: string, attempt: string)
    ensures Verify(sha, attempt, Hash(sha, salt, password))
       <==> sha(Hex(salt) + attempt) == sha(Hex(salt) + password)
  {
    hide Hex;
    SplitHash(sha, salt, password);
    if Hex(sha(Hex(salt) + password)) == Hex(sha(Hex(salt) + attempt)) {
      HexIsInjective(sha(Hex(salt) + password), sha(Hex(salt) + attempt));
    }
  }

  lemma SplitsInto(stored: string, salt: string, digest: string)
    requires stored == PREFIX + (salt + ("$" + digest)) && '$' !in salt
    ensures Split(stored) == Some((salt, digest))
  {
    hide Find;
    assert |PREFIX| == 8;
    assert stored[..8] == PREFIX && stored[8..] == salt + ("$" + digest);
    var end := 8 + |salt|;
    assert stored[end] == '$';
    forall i | 8 <= i < end ensures stored[i] != '$' {
      assert stored[i] == salt[i - 8];
      assert salt[i - 8] in salt;
    }
    FindsFirst(stored, 8, end);
    assert stored[8..end] == salt && stored[end + 1..] == digest;
  }

  lemma FindsFirst(s: string, from: nat, end: nat)
    requires from <= end < |s| && s[end] == '$' && forall i :: from <= i < end ==> s[i] != '$'
    ensures Find(s, '$', from) == Some(end)
  {
  }

  lemma SplitGivesBack(stored: string)
    requires Split(stored).Some?
    ensures var (salt, digest) := Split(stored).value;
            '$' !in salt && stored == PREFIX + (salt + ("$" + digest))
  {
    hide Find;
    var end := Find(stored, '$', 8).value;
    assert stored == stored[..8] + stored[8..];
    assert stored[8..] == stored[8..end] + ([stored[end]] + stored[end + 1..]);
  }

  /** A password is accepted against any stored text exactly when that text is the prefix, a salt
      without '$', and the digest in hex of this salt and this password. */
  lemma AcceptedRecordsExactly(sha: Digest, password: string, stored: string)
    ensures Verify(sha, password, stored)
       <==> exists salt :: '$' !in salt && stored == PREFIX + (salt + ("$" + Hex(sha(salt + password))))
  {
    hide Hex, Split;
    if Verify(sha, password, stored) { SplitGivesBack(stored); }
    forall salt | '$' !in salt && stored == PREFIX + (salt + ("$" + Hex(sha(salt + password))))
      ensures Verify(sha, password, stored)
    {
      SplitsInto(stored, salt, Hex(sha(salt + password)));
    }
  }

  /** The straight-line code of PasswordHelper::Verify, with its comparison loop. */
  method VerifyPassword(sha: Digest, password: string, stored: string) returns (ok: bool)
    requires IsBytes(stored)
    ensures ok <==> Verify(sha, password, stored)
  {
    hide Hex, Find;
    if |stored| < 8 || stored[..8] != PREFIX { return false; }
    var end := Find(stored, '$', 8);
    if end.None? { return false; }
    var salt, expected := stored[8..end.value], stored[end.value + 1..];
    var actual := BytesToHex(sha(salt + password));
    HexIsBytes(sha(salt + password));
    ok := ConstantTimeCompare(expected, actual);
  }

  lemma {:induction false} HexIsBytes(bytes: seq<byte>)
    ensures IsBytes(Hex(bytes))
  {
    if bytes != [] {
      HexIsBytes(bytes[..|bytes| - 1]);
    }
  }
}
