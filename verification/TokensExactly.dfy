/** Exactly which tokens come back: those whose every text claim the printer can carry. */
module TokensExactly {
  import opened Ints
  import opened Outcome
  import opened Decimal
  import opened Users
  import opened Base64Url
  import opened ClaimsJson
  import opened ClaimsExactly
  import opened Jwt

  lemma {:induction false} PutThenHas(c: Claims, key: string, value: string, k: string)
    ensures Has(Put(c, key, value), k) <==> k == key || Has(c, k)
  {
    if c != [] && c[0].0 != key && !Less(key, c[0].0) {
      PutThenHas(c[1..], key, value, k);
    }
  }

  /** The parser never drops a key it has found. */
  lemma {:induction false} FoundStaysFound(s: string, acc: Claims, k: string)
    requires Has(acc, k)
    ensures Has(ParseMembers(s, acc), k)
    decreases |s|
  {
    hide Has, Put;
    if s != [] {
      var t := SkipSpace(s);
      if At(t) == ',' {
        FoundStaysFound(t[1..], acc, k);
      } else if At(t) != '}' {
        var (key, value, rest) := ParseMember(t);
        PutThenHas(acc, key, value, k);
        FoundStaysFound(rest, if key != "" then Put(acc, key, value) else acc, k);
      }
    }
  }

  /** The key of the first value that may be bad is always found. */
  lemma FirstDoubtfulIsFound(c: Claims, n: nat)
    requires n < |c| && Good(c[..n]) && Sorted(c) && GoodKey(c[n].0)
    ensures Has(Parse(Print(c)), c[n].0)
  {
    hide Sorted, PrintMember, Parse, ParseMembers, Print, Has, Put, Less, GoodKey, GoodValue, Rest, PrintHead,
         ParseMember;
    RestIsPrinted(c);
    ParseStart(Rest(c));
    RestSplits(c, n);
    PrefixIsSorted(c, n);
    assert [] + c[..n] == c[..n];
    ParseHead(c[..n], [], Rest(c[n..]));
    NextIsFound(c[n..], c[..n]);
  }

  lemma PrefixIsSorted(c: Claims, n: nat)
    requires n <= |c| && Sorted(c)
    ensures Sorted(c[..n])
  {
    hide Less;
  }

  lemma {:induction false} RestSplits(c: Claims, n: nat)
    requires n < |c|
    ensures Rest(c) == PrintHead(c[..n]) + Rest(c[n..])
  {
    hide PrintMember;
    if n == 0 {
      assert c[0..] == c && PrintHead(c[..0]) == "";
    } else {
      RestSplits(c[1..], n - 1);
      assert c[1..][..n - 1] == c[..n][1..] && c[1..][n - 1..] == c[n..];
    }
  }

  lemma NextIsFound(c: Claims, acc: Claims)
    requires c != [] && GoodKey(c[0].0)
    ensures Has(ParseMembers(Rest(c), acc), c[0].0)
  {
    hide ParseValue, Escape, Has, Put, GoodKey, PrintValue, Tail, ParseMember;
    var (key, value) := c[0];
    var text := PrintValue(value) + Tail(c);
    var s := Rest(c);
    assert s == [QUOTE] + Escape(key) + [QUOTE, ':'] + text;
    ParseKeyOfPrint(key, text);
    GoodKeyIsNotEmpty(key);
    assert SkipSpace(s) == s;
    var (k, v, rest) := ParseMember(s);
    PutThenHas(acc, key, v, key);
    FoundStaysFound(rest, Put(acc, key, v), key);
  }

  lemma ClaimsAreBytes(c: Claims)
    requires forall i :: 0 <= i < |c| ==> IsBytes(c[i].0) && IsBytes(c[i].1)
    ensures IsBytes(Print(c))
  {
    hide PrintMembers, IsBytes;
    MembersAreBytes(c);
    PrintIsBytes(c);
  }

  /** What an accepted access payload tells of the claims. */
  lemma PayloadReads(cfg: Security, claims: Claims, now: int)
    ensures CheckExpiry(claims, now).Ok? ==> CheckExpiry(claims, now).value == claims
    ensures var r := AccessPayloadOf(cfg, claims, now);
            r.Ok? ==>
              && r.value.uuid == Get(claims, "uid") && r.value.mobile == Get(claims, "mobile")
              && (Has(claims, "iss") ==> Get(claims, "iss") == cfg.issuer)
    ensures RefreshSubjectOf(cfg, claims).Ok? ==> (Has(claims, "iss") ==> Get(claims, "iss") == cfg.issuer)
  {
    hide Get, Has, Stoll, FromTimeT;
  }

  predicate Plain(c: Claims, i: nat)
    requires i < |c|
  {
    GoodKey(c[i].0) && IsBytes(c[i].0) && IsBytes(c[i].1)
  }

  lemma PlainClaims(c: Claims)
    requires forall i :: 0 <= i < |c| ==> Plain(c, i)
    ensures GoodKeys(c) && forall i :: 0 <= i < |c| ==> IsBytes(c[i].0) && IsBytes(c[i].1)
  {
    hide GoodKey, IsBytes;
    forall i | 0 <= i < |c| ensures GoodKey(c[i].0) && IsBytes(c[i].0) && IsBytes(c[i].1) {
      assert Plain(c, i);
    }
  }

  lemma AccessClaimsArePlain(cfg: Security, user: UserEntity, issued: int, jti: int)
    requires IsBytes(cfg.issuer) && IsBytes(user.mobile) && IsBytes(user.uuid)
    ensures var c := AccessClaims(cfg, user, issued, jti);
            && Sorted(c) && (forall i :: 0 <= i < |c| ==> Plain(c, i))
            && forall i :: 0 <= i < |c| && i != 3 && i != 5 && i != 8 ==> GoodValue(c[i].1)
  {
    hide Less, ToString, RoleToString, Sorted, GoodKey, GoodValue, IsBytes, Expiry;
    AccessClaimsAreSorted(cfg, user, issued, jti);
    KeysAreGood();
    NumbersArePrintable(Expiry(issued, cfg.accessTtl));
    NumbersArePrintable(issued / SECOND);
    NumbersArePrintable(user.id);
    NumbersArePrintable(jti);
    RolesArePrintable(user.role);
    LiteralsArePrintable();
  }

  lemma RefreshClaimsArePlain(cfg: Security, userId: int, issued: int, jti: int)
    requires IsBytes(cfg.issuer)
    ensures var c := RefreshClaims(cfg, userId, issued, jti);
            && Sorted(c) && (forall i :: 0 <= i < |c| ==> Plain(c, i))
            && forall i :: 0 <= i < |c| && i != 2 ==> GoodValue(c[i].1)
  {
    hide Less, ToString, Sorted, GoodKey, GoodValue, IsBytes, Expiry;
    RefreshClaimsAreSorted(cfg, userId, issued, jti);
    KeysAreGood();
    NumbersArePrintable(Expiry(issued, cfg.refreshTtl));
    NumbersArePrintable(issued / SECOND);
    NumbersArePrintable(userId);
    NumbersArePrintable(jti);
    LiteralsArePrintable();
  }

  /** Until it expires an access token yields its user if and only if the issuer, the mobile
      and the uuid are all text the printer can carry. */
  lemma AccessRoundTripExactly(hmac: Hmac, cfg: Security, user: UserEntity, issued: int, jti: int, now: int)
    requires IsBytes(cfg.issuer) && IsBytes(user.mobile) && IsBytes(user.uuid) && user.uuid != ""
    requires MIN64 <= user.id <= MAX64 && ClockInRange(issued, cfg.accessTtl)
    requires now <= Expiry(issued, cfg.accessTtl) * SECOND
    ensures VerifyAccessToken(hmac, cfg, GenerateAccessToken(hmac, cfg, user, issued, jti), now)
            == Ok(AccessPayload(user.id, user.uuid, user.mobile, user.role, Expiry(issued, cfg.accessTtl) * SECOND))
       <==> GoodValue(cfg.issuer) && GoodValue(user.mobile) && GoodValue(user.uuid)
  {
    hide VerifyJwt, CreateJwt, ToString, Less, Sorted, Get, Has, Expiry, GoodValue, GoodKey, Print, Parse, IsBytes,
         AccessPayloadOf, CheckExpiry, Stoll;
    if GoodValue(cfg.issuer) && GoodValue(user.mobile) && GoodValue(user.uuid) {
      AccessRoundTrip(hmac, cfg, user, issued, jti, now);
    } else {
      var c := AccessClaims(cfg, user, issued, jti);
      AccessClaimsArePlain(cfg, user, issued, jti);
      PlainClaims(c);
      var bad := if !GoodValue(c[3].1) then 3 else if !GoodValue(c[5].1) then 5 else 8;
      var j := BadIsLost(c, bad);
      FirstDoubtfulIsFound(c, 3);
      ClaimsAreBytes(c);
      VerifyCreated(hmac, cfg.secret, c, now);
      PayloadReads(cfg, Parse(Print(c)), now);
    }
  }

  /** Until it expires a refresh token yields its user id if and only if the printer can carry
      the issuer. */
  lemma RefreshRoundTripExactly(hmac: Hmac, cfg: Security, userId: int, issued: int, jti: int, now: int)
    requires IsBytes(cfg.issuer) && ClockInRange(issued, cfg.refreshTtl)
    requires now <= Expiry(issued, cfg.refreshTtl) * SECOND
    ensures var token := GenerateRefreshToken(hmac, cfg, userId, issued, jti);
            ParseRefreshToken(hmac, cfg, token, now) == Ok(ToString(userId)) <==> GoodValue(cfg.issuer)
  {
    hide VerifyJwt, CreateJwt, ToString, Less, Sorted, Get, Has, Expiry, GoodValue, GoodKey, Print, Parse, IsBytes,
         RefreshSubjectOf, CheckExpiry;
    if GoodValue(cfg.issuer) {
      RefreshRoundTrip(hmac, cfg, userId, issued, jti, now);
    } else {
      var c := RefreshClaims(cfg, userId, issued, jti);
      RefreshClaimsArePlain(cfg, userId, issued, jti);
      PlainClaims(c);
      var j := BadIsLost(c, 2);
      FirstDoubtfulIsFound(c, 2);
      ClaimsAreBytes(c);
      VerifyCreated(hmac, cfg.secret, c, now);
      PayloadReads(cfg, Parse(Print(c)), now);
    }
  }
}
