/** Creating and verifying tokens. Instants are nanoseconds since the epoch, as
    system_clock counts them; HMAC-SHA256 is an arbitrary function. */
module Jwt {
  import opened Ints
  import opened Outcome
  import opened Decimal
  import opened Users
  import opened Base64Url
  import opened ClaimsJson

  const SECOND: int := 1_000_000_000
  const HEADER: string := "{\"alg\":\"HS256\",\"typ\":\"JWT\"}"

  datatype Security = Security(secret: string, issuer: string, accessTtl: int, refreshTtl: int)

  datatype AccessPayload = AccessPayload(userId: int, uuid: string, mobile: string, role: Role, expiresAt: int)

  type Hmac = (string, string) -> string

  function CreateJwt(hmac: Hmac, secret: string, claims: Claims): string {
    var input := Encode(HEADER) + "." + Encode(Print(claims));
    input + "." + Encode(hmac(secret, input))
  }

  /** std::string::find of one character, None for npos. */
  function Find(s: string, c: char, from: nat): (r: Option<nat>)
    ensures r.Some? ==> from <= r.value < |s| && s[r.value] == c && forall i :: from <= i < r.value ==> s[i] != c
    ensures r.None? ==> forall i :: from <= i < |s| ==> s[i] != c
    decreases |s| - from
  {
    if from >= |s| then None else if s[from] == c then Some(from) else Find(s, c, from + 1)
  }

  /** from_time_t, in the 64-bit tick count of system_clock. */
  function FromTimeT(seconds: int): int {
    Wrap64(seconds * SECOND)
  }

  /** The expiry check: a token is still accepted at the very instant of its exp. */
  function CheckExpiry(claims: Claims, now: int): Result<Claims> {
    if !Has(claims, "exp") then Ok(claims)
    else
      match Stoll(Get(claims, "exp"))
      case None => Fail(TokenInvalid)
      case Some(exp) => if now > FromTimeT(exp) then Fail(TokenExpired) else Ok(claims)
  }

  function VerifyJwt(hmac: Hmac, secret: string, token: string, now: int): Result<Claims> {
    match Find(token, '.', 0)
    case None => Fail(TokenInvalid)
    case Some(dot1) =>
      match Find(token, '.', dot1 + 1)
      case None => Fail(TokenInvalid)
      case Some(dot2) =>
        var header, payload, signature := token[..dot1], token[dot1 + 1..dot2], token[dot2 + 1..];
        if signature != Encode(hmac(secret, header + "." + payload)) then Fail(TokenInvalid)
        else CheckExpiry(Parse(Decode(payload)), now)
  }

  /** to_time_t of an instant `ttl` seconds after `now`. */
  function Expiry(now: int, ttl: int): int {
    (now + ttl * SECOND) / SECOND
  }

  /** The claims of an access token, in the map's key order. */
  function AccessClaims(cfg: Security, user: UserEntity, now: int, jti: int): Claims {
    [("exp", ToString(Expiry(now, cfg.accessTtl))), ("iat", ToString(now / SECOND)), ("id", ToString(user.id)),
     ("iss", cfg.issuer), ("jti", ToString(jti)), ("mobile", user.mobile), ("role", RoleToString(user.role)),
     ("sub", "access"), ("uid", user.uuid)]
  }

  function RefreshClaims(cfg: Security, userId: int, now: int, jti: int): Claims {
    [("exp", ToString(Expiry(now, cfg.refreshTtl))), ("iat", ToString(now / SECOND)), ("iss", cfg.issuer),
     ("jti", ToString(jti)), ("sub", "refresh"), ("uid", ToString(userId))]
  }

  function GenerateAccessToken(hmac: Hmac, cfg: Security, user: UserEntity, now: int, jti: int): string {
    CreateJwt(hmac, cfg.secret, AccessClaims(cfg, user, now, jti))
  }

  function GenerateRefreshToken(hmac: Hmac, cfg: Security, userId: int, now: int, jti: int): string {
    CreateJwt(hmac, cfg.secret, RefreshClaims(cfg, userId, now, jti))
  }

  /** The issuer and type checks both verifiers make; absent claims pass. */
  predicate Matches(claims: Claims, key: string, expected: string) {
    Has(claims, key) ==> Get(claims, key) == expected
  }

  function AccessPayloadOf(cfg: Security, claims: Claims, now: int): Result<AccessPayload> {
    if !Matches(claims, "iss", cfg.issuer) || !Matches(claims, "sub", "access") then Fail(TokenInvalid)
    else if Get(claims, "id") == "" || Get(claims, "uid") == "" || Get(claims, "role") == "" then Fail(TokenInvalid)
    else
      match Stoll(Get(claims, "id"))
      case None => Fail(TokenInvalid)
      case Some(id) =>
        var expiresAt :=
          if !Has(claims, "exp") then 0
          else match Stoll(Get(claims, "exp")) case None => now case Some(exp) => FromTimeT(exp);
        Ok(AccessPayload(id, Get(claims, "uid"), Get(claims, "mobile"), StringToRole(Get(claims, "role")), expiresAt))
  }

  function VerifyAccessToken(hmac: Hmac, cfg: Security, token: string, now: int): Result<AccessPayload> {
    if token == "" then Fail(TokenMissing)
    else
      match VerifyJwt(hmac, cfg.secret, token, now)
      case Fail(code) => Fail(code)
      case Ok(claims) => AccessPayloadOf(cfg, claims, now)
  }

  function RefreshSubjectOf(cfg: Security, claims: Claims): Result<string> {
    if !Matches(claims, "iss", cfg.issuer) || !Matches(claims, "sub", "refresh") then Fail(TokenInvalid)
    else if Get(claims, "uid") == "" then Fail(TokenInvalid)
    else Ok(Get(claims, "uid"))
  }

  function ParseRefreshToken(hmac: Hmac, cfg: Security, token: string, now: int): Result<string> {
    if token == "" then Fail(TokenMissing)
    else
      match VerifyJwt(hmac, cfg.secret, token, now)
      case Fail(code) => Fail(code)
      case Ok(claims) => RefreshSubjectOf(cfg, claims)
  }

  // ---------------------------------------------------------------------
  // Splitting at the dots.
  // ---------------------------------------------------------------------

  lemma AcceptedDots(hmac: Hmac, secret: string, token: string, now: int) returns (dot1: nat, dot2: nat)
    requires VerifyJwt(hmac, secret, token, now).Ok?
    ensures dot1 < dot2 < |token| && token[dot1] == '.' && token[dot2] == '.'
    ensures forall i :: 0 <= i < dot1 ==> token[i] != '.'
    ensures forall i :: dot1 < i < dot2 ==> token[i] != '.'
    ensures token[dot2 + 1..] == Encode(hmac(secret, token[..dot1] + "." + token[dot1 + 1..dot2]))
  {
    hide Encode, CheckExpiry, Parse, Decode, Find;
    dot1 := Find(token, '.', 0).value;
    dot2 := Find(token, '.', dot1 + 1).value;
  }

  /** Every accepted token carries the signature of its own header and payload. */
  lemma AcceptedTokensAreSigned(hmac: Hmac, secret: string, token: string, now: int)
    requires VerifyJwt(hmac, secret, token, now).Ok?
    ensures exists h, p :: '.' !in h && '.' !in p && token == h + "." + p + "." + Encode(hmac(secret, h + "." + p))
  {
    hide *;
    var dot1, dot2 := AcceptedDots(hmac, secret, token, now);
    var h, p := token[..dot1], token[dot1 + 1..dot2];
    assert token == h + "." + p + "." + token[dot2 + 1..];
    forall i | 0 <= i < |h| ensures h[i] != '.' {
      assert h[i] == token[i];
    }
    forall i | 0 <= i < |p| ensures p[i] != '.' {
      assert p[i] == token[dot1 + 1 + i];
    }
  }

  /** A created token is split where it was joined, and its signature matches. */
  lemma VerifyCreated(hmac: Hmac, secret: string, claims: Claims, now: int)
    requires IsBytes(Print(claims))
    ensures VerifyJwt(hmac, secret, CreateJwt(hmac, secret, claims), now) == CheckExpiry(Parse(Print(claims)), now)
  {
    hide Encode, CheckExpiry, Parse, Decode, Print, Find, IsBytes;
    DecodeEncode(Print(claims));
    var h, p := Encode(HEADER), Encode(Print(claims));
    var input := h + "." + p;
    var sig := Encode(hmac(secret, input));
    var token := input + "." + sig;
    assert token == h + ("." + p + "." + sig);
    FindAt(token, |h|, 0);
    FindAt(token, |h| + 1 + |p|, |h| + 1);
    assert token[..|h|] == h && token[|h| + 1..|h| + 1 + |p|] == p && token[|h| + 1 + |p| + 1..] == sig;
  }

  lemma FindAt(s: string, at: nat, from: nat)
    requires from <= at < |s| && s[at] == '.' && forall i :: from <= i < at ==> s[i] != '.'
    ensures Find(s, '.', from) == Some(at)
  {
  }

  // ---------------------------------------------------------------------
  // Claims.
  // ---------------------------------------------------------------------

  /** Text the printer can carry: bytes that survive the JSON round trip. */
  predicate Printable(s: string) {
    IsBytes(s) && GoodValue(s)
  }

  /** The clock and the lifetime leave the expiry inside the 64-bit tick range. */
  predicate ClockInRange(now: int, ttl: int) {
    0 <= now && 0 <= ttl && now + ttl * SECOND <= MAX64
  }

  lemma NumbersArePrintable(n: int)
    ensures Printable(ToString(n)) && ToString(n) != ""
  {
    var s := ToString(n);
    assert IsNumber(s);
  }

  lemma RolesArePrintable(role: Role)
    ensures Printable(RoleToString(role)) && RoleToString(role) != "" && StringToRole(RoleToString(role)) == role
  {
  }

  lemma LiteralsArePrintable()
    ensures Printable("access") && Printable("refresh")
  {
    assert 'a' in "access" && 'r' in "refresh";
  }

  /** The keys of the claims are good and distinct; the printed claims are bytes. */
  predicate GoodClaims(c: Claims) {
    && Good(c) && Sorted(c)
    && forall i :: 0 <= i < |c| ==> IsBytes(c[i].0) && IsBytes(c[i].1)
  }

  lemma {:induction false} EscapeIsBytes(s: string)
    requires IsBytes(s)
    ensures IsBytes(Escape(s))
  {
    if s != [] {
      EscapeIsBytes(s[1..]);
      assert IsBytes(EscapeChar(s[0]));
    }
  }

  lemma MemberIsBytes(key: string, value: string)
    requires IsBytes(key) && IsBytes(value)
    ensures IsBytes(PrintMember(key, value))
  {
    hide Escape;
    EscapeIsBytes(key);
    EscapeIsBytes(value);
    assert IsBytes(PrintValue(value));
  }

  lemma {:induction false} MembersAreBytes(c: Claims)
    requires forall i :: 0 <= i < |c| ==> IsBytes(c[i].0) && IsBytes(c[i].1)
    ensures IsBytes(PrintMembers(c))
  {
    hide PrintMember;
    if c != [] {
      MemberIsBytes(c[0].0, c[0].1);
      MembersAreBytes(c[1..]);
    }
  }

  lemma VerifyGoodClaims(hmac: Hmac, secret: string, claims: Claims, now: int)
    requires GoodClaims(claims)
    ensures VerifyJwt(hmac, secret, CreateJwt(hmac, secret, claims), now) == CheckExpiry(claims, now)
  {
    hide VerifyJwt, CreateJwt, CheckExpiry, PrintMembers, Good, Sorted, Parse;
    MembersAreBytes(claims);
    assert IsBytes(Print(claims));
    VerifyCreated(hmac, secret, claims, now);
    ParsePrint(claims);
  }

  /** The claim names are listed in increasing order. */
  lemma KeysAreOrdered()
    ensures Less("exp", "iat") && Less("iat", "id") && Less("id", "iss") && Less("iss", "jti")
    ensures Less("jti", "mobile") && Less("mobile", "role") && Less("role", "sub") && Less("sub", "uid")
    ensures Less("iat", "iss") && Less("jti", "sub")
  {
  }

  lemma KeysAreGood()
    ensures forall k :: k in ["exp", "iat", "id", "iss", "jti", "mobile", "role", "sub", "uid"] ==>
            GoodKey(k) && IsBytes(k)
  {
    LettersAreGood("exp");
    LettersAreGood("iat");
    LettersAreGood("id");
    LettersAreGood("iss");
    LettersAreGood("jti");
    LettersAreGood("mobile");
    LettersAreGood("role");
    LettersAreGood("sub");
    LettersAreGood("uid");
  }

  lemma LettersAreGood(k: string)
    requires k != "" && forall i :: 0 <= i < |k| ==> 'a' <= k[i] <= 'z'
    ensures GoodKey(k) && IsBytes(k)
  {
  }

  /** An issuer, uuid and mobile that the printed claims can carry. */
  predicate PrintableUser(cfg: Security, user: UserEntity) {
    && Printable(cfg.issuer)
    && Printable(user.mobile)
    && Printable(user.uuid)
  }

  lemma AccessClaimsAreSorted(cfg: Security, user: UserEntity, now: int, jti: int)
    ensures Sorted(AccessClaims(cfg, user, now, jti))
  {
    hide Less, ToString, RoleToString, Sorted;
    KeysAreOrdered();
    var c := AccessClaims(cfg, user, now, jti);
    forall i | 0 <= i < |c| - 1 ensures Less(c[i].0, c[i + 1].0) {
    }
    ChainIsSorted(c);
  }

  lemma RefreshClaimsAreSorted(cfg: Security, userId: int, now: int, jti: int)
    ensures Sorted(RefreshClaims(cfg, userId, now, jti))
  {
    hide Less, ToString, Sorted;
    KeysAreOrdered();
    var c := RefreshClaims(cfg, userId, now, jti);
    forall i | 0 <= i < |c| - 1 ensures Less(c[i].0, c[i + 1].0) {
    }
    ChainIsSorted(c);
  }

  lemma AccessClaimsAreGood(cfg: Security, user: UserEntity, now: int, jti: int)
    requires PrintableUser(cfg, user)
    ensures GoodClaims(AccessClaims(cfg, user, now, jti))
  {
    hide Less, ToString, RoleToString, Sorted, GoodKey, GoodValue, IsBytes;
    AccessClaimsAreSorted(cfg, user, now, jti);
    KeysAreGood();
    NumbersArePrintable(Expiry(now, cfg.accessTtl));
    NumbersArePrintable(now / SECOND);
    NumbersArePrintable(user.id);
    NumbersArePrintable(jti);
    RolesArePrintable(user.role);
    LiteralsArePrintable();
  }

  lemma RefreshClaimsAreGood(cfg: Security, userId: int, now: int, jti: int)
    requires Printable(cfg.issuer)
    ensures GoodClaims(RefreshClaims(cfg, userId, now, jti))
  {
    hide Less, ToString, Sorted, GoodKey, GoodValue, IsBytes;
    RefreshClaimsAreSorted(cfg, userId, now, jti);
    KeysAreGood();
    NumbersArePrintable(Expiry(now, cfg.refreshTtl));
    NumbersArePrintable(now / SECOND);
    NumbersArePrintable(userId);
    NumbersArePrintable(jti);
    LiteralsArePrintable();
  }

  /** The expiry claim is read back as the number that was written. */
  lemma ExpiryIsReadBack(claims: Claims, now: int, issued: int, ttl: int)
    requires Sorted(claims) && claims != [] && claims[0] == ("exp", ToString(Expiry(issued, ttl)))
    requires ClockInRange(issued, ttl)
    ensures CheckExpiry(claims, now) == if now > Expiry(issued, ttl) * SECOND then Fail(TokenExpired) else Ok(claims)
    ensures Has(claims, "exp") && Stoll(Get(claims, "exp")) == Some(Expiry(issued, ttl))
    ensures FromTimeT(Expiry(issued, ttl)) == Expiry(issued, ttl) * SECOND
  {
    hide Stoll, ToString, Less, Sorted;
    GetAt(claims, 0);
    var exp := Expiry(issued, ttl);
    assert 0 <= exp * SECOND <= issued + ttl * SECOND;
    ReadBack(exp);
  }

  /** A created token: its expiry decides between TokenExpired and the claims that went in. */
  lemma VerifyIssued(hmac: Hmac, secret: string, claims: Claims, now: int, issued: int, ttl: int)
    requires GoodClaims(claims) && claims != [] && claims[0] == ("exp", ToString(Expiry(issued, ttl)))
    requires ClockInRange(issued, ttl)
    ensures VerifyJwt(hmac, secret, CreateJwt(hmac, secret, claims), now)
         == if now > Expiry(issued, ttl) * SECOND then Fail(TokenExpired) else Ok(claims)
    ensures CreateJwt(hmac, secret, claims) != ""
  {
    hide VerifyJwt, CreateJwt, CheckExpiry, Good, Sorted, IsBytes, ToString, Expiry;
    VerifyGoodClaims(hmac, secret, claims, now);
    ExpiryIsReadBack(claims, now, issued, ttl);
    CreatedIsNotEmpty(hmac, secret, claims);
  }

  lemma CreatedIsNotEmpty(hmac: Hmac, secret: string, claims: Claims)
    ensures CreateJwt(hmac, secret, claims) != ""
  {
    hide Encode, Print;
  }

  lemma AccessPayloadIsReadBack(cfg: Security, user: UserEntity, issued: int, jti: int, now: int)
    requires PrintableUser(cfg, user) && user.uuid != "" && MIN64 <= user.id <= MAX64
    requires ClockInRange(issued, cfg.accessTtl)
    ensures AccessPayloadOf(cfg, AccessClaims(cfg, user, issued, jti), now)
         == Ok(AccessPayload(user.id, user.uuid, user.mobile, user.role, Expiry(issued, cfg.accessTtl) * SECOND))
  {
    hide Stoll, ToString, Less, Sorted, Get, Has, Expiry, FromTimeT, RoleToString, StringToRole;
    var c := AccessClaims(cfg, user, issued, jti);
    AccessClaimsAreSorted(cfg, user, issued, jti);
    ExpiryIsReadBack(c, now, issued, cfg.accessTtl);
    GetAt(c, 2);
    GetAt(c, 3);
    GetAt(c, 5);
    GetAt(c, 6);
    GetAt(c, 7);
    GetAt(c, 8);
    ReadBack(user.id);
    NumbersArePrintable(user.id);
    RolesArePrintable(user.role);
  }

  lemma RefreshSubjectIsReadBack(cfg: Security, userId: int, issued: int, jti: int)
    ensures RefreshSubjectOf(cfg, RefreshClaims(cfg, userId, issued, jti)) == Ok(ToString(userId))
  {
    hide ToString, Less, Sorted, Get, Has, Expiry;
    var c := RefreshClaims(cfg, userId, issued, jti);
    RefreshClaimsAreSorted(cfg, userId, issued, jti);
    GetAt(c, 2);
    GetAt(c, 4);
    GetAt(c, 5);
    NumbersArePrintable(userId);
  }

  lemma SubjectsDiffer()
    ensures "access" != "refresh"
  {
    assert "access"[0] != "refresh"[0];
  }

  /** Up to and including its expiry an access token yields exactly the user it was made
      for; afterwards it is expired. It never passes for a refresh token. */
  lemma AccessRoundTrip(hmac: Hmac, cfg: Security, user: UserEntity, issued: int, jti: int, now: int)
    requires PrintableUser(cfg, user) && user.uuid != "" && MIN64 <= user.id <= MAX64
    requires ClockInRange(issued, cfg.accessTtl)
    ensures var token := GenerateAccessToken(hmac, cfg, user, issued, jti);
            var exp := Expiry(issued, cfg.accessTtl) * SECOND;
            && VerifyAccessToken(hmac, cfg, token, now)
               == (if now > exp then Fail(TokenExpired)
                   else Ok(AccessPayload(user.id, user.uuid, user.mobile, user.role, exp)))
            && ParseRefreshToken(hmac, cfg, token, now)
               == (if now > exp then Fail(TokenExpired) else Fail(TokenInvalid))
  {
    hide VerifyJwt, CreateJwt, AccessPayloadOf, ToString, Less, Sorted, Get, Has, Expiry;
    var c := AccessClaims(cfg, user, issued, jti);
    AccessClaimsAreGood(cfg, user, issued, jti);
    VerifyIssued(hmac, cfg.secret, c, now, issued, cfg.accessTtl);
    AccessPayloadIsReadBack(cfg, user, issued, jti, now);
    AccessClaimsAreSorted(cfg, user, issued, jti);
    GetAt(c, 7);
    SubjectsDiffer();
  }

  /** The same for a refresh token, which yields the decimal user id and never passes
      for an access token. */
  lemma RefreshRoundTrip(hmac: Hmac, cfg: Security, userId: int, issued: int, jti: int, now: int)
    requires Printable(cfg.issuer) && ClockInRange(issued, cfg.refreshTtl)
    ensures var token := GenerateRefreshToken(hmac, cfg, userId, issued, jti);
            var exp := Expiry(issued, cfg.refreshTtl) * SECOND;
            && ParseRefreshToken(hmac, cfg, token, now)
               == (if now > exp then Fail(TokenExpired) else Ok(ToString(userId)))
            && VerifyAccessToken(hmac, cfg, token, now)
               == (if now > exp then Fail(TokenExpired) else Fail(TokenInvalid))
  {
    hide VerifyJwt, CreateJwt, RefreshSubjectOf, ToString, Less, Sorted, Get, Has, Expiry;
    var c := RefreshClaims(cfg, userId, issued, jti);
    RefreshClaimsAreGood(cfg, userId, issued, jti);
    VerifyIssued(hmac, cfg.secret, c, now, issued, cfg.refreshTtl);
    RefreshSubjectIsReadBack(cfg, userId, issued, jti);
    RefreshClaimsAreSorted(cfg, userId, issued, jti);
    GetAt(c, 4);
    SubjectsDiffer();
  }

  /** The uuid, the last claim, comes back exactly when it is text the parser can carry:
      a uuid printed without quotes must hold no ',', '}' or white space, any other no
      backspace or form feed. */
  lemma UuidIsReadBackExactly(hmac: Hmac, cfg: Security, user: UserEntity, issued: int, jti: int, now: int)
    requires Printable(cfg.issuer) && Printable(user.mobile) && IsBytes(user.uuid) && user.uuid != ""
    requires MIN64 <= user.id <= MAX64 && ClockInRange(issued, cfg.accessTtl)
    requires now <= Expiry(issued, cfg.accessTtl) * SECOND
    ensures var r := VerifyAccessToken(hmac, cfg, GenerateAccessToken(hmac, cfg, user, issued, jti), now);
            r.Ok? && r.value.uuid == user.uuid <==> GoodValue(user.uuid)
  {
    hide VerifyJwt, CreateJwt, ToString, Less, Sorted, Get, Has, Expiry, GoodValue, Print, Parse, IsBytes;
    if GoodValue(user.uuid) {
      AccessRoundTrip(hmac, cfg, user, issued, jti, now);
    } else {
      var c := AccessClaims(cfg, user, issued, jti);
      BadUuidIsNotReadBack(cfg, user, issued, jti);
      VerifyCreated(hmac, cfg.secret, c, now);
      PayloadKeepsUuid(cfg, Parse(Print(c)), now);
    }
  }

  lemma PayloadKeepsUuid(cfg: Security, claims: Claims, now: int)
    ensures CheckExpiry(claims, now).Ok? ==> CheckExpiry(claims, now).value == claims
    ensures AccessPayloadOf(cfg, claims, now).Ok? ==> AccessPayloadOf(cfg, claims, now).value.uuid == Get(claims, "uid")
  {
    hide Get, Has, Stoll, FromTimeT;
  }

  lemma BadUuidIsNotReadBack(cfg: Security, user: UserEntity, issued: int, jti: int)
    requires Printable(cfg.issuer) && Printable(user.mobile) && IsBytes(user.uuid) && !GoodValue(user.uuid)
    ensures var c := AccessClaims(cfg, user, issued, jti);
            IsBytes(Print(c)) && Get(Parse(Print(c)), "uid") != user.uuid
  {
    hide ToString, Less, Sorted, Get, Expiry, GoodValue, PrintMembers, Parse, IsBytes, GoodKey, RoleToString;
    var c := AccessClaims(cfg, user, issued, jti);
    var good := AccessClaims(cfg, user.(uuid := ""), issued, jti);
    var init := good[..8];
    assert GoodValue("") && IsBytes("") by { EmptyIsPrintable(); }
    AccessClaimsAreGood(cfg, user.(uuid := ""), issued, jti);
    assert c == init + [("uid", user.uuid)];
    SortedInit(good);
    assert forall i :: 0 <= i < |init| ==> init[i] == good[i];
    KeysAreGood();
    ParsePrintExactly(init, "uid", user.uuid);
    forall i | 0 <= i < |c| ensures IsBytes(c[i].0) && IsBytes(c[i].1) {
      assert i < 8 ==> c[i] == good[i];
    }
    MembersAreBytes(c);
    PrintIsBytes(c);
  }

  lemma EmptyIsPrintable()
    ensures Printable("")
  {
  }

  lemma SortedInit(c: Claims)
    requires Sorted(c) && c != []
    ensures Sorted(c[..|c| - 1]) && AllLess(c[..|c| - 1], c[|c| - 1].0)
  {
    hide Less;
  }

  lemma PrintIsBytes(c: Claims)
    requires IsBytes(PrintMembers(c))
    ensures IsBytes(Print(c))
  {
    hide PrintMembers;
  }
}
