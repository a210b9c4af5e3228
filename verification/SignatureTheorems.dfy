/** Which texts pass for tokens, and that different tokens are different texts. */
module SignatureTheorems {
  import opened Outcome
  import opened Decimal
  import opened Users
  import opened Base64Url
  import opened ClaimsJson
  import opened Jwt
  import Service
  import Sessions = SessionTheorems
  import Rotation = RotationTheorems
  import G = LoginGate
  import C = Captcha
  import Db = Database

  /** What the expiry of parsed claims says at an instant. */
  predicate Unexpired(claims: Claims, now: int) {
    Has(claims, "exp") ==>
      Stoll(ClaimsJson.Get(claims, "exp")).Some? && now <= FromTimeT(Stoll(ClaimsJson.Get(claims, "exp")).value)
  }

  predicate Expired(claims: Claims, now: int) {
    Has(claims, "exp") && Stoll(ClaimsJson.Get(claims, "exp")).Some?
    && now > FromTimeT(Stoll(ClaimsJson.Get(claims, "exp")).value)
  }

  lemma DotIsFound(s: string, part: string, from: nat)
    requires from + |part| < |s| && s[from..from + |part|] == part && '.' !in part && s[from + |part|] == '.'
    ensures Find(s, '.', from) == Some(from + |part|)
  {
    hide Find;
    forall i | from <= i < from + |part| ensures s[i] != '.' {
      assert s[i] == s[from..from + |part|][i - from];
      assert part[i - from] in part;
    }
    FindAt(s, from + |part|, from);
  }

  lemma PartsAreCut(h: string, p: string, sig: string)
    ensures var token, dot2 := h + "." + p + "." + sig, |h| + 1 + |p|;
            && |token| == dot2 + 1 + |sig| && token[|h|] == '.' && token[dot2] == '.'
            && token[..|h|] == h && token[|h| + 1..dot2] == p && token[dot2 + 1..] == sig
  {
    var token := h + "." + p + "." + sig;
    assert token == h + ("." + p + "." + sig);
    assert token == (h + ".") + p + ("." + sig);
    assert |h + "." + p + "."| == |h| + 1 + |p| + 1;
  }

  lemma ThreePartsSplit(hmac: Hmac, secret: string, h: string, p: string, sig: string, now: int)
    requires '.' !in h && '.' !in p
    ensures VerifyJwt(hmac, secret, h + "." + p + "." + sig, now)
         == if sig != Encode(hmac(secret, h + "." + p)) then Fail(TokenInvalid) else CheckExpiry(Parse(Decode(p)), now)
  {
    hide Encode, Parse, Decode, Find, CheckExpiry;
    PartsAreCut(h, p, sig);
    DotIsFound(h + "." + p + "." + sig, h, 0);
    DotIsFound(h + "." + p + "." + sig, p, |h| + 1);
  }

  /** A text of three parts passes if and only if the third is the signature of the other two and
      the claims in the second have no expiry or one that is a number not yet past; it is told
      apart as expired only when it is signed. */
  lemma ThreePartsExactly(hmac: Hmac, secret: string, h: string, p: string, sig: string, now: int)
    requires '.' !in h && '.' !in p
    ensures var r, claims := VerifyJwt(hmac, secret, h + "." + p + "." + sig, now), Parse(Decode(p));
            var signed := sig == Encode(hmac(secret, h + "." + p));
            && (r.Ok? <==> signed && Unexpired(claims, now))
            && (r.Ok? ==> r.value == claims)
            && (r == Fail(TokenExpired) <==> signed && Expired(claims, now))
            && (r.Fail? && r.code != TokenExpired ==> r.code == TokenInvalid)
  {
    hide VerifyJwt, Encode, Parse, Decode, Stoll, ClaimsJson.Get, Has, FromTimeT;
    ThreePartsSplit(hmac, secret, h, p, sig, now);
  }

  /** A text with fewer than two dots never passes. */
  lemma FewerPartsFail(hmac: Hmac, secret: string, h: string, p: string, now: int)
    requires '.' !in h && '.' !in p
    ensures VerifyJwt(hmac, secret, h, now) == Fail(TokenInvalid)
    ensures VerifyJwt(hmac, secret, h + "." + p, now) == Fail(TokenInvalid)
  {
    hide Encode, Parse, Decode, CheckExpiry;
    var token := h + "." + p;
    forall i | |h| + 1 <= i < |token| ensures token[i] != '.' {
      assert token[i] == p[i - |h| - 1] && p[i - |h| - 1] in p;
    }
    forall i | 0 <= i < |h| ensures token[i] != '.' { assert token[i] == h[i] && h[i] in h; }
    FindAt(token, |h|, 0);
    NotFound(token, |h| + 1);
    NotFound(h, 0);
  }

  lemma NotFound(s: string, from: nat)
    requires forall i :: from <= i < |s| ==> s[i] != '.'
    ensures Find(s, '.', from) == None
  {
  }

  /** Tokens of one service are refused by another that shares the secret but has another issuer. */
  lemma ForeignIssuerIsRefused(hmac: Hmac, cfg: Security, issuer: string, user: UserEntity, issued: int, jti: int,
                               now: int)
    requires PrintableUser(cfg, user) && issuer != cfg.issuer
    requires ClockInRange(issued, cfg.accessTtl) && ClockInRange(issued, cfg.refreshTtl)
    ensures var other := cfg.(issuer := issuer);
            && VerifyAccessToken(hmac, other, GenerateAccessToken(hmac, cfg, user, issued, jti), now).Fail?
            && ParseRefreshToken(hmac, other, GenerateRefreshToken(hmac, cfg, user.id, issued, jti), now).Fail?
  {
    hide VerifyJwt, CreateJwt, ToString, Less, Sorted, Get, Has, Expiry, Stoll;
    var c, d := AccessClaims(cfg, user, issued, jti), RefreshClaims(cfg, user.id, issued, jti);
    AccessClaimsAreGood(cfg, user, issued, jti);
    RefreshClaimsAreGood(cfg, user.id, issued, jti);
    VerifyIssued(hmac, cfg.secret, c, now, issued, cfg.accessTtl);
    VerifyIssued(hmac, cfg.secret, d, now, issued, cfg.refreshTtl);
    AccessClaimsAreSorted(cfg, user, issued, jti);
    RefreshClaimsAreSorted(cfg, user.id, issued, jti);
    GetAt(c, 3);
    GetAt(d, 2);
  }

  lemma PrintedNumbersDiffer(m: int, n: int)
    requires ToString(m) == ToString(n)
    ensures m == n
  {
    hide ToString, Strtoll;
    ReadBack(m);
    ReadBack(n);
  }

  lemma ClaimsAreRecovered(hmac: Hmac, secret: string, c: Claims, d: Claims, issued: int, issued': int, ttl: int)
    requires CreateJwt(hmac, secret, c) == CreateJwt(hmac, secret, d)
    requires GoodClaims(c) && c != [] && c[0] == ("exp", ToString(Expiry(issued, ttl))) && ClockInRange(issued, ttl)
    requires GoodClaims(d) && d != [] && d[0] == ("exp", ToString(Expiry(issued', ttl))) && ClockInRange(issued', ttl)
    ensures c == d
  {
    hide VerifyJwt, CreateJwt, GoodClaims, ToString;
    VerifyIssued(hmac, secret, c, 0, issued, ttl);
    VerifyIssued(hmac, secret, d, 0, issued', ttl);
  }

  /** Refresh tokens are equal only if they were made for the same user, in the same second and
      with the same draw. */
  lemma RefreshTokensDiffer(hmac: Hmac, cfg: Security, userId: int, issued: int, jti: int, userId': int, issued': int,
                            jti': int)
    requires Printable(cfg.issuer) && ClockInRange(issued, cfg.refreshTtl) && ClockInRange(issued', cfg.refreshTtl)
    requires GenerateRefreshToken(hmac, cfg, userId, issued, jti)
          == GenerateRefreshToken(hmac, cfg, userId', issued', jti')
    ensures userId == userId' && issued / SECOND == issued' / SECOND && jti == jti'
  {
    hide CreateJwt, ToString, GoodClaims, Expiry;
    var c, d := RefreshClaims(cfg, userId, issued, jti), RefreshClaims(cfg, userId', issued', jti');
    RefreshClaimsAreGood(cfg, userId, issued, jti);
    RefreshClaimsAreGood(cfg, userId', issued', jti');
    ClaimsAreRecovered(hmac, cfg.secret, c, d, issued, issued', cfg.refreshTtl);
    assert c[1] == d[1] && c[3] == d[3] && c[5] == d[5];
    PrintedNumbersDiffer(issued / SECOND, issued' / SECOND);
    PrintedNumbersDiffer(jti, jti');
    PrintedNumbersDiffer(userId, userId');
  }

  /** The same for access tokens, which also carry the user's uuid, mobile and role. */
  lemma AccessTokensDiffer(hmac: Hmac, cfg: Security, user: UserEntity, issued: int, jti: int, user': UserEntity,
                           issued': int, jti': int)
    requires PrintableUser(cfg, user) && PrintableUser(cfg, user')
    requires ClockInRange(issued, cfg.accessTtl) && ClockInRange(issued', cfg.accessTtl)
    requires GenerateAccessToken(hmac, cfg, user, issued, jti) == GenerateAccessToken(hmac, cfg, user', issued', jti')
    ensures user.id == user'.id && user.uuid == user'.uuid && user.mobile == user'.mobile && user.role == user'.role
    ensures issued / SECOND == issued' / SECOND && jti == jti'
  {
    hide CreateJwt, ToString, GoodClaims, Expiry, RoleToString;
    var c, d := AccessClaims(cfg, user, issued, jti), AccessClaims(cfg, user', issued', jti');
    AccessClaimsAreGood(cfg, user, issued, jti);
    AccessClaimsAreGood(cfg, user', issued', jti');
    ClaimsAreRecovered(hmac, cfg.secret, c, d, issued, issued', cfg.accessTtl);
    assert c[1] == d[1] && c[2] == d[2] && c[4] == d[4] && c[5] == d[5] && c[6] == d[6] && c[8] == d[8];
    PrintedNumbersDiffer(issued / SECOND, issued' / SECOND);
    PrintedNumbersDiffer(user.id, user'.id);
    PrintedNumbersDiffer(jti, jti');
    RolesArePrintable(user.role);
    RolesArePrintable(user'.role);
  }

  // ---------------------------------------------------------------------
  // Fresh hashes over runs.
  // ---------------------------------------------------------------------

  /** The token an answer hands out was made in its call, with the call's own draw. */
  lemma TokenIsMadeHere(env: Service.Env, w: Service.World, call: Service.Call) returns (userId: int)
    requires Service.Step(env, w, call).1.LoggedIn? || Service.Step(env, w, call).1.Refreshed?
    ensures Service.Step(env, w, call).1.tokens.refresh
         == env.refresh(userId, w.redis.now, Rotation.RefreshDraw(call.op))
  {
    hide G.Check, G.Record, G.Clear, C.Verify, C.Send, Db.FindBy, Db.ExistsBy, Db.Create, Db.Update, Db.DeleteByUserId,
         Service.StoreRefreshToken, Db.DeleteByTokenHash, Db.IsTokenValid, Db.CountActiveSessionsByUserId,
         Db.CleanExpiredTokens, Stoll, ToString;
    var op, db := call.op, w.db.(faults := call.dbFaults);
    match op {
      case RegisterUser(_, _, _, _, _, _, _) =>
        var row := UserEntity(0, op.uuid, op.mobile, op.name, env.hashPassword(op.salt, op.password), User, false, 0);
        userId := Db.Create(db, row, Service.Seconds(w)).1.value.id;
      case RefreshToken(_, _) =>
        userId := Db.FindBy(db, Db.Id(Stoll(env.parse(op.token, w.redis.now).value).value)).1.value.id;
      case LoginByPassword(_, _, _) => userId := Db.FindBy(db, Db.Mobile(op.mobile)).1.value.id;
      case LoginByCode(_, _, _) => userId := Db.FindBy(db, Db.Mobile(op.mobile)).1.value.id;
      case _ =>
    }
  }

  predicate Issues(answer: Service.Answer) {
    answer.LoggedIn? || answer.Refreshed?
  }

  /** Two calls that both hand out tokens drew differently, and the hash tells their tokens apart. */
  predicate DrawnApart(env: Service.Env, w: Service.World, calls: seq<Service.Call>, i: nat, j: nat)
    requires i < |calls| && j < |calls|
  {
    var a, b := Service.AnswerAt(env, w, calls, i), Service.AnswerAt(env, w, calls, j);
    Issues(a) && Issues(b) ==>
      && Rotation.RefreshDraw(calls[i].op) != Rotation.RefreshDraw(calls[j].op)
      && (env.hash(a.tokens.refresh) == env.hash(b.tokens.refresh) ==> a.tokens.refresh == b.tokens.refresh)
  }

  predicate ClockAt(cfg: Security, env: Service.Env, w: Service.World, calls: seq<Service.Call>, i: nat)
    requires i <= |calls|
  {
    ClockInRange(Sessions.Before(env, w, calls, i).redis.now * 1_000_000, cfg.refreshTtl)
  }

  lemma IssuedHashesDiffer(env0: Service.Env, hmac: Hmac, cfg: Security, w: Service.World, calls: seq<Service.Call>,
                           i: nat, j: nat)
    requires i < |calls| && j < |calls| && Printable(cfg.issuer)
    requires var env := Rotation.Signing(env0, hmac, cfg);
             DrawnApart(env, w, calls, i, j) && ClockAt(cfg, env, w, calls, i) && ClockAt(cfg, env, w, calls, j)
    ensures var env := Rotation.Signing(env0, hmac, cfg);
            Sessions.IssuedBy(env, Service.AnswerAt(env, w, calls, i))
            !! Sessions.IssuedBy(env, Service.AnswerAt(env, w, calls, j))
  {
    hide Service.Step, Service.After, Printable, ClockInRange, GenerateRefreshToken, GenerateAccessToken,
         ParseRefreshToken;
    var env := Rotation.Signing(env0, hmac, cfg);
    var a, b := Service.AnswerAt(env, w, calls, i), Service.AnswerAt(env, w, calls, j);
    if Issues(a) && Issues(b) {
      var v, v' := Sessions.Before(env, w, calls, i), Sessions.Before(env, w, calls, j);
      var m := TokenIsMadeHere(env, v, calls[i]);
      var n := TokenIsMadeHere(env, v', calls[j]);
      if a.tokens.refresh == b.tokens.refresh {
        RefreshTokensDiffer(hmac, cfg, m, v.redis.now * 1_000_000, Rotation.RefreshDraw(calls[i].op), n,
                            v'.redis.now * 1_000_000, Rotation.RefreshDraw(calls[j].op));
      }
    }
  }

  lemma {:induction false} KnownWereIssued(env: Service.Env, w: Service.World, calls: seq<Service.Call>, i: nat,
      h: string)
    requires i <= |calls| && h in Sessions.Known(env, w, calls[..i], {})
    ensures exists k :: 0 <= k < i && h in Sessions.IssuedBy(env, Service.AnswerAt(env, w, calls, k))
  {
    hide Service.Step, Sessions.IssuedBy, Service.AnswerAt;
    assert calls[..0] == [];
    if i > 0 {
      Sessions.NextOf(env, w, calls, {}, i - 1);
      if h in Sessions.Known(env, w, calls[..i - 1], {}) { KnownWereIssued(env, w, calls, i - 1, h); }
    }
  }

  /** With the real tokens, calls that draw differently hand out tokens with fresh hashes: the
      condition of the theorems about redeemed, revoked and cleaned sessions. */
  lemma DistinctDrawsAreFresh(env0: Service.Env, hmac: Hmac, cfg: Security, w: Service.World,
                              calls: seq<Service.Call>)
    requires Printable(cfg.issuer)
    requires var env := Rotation.Signing(env0, hmac, cfg);
             && (forall i, j :: 0 <= i < j < |calls| ==> DrawnApart(env, w, calls, i, j))
             && (forall i :: 0 <= i < |calls| ==> ClockAt(cfg, env, w, calls, i))
    ensures Sessions.FreshRun(Rotation.Signing(env0, hmac, cfg), w, calls, {})
  {
    hide Service.Step, Service.After, Service.AnswerAt, Printable, Sessions.IssuedBy, Sessions.Known, DrawnApart,
         ClockAt;
    var env := Rotation.Signing(env0, hmac, cfg);
    forall j | 0 <= j < |calls| ensures Sessions.FreshAt(env, w, calls, {}, j) {
      forall h | h in Sessions.Known(env, w, calls[..j], {})
        ensures h !in Sessions.IssuedBy(env, Service.AnswerAt(env, w, calls, j))
      {
        KnownWereIssued(env, w, calls, j, h);
        var k :| 0 <= k < j && h in Sessions.IssuedBy(env, Service.AnswerAt(env, w, calls, k));
        IssuedHashesDiffer(env0, hmac, cfg, w, calls, k, j);
      }
    }
  }
}
