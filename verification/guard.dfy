// `authMiddleware`, the guard in front of every quiz route: it takes the
// token out of the Authorization header, verifies it, and either attaches
// the decoded identity and passes the request on, or answers 401.

module Guard {
  import opened Base
  import opened JsString
  import opened Auth

  const BearerPrefix := "Bearer "

  /** The guard's verdict: pass the request on (`next()` once) with the
      decoded claims as `req.user`, or answer with a status and message. */
  datatype Verdict = Next(user: Claims) | Reject(status: nat, message: string)

  const AuthenticationRequired := Reject(401, "Authentication required")
  const InvalidToken := Reject(401, "Invalid token")

  /** `req.header('Authorization')?.replace('Bearer ', '')`: the first
      occurrence of the prefix is removed wherever it stands; a missing
      header gives no token. */
  function TokenOf(header: Option<string>): (token: Option<string>)
    ensures token.Some? <==> header.Some?
    ensures header.Some? && (forall j: nat :: !OccursAt(header.value, BearerPrefix, j)) ==>
              token.value == header.value
    ensures forall i: nat :: header.Some? && OccursAt(header.value, BearerPrefix, i)
                             && (forall j: nat :: j < i ==> !OccursAt(header.value, BearerPrefix, j)) ==>
              token.value == header.value[..i] + header.value[i + 7..]
  {
    match header
    case None => None
    case Some(h) => Some(ReplaceFirst(h, BearerPrefix, ""))
  }

  /** The guard: no token or an empty one is "Authentication required"; a
      token `verify` refuses is "Invalid token"; otherwise the request goes
      on with the decoded claims. */
  function Authenticate(c: Crypto, env: Option<string>, header: Option<string>, now: nat): (v: Verdict)
    ensures v == AuthenticationRequired <==> TokenOf(header).None? || TokenOf(header).value == []
    ensures v == InvalidToken <==> TokenOf(header).Some? && TokenOf(header).value != []
                                   && c.verify(TokenOf(header).value, SecretOf(env), now).None?
    ensures v.Next? <==> TokenOf(header).Some? && TokenOf(header).value != []
                          && c.verify(TokenOf(header).value, SecretOf(env), now).Some?
    ensures v.Next? ==> Some(v.user) == c.verify(TokenOf(header).value, SecretOf(env), now)
    ensures v.Reject? ==> v.status == 401
  {
    var token := TokenOf(header);
    if token.None? || token.value == [] then AuthenticationRequired
    else
      match c.verify(token.value, SecretOf(env), now)
      case None => InvalidToken
      case Some(claims) => Next(claims)
  }

  // ---------------------------------------------------------------------
  // The header handling as written.

  /** A header that does not contain the prefix is the token itself. */
  lemma HeaderWithoutPrefixIsToken(h: string)
    requires forall j: nat :: !OccursAt(h, BearerPrefix, j)
    ensures TokenOf(Some(h)) == Some(h)
  {
  }

  /** The conventional header `Bearer <token>` yields `<token>`. */
  lemma BearerHeaderGivesToken(t: string)
    ensures TokenOf(Some(BearerPrefix + t)) == Some(t)
  {
    var h := BearerPrefix + t;
    assert h[0..|BearerPrefix|] == BearerPrefix;
    assert IndexFrom(h, BearerPrefix, 0) == Some(0);
    assert ReplaceFirst(h, BearerPrefix, "") == h[..0] + "" + h[7..];
    assert h[..0] + "" + h[7..] == t;
  }

  /** A header of just the prefix leaves an empty token, which the guard
      treats as a missing header. */
  lemma BareBearerIsMissing(c: Crypto, env: Option<string>, now: nat)
    ensures TokenOf(Some(BearerPrefix)) == Some([])
    ensures Authenticate(c, env, Some(BearerPrefix), now) == Authenticate(c, env, None, now)
  {
    BearerHeaderGivesToken([]);
    assert BearerPrefix + [] == BearerPrefix;
  }

  /** An illustration of `PrefixCutAnywhere` on one header: the removal
      is not anchored at the start, so the prefix is cut out of the middle
      of the header. */
  lemma PrefixCutFromMiddle(h: string)
    requires h == "Token Bearer abc"
    ensures TokenOf(Some(h)) == Some("Token abc")
  {
    assert IndexFrom(h, BearerPrefix, 0) == Some(6) by {
      assert IndexFrom(h, BearerPrefix, 6) == Some(6) by {
        assert h[6..13] == BearerPrefix;
      }
      forall j: nat | j < 6
        ensures IndexFrom(h, BearerPrefix, j) == IndexFrom(h, BearerPrefix, j + 1)
      {
        assert h[j..j + 7][6] == h[j + 6] != BearerPrefix[6];
      }
      assert IndexFrom(h, BearerPrefix, 0) == IndexFrom(h, BearerPrefix, 1) == IndexFrom(h, BearerPrefix, 2)
          == IndexFrom(h, BearerPrefix, 3) == IndexFrom(h, BearerPrefix, 4) == IndexFrom(h, BearerPrefix, 5);
    }
    assert h[..6] + "" + h[13..] == "Token abc";
  }

  /** In general: whatever stands before the first prefix is kept, and the
      prefix alone is cut. */
  lemma PrefixCutAnywhere(a: string, b: string)
    requires forall j: nat :: j < |a| ==> !OccursAt(a + BearerPrefix + b, BearerPrefix, j)
    ensures TokenOf(Some(a + BearerPrefix + b)) == Some(a + b)
  {
    var h := a + BearerPrefix + b;
    assert OccursAt(h, BearerPrefix, |a|) by {
      assert h[|a|..|a| + 7] == BearerPrefix;
    }
    assert h[..|a|] == a;
    assert h[|a| + 7..] == b;
  }

  /** Only the first occurrence is cut: a doubled prefix leaves one. */
  lemma OnlyFirstPrefixCut(t: string)
    ensures TokenOf(Some(BearerPrefix + BearerPrefix + t)) == Some(BearerPrefix + t)
  {
    BearerHeaderGivesToken(BearerPrefix + t);
    assert BearerPrefix + BearerPrefix + t == BearerPrefix + (BearerPrefix + t);
  }

  /** A token the auth routes issued, sent as `Bearer <token>` while it is
      still valid, gets the request through with the user's claims. */
  lemma IssuedTokenPasses(c: Crypto, env: Option<string>, id: nat, username: string, issued: nat, now: nat)
    requires Sound(c)
    requires issued <= now < issued + TokenLifetime
    ensures var token := c.sign(Issue(id, username, issued), SecretOf(env));
      Authenticate(c, env, Some(BearerPrefix + token), now) == Next(Issue(id, username, issued))
  {
    var token := c.sign(Issue(id, username, issued), SecretOf(env));
    BearerHeaderGivesToken(token);
    IssuedTokenVerifies(c, env, id, username, issued, now);
  }

  /** The same token sent once its 24 hours are over is refused with
      "Invalid token". */
  lemma ExpiredTokenRefused(c: Crypto, env: Option<string>, id: nat, username: string, issued: nat, now: nat)
    requires Sound(c)
    requires issued + TokenLifetime <= now
    ensures var token := c.sign(Issue(id, username, issued), SecretOf(env));
      Authenticate(c, env, Some(BearerPrefix + token), now) == InvalidToken
  {
    var token := c.sign(Issue(id, username, issued), SecretOf(env));
    BearerHeaderGivesToken(token);
    IssuedTokenExpires(c, env, id, username, issued, now);
  }
}
