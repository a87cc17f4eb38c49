/** Login verification (internal/auth/auth.go): a token authenticator that
    recomputes the credential from its own secret and the login's timestamp, and a
    Nop authenticator that accepts everyone. Both are pure: the same login gets the
    same verdict every time it is presented, at any clock reading. */
module Auth {
  import opened GoText
  import Proto

  datatype Authenticator = TokenAuthenticator(token: string) | Nop

  /** `VerifyLogin`. Only the credential and the timestamp are consulted. */
  function VerifyLogin(a: Authenticator, msg: Proto.Msg, digest: string -> string): (ok: bool)
    requires msg.Login?
    ensures a.Nop? ==> ok
    ensures a.TokenAuthenticator? ==> (ok <==> msg.token == digest(a.token + Itoa(msg.timestamp)))
  {
    match a
    case TokenAuthenticator(secret) => Proto.Credential(secret, msg.timestamp, digest) == msg.token
    case Nop => true
  }

  /** Issue-then-verify: a login built by `NewMsgLogin(t)` passes
      `TokenAuthenticator{t}`, whatever the clock and the version. */
  lemma IssuedLoginVerifies(secret: string, now: int, version: string, digest: string -> string)
    ensures VerifyLogin(TokenAuthenticator(secret), Proto.NewMsgLogin(secret, now, version, digest), digest)
  {
  }

  /** The version field never affects the verdict. */
  lemma VersionIgnored(a: Authenticator, token: string, v1: string, v2: string, ts: int, digest: string -> string)
    ensures VerifyLogin(a, Proto.Login(token, v1, ts), digest) == VerifyLogin(a, Proto.Login(token, v2, ts), digest)
  {
  }

  /** Two strings that end alike and are equal overall have equal beginnings. */
  lemma SameSuffixSamePrefix(a: string, b: string, tail: string)
    requires a + tail == b + tail
    ensures a == b
  {
    assert |a| == |b|;
    assert a == (a + tail)[..|a|];
    assert b == (b + tail)[..|b|];
  }

  /** When the digest is collision-free, a login issued under another secret with the
      same timestamp is refused: only the holder of the secret can produce it. */
  lemma ForeignSecretRejected(secret: string, other: string, now: int, version: string, digest: string -> string)
    requires forall x, y :: digest(x) == digest(y) ==> x == y
    requires other != secret
    ensures !VerifyLogin(TokenAuthenticator(secret), Proto.NewMsgLogin(other, now, version, digest), digest)
  {
    var tail := Itoa(now);
    if digest(secret + tail) == digest(other + tail) {
      SameSuffixSamePrefix(secret, other, tail);
    }
  }
}
