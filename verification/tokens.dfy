/** The token service (HS256-signed bearer tokens) and password hashing
    (salted PBKDF2), with the cryptographic primitives left as parameters of
    an immutable configuration. Nothing here models the strength of the
    primitives; what is modelled is how they are used: what gets signed, what
    verification accepts, and when a token expires. */
module Tokens {

  import opened Outcomes
  import opened Text

  /** Process-wide configuration fixed at startup. `hmac` stands for
      HMAC-SHA256 keyed by `secretKey`; `kdf` stands for salted PBKDF2. Their
      outputs are numbers, rendered in decimal where a string is needed. */
  datatype Config = Config(
    secretKey: string,
    hmac: (string, string) -> nat,
    kdf: (string, string) -> nat)

  /** Token lifetime: 24 hours, in clock units of one second. */
  const TokenLifetime: nat := 24 * 60 * 60

  // ---- Passwords ----

  /** A stored password: the salt and the derived key, never the password. */
  datatype PwHash = PwHash(salt: string, digest: nat)

  predicate CheckPassword(cfg: Config, h: PwHash, password: string) {
    cfg.kdf(h.salt, password) == h.digest
  }

  function HashPassword(cfg: Config, salt: string, password: string): (h: PwHash)
    ensures h.salt == salt
    ensures CheckPassword(cfg, h, password)
  {
    PwHash(salt, cfg.kdf(salt, password))
  }

  // ---- Tokens ----

  /** The claims a token carries. Tokens this service issues always carry a
      user id; `None` stands for a correctly signed payload without one. */
  datatype Claims = Claims(userId: Option<nat>, email: string, exp: nat)

  function UserIdField(u: Option<nat>): (s: string)
    ensures ';' !in s
  {
    match u
    case None => ""
    case Some(n) => NatDigits(n)
  }

  /** Payload layout: `<user id>;<expiry>;<email>`. Only the email may
      contain `;`, and it comes last. */
  function EncodeClaims(c: Claims): string {
    UserIdField(c.userId) + [';'] + NatDigits(c.exp) + [';'] + c.email
  }

  function ParseClaims(p: string): (r: Option<Claims>)
    ensures r.Some? ==> EncodeClaims(r.value) == p
  {
    match SplitFirst(p, ';')
    case None => None
    case Some((uidText, rest)) =>
      match SplitFirst(rest, ';')
      case None => None
      case Some((expText, email)) =>
        var uid := if uidText == [] then Some(None) else
                     match ParseNat(uidText)
                     case None => None
                     case Some(n) => Some(Some(n));
        match (uid, ParseNat(expText))
        case (Some(u), Some(exp)) =>
          assert UserIdField(u) == uidText;
          assert p == uidText + [';'] + expText + [';'] + email;
          Some(Claims(u, email, exp))
        case _ => None
  }

  lemma ParseEncodeClaims(c: Claims)
    ensures ParseClaims(EncodeClaims(c)) == Some(c)
  {
    var u := UserIdField(c.userId);
    var e := NatDigits(c.exp);
    assert ';' !in e;
    assert EncodeClaims(c) == u + [';'] + (e + [';'] + c.email);
    SplitFirstJoin(u, ';', e + [';'] + c.email);
    SplitFirstJoin(e, ';', c.email);
    ParseNatDigits(c.exp);
    if c.userId.Some? {
      ParseNatDigits(c.userId.value);
    }
  }

  function Signature(cfg: Config, payload: string): (s: string)
    ensures '.' !in s
  {
    NatDigits(cfg.hmac(cfg.secretKey, payload))
  }

  /** `<signature>.<payload>`: the signature comes first, and contains no
      dot, so the first dot separates the two. */
  function Issue(cfg: Config, c: Claims): string {
    var payload := EncodeClaims(c);
    Signature(cfg, payload) + ['.'] + payload
  }

  /** Decoding with signature and expiry checks. A token is accepted only if
      its signature is the one this configuration's key gives its payload,
      its payload is well formed, and `now` is strictly before its expiry. */
  function Verify(cfg: Config, token: string, now: nat): (r: Option<Claims>)
    ensures r.Some? ==> token == Issue(cfg, r.value) && now < r.value.exp
  {
    match SplitFirst(token, '.')
    case None => None
    case Some((sig, payload)) =>
      if sig != Signature(cfg, payload) then None
      else
        match ParseClaims(payload)
        case None => None
        case Some(c) => if now < c.exp then Some(c) else None
  }

  /** The partner of Verify's contract: an issued token verifies, with the
      very claims it was issued for, exactly until it expires. */
  lemma VerifyIssued(cfg: Config, c: Claims, now: nat)
    ensures Verify(cfg, Issue(cfg, c), now) == (if now < c.exp then Some(c) else None)
  {
    var payload := EncodeClaims(c);
    SplitFirstJoin(Signature(cfg, payload), '.', payload);
    ParseEncodeClaims(c);
  }
}
