/** Secrets, route tokens and the nonce table of the AuthManager (src/auth/token.go). Instants are
    nanoseconds; HMAC is an injective symbol, and the text codecs of a token are the constructors of Token. */
module Auth {
  import opened ByteStreams

  const SECOND := 1_000_000_000
  const NONCE_PRUNE_INTERVAL := 30 * SECOND
  const MAX_USED_NONCES := 4096
  /** The zero instant of the clock type, January 1 of year 1. */
  const ZERO_TIME := -62_135_596_800 * SECOND
  const ROUTE_TOKEN_VERSION := 2

  type Secret = seq<Byte>

  function Unix(t: int): int {
    t / SECOND
  }

  // ---------- Secrets ----------

  datatype Keys = Keys(current: Secret, previous: Secret, prevExpiry: int, version: nat)

  /** One versioned push: only a strictly newer version replaces the secret, and the replaced one stays
      usable for twice the token lifetime. */
  function Pushed(k: Keys, secret: Secret, ttl: int, version: nat, now: int): Keys {
    if version == 0 || version <= k.version then k
    else Keys(secret, k.current, now + ttl * 2 * SECOND, version)
  }

  function VersionReset(k: Keys): Keys {
    k.(version := 0)
  }

  // ---------- Nonces ----------

  type Nonce = string

  datatype Nonces = Nonces(used: map<Nonce, int>, lastPrune: int)

  function FreshNonces(): Nonces {
    Nonces(map[], ZERO_TIME)
  }

  function Unexpired(used: map<Nonce, int>, now: int): map<Nonce, int> {
    map n | n in used && now <= used[n] :: used[n]
  }

  function MaybePruned(n: Nonces, now: int): Nonces {
    if |n.used| >= MAX_USED_NONCES || now - n.lastPrune >= NONCE_PRUNE_INTERVAL
    then Nonces(Unexpired(n.used, now), now)
    else n
  }

  /** Records a nonce unless it is already there and unexpired; the verdict is true on recording. */
  function Marked(n: Nonces, nonce: Nonce, expireAt: int, now: int): (Nonces, bool) {
    var m := MaybePruned(n, now);
    if nonce in m.used && now < m.used[nonce] then (m, false)
    else (m.(used := m.used[nonce := expireAt]), true)
  }

  // ---------- Tokens ----------

  datatype Claims = Claims(v: int, target: string, issuer: string, clientIP: string, nonce: Nonce, ts: int)

  datatype Mac = Hmac(key: Secret, message: Claims) | OtherText(text: string)

  datatype Envelope = Envelope(claims: Claims, mac: Mac)

  datatype Token = UnknownFormat | BadBase64 | BadJson | V2(env: Envelope)

  datatype IssueError = SecretUninitialized | UuidsRequired

  datatype Issued = Issued(token: Token, ts: int) | NotIssued(error: IssueError)

  function Issue(k: Keys, target: string, issuer: string, clientIP: string, nonce: Nonce, now: int): Issued {
    if k.current == [] then NotIssued(SecretUninitialized)
    else if target == "" || issuer == "" then NotIssued(UuidsRequired)
    else
      var claims := Claims(ROUTE_TOKEN_VERSION, target, issuer, clientIP, nonce, Unix(now));
      Issued(V2(Envelope(claims, Hmac(k.current, claims))), Unix(now))
  }

  predicate SignatureValid(k: Keys, env: Envelope, now: int) {
    || env.mac == Hmac(k.current, env.claims)
    || (k.previous != [] && now < k.prevExpiry && env.mac == Hmac(k.previous, env.claims))
  }

  predicate InWindow(ts: int, ttl: int, now: int) {
    -ttl <= Unix(now) - ts <= ttl
  }

  /** What the connection says about itself. */
  datatype Caller = Caller(clientTS: int, selfUUID: string, clientIP: string, bindClientIP: bool)

  /** The three clock readings of one verification, for the window, the signature and the nonce. */
  datatype Readings = Readings(window: int, signature: int, nonce: int) {
    predicate Ordered() {
      window <= signature <= nonce
    }
  }

  /** Every check in front of the nonce. */
  predicate Passes(k: Keys, token: Token, c: Caller, ttl: int, at: Readings) {
    && token.V2?
    && token.env.claims.v == ROUTE_TOKEN_VERSION
    && token.env.claims.target == c.selfUUID
    && (c.bindClientIP ==> token.env.claims.clientIP == c.clientIP)
    && token.env.claims.ts == c.clientTS
    && InWindow(token.env.claims.ts, ttl, at.window)
    && SignatureValid(k, token.env, at.signature)
  }

  /** The nonce of a token is held until max(now, ts) + ttl. */
  function NonceExpiry(ts: int, ttl: int, window: int): int {
    ((if ts > Unix(window) then ts else Unix(window)) + ttl) * SECOND
  }

  function Verified(k: Keys, n: Nonces, token: Token, c: Caller, ttl: int, at: Readings): (Nonces, bool) {
    if !Passes(k, token, c, ttl, at) then (n, false)
    else Marked(n, token.env.claims.nonce, NonceExpiry(token.env.claims.ts, ttl, at.window), at.nonce)
  }

  class AuthManager {
    var current: Secret
    var previous: Secret
    var prevExpiry: int
    var currentVersion: nat
    var usedNonces: map<Nonce, int>
    var lastNoncePrune: int

    ghost function KeyState(): Keys
      reads this
    {
      Keys(current, previous, prevExpiry, currentVersion)
    }

    ghost function NonceState(): Nonces
      reads this
    {
      Nonces(usedNonces, lastNoncePrune)
    }

    constructor ()
      ensures KeyState() == Keys([], [], 0, 0) && NonceState() == FreshNonces()
    {
      current, previous, prevExpiry, currentVersion := [], [], 0, 0;
      usedNonces, lastNoncePrune := map[], ZERO_TIME;
    }

    method ResetVersion()
      modifies `currentVersion
      ensures KeyState() == VersionReset(old(KeyState()))
    {
      currentVersion := 0;
    }

    method UpdateSecret(newSecret: Secret, tokenTTLS: int, version: nat, now: int)
      modifies `current, `previous, `prevExpiry, `currentVersion
      ensures KeyState() == Pushed(old(KeyState()), newSecret, tokenTTLS, version, now)
    {
      if version == 0 || version <= currentVersion {
        return;
      }
      currentVersion := version;
      previous := current;
      prevExpiry := now + tokenTTLS * 2 * SECOND;
      current := newSecret;
    }

    method GenerateRouteToken(target: string, issuer: string, clientIP: string, nonce: Nonce, now: int) returns (r: Issued)
      ensures r == Issue(KeyState(), target, issuer, clientIP, nonce, now)
    {
      if |current| == 0 {
        return NotIssued(SecretUninitialized);
      }
      if target == "" || issuer == "" {
        return NotIssued(UuidsRequired);
      }
      var ts := Unix(now);
      var claims := Claims(ROUTE_TOKEN_VERSION, target, issuer, clientIP, nonce, ts);
      r := Issued(V2(Envelope(claims, Hmac(current, claims))), ts);
    }

    method VerifyRouteToken(token: Token, c: Caller, tokenTTLS: int, at: Readings) returns (ok: bool)
      modifies `usedNonces, `lastNoncePrune
      ensures (NonceState(), ok) == Verified(KeyState(), old(NonceState()), token, c, tokenTTLS, at)
    {
      if !token.V2? {
        return false;
      }
      var env := token.env;
      if env.claims.v != ROUTE_TOKEN_VERSION || env.claims.target != c.selfUUID {
        return false;
      }
      if c.bindClientIP && env.claims.clientIP != c.clientIP {
        return false;
      }
      if env.claims.ts != c.clientTS {
        return false;
      }
      var now := Unix(at.window);
      if (if now >= env.claims.ts then now - env.claims.ts else env.claims.ts - now) > tokenTTLS {
        return false;
      }
      var valid := env.mac == Hmac(current, env.claims);
      if !valid && |previous| > 0 && at.signature < prevExpiry {
        valid := env.mac == Hmac(previous, env.claims);
      }
      if !valid {
        return false;
      }
      var nonceBase := now;
      if env.claims.ts > nonceBase {
        nonceBase := env.claims.ts;
      }
      ok := MarkNonceUsed(env.claims.nonce, (nonceBase + tokenTTLS) * SECOND, at.nonce);
    }

    method MarkNonceUsed(nonce: Nonce, expireAt: int, now: int) returns (ok: bool)
      modifies `usedNonces, `lastNoncePrune
      ensures (NonceState(), ok) == Marked(old(NonceState()), nonce, expireAt, now)
    {
      if |usedNonces| >= MAX_USED_NONCES || now - lastNoncePrune >= NONCE_PRUNE_INTERVAL {
        PruneNoncesLocked(now);
      }
      if nonce in usedNonces && now < usedNonces[nonce] {
        return false;
      }
      usedNonces := usedNonces[nonce := expireAt];
      ok := true;
    }

    method PruneNoncesLocked(now: int)
      modifies `usedNonces, `lastNoncePrune
      ensures NonceState() == Nonces(Unexpired(old(usedNonces), now), now)
    {
      var todo := usedNonces.Keys;
      while todo != {}
        invariant todo <= usedNonces.Keys <= old(usedNonces).Keys
        invariant forall n :: n in usedNonces ==> usedNonces[n] == old(usedNonces)[n]
        invariant forall n :: n in old(usedNonces) && n !in todo ==> (n in usedNonces <==> now <= old(usedNonces)[n])
        decreases todo
      {
        var n :| n in todo;
        todo := todo - {n};
        if now > usedNonces[n] {
          usedNonces := usedNonces - {n};
        }
      }
      lastNoncePrune := now;
    }
  }
}
