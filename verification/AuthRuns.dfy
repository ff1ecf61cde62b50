/** Properties of whole runs of the AuthManager: replay, pruning, rotation and grace. */
module AuthRuns {
  import opened Auth

  // ---------- Pruning is invisible ----------

  /** One call of the nonce table. */
  datatype Mark = Mark(nonce: Nonce, expireAt: int, now: int)

  ghost predicate MonotoneMarks(marks: seq<Mark>, since: int) {
    marks == [] || (since <= marks[0].now && MonotoneMarks(marks[1..], marks[0].now))
  }

  function MarkVerdicts(n: Nonces, marks: seq<Mark>): seq<bool>
    decreases |marks|
  {
    if marks == [] then []
    else
      var (m, ok) := Marked(n, marks[0].nonce, marks[0].expireAt, marks[0].now);
      [ok] + MarkVerdicts(m, marks[1..])
  }

  function AfterMarks(n: Nonces, marks: seq<Mark>): Nonces
    decreases |marks|
  {
    if marks == [] then n
    else AfterMarks(Marked(n, marks[0].nonce, marks[0].expireAt, marks[0].now).0, marks[1..])
  }

  /** The reference table: a nonce is refused while unexpired, and nothing is ever removed. */
  function NeverPrunedVerdicts(used: map<Nonce, int>, marks: seq<Mark>): seq<bool>
    decreases |marks|
  {
    if marks == [] then []
    else
      var c := marks[0];
      if c.nonce in used && c.now < used[c.nonce] then [false] + NeverPrunedVerdicts(used, marks[1..])
      else [true] + NeverPrunedVerdicts(used[c.nonce := c.expireAt], marks[1..])
  }

  /** Pruning has removed nothing but entries already expired. */
  ghost predicate PrunedFrom(used: map<Nonce, int>, full: map<Nonce, int>, now: int) {
    forall n :: (n in used ==> n in full && full[n] == used[n]) && (n in full && n !in used ==> full[n] <= now)
  }

  lemma {:induction false} PruningInvisibleFrom(n: Nonces, full: map<Nonce, int>, marks: seq<Mark>, since: int)
    requires MonotoneMarks(marks, since) && PrunedFrom(n.used, full, since)
    ensures MarkVerdicts(n, marks) == NeverPrunedVerdicts(full, marks)
    decreases |marks|
  {
    if marks != [] {
      var c := marks[0];
      var (m, ok) := Marked(n, c.nonce, c.expireAt, c.now);
      var full2 := if ok then full[c.nonce := c.expireAt] else full;
      assert PrunedFrom(MaybePruned(n, c.now).used, full, c.now);
      assert ok <==> !(c.nonce in full && c.now < full[c.nonce]);
      PruningInvisibleFrom(m, full2, marks[1..], c.now);
    }
  }

  /** Under a monotone clock the sequence of verdicts is that of a table that is never pruned. */
  lemma PruningIsInvisible(marks: seq<Mark>, since: int)
    requires MonotoneMarks(marks, since)
    ensures MarkVerdicts(FreshNonces(), marks) == NeverPrunedVerdicts(map[], marks)
  {
    PruningInvisibleFrom(FreshNonces(), map[], marks, since);
  }

  /** No stored entry had been expired for more than `late` at the last sweep. */
  ghost predicate SweptUpTo(n: Nonces, late: int) {
    forall k :: k in n.used ==> n.lastPrune - n.used[k] <= late
  }

  /** Every entry is unexpired, or expired less than `age` ago. */
  ghost predicate ExpiredWithin(n: Nonces, now: int, age: int) {
    forall k :: k in n.used ==> now - n.used[k] < age
  }

  function LastInstant(marks: seq<Mark>, since: int): int {
    if marks == [] then since else marks[|marks| - 1].now
  }

  lemma {:induction false} SweepsBoundAge(n: Nonces, marks: seq<Mark>, since: int, late: int)
    requires late >= 0 && MonotoneMarks(marks, since) && SweptUpTo(n, late) && n.lastPrune <= since
    requires forall i :: 0 <= i < |marks| ==> marks[i].now - marks[i].expireAt <= late
    requires marks == [] ==> since - n.lastPrune < NONCE_PRUNE_INTERVAL
    ensures ExpiredWithin(AfterMarks(n, marks), LastInstant(marks, since), NONCE_PRUNE_INTERVAL + late)
    decreases |marks|
  {
    if marks != [] {
      var c := marks[0];
      SweepsBoundAge(Marked(n, c.nonce, c.expireAt, c.now).0, marks[1..], c.now, late);
      assert LastInstant(marks[1..], c.now) == LastInstant(marks, since);
    }
  }

  /** After every call of a run, each stored entry is unexpired or expired less than one prune interval ago,
      plus the time by which a nonce has been recorded after its own expiry. */
  lemma StoredEntriesAge(marks: seq<Mark>, since: int, late: int)
    requires late >= 0 && marks != [] && MonotoneMarks(marks, since) && ZERO_TIME <= since
    requires forall i :: 0 <= i < |marks| ==> marks[i].now - marks[i].expireAt <= late
    ensures ExpiredWithin(AfterMarks(FreshNonces(), marks), LastInstant(marks, since), NONCE_PRUNE_INTERVAL + late)
  {
    SweepsBoundAge(FreshNonces(), marks, since, late);
  }

  // ---------- Replay ----------

  /** One verification: the keys it saw, the token, the caller and its three clock readings. Attempts are
      listed in the order of their nonce sections, so the nonce readings are monotone; the window readings
      of concurrent attempts need not be. */
  datatype Attempt = Attempt(keys: Keys, token: Token, caller: Caller, at: Readings)

  ghost predicate IsHistory(attempts: seq<Attempt>, since: int) {
    attempts == [] ||
    (attempts[0].at.Ordered() && since <= attempts[0].at.nonce && IsHistory(attempts[1..], attempts[0].at.nonce))
  }

  function Outcomes(n: Nonces, attempts: seq<Attempt>, ttl: int): (r: seq<bool>)
    ensures |r| == |attempts|
    decreases |attempts|
  {
    if attempts == [] then []
    else
      var a := attempts[0];
      var (m, ok) := Verified(a.keys, n, a.token, a.caller, ttl, a.at);
      [ok] + Outcomes(m, attempts[1..], ttl)
  }

  predicate Carries(a: Attempt, nonce: Nonce) {
    a.token.V2? && a.token.env.claims.nonce == nonce
  }

  function ExpiryOf(a: Attempt, ttl: int): int
    requires a.token.V2?
  {
    NonceExpiry(a.token.env.claims.ts, ttl, a.at.window)
  }

  /** The nonce is held until `expiry`: it is stored with at least that expiry, or the instant has passed. */
  ghost predicate HeldUntil(n: Nonces, nonce: Nonce, expiry: int, now: int) {
    now >= expiry || (nonce in n.used && n.used[nonce] >= expiry)
  }

  lemma {:induction false} HeldMeansRefused(n: Nonces, attempts: seq<Attempt>, ttl: int, nonce: Nonce, expiry: int, since: int, j: nat)
    requires IsHistory(attempts, since) && HeldUntil(n, nonce, expiry, since)
    requires j < |attempts| && Carries(attempts[j], nonce) && Outcomes(n, attempts, ttl)[j]
    ensures attempts[j].at.nonce >= expiry
    decreases |attempts|
  {
    var a := attempts[0];
    var (m, ok) := Verified(a.keys, n, a.token, a.caller, ttl, a.at);
    if j > 0 {
      assert attempts[1..][j - 1] == attempts[j];
      assert Outcomes(n, attempts, ttl)[j] == Outcomes(m, attempts[1..], ttl)[j - 1];
      HeldMeansRefused(m, attempts[1..], ttl, nonce, expiry, a.at.nonce, j - 1);
    }
  }

  lemma {:induction false} ReplayBoundFrom(n: Nonces, attempts: seq<Attempt>, ttl: int, since: int, i: nat, j: nat)
    requires IsHistory(attempts, since) && i < j < |attempts|
    requires Outcomes(n, attempts, ttl)[i] && Outcomes(n, attempts, ttl)[j]
    requires attempts[i].token.V2? && Carries(attempts[j], attempts[i].token.env.claims.nonce)
    ensures attempts[j].at.nonce >= ExpiryOf(attempts[i], ttl)
    decreases |attempts|
  {
    var a := attempts[0];
    var (m, ok) := Verified(a.keys, n, a.token, a.caller, ttl, a.at);
    assert attempts[1..][j - 1] == attempts[j];
    assert Outcomes(n, attempts, ttl)[j] == Outcomes(m, attempts[1..], ttl)[j - 1];
    if i == 0 {
      HeldMeansRefused(m, attempts[1..], ttl, a.token.env.claims.nonce, ExpiryOf(a, ttl), a.at.nonce, j - 1);
    } else {
      assert attempts[1..][i - 1] == attempts[i];
      assert Outcomes(n, attempts, ttl)[i] == Outcomes(m, attempts[1..], ttl)[i - 1];
      ReplayBoundFrom(m, attempts[1..], ttl, a.at.nonce, i - 1, j - 1);
    }
  }

  /** The replay bound, over every run and whatever pushes happen in between: once accepted, a nonce is
      never accepted again by a nonce check before max(now, ts) + ttl. */
  lemma ReplayBound(attempts: seq<Attempt>, ttl: int, since: int, i: nat, j: nat)
    requires IsHistory(attempts, since) && i < j < |attempts|
    requires Outcomes(FreshNonces(), attempts, ttl)[i] && Outcomes(FreshNonces(), attempts, ttl)[j]
    requires attempts[i].token.V2? && Carries(attempts[j], attempts[i].token.env.claims.nonce)
    ensures attempts[j].at.nonce >= ExpiryOf(attempts[i], ttl)
  {
    ReplayBoundFrom(FreshNonces(), attempts, ttl, since, i, j);
  }

  lemma {:induction false} AcceptedPasses(n: Nonces, attempts: seq<Attempt>, ttl: int, j: nat)
    requires j < |attempts| && Outcomes(n, attempts, ttl)[j]
    ensures var a := attempts[j]; Passes(a.keys, a.token, a.caller, ttl, a.at)
    decreases |attempts|
  {
    if j > 0 {
      var a := attempts[0];
      var m := Verified(a.keys, n, a.token, a.caller, ttl, a.at).0;
      assert attempts[1..][j - 1] == attempts[j];
      AcceptedPasses(m, attempts[1..], ttl, j - 1);
    }
  }

  /** The window check and the nonce check fall into the same Unix second, as they do when a verification
      is not interrupted across a second boundary. */
  predicate Prompt(a: Attempt) {
    Unix(a.at.window) == Unix(a.at.nonce)
  }

  /** The window test is closed and the nonce test strict, so one second of overlap remains: a second prompt
      acceptance of a token needs a first one at now <= ts and falls into the Unix second ts + ttl exactly. */
  lemma SecondAcceptance(attempts: seq<Attempt>, ttl: int, since: int, i: nat, j: nat)
    requires IsHistory(attempts, since) && i < j < |attempts| && Prompt(attempts[j])
    requires Outcomes(FreshNonces(), attempts, ttl)[i] && Outcomes(FreshNonces(), attempts, ttl)[j]
    requires attempts[i].token == attempts[j].token && attempts[i].token.V2?
    ensures var ts := attempts[i].token.env.claims.ts;
            Unix(attempts[i].at.window) <= ts && Unix(attempts[j].at.window) == ts + ttl
  {
    ReplayBound(attempts, ttl, since, i, j);
    AcceptedPasses(FreshNonces(), attempts, ttl, j);
  }

  /** No attempt strictly between the two is accepted with this nonce. */
  ghost predicate NotAcceptedBetween(n: Nonces, attempts: seq<Attempt>, ttl: int, nonce: Nonce, i: int, j: int) {
    forall k :: i < k < j && 0 <= k < |attempts| && Carries(attempts[k], nonce) ==> !Outcomes(n, attempts, ttl)[k]
  }

  /** The nonce is stored with this very expiry, or has been pruned after it. */
  ghost predicate HeldExactly(n: Nonces, nonce: Nonce, expiry: int, now: int) {
    if nonce in n.used then n.used[nonce] == expiry else now >= expiry
  }

  lemma {:induction false} HeldUntilNext(n: Nonces, attempts: seq<Attempt>, ttl: int, nonce: Nonce, expiry: int, since: int, j: nat)
    requires IsHistory(attempts, since) && HeldExactly(n, nonce, expiry, since)
    requires j < |attempts| && Carries(attempts[j], nonce) && NotAcceptedBetween(n, attempts, ttl, nonce, -1, j)
    requires var b := attempts[j]; Passes(b.keys, b.token, b.caller, ttl, b.at)
    ensures Outcomes(n, attempts, ttl)[j] <==> attempts[j].at.nonce >= expiry
    decreases |attempts|
  {
    var a := attempts[0];
    var (m, ok) := Verified(a.keys, n, a.token, a.caller, ttl, a.at);
    if j > 0 {
      assert ok == Outcomes(n, attempts, ttl)[0];
      HeldUntilNext(m, attempts[1..], ttl, nonce, expiry, a.at.nonce, j - 1);
    }
  }

  /** Exactly when a replay goes through, over every history and table: after an acceptance, the next attempt
      with that nonce that passes every other check is accepted if and only if its nonce reading has reached
      the expiry of the accepted one, max(now, ts) + ttl. */
  lemma {:induction false} ReplayExactly(n: Nonces, attempts: seq<Attempt>, ttl: int, since: int, i: nat, j: nat)
    requires IsHistory(attempts, since) && i < j < |attempts|
    requires Outcomes(n, attempts, ttl)[i] && attempts[i].token.V2?
    requires Carries(attempts[j], attempts[i].token.env.claims.nonce)
    requires NotAcceptedBetween(n, attempts, ttl, attempts[i].token.env.claims.nonce, i, j)
    requires var b := attempts[j]; Passes(b.keys, b.token, b.caller, ttl, b.at)
    ensures Outcomes(n, attempts, ttl)[j] <==> attempts[j].at.nonce >= ExpiryOf(attempts[i], ttl)
    decreases |attempts|
  {
    var a := attempts[0];
    var (m, ok) := Verified(a.keys, n, a.token, a.caller, ttl, a.at);
    if i == 0 {
      HeldUntilNext(m, attempts[1..], ttl, a.token.env.claims.nonce, ExpiryOf(a, ttl), a.at.nonce, j - 1);
    } else {
      ReplayExactly(m, attempts[1..], ttl, a.at.nonce, i - 1, j - 1);
    }
  }

  /** For a prompt attempt: if and only if the accepted one came at now <= ts and this one falls into the
      Unix second ts + ttl. */
  lemma PromptReplayExactly(n: Nonces, attempts: seq<Attempt>, ttl: int, since: int, i: nat, j: nat)
    requires IsHistory(attempts, since) && i < j < |attempts| && Prompt(attempts[j])
    requires Outcomes(n, attempts, ttl)[i] && attempts[i].token.V2? && attempts[i].token == attempts[j].token
    requires NotAcceptedBetween(n, attempts, ttl, attempts[i].token.env.claims.nonce, i, j)
    requires var b := attempts[j]; Passes(b.keys, b.token, b.caller, ttl, b.at)
    ensures var ts := attempts[i].token.env.claims.ts;
            Outcomes(n, attempts, ttl)[j] <==> Unix(attempts[i].at.window) <= ts && Unix(attempts[j].at.window) == ts + ttl
  {
    ReplayExactly(n, attempts, ttl, since, i, j);
  }

  /** After a prompt second acceptance the next attempt that passes every other check is accepted if and only
      if its nonce check comes ttl or more after the end of the window, long after its window check. */
  lemma ThirdAcceptanceExactly(attempts: seq<Attempt>, ttl: int, since: int, i: nat, j: nat, k: nat)
    requires ttl >= 0 && IsHistory(attempts, since) && i < j < k < |attempts| && Prompt(attempts[j])
    requires attempts[i].token == attempts[j].token == attempts[k].token && attempts[i].token.V2?
    requires Outcomes(FreshNonces(), attempts, ttl)[i] && Outcomes(FreshNonces(), attempts, ttl)[j]
    requires NotAcceptedBetween(FreshNonces(), attempts, ttl, attempts[j].token.env.claims.nonce, j, k)
    requires var b := attempts[k]; Passes(b.keys, b.token, b.caller, ttl, b.at)
    ensures Outcomes(FreshNonces(), attempts, ttl)[k]
            <==> Unix(attempts[k].at.nonce) >= attempts[k].token.env.claims.ts + 2 * ttl
  {
    SecondAcceptance(attempts, ttl, since, i, j);
    ReplayExactly(FreshNonces(), attempts, ttl, since, j, k);
  }

  /** So a third acceptance is impossible while the second and third verification are prompt. */
  lemma NoThirdPromptAcceptance(attempts: seq<Attempt>, ttl: int, since: int, i: nat, j: nat, k: nat)
    requires ttl >= 1 && IsHistory(attempts, since) && i < j < k < |attempts|
    requires Prompt(attempts[j]) && Prompt(attempts[k])
    requires attempts[i].token == attempts[j].token == attempts[k].token && attempts[i].token.V2?
    requires Outcomes(FreshNonces(), attempts, ttl)[i] && Outcomes(FreshNonces(), attempts, ttl)[j]
    ensures !Outcomes(FreshNonces(), attempts, ttl)[k]
  {
    if Outcomes(FreshNonces(), attempts, ttl)[k] {
      SecondAcceptance(attempts, ttl, since, i, j);
      SecondAcceptance(attempts, ttl, since, j, k);
    }
  }

  function Sample(secret: Secret, nonce: Nonce, ts: int, at: Readings): Attempt {
    var claims := Claims(ROUTE_TOKEN_VERSION, "edge", "issuer", "ip", nonce, ts);
    Attempt(Keys(secret, [], 0, 1), V2(Envelope(claims, Hmac(secret, claims))), Caller(ts, "edge", "ip", true), at)
  }

  lemma SamplesPass(secret: Secret, nonce: Nonce, ts: int, ttl: int, at: Readings)
    requires InWindow(ts, ttl, at.window)
    ensures var a := Sample(secret, nonce, ts, at); Passes(a.keys, a.token, a.caller, ttl, a.at)
  {
  }

  /** All exceptions occur. A prompt replay in second ts + ttl: */
  lemma PromptReplayHappens(secret: Secret) returns (a: Attempt, b: Attempt)
    ensures IsHistory([a, b], 0) && a.token == b.token && Prompt(a) && Prompt(b)
    ensures Outcomes(FreshNonces(), [a, b], 30)[0] && Outcomes(FreshNonces(), [a, b], 30)[1]
  {
    var t0, t30 := 1000 * SECOND, 1030 * SECOND;
    a := Sample(secret, "n", 1000, Readings(t0, t0, t0));
    b := Sample(secret, "n", 1000, Readings(t30, t30, t30));
    assert [a, b][1..] == [b] && IsHistory([b], t0);
    PromptReplayExactly(FreshNonces(), [a, b], 30, 0, 0, 1);
  }

  /** A replay of a token first used after ts, by a verification interrupted between its window check and its
      nonce check: */
  lemma StalledReplayHappens(secret: Secret) returns (a: Attempt, b: Attempt)
    ensures IsHistory([a, b], 0) && a.token == b.token && a.token.V2? && Prompt(a) && !Prompt(b)
    ensures Unix(a.at.window) > a.token.env.claims.ts
    ensures Outcomes(FreshNonces(), [a, b], 30)[0] && Outcomes(FreshNonces(), [a, b], 30)[1]
  {
    var t1, t30, t31 := 1001 * SECOND, 1030 * SECOND, 1031 * SECOND;
    a := Sample(secret, "n", 1000, Readings(t1, t1, t1));
    b := Sample(secret, "n", 1000, Readings(t30, t30, t31));
    assert [a, b][1..] == [b] && IsHistory([b], t1);
    ReplayExactly(FreshNonces(), [a, b], 30, 0, 0, 1);
  }

  /** And a third acceptance, by a verification interrupted for ttl seconds: */
  lemma StalledThirdAcceptanceHappens(secret: Secret) returns (a: Attempt, b: Attempt, c: Attempt)
    ensures IsHistory([a, b, c], 0) && a.token == b.token == c.token && Prompt(a) && Prompt(b) && !Prompt(c)
    ensures var o := Outcomes(FreshNonces(), [a, b, c], 30); o[0] && o[1] && o[2]
  {
    var t0, t30, t60 := 1000 * SECOND, 1030 * SECOND, 1060 * SECOND;
    a := Sample(secret, "n", 1000, Readings(t0, t0, t0));
    b := Sample(secret, "n", 1000, Readings(t30, t30, t30));
    c := Sample(secret, "n", 1000, Readings(t30, t30, t60));
    var all := [a, b, c];
    assert all[1..] == [b, c] && [b, c][1..] == [c] && IsHistory([c], t30) && IsHistory([b, c], t0);
    PromptReplayExactly(FreshNonces(), all, 30, 0, 0, 1);
    ThirdAcceptanceExactly(all, 30, 0, 0, 1, 2);
  }

  /** A prompt verification records its nonce with an expiry still ahead, as the bound of one prune interval asks. */
  lemma PromptExpiryIsAhead(a: Attempt, ttl: int)
    requires a.token.V2? && Prompt(a) && ttl >= 1
    ensures a.at.nonce < ExpiryOf(a, ttl)
  {
    var base := if a.token.env.claims.ts > Unix(a.at.window) then a.token.env.claims.ts else Unix(a.at.window);
    assert a.at.nonce < (Unix(a.at.nonce) + 1) * SECOND <= (base + ttl) * SECOND;
  }

  /** The calls of the nonce table that a history of verifications makes. */
  function MarksOf(attempts: seq<Attempt>, ttl: int): seq<Mark>
    decreases |attempts|
  {
    if attempts == [] then []
    else
      var a := attempts[0];
      var rest := MarksOf(attempts[1..], ttl);
      if Passes(a.keys, a.token, a.caller, ttl, a.at)
      then [Mark(a.token.env.claims.nonce, ExpiryOf(a, ttl), a.at.nonce)] + rest
      else rest
  }

  function AfterAttempts(n: Nonces, attempts: seq<Attempt>, ttl: int): Nonces
    decreases |attempts|
  {
    if attempts == [] then n
    else
      var a := attempts[0];
      AfterAttempts(Verified(a.keys, n, a.token, a.caller, ttl, a.at).0, attempts[1..], ttl)
  }

  lemma {:induction false} AttemptsAreMarks(n: Nonces, attempts: seq<Attempt>, ttl: int, since: int)
    requires IsHistory(attempts, since)
    ensures AfterAttempts(n, attempts, ttl) == AfterMarks(n, MarksOf(attempts, ttl))
    ensures MonotoneMarks(MarksOf(attempts, ttl), since)
    decreases |attempts|
  {
    if attempts != [] {
      var a := attempts[0];
      var rest := MarksOf(attempts[1..], ttl);
      AttemptsAreMarks(Verified(a.keys, n, a.token, a.caller, ttl, a.at).0, attempts[1..], ttl, a.at.nonce);
      if Passes(a.keys, a.token, a.caller, ttl, a.at) {
        assert MarksOf(attempts, ttl)[1..] == rest;
      } else {
        EarlierStart(rest, since, a.at.nonce);
      }
    }
  }

  lemma EarlierStart(marks: seq<Mark>, since: int, later: int)
    requires since <= later && MonotoneMarks(marks, later)
    ensures MonotoneMarks(marks, since)
  {
  }

  /** Every attempt that reaches the nonce table does so at most `late` after the expiry it records. */
  ghost predicate LateAtMost(attempts: seq<Attempt>, ttl: int, late: int) {
    forall i :: 0 <= i < |attempts| ==> AttemptLateAtMost(attempts[i], ttl, late)
  }

  predicate AttemptLateAtMost(a: Attempt, ttl: int, late: int) {
    Passes(a.keys, a.token, a.caller, ttl, a.at) ==> a.at.nonce - ExpiryOf(a, ttl) <= late
  }

  lemma {:induction false} MarksLateAtMost(attempts: seq<Attempt>, ttl: int, late: int)
    requires LateAtMost(attempts, ttl, late)
    ensures forall i :: 0 <= i < |MarksOf(attempts, ttl)| ==> MarksOf(attempts, ttl)[i].now - MarksOf(attempts, ttl)[i].expireAt <= late
    decreases |attempts|
  {
    if attempts != [] {
      assert AttemptLateAtMost(attempts[0], ttl, late);
      assert forall i :: 0 <= i < |attempts| - 1 ==> attempts[1..][i] == attempts[i + 1];
      MarksLateAtMost(attempts[1..], ttl, late);
    }
  }

  /** Over every history: after the last verification that reached the nonce table, each stored nonce is
      unexpired, or expired less than one prune interval plus the largest delay beyond an expiry before. */
  lemma StoredNoncesAge(attempts: seq<Attempt>, ttl: int, since: int, late: int)
    requires late >= 0 && IsHistory(attempts, since) && ZERO_TIME <= since && LateAtMost(attempts, ttl, late)
    requires MarksOf(attempts, ttl) != []
    ensures ExpiredWithin(AfterAttempts(FreshNonces(), attempts, ttl), LastInstant(MarksOf(attempts, ttl), since),
                          NONCE_PRUNE_INTERVAL + late)
  {
    AttemptsAreMarks(FreshNonces(), attempts, ttl, since);
    MarksLateAtMost(attempts, ttl, late);
    StoredEntriesAge(MarksOf(attempts, ttl), since, late);
  }

  /** Each stored nonce is unexpired or expired less than one prune interval ago, in every history in which no
      nonce check comes more than `late` after the expiry it records. */
  ghost predicate RecentWithin(ttl: int, late: int) {
    forall attempts, since ::
      IsHistory(attempts, since) && ZERO_TIME <= since && LateAtMost(attempts, ttl, late) && MarksOf(attempts, ttl) != []
      ==> ExpiredWithin(AfterAttempts(FreshNonces(), attempts, ttl), LastInstant(MarksOf(attempts, ttl), since), NONCE_PRUNE_INTERVAL)
  }

  /** That is so if and only if no nonce is recorded after its own expiry. */
  lemma StoredNoncesAreRecentExactly(ttl: int, late: int)
    requires ttl >= 0
    ensures RecentWithin(ttl, late) <==> late <= 0
  {
    if late <= 0 {
      forall attempts, since |
        IsHistory(attempts, since) && ZERO_TIME <= since && LateAtMost(attempts, ttl, late) && MarksOf(attempts, ttl) != []
        ensures ExpiredWithin(AfterAttempts(FreshNonces(), attempts, ttl), LastInstant(MarksOf(attempts, ttl), since), NONCE_PRUNE_INTERVAL)
      {
        assert forall i :: 0 <= i < |attempts| && AttemptLateAtMost(attempts[i], ttl, late) ==> AttemptLateAtMost(attempts[i], ttl, 0);
        StoredNoncesAge(attempts, ttl, since, 0);
      }
    } else {
      var a, b := LateNonceOutlivesTheBound([1], ttl);
      assert [a, b][0] == a && [a, b][1] == b;
      assert LateAtMost([a, b], ttl, late);
    }
  }

  /** A nonce recorded one tick after its expiry is still stored one whole prune interval after that expiry. */
  lemma LateNonceOutlivesTheBound(secret: Secret, ttl: int) returns (a: Attempt, b: Attempt)
    requires ttl >= 0
    ensures IsHistory([a, b], 0) && AttemptLateAtMost(a, ttl, 1) && AttemptLateAtMost(b, ttl, 1) && MarksOf([a, b], ttl) != []
    ensures !ExpiredWithin(AfterAttempts(FreshNonces(), [a, b], ttl), LastInstant(MarksOf([a, b], ttl), 0), NONCE_PRUNE_INTERVAL)
  {
    var expiry := (1000 + ttl) * SECOND;
    var t0, later := 1000 * SECOND, expiry + NONCE_PRUNE_INTERVAL;
    a := Sample(secret, "n", 1000, Readings(t0, t0, expiry + 1));
    b := Sample(secret, "m", 1030 + ttl, Readings(later, later, later));
    SamplesPass(secret, "n", 1000, ttl, a.at);
    SamplesPass(secret, "m", 1030 + ttl, ttl, b.at);
    assert [a, b][1..] == [b] && [b][1..] == [] && IsHistory([b], a.at.nonce);
    var n1 := Verified(a.keys, FreshNonces(), a.token, a.caller, ttl, a.at).0;
    assert n1 == Nonces(map["n" := expiry], expiry + 1);
    var n2 := Verified(b.keys, n1, b.token, b.caller, ttl, b.at).0;
    assert n2.used["n"] == expiry;
    assert AfterAttempts(n1, [b], ttl) == n2;
    assert MarksOf([b], ttl) == [Mark("m", ExpiryOf(b, ttl), later)] + [];
    assert MarksOf([a, b], ttl) == [Mark("n", expiry, expiry + 1)] + MarksOf([b], ttl);
  }

  /** Over every history of prompt verifications the bound is one prune interval. */
  lemma StoredNoncesAreRecent(attempts: seq<Attempt>, ttl: int, since: int)
    requires ttl >= 1 && IsHistory(attempts, since) && ZERO_TIME <= since
    requires forall i :: 0 <= i < |attempts| ==> Prompt(attempts[i])
    requires MarksOf(attempts, ttl) != []
    ensures ExpiredWithin(AfterAttempts(FreshNonces(), attempts, ttl), LastInstant(MarksOf(attempts, ttl), since), NONCE_PRUNE_INTERVAL)
  {
    forall i | 0 <= i < |attempts| ensures AttemptLateAtMost(attempts[i], ttl, 0) {
      if attempts[i].token.V2? {
        PromptExpiryIsAhead(attempts[i], ttl);
      }
    }
    StoredNoncesAge(attempts, ttl, since, 0);
  }

  // ---------- What an acceptance proves ----------

  /** A verification succeeds exactly for a version 2 token addressed to this edge, from the bound address, with
      its own issue time echoed, inside the closed window, signed under the secret in use or under the one
      replaced last within its grace, and with a nonce that is not stored unexpired. */
  lemma VerifiedExactly(k: Keys, n: Nonces, token: Token, c: Caller, ttl: int, at: Readings)
    ensures Verified(k, n, token, c, ttl, at).1 <==>
            && token.V2?
            && var claims, mac := token.env.claims, token.env.mac;
            && claims.v == 2 && claims.target == c.selfUUID && claims.ts == c.clientTS
            && (c.bindClientIP ==> claims.clientIP == c.clientIP)
            && claims.ts - ttl <= at.window / 1_000_000_000 <= claims.ts + ttl
            && (|| mac == Hmac(k.current, claims)
                || (mac == Hmac(k.previous, claims) && k.previous != [] && at.signature < k.prevExpiry))
            && (claims.nonce in n.used ==> n.used[claims.nonce] <= at.nonce)
  {
  }

  /** A refused verification records nothing, an accepted one its own nonce and no other. */
  lemma VerificationRecords(k: Keys, n: Nonces, token: Token, c: Caller, ttl: int, at: Readings)
    ensures var (m, ok) := Verified(k, n, token, c, ttl, at);
            && (forall x :: x in m.used && !(ok && x == token.env.claims.nonce) ==> x in n.used && m.used[x] == n.used[x])
            && (ok ==> token.env.claims.nonce in m.used)
  {
  }

  /** What one call does to the rest of the table: only expired nonces leave, and all of them do when the table
      holds 4096 nonces or has not been swept for 30 seconds; otherwise none does. */
  lemma SweepsExactly(n: Nonces, nonce: Nonce, expireAt: int, now: int)
    ensures var m := Marked(n, nonce, expireAt, now).0;
            forall x :: x != nonce ==>
              (x in m.used <==> x in n.used && !(x in n.used && n.used[x] < now && (|n.used| >= 4096 || now - n.lastPrune >= 30_000_000_000)))
  {
  }

  // ---------- Issue and verify ----------

  /** An issued token is accepted by the addressed edge holding the same secret: within the window, with
      the issue time echoed, from the bound address, on a nonce not yet seen. */
  lemma IssuedTokenIsAccepted(k: Keys, n: Nonces, target: string, issuer: string, ip: string, nonce: Nonce, now: int,
                              verifier: Keys, c: Caller, ttl: int, at: Readings)
    requires Issue(k, target, issuer, ip, nonce, now).Issued?
    requires verifier.current == k.current && c.clientTS == Unix(now) && c.selfUUID == target
    requires c.bindClientIP ==> c.clientIP == ip
    requires InWindow(Unix(now), ttl, at.window) && nonce !in n.used
    ensures Verified(verifier, n, Issue(k, target, issuer, ip, nonce, now).token, c, ttl, at).1
  {
  }

  /** The errors of issuing, and what an issued token says: everything the caller gave, signed under the secret
      in use. */
  lemma IssuedExactly(k: Keys, target: string, issuer: string, ip: string, nonce: Nonce, now: int)
    ensures var r := Issue(k, target, issuer, ip, nonce, now);
            && (r == NotIssued(SecretUninitialized) <==> k.current == [])
            && (r == NotIssued(UuidsRequired) <==> k.current != [] && (target == "" || issuer == ""))
            && (r.Issued? ==>
                  && r.ts == now / 1_000_000_000 && r.token.V2?
                  && r.token.env.claims == Claims(2, target, issuer, ip, nonce, r.ts)
                  && r.token.env.mac == Hmac(k.current, r.token.env.claims))
  {
  }

  // ---------- Rotation ----------

  datatype Delivery = Delivery(secret: Secret, version: nat, now: int)

  /** All pushes of one connection, in order of arrival. */
  function Delivered(k: Keys, ds: seq<Delivery>, ttl: int): Keys
    decreases |ds|
  {
    if ds == [] then k
    else Delivered(Pushed(k, ds[0].secret, ttl, ds[0].version, ds[0].now), ds[1..], ttl)
  }

  function MaxVersion(ds: seq<Delivery>): (m: nat)
    ensures forall i :: 0 <= i < |ds| ==> ds[i].version <= m
    ensures m == 0 || exists i :: 0 <= i < |ds| && ds[i].version == m
  {
    if ds == [] then 0
    else
      var rest := MaxVersion(ds[1..]);
      assert rest != 0 ==> exists i :: 0 <= i < |ds| && ds[i].version == rest by {
        if rest != 0 {
          var i :| 0 <= i < |ds| - 1 && ds[1..][i].version == rest;
          assert ds[i + 1].version == rest;
        }
      }
      assert forall i :: 0 < i < |ds| ==> ds[i] == ds[1..][i - 1];
      if ds[0].version > rest then ds[0].version else rest
  }

  /** The first delivery that carries a version. */
  ghost predicate IsFirstCarrying(ds: seq<Delivery>, i: nat, version: nat) {
    i < |ds| && ds[i].version == version && forall j :: 0 <= j < i ==> ds[j].version != version
  }

  lemma {:induction false} DeliveredState(k: Keys, ds: seq<Delivery>, ttl: int) returns (first: nat)
    ensures Delivered(k, ds, ttl).version == if MaxVersion(ds) > k.version then MaxVersion(ds) else k.version
    ensures MaxVersion(ds) <= k.version ==> Delivered(k, ds, ttl) == k
    ensures MaxVersion(ds) > k.version ==>
              IsFirstCarrying(ds, first, MaxVersion(ds)) && Delivered(k, ds, ttl).current == ds[first].secret
    decreases |ds|
  {
    first := 0;
    if ds != [] {
      var k1 := Pushed(k, ds[0].secret, ttl, ds[0].version, ds[0].now);
      var f := DeliveredState(k1, ds[1..], ttl);
      if MaxVersion(ds[1..]) > k1.version {
        first := f + 1;
        assert forall j :: 0 < j < first ==> ds[j] == ds[1..][j - 1];
      }
    }
  }

  /** After any delivery since a reset, reordered and duplicated as it may be, the version is the largest one
      pushed and the current secret is that of the first delivery carrying it; with only version 0 pushes
      nothing changes. */
  lemma RotationOrderIndependence(k: Keys, ds: seq<Delivery>, ttl: int) returns (first: nat)
    ensures var r := Delivered(VersionReset(k), ds, ttl);
            && r.version == MaxVersion(ds)
            && (MaxVersion(ds) == 0 ==> r == VersionReset(k))
            && (MaxVersion(ds) > 0 ==> IsFirstCarrying(ds, first, MaxVersion(ds)) && r.current == ds[first].secret)
  {
    first := DeliveredState(VersionReset(k), ds, ttl);
  }

  /** The versions pushed. */
  ghost function VersionsOf(ds: seq<Delivery>): set<nat> {
    set d | d in ds :: d.version
  }

  ghost predicate SecretsBy(ds: seq<Delivery>, secretOf: nat -> Secret) {
    forall i :: 0 <= i < |ds| ==> ds[i].secret == secretOf(ds[i].version)
  }

  lemma MaxVersionWithin(ds: seq<Delivery>, ds2: seq<Delivery>)
    requires VersionsOf(ds) <= VersionsOf(ds2)
    ensures MaxVersion(ds) <= MaxVersion(ds2)
  {
    if MaxVersion(ds) > 0 {
      var i :| 0 <= i < |ds| && ds[i].version == MaxVersion(ds);
      assert ds[i] in ds && ds[i].version in VersionsOf(ds);
      var d :| d in ds2 && d.version == ds[i].version;
    }
  }

  /** When the version determines the secret, two edges that received the same versions, in whatever order
      and however often, agree on version and secret. */
  lemma SamePushesSameSecret(k: Keys, k2: Keys, ds: seq<Delivery>, ds2: seq<Delivery>, ttl: int, secretOf: nat -> Secret)
    requires SecretsBy(ds, secretOf) && SecretsBy(ds2, secretOf)
    requires VersionsOf(ds) == VersionsOf(ds2) && MaxVersion(ds) > 0
    ensures var r, r2 := Delivered(VersionReset(k), ds, ttl), Delivered(VersionReset(k2), ds2, ttl);
            r.version == r2.version && r.current == r2.current == secretOf(r.version)
  {
    MaxVersionWithin(ds, ds2);
    MaxVersionWithin(ds2, ds);
    var f := RotationOrderIndependence(k, ds, ttl);
    var g := RotationOrderIndependence(k2, ds2, ttl);
  }

  /** Different versions carry different secrets, and one version one secret. */
  ghost predicate OneSecretPerVersion(ds: seq<Delivery>) {
    forall i, j :: 0 <= i < |ds| && 0 <= j < |ds| ==> (ds[i].secret == ds[j].secret <==> ds[i].version == ds[j].version)
  }

  /** The topology cache keeps the secret of the last push of a secret of the right length, even of one the
      AuthManager ignored. When `ds` are those pushes, it is the secret in use if and only if the last one
      carries the newest version. */
  lemma CachedSecretIsCurrentExactly(k: Keys, ds: seq<Delivery>, ttl: int)
    requires OneSecretPerVersion(ds) && MaxVersion(ds) > 0
    ensures ds != []
    ensures Delivered(VersionReset(k), ds, ttl).current == ds[|ds| - 1].secret <==> ds[|ds| - 1].version == MaxVersion(ds)
  {
    var first := RotationOrderIndependence(k, ds, ttl);
  }

  /** It need not be: pushes that arrive in the wrong order leave the older secret in the cache. */
  lemma CachedSecretMayBeStale(k: Keys, older: Secret, newer: Secret, ttl: int, now: int)
    requires older != newer
    ensures var ds := [Delivery(newer, 2, now), Delivery(older, 1, now)];
            Delivered(VersionReset(k), ds, ttl).current != ds[|ds| - 1].secret
  {
    var ds := [Delivery(newer, 2, now), Delivery(older, 1, now)];
    assert ds[0].version == 2 && ds[1].version == 1;
    CachedSecretIsCurrentExactly(k, ds, ttl);
  }

  // ---------- Grace ----------

  /** What reaches the AuthManager over any number of connections. */
  datatype KeyEvent = Push(d: Delivery) | Reset

  function AfterEvents(k: Keys, es: seq<KeyEvent>, ttl: int): Keys
    decreases |es|
  {
    if es == [] then k
    else
      var e := es[0];
      AfterEvents(if e.Reset? then VersionReset(k) else Pushed(k, e.d.secret, ttl, e.d.version, e.d.now), es[1..], ttl)
  }

  /** The pushes that carry a version above all others since the last reset. */
  function Accepted(version: nat, es: seq<KeyEvent>): seq<Delivery>
    decreases |es|
  {
    if es == [] then []
    else
      match es[0]
      case Reset => Accepted(0, es[1..])
      case Push(d) => if d.version > version then [d] + Accepted(d.version, es[1..]) else Accepted(version, es[1..])
  }

  /** The secret that the last of the accepted pushes replaced. */
  function Replaced(first: Secret, accepted: seq<Delivery>): Secret
    requires accepted != []
  {
    if |accepted| == 1 then first else accepted[|accepted| - 2].secret
  }

  lemma {:induction false} KeysAfterEvents(k: Keys, es: seq<KeyEvent>, ttl: int)
    ensures var a, r := Accepted(k.version, es), AfterEvents(k, es, ttl);
            if a == [] then r.current == k.current && r.previous == k.previous && r.prevExpiry == k.prevExpiry
            else
              && r.current == a[|a| - 1].secret
              && r.previous == Replaced(k.current, a)
              && r.prevExpiry == a[|a| - 1].now + ttl * 2 * SECOND
    decreases |es|
  {
    if es != [] {
      var e := es[0];
      KeysAfterEvents(if e.Reset? then VersionReset(k) else Pushed(k, e.d.secret, ttl, e.d.version, e.d.now), es[1..], ttl);
    }
  }

  /** Exactly how long a signature holds, over any sequence of pushes and reconnects: the secret that made it
      is the one in use, or it is the one replaced last and its grace has not run out. */
  lemma SignatureHoldsExactly(k: Keys, es: seq<KeyEvent>, ttl: int, claims: Claims, t: int)
    requires k.current != []
    ensures var a := Accepted(k.version, es);
            SignatureValid(AfterEvents(k, es, ttl), Envelope(claims, Hmac(k.current, claims)), t)
            <==> (|| a == []
                  || a[|a| - 1].secret == k.current
                  || (Replaced(k.current, a) == k.current && t < a[|a| - 1].now + ttl * 2 * SECOND))
  {
    KeysAfterEvents(k, es, ttl);
  }

  /** The keys of a new AuthManager. */
  const NO_KEYS := Keys([], [], 0, 0)

  /** Which keys open anything, over every run of pushes and resets and whatever was verified in between: an
      accepted token is signed under the secret of the last accepted push, or under that of the accepted push
      before while the grace of the last one lasts. Before the first push the key is empty. */
  lemma AcceptedIsSigned(es: seq<KeyEvent>, n: Nonces, token: Token, c: Caller, ttl: int, at: Readings)
    requires Verified(AfterEvents(NO_KEYS, es, ttl), n, token, c, ttl, at).1
    ensures token.V2?
    ensures var a, claims, mac := Accepted(0, es), token.env.claims, token.env.mac;
            if a == [] then mac == Hmac([], claims)
            else
              || mac == Hmac(a[|a| - 1].secret, claims)
              || (&& |a| > 1 && a[|a| - 2].secret != [] && mac == Hmac(a[|a| - 2].secret, claims)
                  && at.signature < a[|a| - 1].now + 2 * ttl * SECOND)
  {
    KeysAfterEvents(NO_KEYS, es, ttl);
    VerifiedExactly(AfterEvents(NO_KEYS, es, ttl), n, token, c, ttl, at);
  }

  lemma {:induction false} AcceptedWerePushed(version: nat, es: seq<KeyEvent>)
    ensures forall d :: d in Accepted(version, es) ==> Push(d) in es
    decreases |es|
  {
    if es != [] {
      AcceptedWerePushed(0, es[1..]);
      AcceptedWerePushed(version, es[1..]);
      if es[0].Push? {
        AcceptedWerePushed(es[0].d.version, es[1..]);
      }
    }
  }

  /** So no token signed under any other key is ever accepted, nor one without a signature. */
  lemma ForeignSignatureIsRefused(es: seq<KeyEvent>, n: Nonces, token: Token, c: Caller, ttl: int, at: Readings)
    requires token.V2? && token.env.mac != Hmac([], token.env.claims)
    requires forall d :: Push(d) in es ==> token.env.mac != Hmac(d.secret, token.env.claims)
    ensures !Verified(AfterEvents(NO_KEYS, es, ttl), n, token, c, ttl, at).1
  {
    var a := Accepted(0, es);
    AcceptedWerePushed(0, es);
    assert a != [] ==> a[|a| - 1] in a && (|a| > 1 ==> a[|a| - 2] in a);
    if Verified(AfterEvents(NO_KEYS, es, ttl), n, token, c, ttl, at).1 {
      AcceptedIsSigned(es, n, token, c, ttl, at);
    }
  }

  /** A token under the secret that one accepted push at `r` replaced passes the signature check at every
      instant of its window from `r` on, if and only if its last whole second ends before the grace does. */
  lemma GraceExactly(k: Keys, next: Secret, ttl: int, version: nat, r: int, claims: Claims)
    requires ttl >= 0 && version > k.version && k.current != [] && next != k.current
    ensures var k2 := Pushed(k, next, ttl, version, r); var env := Envelope(claims, Hmac(k.current, claims));
            (forall t :: r <= t && InWindow(claims.ts, ttl, t) ==> SignatureValid(k2, env, t))
            <==> (claims.ts + 1) * SECOND <= r + ttl * SECOND
  {
    var k2 := Pushed(k, next, ttl, version, r);
    var env := Envelope(claims, Hmac(k.current, claims));
    if (claims.ts + 1) * SECOND > r + ttl * SECOND {
      var t := (claims.ts + ttl + 1) * SECOND - 1;
      assert Unix(t) == claims.ts + ttl;
      assert r <= t && InWindow(claims.ts, ttl, t) && !SignatureValid(k2, env, t);
    }
  }

  /** So a token issued before the rotation outlives it for its whole window, for any ttl of at least 1. */
  lemma IssuedTokenSurvivesOneRotation(k: Keys, next: Secret, ttl: int, version: nat, issuedAt: int, r: int, t: int, claims: Claims)
    requires ttl >= 1 && version > k.version && k.current != []
    requires claims.ts == Unix(issuedAt) && issuedAt <= r && InWindow(claims.ts, ttl, t)
    ensures SignatureValid(if t < r then k else Pushed(k, next, ttl, version, r), Envelope(claims, Hmac(k.current, claims)), t)
  {
    if t >= r && next != k.current {
      GraceExactly(k, next, ttl, version, r, claims);
    }
  }

  /** A second accepted push ends the grace at once. */
  lemma SecondRotationEndsGrace(k: Keys, s1: Secret, s2: Secret, ttl: int, v1: nat, v2: nat, r1: int, r2: int, claims: Claims, t: int)
    requires k.version < v1 < v2 && s1 != k.current && s2 != k.current
    ensures !SignatureValid(Pushed(Pushed(k, s1, ttl, v1, r1), s2, ttl, v2, r2), Envelope(claims, Hmac(k.current, claims)), t)
  {
  }

  /** A reconnect counts as one: the version baseline is reset, the Center pushes the secret the edge already
      holds, and accepting it drops the previous secret although its grace has not run out. */
  lemma ReconnectEndsGrace(k: Keys, s1: Secret, ttl: int, v1: nat, r1: int, r2: int, claims: Claims, t: int)
    requires k.version < v1 && s1 != k.current
    ensures var k1 := Pushed(k, s1, ttl, v1, r1);
            var k2 := Pushed(VersionReset(k1), s1, ttl, v1, r2);
            k2.current == k1.current && k2.version == k1.version
            && !SignatureValid(k2, Envelope(claims, Hmac(k.current, claims)), t)
  {
  }
}
