/** The per-key fixed-window rate limiter (src/util/limit.go). */
module RateLimit {
  import opened Common

  type Key = string

  datatype KeyWindow = KeyWindow(start: int, count: int)

  datatype Limits = Limits(window: int, maxPerKey: int, maxKeys: int)

  type Table = map<Key, KeyWindow>

  predicate Expired(lim: Limits, kw: KeyWindow, now: int) {
    now - kw.start >= lim.window
  }

  function Pruned(lim: Limits, t: Table, now: int): Table {
    map k | k in t && !Expired(lim, t[k], now) :: t[k]
  }

  ghost predicate IsOldest(t: Table, k: Key) {
    k in t && forall j :: j in t ==> t[k].start <= t[j].start
  }

  predicate IsFull(lim: Limits, t: Table) {
    lim.maxKeys > 0 && |t| >= lim.maxKeys
  }

  /** Whether admitting `key` takes an eviction: the table is full and stays full after pruning. */
  predicate MustEvict(lim: Limits, t: Table, key: Key, now: int) {
    key !in t && IsFull(lim, t) && IsFull(lim, Pruned(lim, t, now))
  }

  /** Any key with the earliest window start may be the one evicted, since map order is arbitrary. */
  ghost predicate ValidVictim(lim: Limits, t: Table, key: Key, now: int, victim: Option<Key>) {
    && (victim.Some? <==> MustEvict(lim, t, key, now))
    && (victim.Some? ==> IsOldest(Pruned(lim, t, now), victim.value))
  }

  /** The table with room for `key`, and `key` present in it. */
  function WithKey(lim: Limits, t: Table, key: Key, now: int, victim: Option<Key>): (r: Table)
    ensures key in r
  {
    if key in t then t
    else
      var roomy := if IsFull(lim, t) then Pruned(lim, t, now) else t;
      var kept := if victim.Some? then roomy - {victim.value} else roomy;
      kept[key := KeyWindow(now, 0)]
  }

  /** One request against the window of its key. */
  function Counted(lim: Limits, kw: KeyWindow, now: int): (KeyWindow, bool) {
    var current := if Expired(lim, kw, now) then KeyWindow(now, 0) else kw;
    if current.count >= lim.maxPerKey then (current, false) else (current.(count := current.count + 1), true)
  }

  function Allowed(lim: Limits, t: Table, key: Key, now: int, victim: Option<Key>): (Table, bool) {
    var u := WithKey(lim, t, key, now, victim);
    var (kw, ok) := Counted(lim, u[key], now);
    (u[key := kw], ok)
  }

  class RateLimiter {
    const limits: Limits
    var buckets: Table
    var evicted: nat

    ghost predicate Valid()
      reads this
    {
      limits.maxKeys > 0 ==> |buckets| <= limits.maxKeys
    }

    constructor (window: int, maxPerKey: int, maxKeys: int)
      ensures Valid() && buckets == map[] && evicted == 0 && limits == Limits(window, maxPerKey, maxKeys)
    {
      limits := Limits(window, maxPerKey, maxKeys);
      buckets := map[];
      evicted := 0;
    }

    /** Makes the key present, pruning and evicting when the table is full. */
    method MakeRoom(key: Key, now: int) returns (ghost victim: Option<Key>)
      requires Valid()
      modifies this
      ensures Valid()
      ensures ValidVictim(limits, old(buckets), key, now, victim)
      ensures buckets == WithKey(limits, old(buckets), key, now, victim)
      ensures evicted == old(evicted) + if victim.Some? then 1 else 0
    {
      victim := None;
      if key !in buckets {
        if limits.maxKeys > 0 && |buckets| >= limits.maxKeys {
          PruneLocked(now);
          PrunedIsNoLarger(limits, old(buckets), now);
          if |buckets| >= limits.maxKeys {
            victim := EvictOldestLocked();
          }
        }
        ghost var kept := buckets;
        buckets := buckets[key := KeyWindow(now, 0)];
        AddedKeyFits(kept, key, KeyWindow(now, 0));
      }
    }

    /** The table never outgrows its capacity, and the counter counts exactly the evictions. */
    method Allow(key: Key, now: int) returns (ok: bool, ghost victim: Option<Key>)
      requires Valid()
      modifies this
      ensures Valid()
      ensures ValidVictim(limits, old(buckets), key, now, victim)
      ensures (buckets, ok) == Allowed(limits, old(buckets), key, now, victim)
      ensures evicted == old(evicted) + if victim.Some? then 1 else 0
    {
      victim := MakeRoom(key, now);
      var st := buckets[key];
      if now - st.start >= limits.window {
        st := KeyWindow(now, 0);
      }
      ok := st.count < limits.maxPerKey;
      if ok {
        st := st.(count := st.count + 1);
      }
      ghost var before := buckets;
      buckets := buckets[key := st];
      AddedKeyFits(before, key, st);
    }

    method PruneLocked(now: int)
      modifies `buckets
      ensures buckets == Pruned(limits, old(buckets), now)
    {
      var todo := buckets.Keys;
      while todo != {}
        invariant todo <= buckets.Keys <= old(buckets).Keys
        invariant forall k :: k in buckets ==> buckets[k] == old(buckets)[k]
        invariant forall k :: k in old(buckets) && k !in todo ==>
                    (k in buckets <==> !Expired(limits, old(buckets)[k], now))
        decreases todo
      {
        var k :| k in todo;
        todo := todo - {k};
        if now - buckets[k].start >= limits.window {
          buckets := buckets - {k};
        }
      }
    }

    method EvictOldestLocked() returns (ghost victim: Option<Key>)
      requires buckets != map[]
      modifies `buckets, `evicted
      ensures victim.Some? && IsOldest(old(buckets), victim.value)
      ensures buckets == old(buckets) - {victim.value} && evicted == old(evicted) + 1
    {
      var todo := buckets.Keys;
      var oldest := "";
      var oldestStart := 0;
      var found := false;
      while todo != {}
        invariant todo <= buckets.Keys && buckets == old(buckets)
        invariant !found ==> todo == buckets.Keys
        invariant found ==> oldest in buckets && buckets[oldest].start == oldestStart
        invariant found ==> forall k :: k in buckets && k !in todo ==> oldestStart <= buckets[k].start
        decreases todo
      {
        var k :| k in todo;
        todo := todo - {k};
        if !found || buckets[k].start < oldestStart {
          oldest, oldestStart, found := k, buckets[k].start, true;
        }
      }
      assert buckets.Keys != {};
      buckets := buckets - {oldest};
      evicted := evicted + 1;
      victim := Some(oldest);
    }
  }

  lemma AddedKeyFits(t: Table, key: Key, kw: KeyWindow)
    ensures |t[key := kw]| == if key in t then |t| else |t| + 1
  {
    assert t[key := kw].Keys == t.Keys + {key};
  }

  lemma PrunedIsNoLarger(lim: Limits, t: Table, now: int)
    ensures |Pruned(lim, t, now)| <= |t|
  {
    SubsetSize(Pruned(lim, t, now).Keys, t.Keys);
  }

  // ---------- What one request does to the table ----------

  /** The keys whose window has not ended. */
  function Live(t: Table, window: int, now: int): set<Key> {
    set k | k in t && now - t[k].start < window
  }

  lemma LiveIsKept(lim: Limits, t: Table, now: int)
    ensures Live(t, lim.window, now) == Pruned(lim, t, now).Keys && |Live(t, lim.window, now)| == |Pruned(lim, t, now)|
  {
  }

  /** A key is evicted only for a key that is not stored, and only while as many live windows are stored as the
      capacity allows; it is one of those that started first. */
  lemma EvictionExactly(lim: Limits, t: Table, key: Key, now: int, victim: Option<Key>)
    requires ValidVictim(lim, t, key, now, victim)
    ensures victim.Some? <==> key !in t && 0 < lim.maxKeys <= |Live(t, lim.window, now)|
    ensures victim.Some? ==>
              victim.value in Live(t, lim.window, now)
              && forall j :: j in Live(t, lim.window, now) ==> t[victim.value].start <= t[j].start
  {
    LiveIsKept(lim, t, now);
    PrunedIsNoLarger(lim, t, now);
  }

  /** What making room and counting may do to the windows of other keys. */
  ghost predicate KeepsOthers(lim: Limits, t: Table, key: Key, now: int, victim: Option<Key>, u: Table) {
    && u.Keys <= t.Keys + {key}
    && (forall j :: j in u && j != key ==> u[j] == t[j])
    && (forall j :: j in t && j != key && now - t[j].start < lim.window && Some(j) != victim ==> j in u)
    && (victim.Some? ==> victim.value !in u)
    && (key in t || lim.maxKeys <= 0 || |t| < lim.maxKeys ==> t.Keys <= u.Keys)
  }

  lemma RoomKeepsOthers(lim: Limits, t: Table, key: Key, now: int, victim: Option<Key>)
    requires ValidVictim(lim, t, key, now, victim)
    ensures KeepsOthers(lim, t, key, now, victim, WithKey(lim, t, key, now, victim))
  {
    if key !in t {
      var roomy := if IsFull(lim, t) then Pruned(lim, t, now) else t;
      EvictingKeepsOthers(lim, t, key, now, victim, roomy);
      CountingKeepsOthers(lim, t, key, now, victim, if victim.Some? then roomy - {victim.value} else roomy, KeyWindow(now, 0));
    }
  }

  lemma EvictingKeepsOthers(lim: Limits, t: Table, key: Key, now: int, victim: Option<Key>, roomy: Table)
    requires key !in t && (roomy == t || (IsFull(lim, t) && roomy == Pruned(lim, t, now)))
    requires victim.Some? ==> victim.value in t && IsFull(lim, t)
    ensures KeepsOthers(lim, t, key, now, victim, if victim.Some? then roomy - {victim.value} else roomy)
  {
  }

  lemma CountingKeepsOthers(lim: Limits, t: Table, key: Key, now: int, victim: Option<Key>, w: Table, kw: KeyWindow)
    requires KeepsOthers(lim, t, key, now, victim, w) && Some(key) != victim
    ensures KeepsOthers(lim, t, key, now, victim, w[key := kw])
  {
  }

  /** Every other live window stays as it is, but for one that is evicted; nothing but the key joins; and nothing
      leaves at all when the key is stored or the table is not full. */
  lemma OthersKeepTheirWindows(lim: Limits, t: Table, key: Key, now: int, victim: Option<Key>)
    requires ValidVictim(lim, t, key, now, victim)
    ensures key in Allowed(lim, t, key, now, victim).0
    ensures KeepsOthers(lim, t, key, now, victim, Allowed(lim, t, key, now, victim).0)
  {
    var w := WithKey(lim, t, key, now, victim);
    RoomKeepsOthers(lim, t, key, now, victim);
    CountingKeepsOthers(lim, t, key, now, victim, w, Counted(lim, w[key], now).0);
  }

  /** The verdict and the window of the key itself: a live window admits up to the limit, an ended or missing one
      starts anew with this request. */
  lemma VerdictExactly(lim: Limits, t: Table, key: Key, now: int, victim: Option<Key>)
    requires ValidVictim(lim, t, key, now, victim) && lim.window > 0
    ensures var (u, ok) := Allowed(lim, t, key, now, victim);
            var live := key in t && now - t[key].start < lim.window;
            var used := if live then t[key].count else 0;
            && (ok <==> used < lim.maxPerKey)
            && u[key] == KeyWindow(if live then t[key].start else now, if ok then used + 1 else used)
  {
  }

  // ---------- Runs ----------

  /** One request: its key, the clock reading it takes before asking for the lock, the instant it gets the
      lock, and the key evicted to make room for it, if any. */
  datatype Call = Call(key: Key, now: int, locked: int, victim: Option<Key>)

  /** The verdicts of a run of requests, listed in lock order. */
  function Verdicts(lim: Limits, t: Table, calls: seq<Call>): (v: seq<bool>)
    ensures |v| == |calls|
    decreases |calls|
  {
    if calls == [] then []
    else
      var c := calls[0];
      var (u, ok) := Allowed(lim, t, c.key, c.now, c.victim);
      [ok] + Verdicts(lim, u, calls[1..])
  }

  /** A run of the limiter under a monotone clock: locked sections follow each other, each some time after its
      reading, and every eviction is one the code performs. Readings need not follow each other. */
  ghost predicate IsRun(lim: Limits, t: Table, calls: seq<Call>, since: int)
    decreases |calls|
  {
    calls == [] ||
    var c := calls[0];
    && since <= c.locked && c.now <= c.locked
    && ValidVictim(lim, t, c.key, c.now, c.victim)
    && IsRun(lim, Allowed(lim, t, c.key, c.now, c.victim).0, calls[1..], c.locked)
  }

  /** In lock order no reading lies more than `d` behind an earlier one; with d == 0 they never go back. */
  ghost predicate WithinLag(calls: seq<Call>, d: int) {
    forall i, j :: 0 <= i < j < |calls| ==> calls[i].now - calls[j].now <= d
  }

  /** No request waits longer than `d` for the lock. */
  ghost predicate WithinDelay(calls: seq<Call>, d: int) {
    forall i :: 0 <= i < |calls| ==> calls[i].locked - calls[i].now <= d
  }

  /** A request that waits at most `d` reads at most `d` behind any that was served before. */
  lemma {:induction false} DelayBoundsLag(lim: Limits, t: Table, calls: seq<Call>, since: int, d: int)
    requires IsRun(lim, t, calls, since) && WithinDelay(calls, d)
    ensures WithinLag(calls, d)
    ensures forall i :: 0 <= i < |calls| ==> since - calls[i].now <= d
    decreases |calls|
  {
    if calls != [] {
      var c := calls[0];
      assert forall i :: 0 < i < |calls| ==> calls[i] == calls[1..][i - 1];
      DelayBoundsLag(lim, Allowed(lim, t, c.key, c.now, c.victim).0, calls[1..], c.locked, d);
    }
  }

  /** The readings lie at most `d` behind `latest` and behind each other. */
  ghost predicate BehindAtMost(calls: seq<Call>, d: int, latest: int) {
    WithinLag(calls, d) && forall i :: 0 <= i < |calls| ==> latest - calls[i].now <= d
  }

  function Later(a: int, b: int): int {
    if a < b then b else a
  }

  ghost predicate NeverEvicted(calls: seq<Call>, k: Key) {
    forall i :: 0 <= i < |calls| ==> calls[i].victim != Some(k)
  }

  lemma TailOfCalls(calls: seq<Call>, k: Key, d: int, latest: int)
    requires calls != [] && NeverEvicted(calls, k) && BehindAtMost(calls, d, latest)
    ensures NeverEvicted(calls[1..], k) && BehindAtMost(calls[1..], d, Later(latest, calls[0].now))
    ensures calls[0].victim != Some(k) && latest - calls[0].now <= d
  {
    assert forall i :: 0 <= i < |calls| - 1 ==> calls[1..][i] == calls[i + 1];
  }

  /** The same requests against a table without a capacity. */
  function Unbounded(calls: seq<Call>): (r: seq<Call>)
    ensures |r| == |calls| && forall i :: 0 <= i < |calls| ==> r[i] == calls[i].(victim := None)
  {
    seq(|calls|, i requires 0 <= i < |calls| => calls[i].(victim := None))
  }

  lemma {:induction false} UnboundedIsRun(lim: Limits, free: Limits, t: Table, u: Table, calls: seq<Call>, since: int)
    requires IsRun(lim, t, calls, since) && free.maxKeys <= 0
    ensures IsRun(free, u, Unbounded(calls), since)
    decreases |calls|
  {
    if calls != [] {
      var c := calls[0];
      assert Unbounded(calls)[1..] == Unbounded(calls[1..]);
      UnboundedIsRun(lim, free, Allowed(lim, t, c.key, c.now, c.victim).0, Allowed(free, u, c.key, c.now, None).0, calls[1..], c.locked);
    }
  }

  // ---------- Pruning ----------

  /** What pruning may forget about a key: nothing but an expired window. */
  ghost predicate AgreesOn(lim: Limits, t: Table, u: Table, k: Key, now: int) {
    if k in t then k in u && u[k] == t[k]
    else k in u ==> Expired(lim, u[k], now)
  }

  /** The verdicts on one key are those of a table that is never pruned and never full. */
  ghost predicate SameVerdicts(lim: Limits, t: Table, u: Table, calls: seq<Call>, k: Key) {
    var v, w := Verdicts(lim, t, calls), Verdicts(lim.(maxKeys := 0), u, Unbounded(calls));
    forall i :: 0 <= i < |calls| && calls[i].key == k ==> v[i] == w[i]
  }

  lemma {:induction false} VerdictsAgree(lim: Limits, t: Table, u: Table, calls: seq<Call>, k: Key, since: int, latest: int)
    requires IsRun(lim, t, calls, since) && NeverEvicted(calls, k)
    requires BehindAtMost(calls, 0, latest) && AgreesOn(lim, t, u, k, latest)
    ensures SameVerdicts(lim, t, u, calls, k)
    decreases |calls|
  {
    if calls != [] {
      var c := calls[0];
      var free := lim.(maxKeys := 0);
      TailOfCalls(calls, k, 0, latest);
      var (t1, ok) := Allowed(lim, t, c.key, c.now, c.victim);
      var (u1, ok1) := Allowed(free, u, c.key, c.now, None);
      VerdictsAgree(lim, t1, u1, calls[1..], k, c.locked, c.now);
      PrependVerdicts(lim, t, u, calls, k);
    }
  }

  lemma PrependVerdicts(lim: Limits, t: Table, u: Table, calls: seq<Call>, k: Key)
    requires calls != []
    requires var c := calls[0];
             var after, free := Allowed(lim, t, c.key, c.now, c.victim), Allowed(lim.(maxKeys := 0), u, c.key, c.now, None);
             (c.key == k ==> after.1 == free.1) && SameVerdicts(lim, after.0, free.0, calls[1..], k)
    ensures SameVerdicts(lim, t, u, calls, k)
  {
    var free := lim.(maxKeys := 0);
    FirstVerdict(lim, t, calls);
    FirstVerdict(free, u, Unbounded(calls));
    assert Unbounded(calls)[1..] == Unbounded(calls[1..]);
    PrependVerdict(calls, Verdicts(lim, t, calls), Verdicts(free, u, Unbounded(calls)), k);
  }

  lemma FirstVerdict(lim: Limits, t: Table, calls: seq<Call>)
    requires calls != []
    ensures var c := calls[0]; var (u, ok) := Allowed(lim, t, c.key, c.now, c.victim);
            Verdicts(lim, t, calls)[0] == ok && Verdicts(lim, t, calls)[1..] == Verdicts(lim, u, calls[1..])
  {
  }

  lemma PrependVerdict(calls: seq<Call>, v: seq<bool>, w: seq<bool>, k: Key)
    requires |v| == |w| == |calls| > 0 && (calls[0].key == k ==> v[0] == w[0])
    requires forall i :: 0 <= i < |calls| - 1 && calls[1..][i].key == k ==> v[1..][i] == w[1..][i]
    ensures forall i :: 0 <= i < |calls| && calls[i].key == k ==> v[i] == w[i]
  {
    forall i | 0 < i < |calls| && calls[i].key == k ensures v[i] == w[i] {
      assert v[1..][i - 1] == w[1..][i - 1];
    }
  }

  /** Whatever the capacity, a key that is not evicted gets the verdicts of a table without one. */
  ghost predicate PruningInvisibleWithin(window: int, maxPerKey: int, d: int) {
    forall maxKeys, calls, k, since ::
      IsRun(Limits(window, maxPerKey, maxKeys), map[], calls, since) && WithinLag(calls, d) && NeverEvicted(calls, k)
      ==> SameVerdicts(Limits(window, maxPerKey, maxKeys), map[], map[], calls, k)
  }

  // ---------- The rate bound ----------

  /** Admissions of key `k` whose reading falls in the half-open interval [from, from + window). */
  function Admissions(calls: seq<Call>, verdicts: seq<bool>, k: Key, from: int, window: int): nat
    requires |calls| == |verdicts|
  {
    if calls == [] then 0
    else
      var c := calls[0];
      (if c.key == k && verdicts[0] && from <= c.now < from + window then 1 else 0)
      + Admissions(calls[1..], verdicts[1..], k, from, window)
  }

  /** The admissions of a run that starts from a table. */
  function Admitted(lim: Limits, t: Table, calls: seq<Call>, k: Key, from: int): nat {
    Admissions(calls, Verdicts(lim, t, calls), k, from, lim.window)
  }

  function AdmittedNow(lim: Limits, t: Table, c: Call, k: Key, from: int): nat {
    if c.key == k && from <= c.now < from + lim.window && Allowed(lim, t, c.key, c.now, c.victim).1 then 1 else 0
  }

  lemma AdmittedStep(lim: Limits, t: Table, calls: seq<Call>, k: Key, from: int)
    requires calls != []
    ensures var c := calls[0];
            Admitted(lim, t, calls, k, from)
            == AdmittedNow(lim, t, c, k, from) + Admitted(lim, Allowed(lim, t, c.key, c.now, c.victim).0, calls[1..], k, from)
  {
    var c := calls[0];
    assert Verdicts(lim, t, calls)[1..] == Verdicts(lim, Allowed(lim, t, c.key, c.now, c.victim).0, calls[1..]);
  }

  /** What the window of a key says about the admissions `a` already counted for the interval, when no reading
      lies more than one tick behind `latest`: every window opens with an admission at its start, so one before
      the interval contributes at most maxPerKey - 1; no third window can open inside it; and one that opens
      right at its end contributes only late readings, at most maxPerKey - 1 again. */
  ghost predicate CountedSoFar(lim: Limits, t: Table, k: Key, a: nat, from: int, latest: int) {
    if k !in t then a == 0
    else
      var s, c := t[k].start, t[k].count;
      && s <= latest && 1 <= c <= lim.maxPerKey
      && (s + lim.window <= from ==> a == 0)
      && (s < from ==> a <= c - 1)
      && (s == from ==> a <= c)
      && (from < s <= from + lim.window ==> a <= lim.maxPerKey - 1 + c)
      && a <= 2 * lim.maxPerKey - 1
  }

  lemma CountStep(lim: Limits, t: Table, c: Call, k: Key, a: nat, from: int, latest: int)
    requires lim.window > 0 && lim.maxPerKey > 0 && lim.maxKeys <= 0
    requires latest - c.now <= 1 && CountedSoFar(lim, t, k, a, from, latest) && c.victim == None
    ensures CountedSoFar(lim, Allowed(lim, t, c.key, c.now, c.victim).0, k, a + AdmittedNow(lim, t, c, k, from), from,
                         Later(latest, c.now))
  {
  }

  lemma {:induction false} AdmissionsBounded(lim: Limits, t: Table, calls: seq<Call>, k: Key, a: nat, from: int, since: int, latest: int)
    requires lim.window > 0 && lim.maxPerKey > 0 && lim.maxKeys <= 0
    requires IsRun(lim, t, calls, since) && BehindAtMost(calls, 1, latest) && NeverEvicted(calls, k)
    requires CountedSoFar(lim, t, k, a, from, latest)
    ensures a + Admitted(lim, t, calls, k, from) <= 2 * lim.maxPerKey - 1
    decreases |calls|
  {
    if calls != [] {
      var c := calls[0];
      TailOfCalls(calls, k, 1, latest);
      CountStep(lim, t, c, k, a, from, latest);
      AdmittedStep(lim, t, calls, k, from);
      AdmissionsBounded(lim, Allowed(lim, t, c.key, c.now, c.victim).0, calls[1..], k, a + AdmittedNow(lim, t, c, k, from),
                        from, c.locked, Later(latest, c.now));
    }
  }

  /** With a limit of one, only the request that opens a window is admitted in it. */
  ghost predicate OpenersCounted(t: Table, k: Key, a: nat, from: int) {
    if k in t then t[k].count == 1 && (if t[k].start < from then a == 0 else a <= 1) else a == 0
  }

  lemma {:induction false} SingleAdmissions(lim: Limits, t: Table, calls: seq<Call>, k: Key, a: nat, from: int, since: int)
    requires lim.window > 0 && lim.maxPerKey == 1 && lim.maxKeys <= 0
    requires IsRun(lim, t, calls, since) && OpenersCounted(t, k, a, from)
    ensures a + Admitted(lim, t, calls, k, from) <= 1
    decreases |calls|
  {
    if calls != [] {
      var c := calls[0];
      AdmittedStep(lim, t, calls, k, from);
      SingleAdmissions(lim, Allowed(lim, t, c.key, c.now, c.victim).0, calls[1..], k, a + AdmittedNow(lim, t, c, k, from), from, c.locked);
    }
  }

  ghost predicate BoundHolds(lim: Limits, d: int) {
    forall calls, k, from, since ::
      IsRun(lim, map[], calls, since) && WithinLag(calls, d) && NeverEvicted(calls, k)
      ==> Admitted(lim, map[], calls, k, from) <= 2 * lim.maxPerKey - 1
  }

  lemma {:induction false} SameAdmissions(calls: seq<Call>, v: seq<bool>, w: seq<bool>, k: Key, from: int, window: int)
    requires |v| == |w| == |calls|
    requires forall i :: 0 <= i < |calls| && calls[i].key == k ==> v[i] == w[i]
    ensures Admissions(calls, v, k, from, window) == Admissions(Unbounded(calls), w, k, from, window)
    decreases |calls|
  {
    if calls != [] {
      assert Unbounded(calls)[1..] == Unbounded(calls[1..]);
      forall i | 0 <= i < |calls| - 1 && calls[1..][i].key == k ensures v[1..][i] == w[1..][i] {
        assert calls[1..][i] == calls[i + 1];
      }
      SameAdmissions(calls[1..], v[1..], w[1..], k, from, window);
    }
  }

  /** The instant from which a run with bounded lag can be followed. */
  function FirstReading(calls: seq<Call>): int {
    if calls == [] then 0 else calls[0].now
  }

  /** Where pruning changes no verdict and no reading lies more than one tick behind, the bound holds. */
  lemma BoundWithSameVerdicts(lim: Limits, calls: seq<Call>, k: Key, from: int, since: int)
    requires lim.window > 0 && lim.maxPerKey > 0
    requires IsRun(lim, map[], calls, since) && WithinLag(calls, 1) && NeverEvicted(calls, k)
    requires SameVerdicts(lim, map[], map[], calls, k)
    ensures Admitted(lim, map[], calls, k, from) <= 2 * lim.maxPerKey - 1
  {
    var free := lim.(maxKeys := 0);
    UnboundedIsRun(lim, free, map[], map[], calls, since);
    AdmissionsBounded(free, map[], Unbounded(calls), k, 0, from, since, FirstReading(calls));
    SameAdmissions(calls, Verdicts(lim, map[], calls), Verdicts(free, map[], Unbounded(calls)), k, from, lim.window);
  }

  /** Pruning is invisible to a key that is not evicted when the readings never go back in lock order. */
  lemma PruningIsInvisible(lim: Limits, calls: seq<Call>, k: Key, since: int)
    requires IsRun(lim, map[], calls, since) && WithinLag(calls, 0) && NeverEvicted(calls, k)
    ensures SameVerdicts(lim, map[], map[], calls, k)
  {
    VerdictsAgree(lim, map[], map[], calls, k, since, FirstReading(calls));
  }

  /** The rate bound: when the readings never go back in lock order, however long requests wait, any half-open
      interval of one window length holds at most 2 * maxPerKey - 1 admissions of a key that is not evicted,
      one below the 2 * maxPerKey the two overlapping windows would suggest. */
  lemma RateBound(lim: Limits, calls: seq<Call>, k: Key, from: int, since: int)
    requires lim.window > 0 && lim.maxPerKey > 0
    requires IsRun(lim, map[], calls, since) && WithinLag(calls, 0) && NeverEvicted(calls, k)
    ensures Admitted(lim, map[], calls, k, from) <= 2 * lim.maxPerKey - 1
  {
    PruningIsInvisible(lim, calls, k, since);
    BoundWithSameVerdicts(lim, calls, k, from, since);
  }

  // ---------- Few keys ----------

  /** The different keys of a run. */
  function KeysOf(calls: seq<Call>): set<Key> {
    set i | 0 <= i < |calls| :: calls[i].key
  }

  ghost predicate NothingEvicted(calls: seq<Call>) {
    forall i :: 0 <= i < |calls| ==> calls[i].victim == None
  }

  lemma RoomForAll(lim: Limits, t: Table, key: Key, now: int, victim: Option<Key>, keys: set<Key>)
    requires ValidVictim(lim, t, key, now, victim) && t.Keys <= keys && key in keys && (lim.maxKeys <= 0 || |keys| <= lim.maxKeys)
    ensures victim == None && Allowed(lim, t, key, now, victim).0.Keys <= keys
  {
    OthersKeepTheirWindows(lim, t, key, now, victim);
    if key !in t {
      SubsetSize(t.Keys + {key}, keys);
    }
  }

  lemma KeysOfTail(calls: seq<Call>)
    requires calls != []
    ensures calls[0].key in KeysOf(calls) && KeysOf(calls[1..]) <= KeysOf(calls)
    ensures NothingEvicted(calls[1..]) && calls[0].victim == None ==> NothingEvicted(calls)
  {
    assert forall i :: 0 < i < |calls| ==> calls[i] == calls[1..][i - 1];
  }

  lemma {:induction false} FewKeysEvictNothing(lim: Limits, t: Table, calls: seq<Call>, since: int, keys: set<Key>)
    requires IsRun(lim, t, calls, since) && t.Keys <= keys && KeysOf(calls) <= keys && (lim.maxKeys <= 0 || |keys| <= lim.maxKeys)
    ensures NothingEvicted(calls)
    decreases |calls|
  {
    if calls != [] {
      var c := calls[0];
      KeysOfTail(calls);
      RoomForAll(lim, t, c.key, c.now, c.victim, keys);
      FewKeysEvictNothing(lim, Allowed(lim, t, c.key, c.now, c.victim).0, calls[1..], c.locked, keys);
    }
  }

  /** With no more different keys than the capacity nobody is evicted, so the bound holds for every key. */
  lemma RateBoundForFewKeys(lim: Limits, calls: seq<Call>, k: Key, from: int, since: int)
    requires lim.window > 0 && lim.maxPerKey > 0
    requires IsRun(lim, map[], calls, since) && WithinLag(calls, 0)
    requires lim.maxKeys <= 0 || |KeysOf(calls)| <= lim.maxKeys
    ensures Admitted(lim, map[], calls, k, from) <= 2 * lim.maxPerKey - 1
  {
    FewKeysEvictNothing(lim, map[], calls, since, KeysOf(calls));
    RateBound(lim, calls, k, from, since);
  }

  // ---------- Runs that reach or break the bound ----------

  /** A run in which `k` is not evicted, no request waits longer than `d`, so that no reading lies more than `d`
      behind, and `n` admissions of `k` fall into the interval. */
  ghost predicate Counts(lim: Limits, t: Table, calls: seq<Call>, k: Key, from: int, since: int, d: int, n: nat) {
    && IsRun(lim, t, calls, since)
    && WithinDelay(calls, d)
    && NeverEvicted(calls, k)
    && Admitted(lim, t, calls, k, from) == n
  }

  lemma Prepend(lim: Limits, t: Table, c: Call, rest: seq<Call>, k: Key, from: int, since: int, d: int, n: nat)
    requires since <= c.locked <= c.now + d && c.now <= c.locked
    requires ValidVictim(lim, t, c.key, c.now, c.victim) && c.victim != Some(k)
    requires Counts(lim, Allowed(lim, t, c.key, c.now, c.victim).0, rest, k, from, c.locked, d, n)
    ensures Counts(lim, t, [c] + rest, k, from, since, d, n + AdmittedNow(lim, t, c, k, from))
  {
    assert ([c] + rest)[1..] == rest;
    AdmittedStep(lim, t, [c] + rest, k, from);
  }

  function Repeat(c: Call, n: nat): seq<Call> {
    if n == 0 then [] else [c] + Repeat(c, n - 1)
  }

  function Filled(t: Table, k: Key, m: nat): Table
    requires k in t
  {
    t[k := KeyWindow(t[k].start, t[k].count + m)]
  }

  lemma OneMore(lim: Limits, t: Table, c: Call)
    requires c.key in t && !Expired(lim, t[c.key], c.now) && t[c.key].count < lim.maxPerKey
    ensures Allowed(lim, t, c.key, c.now, None) == (Filled(t, c.key, 1), true)
    ensures forall m: nat :: Filled(Filled(t, c.key, 1), c.key, m) == Filled(t, c.key, 1 + m)
    ensures ValidVictim(lim, t, c.key, c.now, None)
  {
  }

  /** What `m` admissions at `at` add to the interval. */
  function Inside(lim: Limits, from: int, at: int, m: nat): nat {
    if from <= at < from + lim.window then m else 0
  }

  lemma PrependOne(lim: Limits, t: Table, c: Call, rest: seq<Call>, from: int, d: int, n: nat)
    requires c.now <= c.locked <= c.now + d && c.victim == None
    requires c.key in t && !Expired(lim, t[c.key], c.now) && t[c.key].count < lim.maxPerKey
    requires Counts(lim, Filled(t, c.key, 1), rest, c.key, from, c.locked, d, n)
    ensures Counts(lim, t, [c] + rest, c.key, from, c.locked, d, n + Inside(lim, from, c.now, 1))
  {
    OneMore(lim, t, c);
    Prepend(lim, t, c, rest, c.key, from, c.locked, d, n);
  }

  /** Several requests at one instant that all find room in a window already open. */
  lemma {:induction false} PrependBurst(lim: Limits, t: Table, c: Call, m: nat, full: Table, rest: seq<Call>, from: int, d: int, n: nat)
    requires c.now <= c.locked <= c.now + d && c.victim == None
    requires c.key in t && !Expired(lim, t[c.key], c.now) && t[c.key].count + m <= lim.maxPerKey
    requires full == Filled(t, c.key, m) && Counts(lim, full, rest, c.key, from, c.locked, d, n)
    ensures Counts(lim, t, Repeat(c, m) + rest, c.key, from, c.locked, d,
                   n + Inside(lim, from, c.now, m))
    decreases m
  {
    if m == 0 {
      assert Filled(t, c.key, 0) == t && Repeat(c, m) + rest == rest;
    } else {
      OneMore(lim, t, c);
      PrependBurst(lim, Filled(t, c.key, 1), c, m - 1, full, rest, from, d, n);
      PrependOne(lim, t, c, Repeat(c, m - 1) + rest, from, d, n + Inside(lim, from, c.now, m - 1));
      SeqAssoc([c], Repeat(c, m - 1), rest);
    }
  }

  /** A request on a table without the key, below capacity, or with its window expired: it opens one. */
  lemma OpensWindow(lim: Limits, t: Table, k: Key, now: int)
    requires lim.window > 0 && lim.maxPerKey > 0
    requires if k in t then Expired(lim, t[k], now) else !IsFull(lim, t)
    ensures Allowed(lim, t, k, now, None) == (t[k := KeyWindow(now, 1)], true) && ValidVictim(lim, t, k, now, None)
  {
    assert t[k := KeyWindow(now, 0)][k := KeyWindow(now, 1)] == t[k := KeyWindow(now, 1)];
  }

  /** One request that opens a window at `at`, and maxPerKey - 1 more in it that all read `reading`. */
  lemma PrependWindow(lim: Limits, t: Table, k: Key, at: int, reading: int, rest: seq<Call>, from: int, since: int, d: int, n: nat)
    returns (calls: seq<Call>)
    requires lim.window > 0 && lim.maxPerKey > 0 && d >= 0 && since <= at
    requires if k in t then Expired(lim, t[k], at) else !IsFull(lim, t)
    requires reading < at + lim.window && (at <= reading || at - reading <= d)
    requires Counts(lim, t[k := KeyWindow(at, lim.maxPerKey)], rest, k, from, if reading < at then at else reading, d, n)
    ensures Counts(lim, t, calls, k, from, since, d,
                   n + Inside(lim, from, at, 1) + Inside(lim, from, reading, lim.maxPerKey - 1))
  {
    var locked := if reading < at then at else reading;
    var begun := t[k := KeyWindow(at, 1)];
    var burst := Repeat(Call(k, reading, locked, None), lim.maxPerKey - 1) + rest;
    BurstAfterOpening(lim, t, k, at, reading, locked, rest, from, d, n);
    EarlierStart(lim, begun, burst, at, locked);
    OpensWindow(lim, t, k, at);
    Prepend(lim, t, Call(k, at, at, None), burst, k, from, since, d,
            n + Inside(lim, from, reading, lim.maxPerKey - 1));
    calls := [Call(k, at, at, None)] + burst;
  }

  lemma FilledAfterOpening(t: Table, k: Key, at: int, m: nat)
    requires m > 0
    ensures t[k := KeyWindow(at, m)] == Filled(t[k := KeyWindow(at, 1)], k, m - 1)
    ensures t[k := KeyWindow(at, 1)][k] == KeyWindow(at, 1)
  {
  }

  lemma BurstAfterOpening(lim: Limits, t: Table, k: Key, at: int, reading: int, locked: int, rest: seq<Call>, from: int, d: int, n: nat)
    requires lim.window > 0 && lim.maxPerKey > 0 && reading <= locked <= reading + d && reading < at + lim.window
    requires Counts(lim, t[k := KeyWindow(at, lim.maxPerKey)], rest, k, from, locked, d, n)
    ensures Counts(lim, t[k := KeyWindow(at, 1)], Repeat(Call(k, reading, locked, None), lim.maxPerKey - 1) + rest, k, from, locked, d,
                   n + Inside(lim, from, reading, lim.maxPerKey - 1))
  {
    FilledAfterOpening(t, k, at, lim.maxPerKey);
    PrependBurst(lim, t[k := KeyWindow(at, 1)], Call(k, reading, locked, None), lim.maxPerKey - 1,
                 t[k := KeyWindow(at, lim.maxPerKey)], rest, from, d, n);
  }

  lemma EarlierStart(lim: Limits, t: Table, calls: seq<Call>, since: int, later: int)
    requires since <= later && IsRun(lim, t, calls, later)
    ensures IsRun(lim, t, calls, since)
  {
  }

  /** The bound is reached, for every limit and every window longer than one tick, without any delay. */
  lemma RateBoundIsReached(window: int, maxPerKey: int) returns (calls: seq<Call>)
    requires window > 1 && maxPerKey > 0
    ensures Counts(Limits(window, maxPerKey, 0), map[], calls, "a", window - 1, 0, 0, 2 * maxPerKey - 1)
  {
    calls := TwoFullWindows(window, maxPerKey, [], 0, 0);
  }

  lemma TwoFullWindows(window: int, maxPerKey: int, rest: seq<Call>, d: int, n: nat) returns (calls: seq<Call>)
    requires window > 1 && maxPerKey > 0 && d >= 0
    requires Counts(Limits(window, maxPerKey, 0), map["a" := KeyWindow(window, maxPerKey)], rest, "a", window - 1, window, d, n)
    ensures Counts(Limits(window, maxPerKey, 0), map[], calls, "a", window - 1, 0, d, 2 * maxPerKey - 1 + n)
  {
    var lim, first, second := Limits(window, maxPerKey, 0), map["a" := KeyWindow(0, maxPerKey)], map["a" := KeyWindow(window, maxPerKey)];
    assert first["a" := KeyWindow(window, maxPerKey)] == second;
    assert map[]["a" := KeyWindow(0, maxPerKey)] == first;
    calls := PrependWindow(lim, first, "a", window, window, rest, window - 1, window - 1, d, n);
    calls := PrependWindow(lim, map[], "a", 0, window - 1, calls, window - 1, 0, d, n + maxPerKey);
  }

  /** A reading two ticks late breaks it, pruning or not: admitted in a third window, it is counted with the
      first two. */
  lemma LateReadingBreaksBound(window: int, maxPerKey: int, d: int) returns (calls: seq<Call>)
    requires window > 1 && maxPerKey > 1 && d >= 2
    ensures Counts(Limits(window, maxPerKey, 0), map[], calls, "a", window - 1, 0, d, 3 * maxPerKey - 2)
  {
    var lim, second, third := Limits(window, maxPerKey, 0), map["a" := KeyWindow(window, maxPerKey)], map["a" := KeyWindow(2 * window, maxPerKey)];
    assert second["a" := KeyWindow(2 * window, maxPerKey)] == third;
    calls := PrependWindow(lim, second, "a", 2 * window, 2 * window - 2, [], window - 1, window, d, 0);
    calls := TwoFullWindows(window, maxPerKey, calls, d, maxPerKey - 1);
  }

  /** With windows of one tick: full windows at 0, 1 and 2, the later two filled by readings at 0. */
  lemma LateReadingBreaksShortWindow(maxPerKey: int, d: int) returns (calls: seq<Call>)
    requires maxPerKey > 1 && d >= 2
    ensures Counts(Limits(1, maxPerKey, 0), map[], calls, "a", 0, 0, d, 3 * maxPerKey - 2)
  {
    var lim := Limits(1, maxPerKey, 0);
    var w0: Table, w1: Table, w2: Table := map["a" := KeyWindow(0, maxPerKey)], map["a" := KeyWindow(1, maxPerKey)], map["a" := KeyWindow(2, maxPerKey)];
    assert w1["a" := KeyWindow(2, maxPerKey)] == w2 && w0["a" := KeyWindow(1, maxPerKey)] == w1;
    assert map[]["a" := KeyWindow(0, maxPerKey)] == w0;
    calls := PrependWindow(lim, w1, "a", 2, 0, [], 0, 1, d, 0);
    calls := PrependWindow(lim, w0, "a", 1, 0, calls, 0, 0, d, maxPerKey - 1);
    calls := PrependWindow(lim, map[], "a", 0, 0, calls, 0, 0, d, 2 * maxPerKey - 2);
  }

  /** Tables of one key. */
  function Only(k: Key, start: int, count: int): Table {
    map[k := KeyWindow(start, count)]
  }

  lemma OnlyGrows(k: Key, start: int, count: int, start2: int, count2: int)
    ensures Only(k, start, count)[k := KeyWindow(start2, count2)] == Only(k, start2, count2)
    ensures map[][k := KeyWindow(start, count)] == Only(k, start, count)
  {
  }

  /** With a capacity a reading one tick late is enough: another key has pruned the full window, and the late
      request opens a second one inside the same interval. */
  lemma LateReadingMeetsPrunedWindow(window: int, maxPerKey: int, d: int) returns (calls: seq<Call>)
    requires window > 0 && maxPerKey > 0 && d >= 1
    ensures Counts(Limits(window, maxPerKey, 1), map[], calls, "a", 0, 0, d, 2 * maxPerKey)
  {
    var lim := Limits(window, maxPerKey, 1);
    var late := LateWindow(window, maxPerKey, d);
    OtherKeyPrunes(window, maxPerKey);
    TakeOver(lim, Only("a", 0, maxPerKey), Only("b", window, 1), Call("b", window, window, None), late, 0, d, maxPerKey);
    OnlyGrows("a", 0, maxPerKey, 0, maxPerKey);
    calls := PrependWindow(lim, map[], "a", 0, 0, [Call("b", window, window, None)] + late, 0, 0, d, maxPerKey);
  }

  /** One request that turns table `t` into table `u`. */
  lemma TakeOver(lim: Limits, t: Table, u: Table, c: Call, rest: seq<Call>, since: int, d: int, n: nat)
    requires since <= c.locked <= c.now + d && c.now <= c.locked && c.victim != Some("a")
    requires ValidVictim(lim, t, c.key, c.now, c.victim) && Allowed(lim, t, c.key, c.now, c.victim) == (u, true)
    requires Counts(lim, u, rest, "a", 0, c.locked, d, n)
    ensures Counts(lim, t, [c] + rest, "a", 0, since, d, n + if c.key == "a" then Inside(lim, 0, c.now, 1) else 0)
  {
    Prepend(lim, t, c, rest, "a", 0, since, d, n);
  }

  /** The requests that come late, after the other key has taken the only place. */
  lemma LateWindow(window: int, maxPerKey: int, d: int) returns (calls: seq<Call>)
    requires window > 0 && maxPerKey > 0 && d >= 1
    ensures Counts(Limits(window, maxPerKey, 1), Only("b", window, 1), calls, "a", 0, window, d, maxPerKey)
  {
    var late := Call("a", window - 1, window, Some("b"));
    var burst := LateBurst(window, maxPerKey, d);
    LateTakesOver(window, maxPerKey);
    TakeOver(Limits(window, maxPerKey, 1), Only("b", window, 1), Only("a", window - 1, 1), late, burst, window, d, maxPerKey - 1);
    calls := [late] + burst;
  }

  lemma LateBurst(window: int, maxPerKey: int, d: int) returns (calls: seq<Call>)
    requires window > 0 && maxPerKey > 0 && d >= 1
    ensures Counts(Limits(window, maxPerKey, 1), Only("a", window - 1, 1), calls, "a", 0, window, d, maxPerKey - 1)
  {
    OnlyGrows("a", window - 1, maxPerKey, window - 1, maxPerKey);
    OnlyGrows("a", window - 1, 1, window - 1, 1);
    BurstAfterOpening(Limits(window, maxPerKey, 1), map[], "a", window - 1, window - 1, window, [], 0, d, 0);
    calls := Repeat(Call("a", window - 1, window, None), maxPerKey - 1) + [];
  }

  lemma OtherKeyPrunes(window: int, maxPerKey: int)
    requires window > 0 && maxPerKey > 0
    ensures var lim := Limits(window, maxPerKey, 1);
            && ValidVictim(lim, Only("a", 0, maxPerKey), "b", window, None)
            && Allowed(lim, Only("a", 0, maxPerKey), "b", window, None) == (Only("b", window, 1), true)
  {
    var lim, full := Limits(window, maxPerKey, 1), Only("a", 0, maxPerKey);
    assert IsFull(lim, full) && Pruned(lim, full, window) == map[];
    OnlyGrows("b", window, 0, window, 1);
  }

  lemma LateTakesOver(window: int, maxPerKey: int)
    requires window > 0 && maxPerKey > 0
    ensures var lim := Limits(window, maxPerKey, 1);
            && ValidVictim(lim, Only("b", window, 1), "a", window - 1, Some("b"))
            && Allowed(lim, Only("b", window, 1), "a", window - 1, Some("b")) == (Only("a", window - 1, 1), true)
  {
    var lim, other := Limits(window, maxPerKey, 1), Only("b", window, 1);
    assert IsFull(lim, other) && Pruned(lim, other, window - 1) == other && other - {"b"} == map[];
    OnlyGrows("a", window - 1, 0, window - 1, 1);
  }

  // ---------- One key too many ----------

  function Name(i: nat): (k: Key)
    ensures |k| == i
  {
    seq(i, _ => 'x')
  }

  function Names(m: nat): set<Key> {
    set i | 0 <= i <= m :: Name(i)
  }

  lemma {:induction false} NamesCount(m: nat)
    ensures |Names(m)| <= m + 1
  {
    if m == 0 {
      assert Names(0) == {Name(0)};
    } else {
      NamesCount(m - 1);
      assert Names(m) == Names(m - 1) + {Name(m)};
    }
  }

  /** A run of requests at instant 0 by at most m + 1 keys, with `n` admissions of the first of them. */
  ghost predicate AtZero(lim: Limits, t: Table, calls: seq<Call>, m: nat, n: nat) {
    && IsRun(lim, t, calls, 0)
    && (forall i :: 0 <= i < |calls| ==> calls[i].now == 0 && calls[i].key in Names(m))
    && Admitted(lim, t, calls, Name(0), 0) == n
  }

  lemma PrependAtZero(lim: Limits, t: Table, c: Call, rest: seq<Call>, m: nat, n: nat)
    requires c.now == c.locked == 0 && c.key in Names(m) && ValidVictim(lim, t, c.key, 0, c.victim)
    requires AtZero(lim, Allowed(lim, t, c.key, 0, c.victim).0, rest, m, n)
    ensures AtZero(lim, t, [c] + rest, m, n + AdmittedNow(lim, t, c, Name(0), 0))
  {
    assert ([c] + rest)[1..] == rest;
    AdmittedStep(lim, t, [c] + rest, Name(0), 0);
  }

  /** The first key uses up the rest of its limit. */
  lemma {:induction false} FirstKeyFills(lim: Limits, t: Table, b: nat, rest: seq<Call>, m: nat, n: nat) returns (calls: seq<Call>)
    requires lim.window > 0 && Name(0) in t && t[Name(0)].start == 0 && t[Name(0)].count + b <= lim.maxPerKey
    requires AtZero(lim, Filled(t, Name(0), b), rest, m, n)
    ensures AtZero(lim, t, calls, m, n + b)
    decreases b
  {
    if b == 0 {
      assert Filled(t, Name(0), 0) == t;
      calls := rest;
    } else {
      var c := Call(Name(0), 0, 0, None);
      OneMore(lim, t, c);
      calls := FirstKeyFills(lim, Filled(t, Name(0), 1), b - 1, rest, m, n);
      PrependAtZero(lim, t, c, calls, m, n + b - 1);
      calls := [c] + calls;
    }
  }

  ghost predicate StartedAtZero(t: Table) {
    forall k :: k in t ==> t[k].start == 0
  }

  /** In a full table of windows that started together any of them may be the one evicted. */
  lemma EvictsAny(lim: Limits, t: Table, key: Key, v: Key)
    requires lim.window > 0 && lim.maxPerKey > 0 && 0 < lim.maxKeys <= |t|
    requires StartedAtZero(t) && key !in t && v in t
    ensures ValidVictim(lim, t, key, 0, Some(v))
    ensures Allowed(lim, t, key, 0, Some(v)) == ((t - {v})[key := KeyWindow(0, 1)], true)
  {
    assert Pruned(lim, t, 0) == t;
    assert (t - {v})[key := KeyWindow(0, 0)][key := KeyWindow(0, 1)] == (t - {v})[key := KeyWindow(0, 1)];
  }

  /** The first key with a full window, and `i` other keys. */
  function Crowd(maxPerKey: int, i: nat): Table {
    if i == 0 then map[Name(0) := KeyWindow(0, maxPerKey)] else Crowd(maxPerKey, i - 1)[Name(i) := KeyWindow(0, 1)]
  }

  lemma {:induction false} CrowdShape(maxPerKey: int, i: nat)
    ensures var t := Crowd(maxPerKey, i);
            |t| == i + 1 && StartedAtZero(t) && Name(0) in t && (forall k :: k in t ==> |k| <= i)
  {
    if i > 0 {
      CrowdShape(maxPerKey, i - 1);
      AddedKeyFits(Crowd(maxPerKey, i - 1), Name(i), KeyWindow(0, 1));
    }
  }

  /** The other keys arrive one by one until the table is full. */
  lemma {:induction false} CrowdGathers(lim: Limits, i: nat, rest: seq<Call>, n: nat) returns (calls: seq<Call>)
    requires lim.window > 0 && lim.maxPerKey > 0 && i < lim.maxKeys
    requires AtZero(lim, Crowd(lim.maxPerKey, i), rest, lim.maxKeys, n)
    ensures AtZero(lim, Crowd(lim.maxPerKey, 0), calls, lim.maxKeys, n)
    decreases i
  {
    calls := rest;
    if i > 0 {
      var c := Call(Name(i), 0, 0, None);
      CrowdShape(lim.maxPerKey, i - 1);
      OpensWindow(lim, Crowd(lim.maxPerKey, i - 1), Name(i), 0);
      PrependAtZero(lim, Crowd(lim.maxPerKey, i - 1), c, rest, lim.maxKeys, n);
      calls := CrowdGathers(lim, i - 1, [c] + rest, n);
    }
  }

  /** A key that another one has pushed out pushes that one out in turn, and has its whole limit again. */
  lemma FirstKeyReturns(lim: Limits, t: Table, last: Key, m: nat) returns (calls: seq<Call>)
    requires lim.window > 0 && lim.maxPerKey > 0 && 0 < lim.maxKeys <= |t|
    requires StartedAtZero(t) && Name(0) !in t && last in t
    ensures AtZero(lim, t, calls, m, lim.maxPerKey)
  {
    var again, c := (t - {last})[Name(0) := KeyWindow(0, 1)], Call(Name(0), 0, 0, Some(last));
    EvictsAny(lim, t, Name(0), last);
    calls := FirstKeyFills(lim, again, lim.maxPerKey - 1, [], m, 0);
    assert Name(0) in Names(m);
    PrependAtZero(lim, t, c, calls, m, lim.maxPerKey - 1);
    calls := [c] + calls;
  }

  lemma TakesThePlace(t: Table, v: Key, key: Key)
    requires v in t && key !in t && StartedAtZero(t)
    ensures var u := (t - {v})[key := KeyWindow(0, 1)];
            |u| == |t| && StartedAtZero(u) && v !in u && key in u
  {
    assert (t - {v})[key := KeyWindow(0, 1)].Keys == t.Keys - {v} + {key};
  }

  /** One key more than the table holds pushes the first key out, and it starts over. */
  lemma FirstKeyStartsOver(lim: Limits) returns (calls: seq<Call>)
    requires lim.window > 0 && lim.maxPerKey > 0 && lim.maxKeys > 0
    ensures AtZero(lim, Crowd(lim.maxPerKey, lim.maxKeys - 1), calls, lim.maxKeys, lim.maxPerKey)
  {
    var full, last := Crowd(lim.maxPerKey, lim.maxKeys - 1), Name(lim.maxKeys);
    CrowdShape(lim.maxPerKey, lim.maxKeys - 1);
    TakesThePlace(full, Name(0), last);
    EvictsAny(lim, full, last, Name(0));
    calls := FirstKeyReturns(lim, (full - {Name(0)})[last := KeyWindow(0, 1)], last, lim.maxKeys);
    assert last in Names(lim.maxKeys) && last != Name(0);
    PrependAtZero(lim, full, Call(last, 0, 0, Some(Name(0))), calls, lim.maxKeys, lim.maxPerKey);
    calls := [Call(last, 0, 0, Some(Name(0)))] + calls;
  }

  lemma AtZeroIsOrdered(lim: Limits, t: Table, calls: seq<Call>, m: nat, n: nat)
    requires AtZero(lim, t, calls, m, n)
    ensures WithinLag(calls, 0) && |KeysOf(calls)| <= m + 1
  {
    NamesCount(m);
    SubsetSize(KeysOf(calls), Names(m));
  }

  lemma FirstWindowFills(maxPerKey: int)
    requires maxPerKey > 0
    ensures Filled(Only(Name(0), 0, 1), Name(0), maxPerKey - 1) == Crowd(maxPerKey, 0)
    ensures Name(0) in Only(Name(0), 0, 1) && Only(Name(0), 0, 1)[Name(0)] == KeyWindow(0, 1)
  {
  }

  lemma FirstRequest(lim: Limits)
    requires lim.window > 0 && lim.maxPerKey > 0
    ensures ValidVictim(lim, map[], Name(0), 0, None) && Allowed(lim, map[], Name(0), 0, None) == (Only(Name(0), 0, 1), true)
  {
    OpensWindow(lim, map[], Name(0), 0);
    OnlyGrows(Name(0), 0, 1, 0, 1);
  }

  lemma PrependFirst(lim: Limits, t: Table, u: Table, rest: seq<Call>, m: nat, n: nat)
    requires lim.window > 0 && ValidVictim(lim, t, Name(0), 0, None) && Allowed(lim, t, Name(0), 0, None) == (u, true)
    requires AtZero(lim, u, rest, m, n)
    ensures AtZero(lim, t, [Call(Name(0), 0, 0, None)] + rest, m, n + 1)
  {
    assert Name(0) in Names(m);
    PrependAtZero(lim, t, Call(Name(0), 0, 0, None), rest, m, n);
  }

  /** The first key uses up its limit from an empty table on. */
  lemma FirstKeyOpens(lim: Limits, rest: seq<Call>, m: nat, n: nat) returns (calls: seq<Call>)
    requires lim.window > 0 && lim.maxPerKey > 0 && AtZero(lim, Crowd(lim.maxPerKey, 0), rest, m, n)
    ensures AtZero(lim, map[], calls, m, n + lim.maxPerKey)
  {
    FirstWindowFills(lim.maxPerKey);
    calls := FirstKeyFills(lim, Only(Name(0), 0, 1), lim.maxPerKey - 1, rest, m, n);
    FirstRequest(lim);
    PrependFirst(lim, map[], Only(Name(0), 0, 1), calls, m, n + lim.maxPerKey - 1);
    calls := [Call(Name(0), 0, 0, None)] + calls;
  }

  lemma OneKeyTooMany(lim: Limits) returns (calls: seq<Call>)
    requires lim.window > 0 && lim.maxPerKey > 0 && lim.maxKeys > 0
    ensures IsRun(lim, map[], calls, 0) && WithinLag(calls, 0) && |KeysOf(calls)| <= lim.maxKeys + 1
    ensures Admitted(lim, map[], calls, Name(0), 0) == 2 * lim.maxPerKey
  {
    calls := FirstKeyStartsOver(lim);
    calls := CrowdGathers(lim, lim.maxKeys - 1, calls, lim.maxPerKey);
    calls := FirstKeyOpens(lim, calls, lim.maxKeys, lim.maxPerKey);
    AtZeroIsOrdered(lim, map[], calls, lim.maxKeys, 2 * lim.maxPerKey);
  }

  // ---------- Exact conditions ----------

  /** Over tables of every capacity: pruning changes no verdict if and only if the readings never go back in
      lock order. */
  lemma PruningInvisibleExactly(window: int, maxPerKey: int, d: int)
    requires window > 0 && maxPerKey > 0
    ensures PruningInvisibleWithin(window, maxPerKey, d) <==> d <= 0
  {
    if d <= 0 {
      forall maxKeys, calls, k, since |
        IsRun(Limits(window, maxPerKey, maxKeys), map[], calls, since) && WithinLag(calls, d) && NeverEvicted(calls, k)
        ensures SameVerdicts(Limits(window, maxPerKey, maxKeys), map[], map[], calls, k)
      {
        PruningIsInvisible(Limits(window, maxPerKey, maxKeys), calls, k, since);
      }
    } else {
      var lim := Limits(window, maxPerKey, 1);
      var calls := LateReadingMeetsPrunedWindow(window, maxPerKey, 1);
      DelayBoundsLag(lim, map[], calls, 0, 1);
      if SameVerdicts(lim, map[], map[], calls, "a") {
        BoundWithSameVerdicts(lim, calls, "a", 0, 0);
      }
    }
  }

  /** Over tables of every capacity: the bound holds if and only if the readings never go back in lock order. */
  lemma RateBoundExactly(window: int, maxPerKey: int, d: int)
    requires window > 0 && maxPerKey > 0
    ensures (forall maxKeys :: BoundHolds(Limits(window, maxPerKey, maxKeys), d)) <==> d <= 0
  {
    if d <= 0 {
      forall maxKeys, calls, k, from, since |
        IsRun(Limits(window, maxPerKey, maxKeys), map[], calls, since) && WithinLag(calls, d) && NeverEvicted(calls, k)
        ensures Admitted(Limits(window, maxPerKey, maxKeys), map[], calls, k, from) <= 2 * maxPerKey - 1
      {
        RateBound(Limits(window, maxPerKey, maxKeys), calls, k, from, since);
      }
    } else {
      var calls := LateReadingMeetsPrunedWindow(window, maxPerKey, d);
      DelayBoundsLag(Limits(window, maxPerKey, 1), map[], calls, 0, d);
      assert !BoundHolds(Limits(window, maxPerKey, 1), d);
    }
  }

  /** Without a capacity nothing is pruned, and one tick of lag does no harm yet: the bound holds if and only if
      no reading lies further behind an earlier one in lock order, or the limit is one. */
  lemma UnboundedRateBoundExactly(window: int, maxPerKey: int, d: int)
    requires window > 0 && maxPerKey > 0
    ensures BoundHolds(Limits(window, maxPerKey, 0), d) <==> d <= 1 || maxPerKey == 1
  {
    var lim := Limits(window, maxPerKey, 0);
    if d <= 1 || maxPerKey == 1 {
      forall calls, k, from, since | IsRun(lim, map[], calls, since) && WithinLag(calls, d) && NeverEvicted(calls, k)
        ensures Admitted(lim, map[], calls, k, from) <= 2 * maxPerKey - 1
      {
        if maxPerKey == 1 {
          SingleAdmissions(lim, map[], calls, k, 0, from, since);
        } else {
          AdmissionsBounded(lim, map[], calls, k, 0, from, since, FirstReading(calls));
        }
      }
    } else {
      var calls, from := LateReadingRun(window, maxPerKey, d);
    }
  }

  lemma LateReadingRun(window: int, maxPerKey: int, d: int) returns (calls: seq<Call>, from: int)
    requires window > 0 && maxPerKey > 1 && d >= 2
    ensures Counts(Limits(window, maxPerKey, 0), map[], calls, "a", from, 0, d, 3 * maxPerKey - 2)
    ensures WithinLag(calls, d)
  {
    if window > 1 {
      from := window - 1;
      calls := LateReadingBreaksBound(window, maxPerKey, d);
    } else {
      from := 0;
      calls := LateReadingBreaksShortWindow(maxPerKey, d);
    }
    DelayBoundsLag(Limits(window, maxPerKey, 0), map[], calls, 0, d);
  }

  /** Over all runs of at most `n` different keys, evictions included. */
  ghost predicate BoundHoldsForKeys(lim: Limits, n: int) {
    forall calls, k, from, since ::
      IsRun(lim, map[], calls, since) && WithinLag(calls, 0) && |KeysOf(calls)| <= n
      ==> Admitted(lim, map[], calls, k, from) <= 2 * lim.maxPerKey - 1
  }

  /** With readings in lock order the bound holds for every key of every run of at most `n` different keys if and
      only if the table has room for as many: one key more can push another out and let it start over. */
  lemma KeyBoundExactly(lim: Limits, n: int)
    requires lim.window > 0 && lim.maxPerKey > 0 && lim.maxKeys > 0
    ensures BoundHoldsForKeys(lim, n) <==> n <= lim.maxKeys
  {
    if n <= lim.maxKeys {
      forall calls, k, from, since | IsRun(lim, map[], calls, since) && WithinLag(calls, 0) && |KeysOf(calls)| <= n
        ensures Admitted(lim, map[], calls, k, from) <= 2 * lim.maxPerKey - 1
      {
        RateBoundForFewKeys(lim, calls, k, from, since);
      }
    } else {
      var calls := OneKeyTooMany(lim);
    }
  }

  /** The same told by how long requests wait: the bound holds for all runs in which none waits longer than `d`
      if and only if d is 0, or with no capacity if and only if it is at most 1 or the limit is one. A single
      run may keep it however long its requests wait. */
  lemma RateBoundByDelayExactly(window: int, maxPerKey: int, d: int)
    requires window > 0 && maxPerKey > 0
    ensures (forall maxKeys :: BoundHoldsByDelay(Limits(window, maxPerKey, maxKeys), d)) <==> d <= 0
    ensures BoundHoldsByDelay(Limits(window, maxPerKey, 0), d) <==> d <= 1 || maxPerKey == 1
  {
    forall maxKeys | BoundHolds(Limits(window, maxPerKey, maxKeys), d)
      ensures BoundHoldsByDelay(Limits(window, maxPerKey, maxKeys), d)
    {
      LagBoundGivesDelayBound(Limits(window, maxPerKey, maxKeys), d);
    }
    RateBoundExactly(window, maxPerKey, d);
    UnboundedRateBoundExactly(window, maxPerKey, d);
    if d > 0 {
      var calls := LateReadingMeetsPrunedWindow(window, maxPerKey, d);
      assert !BoundHoldsByDelay(Limits(window, maxPerKey, 1), d);
    }
    if d > 1 && maxPerKey > 1 {
      var calls, from := LateReadingRun(window, maxPerKey, d);
    }
  }

  ghost predicate BoundHoldsByDelay(lim: Limits, d: int) {
    forall calls, k, from, since ::
      IsRun(lim, map[], calls, since) && WithinDelay(calls, d) && NeverEvicted(calls, k)
      ==> Admitted(lim, map[], calls, k, from) <= 2 * lim.maxPerKey - 1
  }

  lemma LagBoundGivesDelayBound(lim: Limits, d: int)
    requires BoundHolds(lim, d)
    ensures BoundHoldsByDelay(lim, d)
  {
    forall calls, k, from, since | IsRun(lim, map[], calls, since) && WithinDelay(calls, d) && NeverEvicted(calls, k)
      ensures Admitted(lim, map[], calls, k, from) <= 2 * lim.maxPerKey - 1
    {
      DelayBoundsLag(lim, map[], calls, since, d);
    }
  }
}
