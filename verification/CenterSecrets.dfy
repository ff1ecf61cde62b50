/** No secret is lost and no answer is: in every interleaving of rotation, registration and queries, a connection
    that stays up ends with the Center's newest secret and every answer it was owed (src/center/center.go,
    src/auth/token.go, src/edge/edge.go). */
module CenterSecrets {
  import opened Auth
  import opened CenterRegistry
  import opened CenterRuns

  // ---------- Every push in flight tells the truth ----------

  /** Version v always travels with the v-th secret; version 0 stands for "no secret yet". */
  ghost predicate TrueMsg(secrets: seq<Secret>, m: Msg) {
    m.SecretPush? ==> m.version <= |secrets| && (m.version > 0 ==> m.secret == secrets[m.version - 1])
  }

  ghost predicate TrueAction(secrets: seq<Secret>, a: Action) {
    match a
    case ReadSecret(_) => true
    case Snapshot(secret, v) => 0 < v <= |secrets| && secret == secrets[v - 1]
    case LookUp(_, m) => TrueMsg(secrets, m)
    case Enqueue(_, m) => TrueMsg(secrets, m)
  }

  ghost predicate TrueKeys(secrets: seq<Secret>, k: Keys) {
    k.version <= |secrets| && (k.version > 0 ==> k.current == secrets[k.version - 1])
  }

  ghost predicate TrueQueue(secrets: seq<Secret>, q: seq<Msg>) {
    forall m :: m in q ==> TrueMsg(secrets, m)
  }

  ghost predicate TrueThread(secrets: seq<Secret>, actions: seq<Action>) {
    forall a :: a in actions ==> TrueAction(secrets, a)
  }

  ghost predicate TrueLink(secrets: seq<Secret>, l: Link) {
    TrueQueue(secrets, l.inbox) && TrueKeys(secrets, l.keys)
  }

  ghost predicate TrueRecs(secrets: seq<Secret>, recs: map<RecId, Rec>) {
    forall r :: r in recs ==> TrueQueue(secrets, recs[r].queue)
  }

  ghost predicate TrueThreads(secrets: seq<Secret>, threads: map<ThreadId, seq<Action>>) {
    forall t :: t in threads ==> TrueThread(secrets, threads[t])
  }

  ghost predicate TrueLinks(secrets: seq<Secret>, links: map<ConnId, Link>) {
    forall c :: c in links ==> TrueLink(secrets, links[c])
  }

  ghost predicate Truthful(s: System) {
    TrueRecs(s.secrets, s.reg.recs) && TrueThreads(s.secrets, s.threads) && TrueLinks(s.secrets, s.links)
  }

  lemma MoreSecretsKeepTruth(s: System, secret: Secret)
    requires Truthful(s)
    ensures Truthful(s.(secrets := s.secrets + [secret]))
  {
    var t := s.(secrets := s.secrets + [secret]);
    assert forall m :: TrueMsg(s.secrets, m) ==> TrueMsg(t.secrets, m);
    assert forall a :: TrueAction(s.secrets, a) ==> TrueAction(t.secrets, a);
    assert forall q :: TrueQueue(s.secrets, q) ==> TrueQueue(t.secrets, q);
    assert forall x :: TrueThread(s.secrets, x) ==> TrueThread(t.secrets, x);
  }

  lemma SpawnKeepsTruth(s: System, actions: seq<Action>)
    requires Truthful(s) && TrueThread(s.secrets, actions)
    ensures Truthful(Spawned(s, actions))
  {
  }

  /** Registration and unregistration create no message. */
  ghost predicate SameQueues(g: Registry<RecId>, h: Registry<RecId>) {
    forall r :: r in h.recs ==> h.recs[r].queue == [] || (r in g.recs && h.recs[r].queue == g.recs[r].queue)
  }

  lemma RegisterAddsNoMessage(g: Registry<RecId>, c: ConnId, u: Uuid, maxEdges: int, r: RecId)
    requires g.Closed() && r !in g.recs
    ensures SameQueues(g, Registered(g, c, u, maxEdges, r))
  {
    if OutcomeOf(g, c, u, maxEdges).Stored? {
      ReplacingAddsNoMessage(g, u);
    }
  }

  lemma ReplacingAddsNoMessage(g: Registry<RecId>, u: Uuid)
    requires g.Closed()
    ensures SameQueues(g, Replaced(g, u)) && Replaced(g, u).recs.Keys == g.recs.Keys
  {
    if u in g.edges {
      assert Replaced(g, u).recs.Keys == g.recs.Keys + {g.edges[u]};
    }
  }

  lemma SameQueuesKeepTruth(secrets: seq<Secret>, g: Registry<RecId>, h: Registry<RecId>)
    requires TrueRecs(secrets, g.recs) && SameQueues(g, h)
    ensures TrueRecs(secrets, h.recs)
  {
  }

  lemma RunKeepsTruth(s: System, t: ThreadId, order: seq<ConnId>)
    requires Truthful(s) && s.reg.Closed() && Enabled(s, Run(t, order))
    ensures Truthful(Next(s, Run(t, order)))
  {
    var a, n := s.threads[t][0], Next(s, Run(t, order));
    assert TrueThread(s.secrets, s.threads[t]) && a in s.threads[t];
    assert TrueThread(s.secrets, Continuation(s, a, order));
    assert TrueThread(s.secrets, n.threads[t]);
    assert TrueThreads(s.secrets, n.threads);
    EffectKeepsTruth(s, a);
  }

  lemma EffectKeepsTruth(s: System, a: Action)
    requires TrueRecs(s.secrets, s.reg.recs) && TrueAction(s.secrets, a)
    ensures TrueRecs(s.secrets, Effect(s.reg, a).recs)
  {
    if a.Enqueue? && a.rec in s.reg.recs {
      var q := s.reg.recs[a.rec].queue;
      assert TrueQueue(s.secrets, q + [a.msg]);
    }
  }

  lemma WriteOutKeepsTruth(s: System, r: RecId)
    requires Truthful(s) && s.reg.Closed() && Enabled(s, WriteOut(r))
    ensures Truthful(Next(s, WriteOut(r)))
  {
    var rec := s.reg.recs[r];
    assert TrueQueue(s.secrets, rec.queue) && TrueQueue(s.secrets, rec.queue[1..]) && TrueMsg(s.secrets, rec.queue[0]);
    assert TrueLink(s.secrets, s.links[rec.conn]);
    assert TrueQueue(s.secrets, s.links[rec.conn].inbox + [rec.queue[0]]);
  }

  lemma RegisterKeepsTruth(s: System, c: ConnId, u: Uuid)
    requires Shaped(s) && Truthful(s) && Enabled(s, Register(c, u))
    ensures Truthful(Next(s, Register(c, u)))
  {
    var h := Registered(s.reg, c, u, s.maxEdges, s.nextRec);
    assert s.nextRec !in s.reg.recs;
    RegisterAddsNoMessage(s.reg, c, u, s.maxEdges, s.nextRec);
    SameQueuesKeepTruth(s.secrets, s.reg, h);
    GreetingKeepsTruth(s.(reg := h, nextRec := s.nextRec + 1), c);
  }

  lemma GreetingKeepsTruth(s: System, c: ConnId)
    requires Truthful(s) && c in s.links
    ensures Truthful(Greeted(s, c))
  {
    assert Truthful(Owing(s, c, RegisterAck(s.nextThread)));
    SpawnKeepsTruth(Owing(s, c, RegisterAck(s.nextThread)), Greeting(c, s.nextThread));
  }

  lemma UnregisterKeepsTruth(s: System, c: ConnId)
    requires Shaped(s) && Truthful(s) && Enabled(s, Unregister(c))
    ensures Truthful(Next(s, Unregister(c)))
  {
    UnregisteredRecords(s.reg, c);
    assert SameQueues(s.reg, Unregistered(s.reg, c));
    SameQueuesKeepTruth(s.secrets, s.reg, Unregistered(s.reg, c));
  }

  lemma QueryKeepsTruth(s: System, c: ConnId)
    requires Truthful(s) && c in s.links
    ensures Truthful(AfterQuery(s, c))
  {
    var answer := TopoResponse(s.nextThread);
    assert Truthful(Owing(s, c, answer));
    SpawnKeepsTruth(if c in s.reg.uuidByConn then Owing(s, c, answer) else s, [LookUp(c, answer)]);
  }

  lemma StepKeepsTruth(s: System, e: Event)
    requires Shaped(s) && Truthful(s) && Enabled(s, e)
    ensures Truthful(Next(s, e))
  {
    match e {
      case Rotate(secret) =>
        MoreSecretsKeepTruth(s, secret);
        SpawnKeepsTruth(s.(secrets := s.secrets + [secret]), [Snapshot(secret, s.Version() + 1)]);
      case Register(c, u) =>
        RegisterKeepsTruth(s, c, u);
      case Unregister(c) =>
        UnregisterKeepsTruth(s, c);
      case QueryTopology(c) => QueryKeepsTruth(s, c);
      case Run(t, order) => RunKeepsTruth(s, t, order);
      case WriteOut(r) => WriteOutKeepsTruth(s, r);
      case Deliver(c, now) =>
        assert TrueLink(s.secrets, s.links[c]) && TrueMsg(s.secrets, s.links[c].inbox[0]);
      case _ =>
    }
  }

  // ---------- What an Edge is owed is always on its way ----------

  /** What an open connection waits for: the newest version, or one answer. */
  datatype Want = Newest(version: nat) | Answer(msg: Msg)

  predicate Meets(m: Msg, w: Want) {
    match w
    case Newest(v) => m.SecretPush? && m.version == v
    case Answer(a) => m == a
  }

  predicate Wanted(s: System, c: ConnId, w: Want)
    requires c in s.links
  {
    match w
    case Newest(v) => v == s.Version() && v > 0
    case Answer(m) => m in s.links[c].owed
  }

  /** Its Edge has it. */
  predicate Held(l: Link, w: Want) {
    match w
    case Newest(v) => l.keys.version == v
    case Answer(m) => m in l.received
  }

  /** The section will still lead to connection `c` being sent `w`; a version wanted is the newest. */
  predicate Carries(g: Registry<RecId>, a: Action, c: ConnId, w: Want) {
    match a
    case ReadSecret(d) => d == c && w.Newest?
    case Snapshot(_, v) => w == Newest(v)
    case LookUp(d, m) => d == c && Meets(m, w)
    case Enqueue(r, m) => Meets(m, w) && r in g.recs && g.recs[r].conn == c
  }

  ghost predicate HasMsg(q: seq<Msg>, w: Want) {
    exists i :: 0 <= i < |q| && Meets(q[i], w)
  }

  ghost predicate QueueSupplies(g: Registry<RecId>, c: ConnId, w: Want) {
    exists r :: r in g.recs && g.recs[r].conn == c && HasMsg(g.recs[r].queue, w)
  }

  ghost predicate SectionsCarry(g: Registry<RecId>, actions: seq<Action>, c: ConnId, w: Want) {
    exists i :: 0 <= i < |actions| && Carries(g, actions[i], c, w)
  }

  ghost predicate ThreadSupplies(s: System, c: ConnId, w: Want) {
    exists t :: t in s.threads && SectionsCarry(s.reg, s.threads[t], c, w)
  }

  /** The Edge behind `c` has what it wants, or it is on the wire, queued, or a goroutine will send it. */
  ghost predicate Supplied(s: System, c: ConnId, w: Want)
    requires c in s.links
  {
    || Held(s.links[c], w)
    || HasMsg(s.links[c].inbox, w)
    || QueueSupplies(s.reg, c, w)
    || ThreadSupplies(s, c, w)
  }

  ghost predicate AllSupplied(s: System) {
    forall c, w :: s.Online(c) && c in s.links && Wanted(s, c, w) ==> Supplied(s, c, w)
  }

  lemma QueueSuppliesKept(g: Registry<RecId>, h: Registry<RecId>, c: ConnId, w: Want)
    requires Extends(g, h) && QueueSupplies(g, c, w)
    ensures QueueSupplies(h, c, w)
  {
    var r :| r in g.recs && g.recs[r].conn == c && HasMsg(g.recs[r].queue, w);
    var i :| 0 <= i < |g.recs[r].queue| && Meets(g.recs[r].queue[i], w);
    assert h.recs[r].queue[i] == g.recs[r].queue[i];
  }

  lemma SectionsKept(g: Registry<RecId>, h: Registry<RecId>, actions: seq<Action>, c: ConnId, w: Want)
    requires Extends(g, h) && SectionsCarry(g, actions, c, w)
    ensures SectionsCarry(h, actions, c, w)
  {
    var i :| 0 <= i < |actions| && Carries(g, actions[i], c, w);
    assert Carries(h, actions[i], c, w);
  }

  /** A step that keeps queues, threads and the link of `c` keeps its supply. */
  lemma SupplyKept(s: System, t: System, c: ConnId, w: Want)
    requires c in s.links && Supplied(s, c, w) && Extends(s.reg, t.reg)
    requires c in t.links && t.links[c].keys == s.links[c].keys && t.links[c].inbox == s.links[c].inbox
    requires t.links[c].received == s.links[c].received
    requires forall th :: th in s.threads ==> th in t.threads && t.threads[th] == s.threads[th]
    ensures Supplied(t, c, w)
  {
    if QueueSupplies(s.reg, c, w) {
      QueueSuppliesKept(s.reg, t.reg, c, w);
    } else if ThreadSupplies(s, c, w) {
      var th :| th in s.threads && SectionsCarry(s.reg, s.threads[th], c, w);
      SectionsKept(s.reg, t.reg, s.threads[th], c, w);
    }
  }

  lemma SpawnSupplies(s: System, actions: seq<Action>, i: nat, c: ConnId, w: Want)
    requires i < |actions| && Carries(s.reg, actions[i], c, w)
    ensures ThreadSupplies(Spawned(s, actions), c, w)
  {
    var t := Spawned(s, actions);
    assert SectionsCarry(t.reg, t.threads[s.nextThread], c, w);
  }

  /** An answer is owed only on connections that are still mapped, closed, or no longer read; to every mapped one
      the confirmation of its registration, and something to every one that has had a record. */
  ghost predicate OwedToMapped(s: System) {
    && (forall c :: c in s.links ==> OwedProperly(s.links[c], c in s.reg.uuidByConn, c in s.reg.shut))
    && OwedToRecords(s)
  }

  ghost predicate OwedToRecords(s: System) {
    forall r :: r in s.reg.recs ==> s.reg.recs[r].conn in s.links && s.links[s.reg.recs[r].conn].owed != {}
  }

  ghost predicate OwedProperly(l: Link, mapped: bool, shut: bool) {
    && (l.owed != {} ==> mapped || shut || !l.reading)
    && (mapped ==> Confirms(l.owed))
  }

  ghost predicate Confirms(answers: set<Msg>) {
    exists m :: m in answers && m.RegisterAck?
  }

  /** A rotation alone puts the new version on its way to every connection. */
  lemma RotateSupplies(s: System, secret: Secret)
    requires s.reg.Closed()
    ensures forall c :: c in s.links ==> Supplied(Next(s, Rotate(secret)), c, Newest(s.Version() + 1))
  {
    var t, w := s.(secrets := s.secrets + [secret]), Newest(s.Version() + 1);
    forall c | c in s.links ensures Supplied(Next(s, Rotate(secret)), c, w) {
      SpawnSupplies(t, [Snapshot(secret, s.Version() + 1)], 0, c, w);
    }
  }

  lemma RotateKeepsSupply(s: System, secret: Secret)
    requires Shaped(s) && AllSupplied(s)
    ensures AllSupplied(Next(s, Rotate(secret)))
  {
    var n := Next(s, Rotate(secret));
    RotateSupplies(s, secret);
    forall c, w | n.Online(c) && c in n.links && Wanted(n, c, w) ensures Supplied(n, c, w) {
      if w.Answer? {
        assert Wanted(s, c, w);
        SupplyKept(s, n, c, w);
      }
    }
  }

  lemma RegisterKeepsSupply(s: System, c: ConnId, u: Uuid)
    requires Shaped(s) && AllSupplied(s) && OwedToMapped(s) && Enabled(s, Register(c, u))
    ensures AllSupplied(Next(s, Register(c, u)))
  {
    RegisterIsShaped(s, c, u);
    AfterRegisterKeepsSupply(s, c, Registered(s.reg, c, u, s.maxEdges, s.nextRec), OutcomeOf(s.reg, c, u, s.maxEdges));
  }

  lemma AfterRegisterKeepsSupply(s: System, c: ConnId, h: Registry<RecId>, o: RegisterOutcome)
    requires Shaped(s) && AllSupplied(s) && OwedToMapped(s) && Reading(s, c) && ShapedRegister(s, c, h)
    requires o.CapacityReached? ==> c in h.shut
    ensures AllSupplied(AfterRegister(s, c, h, o))
  {
    var n := AfterRegister(s, c, h, o);
    forall d, w | n.Online(d) && d in n.links && Wanted(n, d, w) ensures Supplied(n, d, w) {
      if d == c && (w.Newest? || w.msg == RegisterAck(s.nextThread)) {
        GreetingSupplies(s.(reg := h, nextRec := s.nextRec + 1), c, w);
      } else {
        RegisterKeepsSupplyOf(s, c, h, o, d, w);
      }
    }
  }

  lemma GreetingSupplies(t: System, c: ConnId, w: Want)
    requires c in t.links && (w.Newest? || w.msg == RegisterAck(t.nextThread))
    ensures ThreadSupplies(Greeted(t, c), c, w)
  {
    SpawnSupplies(Owing(t, c, RegisterAck(t.nextThread)), Greeting(c, t.nextThread), if w.Newest? then 1 else 0, c, w);
  }

  /** What was wanted before a registration, of an open connection. */
  lemma WantedBefore(s: System, c: ConnId, h: Registry<RecId>, o: RegisterOutcome, d: ConnId, w: Want)
    requires Shaped(s) && OwedToMapped(s) && Reading(s, c) && ShapedRegister(s, c, h)
    requires var n := AfterRegister(s, c, h, o); n.Online(d) && d in n.links && Wanted(n, d, w)
    requires d == c ==> w.Answer? && w.msg != RegisterAck(s.nextThread)
    ensures d in s.links && Wanted(s, d, w) && s.Online(d)
  {
    assert OwedProperly(s.links[d], d in s.reg.uuidByConn, d in s.reg.shut);
  }

  lemma RegisterKeepsSupplyOf(s: System, c: ConnId, h: Registry<RecId>, o: RegisterOutcome, d: ConnId, w: Want)
    requires Shaped(s) && AllSupplied(s) && OwedToMapped(s) && Reading(s, c) && ShapedRegister(s, c, h)
    requires var n := AfterRegister(s, c, h, o); n.Online(d) && d in n.links && Wanted(n, d, w)
    requires d == c ==> w.Answer? && w.msg != RegisterAck(s.nextThread)
    ensures Supplied(AfterRegister(s, c, h, o), d, w)
  {
    WantedBefore(s, c, h, o, d, w);
    SupplyKept(s, AfterRegister(s, c, h, o), d, w);
  }

  lemma QueryKeepsSupply(s: System, c: ConnId)
    requires Shaped(s) && AllSupplied(s) && Enabled(s, QueryTopology(c))
    ensures AllSupplied(Next(s, QueryTopology(c)))
  {
    var n, answer := Next(s, QueryTopology(c)), TopoResponse(s.nextThread);
    forall d, w | n.Online(d) && d in n.links && Wanted(n, d, w) ensures Supplied(n, d, w) {
      if d == c && w == Answer(answer) {
        SpawnSupplies(Owing(s, c, answer), [LookUp(c, answer)], 0, c, w);
      } else {
        QueryKeepsSupplyOf(s, c, d, w);
      }
    }
  }

  lemma QueryKeepsSupplyOf(s: System, c: ConnId, d: ConnId, w: Want)
    requires Shaped(s) && AllSupplied(s) && Reading(s, c)
    requires var n := AfterQuery(s, c); n.Online(d) && d in n.links && Wanted(n, d, w)
    requires d == c ==> w != Answer(TopoResponse(s.nextThread))
    ensures Supplied(AfterQuery(s, c), d, w)
  {
    assert Wanted(s, d, w) && s.Online(d);
    SupplyKept(s, AfterQuery(s, c), d, w);
  }

  lemma UnregisterKeepsSupply(s: System, c: ConnId)
    requires Shaped(s) && AllSupplied(s) && Enabled(s, Unregister(c))
    ensures AllSupplied(Next(s, Unregister(c)))
  {
    UnregisteredRecords(s.reg, c);
    var n := Next(s, Unregister(c));
    forall d, w | n.Online(d) && d in n.links && Wanted(n, d, w) ensures Supplied(n, d, w) {
      assert d != c && s.Online(d) && Wanted(s, d, w);
      SupplyKept(s, n, d, w);
    }
  }

  /** The section just executed was the supply of `c`: what it leads to is. */
  lemma SectionPassesSupplyOn(s: System, a: Action, order: seq<ConnId>, c: ConnId, w: Want)
    requires Shaped(s) && ActionsShaped(s.reg, [a]) && (a.Snapshot? ==> IsConnList(s.reg, order))
    requires s.Online(c) && c in s.links && Wanted(s, c, w) && Carries(s.reg, a, c, w) && c !in Effect(s.reg, a).shut
    ensures SectionsCarry(Effect(s.reg, a), Continuation(s, a, order), c, w)
         || QueueSupplies(Effect(s.reg, a), c, w)
  {
    var more, h := Continuation(s, a, order), Effect(s.reg, a);
    match a {
      case ReadSecret(_) =>
        assert Carries(h, more[0], c, w);
      case Snapshot(_, _) =>
        RegisteredIsListed(s.reg, order, s.reg.uuidByConn[c]);
        var i :| 0 <= i < |order| && order[i] == c;
        assert Carries(h, more[i], c, w);
      case LookUp(_, m) =>
        LookupsNeverMeetNil(s.reg, s.maxEdges, c, c);
        assert Carries(h, more[0], c, w);
      case Enqueue(r, m) =>
        assert a in [a];
        assert Reading(s, c) && !s.reg.recs[r].closed;
        var q := s.reg.recs[r].queue;
        assert h.recs[r].queue == q + [m];
        assert Meets((q + [m])[|q|], w);
    }
  }

  lemma RunKeepsSupplyOf(s: System, t: ThreadId, order: seq<ConnId>, c: ConnId, w: Want)
    requires Shaped(s) && Enabled(s, Run(t, order)) && s.Online(c) && c in s.links && Wanted(s, c, w) && Supplied(s, c, w)
    requires Next(s, Run(t, order)).Online(c)
    ensures Supplied(Next(s, Run(t, order)), c, w)
  {
    var a, n := s.threads[t][0], Next(s, Run(t, order));
    assert ActionsShaped(s.reg, s.threads[t]) && a in s.threads[t];
    EffectKeepsInv(s, a);
    if QueueSupplies(s.reg, c, w) {
      QueueSuppliesKept(s.reg, n.reg, c, w);
    } else if ThreadSupplies(s, c, w) {
      var th :| th in s.threads && SectionsCarry(s.reg, s.threads[th], c, w);
      SectionsKept(s.reg, n.reg, s.threads[th], c, w);
      if th != t {
        assert n.threads[th] == s.threads[th];
      } else {
        RunOfSupplier(s, t, order, c, w);
      }
    }
  }

  lemma FirstSectionSupplies(s: System, t: ThreadId, order: seq<ConnId>, c: ConnId, w: Want)
    requires Shaped(s) && Enabled(s, Run(t, order)) && s.Online(c) && c in s.links && Wanted(s, c, w)
    requires Next(s, Run(t, order)).Online(c) && Carries(s.reg, s.threads[t][0], c, w)
    ensures Supplied(Next(s, Run(t, order)), c, w)
  {
    var a, n := s.threads[t][0], Next(s, Run(t, order));
    var more := Continuation(s, a, order);
    assert ActionsShaped(s.reg, s.threads[t]) && a in s.threads[t];
    SectionPassesSupplyOn(s, a, order, c, w);
    if SectionsCarry(n.reg, more, c, w) {
      var j :| 0 <= j < |more| && Carries(n.reg, more[j], c, w);
      assert n.threads[t][j] == more[j];
    }
  }

  lemma LaterSectionSupplies(s: System, t: ThreadId, order: seq<ConnId>, c: ConnId, w: Want, i: nat)
    requires s.reg.Closed() && Enabled(s, Run(t, order)) && c in Next(s, Run(t, order)).links
    requires Extends(s.reg, Next(s, Run(t, order)).reg)
    requires 0 < i < |s.threads[t]| && Carries(s.reg, s.threads[t][i], c, w)
    ensures Supplied(Next(s, Run(t, order)), c, w)
  {
    var n, more := Next(s, Run(t, order)), Continuation(s, s.threads[t][0], order);
    assert n.threads[t][|more| + i - 1] == s.threads[t][i];
    assert Carries(n.reg, n.threads[t][|more| + i - 1], c, w);
  }

  lemma RunOfSupplier(s: System, t: ThreadId, order: seq<ConnId>, c: ConnId, w: Want)
    requires Shaped(s) && Enabled(s, Run(t, order)) && s.Online(c) && c in s.links && Wanted(s, c, w)
    requires Next(s, Run(t, order)).Online(c) && SectionsCarry(s.reg, s.threads[t], c, w)
    ensures Supplied(Next(s, Run(t, order)), c, w)
  {
    var i :| 0 <= i < |s.threads[t]| && Carries(s.reg, s.threads[t][i], c, w);
    if i == 0 {
      FirstSectionSupplies(s, t, order, c, w);
    } else {
      var a := s.threads[t][0];
      assert ActionsShaped(s.reg, s.threads[t]) && a in s.threads[t];
      EffectKeepsInv(s, a);
      LaterSectionSupplies(s, t, order, c, w, i);
    }
  }

  lemma WriteOutKeepsSupplyOf(s: System, r: RecId, c: ConnId, w: Want)
    requires Shaped(s) && Enabled(s, WriteOut(r)) && s.Online(c) && c in s.links && Supplied(s, c, w)
    ensures Supplied(Next(s, WriteOut(r)), c, w)
  {
    var n := Next(s, WriteOut(r));
    if HasMsg(s.links[c].inbox, w) {
      var inbox := s.links[c].inbox;
      var i :| 0 <= i < |inbox| && Meets(inbox[i], w);
      assert n.links[c].inbox[i] == inbox[i];
    } else if QueueSupplies(s.reg, c, w) {
      WriteOutPassesQueueOn(s, r, c, w);
    } else if ThreadSupplies(s, c, w) {
      WriteOutKeepsThreads(s, r, c, w);
    }
  }

  lemma WriteOutPassesQueueOn(s: System, r: RecId, c: ConnId, w: Want)
    requires Enabled(s, WriteOut(r)) && s.reg.Closed() && c !in s.reg.shut && c in s.links && QueueSupplies(s.reg, c, w)
    ensures var n := Next(s, WriteOut(r));
            c in n.links && (QueueSupplies(n.reg, c, w) || HasMsg(n.links[c].inbox, w))
  {
    var n, rec, inbox := Next(s, WriteOut(r)), s.reg.recs[r], s.links[c].inbox;
    var q :| q in s.reg.recs && s.reg.recs[q].conn == c && HasMsg(s.reg.recs[q].queue, w);
    var i :| 0 <= i < |s.reg.recs[q].queue| && Meets(s.reg.recs[q].queue[i], w);
    if q != r {
      assert n.reg.recs[q] == s.reg.recs[q];
    } else if i > 0 {
      assert n.reg.recs[r].queue[i - 1] == rec.queue[i];
    } else {
      assert n.links[c].inbox[|inbox|] == rec.queue[0];
    }
  }

  lemma WriteOutKeepsThreads(s: System, r: RecId, c: ConnId, w: Want)
    requires Enabled(s, WriteOut(r)) && s.reg.Closed() && ThreadSupplies(s, c, w)
    ensures ThreadSupplies(Next(s, WriteOut(r)), c, w)
  {
    var n := Next(s, WriteOut(r));
    var th :| th in s.threads && SectionsCarry(s.reg, s.threads[th], c, w);
    var i :| 0 <= i < |s.threads[th]| && Carries(s.reg, s.threads[th][i], c, w);
    assert Carries(n.reg, n.threads[th][i], c, w);
  }

  lemma DeliverKeepsSupplyOf(s: System, d: ConnId, now: int, c: ConnId, w: Want)
    requires Shaped(s) && Truthful(s) && Enabled(s, Deliver(d, now))
    requires s.Online(c) && c in s.links && Wanted(s, c, w) && Supplied(s, c, w)
    ensures Supplied(Next(s, Deliver(d, now)), c, w)
  {
    var n := Next(s, Deliver(d, now));
    if c != d || QueueSupplies(s.reg, c, w) || ThreadSupplies(s, c, w) {
      if ThreadSupplies(s, c, w) {
        var th :| th in s.threads && SectionsCarry(s.reg, s.threads[th], c, w);
        assert SectionsCarry(n.reg, n.threads[th], c, w);
      }
    } else {
      var l := s.links[c];
      assert TrueLink(s.secrets, l) && l.inbox[0] in l.inbox && TrueMsg(s.secrets, l.inbox[0]);
      if !Held(l, w) && !Meets(l.inbox[0], w) {
        var i :| 0 <= i < |l.inbox| && Meets(l.inbox[i], w);
        assert n.links[c].inbox[i - 1] == l.inbox[i];
      }
    }
  }

  lemma StepKeepsSupply(s: System, e: Event)
    requires Shaped(s) && Truthful(s) && AllSupplied(s) && OwedToMapped(s) && Enabled(s, e)
    ensures AllSupplied(Next(s, e))
  {
    var n := Next(s, e);
    match e {
      case Rotate(secret) => RotateKeepsSupply(s, secret);
      case Register(c, u) => RegisterKeepsSupply(s, c, u);
      case Unregister(c) => UnregisterKeepsSupply(s, c);
      case QueryTopology(c) => QueryKeepsSupply(s, c);
      case _ =>
        forall c, w | n.Online(c) && c in n.links && Wanted(n, c, w) ensures Supplied(n, c, w) {
          OtherStepKeepsSupplyOf(s, e, c, w);
        }
    }
  }

  lemma OtherStepKeepsSupplyOf(s: System, e: Event, c: ConnId, w: Want)
    requires Shaped(s) && Truthful(s) && AllSupplied(s) && Enabled(s, e)
    requires !e.Rotate? && !e.Register? && !e.Unregister? && !e.QueryTopology?
    requires Next(s, e).Online(c) && c in Next(s, e).links && Wanted(Next(s, e), c, w)
    ensures Supplied(Next(s, e), c, w)
  {
    if e.Run? {
      var a := s.threads[e.thread][0];
      assert ActionsShaped(s.reg, s.threads[e.thread]) && a in s.threads[e.thread];
      EffectKeepsInv(s, a);
      assert s.Online(c) && Reading(s, c) && Wanted(s, c, w);
      RunKeepsSupplyOf(s, e.thread, e.order, c, w);
    } else {
      assert s.Online(c) && Reading(s, c) && Wanted(s, c, w);
      if e.WriteOut? {
        WriteOutKeepsSupplyOf(s, e.rec, c, w);
      } else if e.Deliver? {
        DeliverKeepsSupplyOf(s, e.conn, e.now, c, w);
      } else {
        SupplyKept(s, Next(s, e), c, w);
      }
    }
  }

  /** Registration unmaps no connection it does not close. */
  lemma RegisterUnmapsOnlyClosed(g: Registry<RecId>, c: ConnId, u: Uuid, maxEdges: int, r: RecId)
    requires g.Closed() && r !in g.recs
    ensures forall d :: d in g.uuidByConn ==>
              d in Registered(g, c, u, maxEdges, r).uuidByConn || d in Registered(g, c, u, maxEdges, r).shut
    ensures var h := Registered(g, c, u, maxEdges, r);
            match OutcomeOf(g, c, u, maxEdges)
            case CapacityReached => h.uuidByConn == g.uuidByConn && h.recs == g.recs
            case Reused => h == g && u in g.edges && g.recs[g.edges[u]].conn == c
            case Stored => c in h.uuidByConn && h.uuidByConn.Keys <= g.uuidByConn.Keys + {c}
  {
  }

  lemma AfterRegisterKeepsOwed(s: System, c: ConnId, h: Registry<RecId>, o: RegisterOutcome)
    requires OwedToMapped(s) && c in s.links && s.reg.shut <= h.shut
    requires forall d :: d in s.reg.uuidByConn ==> d in h.uuidByConn || d in h.shut
    requires h.uuidByConn.Keys <= s.reg.uuidByConn.Keys + if o.CapacityReached? then {} else {c}
    requires !o.CapacityReached? ==> c in h.uuidByConn || c in h.shut
    requires h.recs.Keys <= s.reg.recs.Keys + if o.CapacityReached? then {} else {s.nextRec}
    requires forall r :: r in h.recs ==> h.recs[r].conn == if r in s.reg.recs then s.reg.recs[r].conn else c
    ensures OwedToMapped(AfterRegister(s, c, h, o))
  {
    var n := AfterRegister(s, c, h, o);
    forall d | d in n.links ensures OwedProperly(n.links[d], d in h.uuidByConn, d in h.shut) {
      assert OwedProperly(s.links[d], d in s.reg.uuidByConn, d in s.reg.shut);
      if d == c && !o.CapacityReached? {
        assert RegisterAck(s.nextThread) in n.links[c].owed;
      }
    }
  }

  lemma RegisterKeepsOwed(s: System, c: ConnId, u: Uuid)
    requires Shaped(s) && OwedToMapped(s) && Enabled(s, Register(c, u))
    ensures OwedToMapped(Next(s, Register(c, u)))
  {
    RegisterIsShaped(s, c, u);
    assert s.nextRec !in s.reg.recs;
    RegisterUnmapsOnlyClosed(s.reg, c, u, s.maxEdges, s.nextRec);
    if OutcomeOf(s.reg, c, u, s.maxEdges).Reused? {
      assert OwedProperly(s.links[c], c in s.reg.uuidByConn, c in s.reg.shut);
    }
    AfterRegisterKeepsOwed(s, c, Registered(s.reg, c, u, s.maxEdges, s.nextRec), OutcomeOf(s.reg, c, u, s.maxEdges));
  }

  ghost predicate SameConns(g: Registry<RecId>, h: Registry<RecId>) {
    h.recs.Keys == g.recs.Keys && forall r :: r in g.recs ==> h.recs[r].conn == g.recs[r].conn
  }

  /** A step that registers nobody and asks for nothing, as far as owed answers go. */
  lemma SameOwed(s: System, n: System)
    requires OwedToMapped(s) && s.reg.shut <= n.reg.shut && n.reg.uuidByConn == s.reg.uuidByConn
    requires forall d :: d in n.links ==>
               if d in s.links then n.links[d].owed == s.links[d].owed && n.links[d].reading == s.links[d].reading
               else n.links[d].owed == {} && d !in s.reg.uuidByConn
    requires s.links.Keys <= n.links.Keys && SameConns(s.reg, n.reg)
    ensures OwedToMapped(n)
  {
    forall d | d in n.links ensures OwedProperly(n.links[d], d in n.reg.uuidByConn, d in n.reg.shut) {
      assert d in s.links ==> OwedProperly(s.links[d], d in s.reg.uuidByConn, d in s.reg.shut);
    }
  }

  lemma UnregisterKeepsOwed(s: System, c: ConnId)
    requires Shaped(s) && OwedToMapped(s) && Enabled(s, Unregister(c))
    ensures OwedToMapped(Next(s, Unregister(c)))
  {
    UnregisteredRecords(s.reg, c);
    var n := Next(s, Unregister(c));
    forall d | d in n.links ensures OwedProperly(n.links[d], d in n.reg.uuidByConn, d in n.reg.shut) {
      assert OwedProperly(s.links[d], d in s.reg.uuidByConn, d in s.reg.shut);
    }
  }

  lemma QueryKeepsOwed(s: System, c: ConnId)
    requires OwedToMapped(s) && c in s.links
    ensures OwedToMapped(AfterQuery(s, c))
  {
    var n := AfterQuery(s, c);
    forall d | d in n.links ensures OwedProperly(n.links[d], d in n.reg.uuidByConn, d in n.reg.shut) {
      assert OwedProperly(s.links[d], d in s.reg.uuidByConn, d in s.reg.shut);
    }
  }

  lemma RunKeepsOwed(s: System, t: ThreadId, order: seq<ConnId>)
    requires Shaped(s) && OwedToMapped(s) && Enabled(s, Run(t, order))
    ensures OwedToMapped(Next(s, Run(t, order)))
  {
    assert ActionsShaped(s.reg, s.threads[t]) && s.threads[t][0] in s.threads[t];
    EffectKeepsInv(s, s.threads[t][0]);
    SameOwed(s, Next(s, Run(t, order)));
  }

  lemma StepKeepsOwed(s: System, e: Event)
    requires Shaped(s) && OwedToMapped(s) && Enabled(s, e)
    ensures OwedToMapped(Next(s, e))
  {
    match e {
      case Register(c, u) => RegisterKeepsOwed(s, c, u);
      case Unregister(c) => UnregisterKeepsOwed(s, c);
      case QueryTopology(c) => QueryKeepsOwed(s, c);
      case Run(t, order) => RunKeepsOwed(s, t, order);
      case WriteOut(r) => WriteOutKeepsOwed(s, r);
      case _ => OtherStepKeepsOwed(s, e);
    }
  }

  lemma WriteOutKeepsOwed(s: System, r: RecId)
    requires Shaped(s) && OwedToMapped(s) && Enabled(s, WriteOut(r))
    ensures OwedToMapped(Next(s, WriteOut(r)))
  {
    var n := Next(s, WriteOut(r));
    assert n.reg.recs.Keys == s.reg.recs.Keys + {r} && n.links.Keys == s.links.Keys + {s.reg.recs[r].conn};
    SameOwed(s, n);
  }

  lemma OtherStepKeepsOwed(s: System, e: Event)
    requires Shaped(s) && OwedToMapped(s) && Enabled(s, e)
    requires !e.Register? && !e.Unregister? && !e.QueryTopology? && !e.Run? && !e.WriteOut?
    ensures OwedToMapped(Next(s, e))
  {
    assert forall d :: d in s.reg.uuidByConn ==> Reading(s, d);
    SameOwed(s, Next(s, e));
  }

  // ---------- The theorems ----------

  ghost predicate Inv(s: System) {
    Shaped(s) && Truthful(s) && OwedToMapped(s) && AllSupplied(s)
  }

  lemma {:induction false} RunKeepsInv(from: System, events: seq<Event>, s: System)
    requires Inv(from) && Reaches(from, events, s)
    ensures Inv(s)
    decreases |events|
  {
    if events != [] {
      StepKeepsShape(from, events[0]);
      StepKeepsTruth(from, events[0]);
      StepKeepsOwed(from, events[0]);
      StepKeepsSupply(from, events[0]);
      RunKeepsInv(Next(from, events[0]), events[1..], s);
    }
  }

  /** No lost secret. In every interleaving of rotations, broadcasts that overtake each other, registrations,
      replacements and disconnects: once the sends are done and its own queues and wire are drained, every
      connection that is still mapped and was not closed has its Edge on the Center's newest version and
      secret. A full queue closes the connection, so it is covered by that condition. */
  lemma NoLostSecret(maxEdges: int, ttl: nat, events: seq<Event>, s: System, c: ConnId)
    requires Reaches(Init(maxEdges, ttl), events, s) && s.Quiescent(c) && s.Online(c)
    ensures c in s.links && s.links[c].keys.version == s.Version()
    ensures s.Version() > 0 ==> s.links[c].keys.current == s.Current()
  {
    RunKeepsInv(Init(maxEdges, ttl), events, s);
    DrainedHoldsNewest(s, c);
  }

  lemma DrainedHoldsNewest(s: System, c: ConnId)
    requires Inv(s) && s.Quiescent(c) && s.Online(c)
    ensures c in s.links && s.links[c].keys.version == s.Version()
    ensures s.Version() > 0 ==> s.links[c].keys.current == s.Current()
  {
    assert Reading(s, c) && TrueLink(s.secrets, s.links[c]);
    if s.Version() > 0 {
      assert Wanted(s, c, Newest(s.Version()));
      DrainedMeansHeld(s, c, Newest(s.Version()));
    }
  }

  /** No lost answer, under the same conditions: the Edge has received the confirmation of its registration, and
      the answer to every registration that was not refused and to every query made while mapped. */
  lemma NoLostAnswer(maxEdges: int, ttl: nat, events: seq<Event>, s: System, c: ConnId)
    requires Reaches(Init(maxEdges, ttl), events, s) && s.Quiescent(c) && s.Online(c)
    ensures c in s.links && (exists m :: m in s.links[c].received && m.RegisterAck?)
    ensures forall m :: m in s.links[c].owed ==> m in s.links[c].received
  {
    RunKeepsInv(Init(maxEdges, ttl), events, s);
    DrainedHoldsAnswers(s, c);
  }

  lemma DrainedHoldsAnswers(s: System, c: ConnId)
    requires Inv(s) && s.Quiescent(c) && s.Online(c)
    ensures c in s.links && (exists m :: m in s.links[c].received && m.RegisterAck?)
    ensures forall m :: m in s.links[c].owed ==> m in s.links[c].received
  {
    assert Reading(s, c);
    forall m | m in s.links[c].owed ensures m in s.links[c].received {
      assert Wanted(s, c, Answer(m));
      DrainedMeansHeld(s, c, Answer(m));
    }
    assert OwedProperly(s.links[c], true, false);
  }

  /** With everything drained the only supply left is what the Edge has. */
  lemma DrainedMeansHeld(s: System, c: ConnId, w: Want)
    requires c in s.links && s.Quiescent(c) && Supplied(s, c, w)
    ensures Held(s.links[c], w)
  {
  }

  /** Even before that, an Edge never holds a version the Center has not issued, nor a wrong secret for it. */
  lemma EdgesHoldIssuedSecrets(maxEdges: int, ttl: nat, events: seq<Event>, s: System, c: ConnId)
    requires Reaches(Init(maxEdges, ttl), events, s) && c in s.links
    ensures TrueKeys(s.secrets, s.links[c].keys)
  {
    RunKeepsInv(Init(maxEdges, ttl), events, s);
    assert TrueLink(s.secrets, s.links[c]);
  }

  /** The registry over all runs: nothing panics, so no sender ever sends on a closed queue and none is closed
      twice; every mapped connection has its own record; records in the table have open queues and every
      other one was closed exactly once; the table stays within its capacity. */
  lemma RegistryHoldsThroughout(maxEdges: int, ttl: nat, events: seq<Event>, s: System)
    requires Reaches(Init(maxEdges, ttl), events, s)
    ensures !s.reg.panicked && s.reg.Closed()
    ensures forall c :: c in s.reg.uuidByConn ==>
              s.reg.uuidByConn[c] in s.reg.edges && s.reg.recs[s.reg.edges[s.reg.uuidByConn[c]]].conn == c
    ensures forall r :: r in s.reg.recs ==> s.reg.recs[r].closes == if InEdges(s.reg, r) then 0 else 1
    ensures |s.reg.edges| <= EffectiveMax(maxEdges)
  {
    RunKeepsShaped(Init(maxEdges, ttl), events, s);
    StepKeepsLimits(Init(maxEdges, ttl), events, s);
  }
}
