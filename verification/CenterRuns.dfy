/** Every interleaving of registration, replacement, rotation, broadcast, write loops and delivery
    (src/center/center.go, src/edge/edge.go, src/auth/token.go), and what all of them keep. */
module CenterRuns {
  import opened Auth
  import opened CenterRegistry

  type RecId = nat
  type ThreadId = nat

  /** The next critical sections of a goroutine: read the secret for a connection, take the connection
      snapshot of a broadcast, look a connection up, and enqueue on the record found. */
  datatype Action =
    | ReadSecret(conn: ConnId)
    | Snapshot(secret: Secret, version: nat)
    | LookUp(conn: ConnId, msg: Msg)
    | Enqueue(rec: RecId, msg: Msg)

  /** The Edge's end of a connection: whether the Center still reads from it, what is on the wire, what the Edge
      has received, which answers the Center owes it, and the keys of the Edge since it connected. An answer is
      owed for every registration that was not refused and for every query of a mapped connection. */
  datatype Link = Link(reading: bool, inbox: seq<Msg>, received: seq<Msg>, owed: set<Msg>, keys: Keys)

  /** `secrets` lists all secrets of the Center, so its version is their number and the current one is the
      last. A thread is what a goroutine still has to do. */
  datatype System = System(
    reg: Registry<RecId>,
    nextRec: nat,
    secrets: seq<Secret>,
    threads: map<ThreadId, seq<Action>>,
    nextThread: ThreadId,
    links: map<ConnId, Link>,
    maxEdges: int,
    ttl: nat
  ) {
    function Version(): nat {
      |secrets|
    }

    function Current(): Secret {
      if secrets == [] then [] else secrets[|secrets| - 1]
    }

    /** Mapped to a UUID, and not closed from either side. */
    predicate Online(c: ConnId) {
      c in reg.uuidByConn && c !in reg.shut
    }

    /** Every send is done, and the queues and the wire of `c` are drained. */
    predicate Quiescent(c: ConnId) {
      && (forall t :: t in threads ==> threads[t] == [])
      && (forall r :: r in reg.recs && reg.recs[r].conn == c ==> reg.recs[r].queue == [])
      && (c in links ==> links[c].inbox == [])
    }
  }

  function Init(maxEdges: int, ttl: nat): System {
    System(Empty(), 0, [], map[], 0, map[], maxEdges, ttl)
  }

  datatype Event =
    | Rotate(secret: Secret)                       // locked section of rotateSecret
    | Connect(conn: ConnId, keys: Keys)            // a new connection; the Edge resets its version
    | Register(conn: ConnId, uuid: Uuid)           // locked section of handleRegister
    | Reject(conn: ConnId)                         // a refusal before the locked section
    | Unregister(conn: ConnId)                     // the read loop ended
    | NetworkFails(conn: ConnId)
    | QueryTopology(conn: ConnId)
    | Run(thread: ThreadId, order: seq<ConnId>)    // a goroutine's next section; `order` for a snapshot
    | WriteOut(rec: RecId)                         // a write loop writes one message
    | Deliver(conn: ConnId, now: int)              // the Edge handles one message

  predicate Reading(s: System, c: ConnId) {
    c in s.links && s.links[c].reading
  }

  ghost predicate Enabled(s: System, e: Event) {
    match e
    case Rotate(_) => true
    case Connect(c, _) => c !in s.links
    case Register(c, _) => Reading(s, c)
    case Reject(c) => Reading(s, c)
    case Unregister(c) => Reading(s, c)
    case NetworkFails(c) => c in s.links
    case QueryTopology(c) => Reading(s, c)
    case Run(t, order) =>
      && t in s.threads && s.threads[t] != []
      && (s.threads[t][0].Snapshot? ==> IsConnList(s.reg, order))
    case WriteOut(r) => r in s.reg.recs && s.reg.recs[r].queue != [] && s.reg.recs[r].conn in s.links
    case Deliver(c, _) => c in s.links && s.links[c].inbox != []
  }

  function Spawned(s: System, actions: seq<Action>): System {
    s.(threads := s.threads[s.nextThread := actions], nextThread := s.nextThread + 1)
  }

  /** What a registered connection is sent: the confirmation, then the secret current when it is read. */
  function Greeting(c: ConnId, request: nat): seq<Action> {
    [LookUp(c, RegisterAck(request)), ReadSecret(c)]
  }

  function Owing(s: System, c: ConnId, m: Msg): System
    requires c in s.links
  {
    s.(links := s.links[c := s.links[c].(owed := s.links[c].owed + {m})])
  }

  /** A registration that was not refused is greeted. Requests are numbered like the goroutines that answer them. */
  function Greeted(s: System, c: ConnId): System
    requires c in s.links
  {
    Spawned(Owing(s, c, RegisterAck(s.nextThread)), Greeting(c, s.nextThread))
  }

  /** Unlocking after the locked section of handleRegister. */
  function AfterRegister(s: System, c: ConnId, h: Registry<RecId>, o: RegisterOutcome): System
    requires c in s.links
  {
    var t := s.(reg := h, nextRec := s.nextRec + 1);
    if o.CapacityReached? then t else Greeted(t, c)
  }

  /** handleTopoQuery: the send that follows looks the connection up, and drops the answer if it is not mapped. */
  function AfterQuery(s: System, c: ConnId): System
    requires c in s.links
  {
    var answer := TopoResponse(s.nextThread);
    Spawned(if c in s.reg.uuidByConn then Owing(s, c, answer) else s, [LookUp(c, answer)])
  }

  function Sends(order: seq<ConnId>, m: Msg): (r: seq<Action>)
    ensures |r| == |order| && forall i :: 0 <= i < |order| ==> r[i] == LookUp(order[i], m)
  {
    seq(|order|, i requires 0 <= i < |order| => LookUp(order[i], m))
  }

  /** The sections a section leads to. */
  function Continuation(s: System, a: Action, order: seq<ConnId>): seq<Action> {
    match a
    case ReadSecret(c) => [LookUp(c, SecretPush(s.Current(), s.Version()))]
    case Snapshot(secret, version) => Sends(order, SecretPush(secret, version))
    case LookUp(c, m) => if LookedUp(s.reg, c).Record? then [Enqueue(LookedUp(s.reg, c).r, m)] else []
    case Enqueue(_, _) => []
  }

  /** What a section does to the registry; using a record that is not there panics. */
  function Effect(g: Registry<RecId>, a: Action): Registry<RecId> {
    match a
    case LookUp(c, _) => if LookedUp(g, c).NilRecord? then g.(panicked := true) else g
    case Enqueue(r, m) => if r in g.recs then Enqueued(g, r, m) else g.(panicked := true)
    case _ => g
  }

  function Written(s: System, r: RecId): System
    requires r in s.reg.recs && s.reg.recs[r].queue != [] && s.reg.recs[r].conn in s.links
  {
    var rec := s.reg.recs[r];
    var l := s.links[rec.conn];
    s.(reg := s.reg.(recs := s.reg.recs[r := rec.(queue := rec.queue[1..])]),
       links := if rec.conn in s.reg.shut then s.links else s.links[rec.conn := l.(inbox := l.inbox + [rec.queue[0]])])
  }

  function Received(k: Keys, m: Msg, ttl: nat, now: int): Keys {
    if m.SecretPush? then Pushed(k, m.secret, ttl, m.version, now) else k
  }

  function Next(s: System, e: Event): System
    requires Enabled(s, e) && s.reg.Closed()
  {
    match e
    case Rotate(secret) => Spawned(s.(secrets := s.secrets + [secret]), [Snapshot(secret, s.Version() + 1)])
    case Connect(c, keys) => s.(links := s.links[c := Link(true, [], [], {}, VersionReset(keys))])
    case Register(c, u) =>
      AfterRegister(s, c, Registered(s.reg, c, u, s.maxEdges, s.nextRec), OutcomeOf(s.reg, c, u, s.maxEdges))
    case Reject(c) => s.(reg := s.reg.(shut := s.reg.shut + {c}))
    case Unregister(c) => s.(reg := Unregistered(s.reg, c), links := s.links[c := s.links[c].(reading := false)])
    case NetworkFails(c) => s.(reg := s.reg.(shut := s.reg.shut + {c}))
    case QueryTopology(c) => AfterQuery(s, c)
    case Run(t, order) =>
      var a := s.threads[t][0];
      s.(reg := Effect(s.reg, a), threads := s.threads[t := Continuation(s, a, order) + s.threads[t][1..]])
    case WriteOut(r) => Written(s, r)
    case Deliver(c, now) =>
      var l := s.links[c];
      s.(links := s.links[c := l.(inbox := l.inbox[1..], received := l.received + [l.inbox[0]],
                                  keys := Received(l.keys, l.inbox[0], s.ttl, now))])
  }

  ghost predicate Reaches(from: System, events: seq<Event>, s: System)
    decreases |events|
  {
    if events == [] then s == from
    else Enabled(from, events[0]) && from.reg.Closed() && Reaches(Next(from, events[0]), events[1..], s)
  }

  lemma {:induction false} Append(a: System, xs: seq<Event>, b: System, e: Event) returns (c: System, events: seq<Event>)
    requires Reaches(a, xs, b) && b.reg.Closed() && Enabled(b, e)
    ensures c == Next(b, e) && events == xs + [e] && Reaches(a, events, c)
    decreases |xs|
  {
    c, events := Next(b, e), xs + [e];
    if xs == [] {
      assert events == [e] && events[1..] == [];
    } else {
      var c1, rest := Append(Next(a, xs[0]), xs[1..], b, e);
      assert events[1..] == rest;
    }
  }

  // ---------- Shape: what keeps the registry invariant applicable ----------

  /** Records belong to known connections, and a retired one to a connection that is closed or no longer read. */
  ghost predicate RecordsShaped(s: System) {
    forall r :: r in s.reg.recs ==>
      && r < s.nextRec && s.reg.recs[r].conn in s.links
      && (s.reg.recs[r].closed ==> s.reg.recs[r].conn in s.reg.shut || !Reading(s, s.reg.recs[r].conn))
  }

  /** Only connections still read from are mapped. */
  ghost predicate MappedAreRead(s: System) {
    forall c :: c in s.reg.uuidByConn ==> Reading(s, c)
  }

  ghost predicate ActionsShaped(g: Registry<RecId>, actions: seq<Action>) {
    forall a :: a in actions && a.Enqueue? ==> a.rec in g.recs
  }

  ghost predicate ThreadsShaped(s: System) {
    forall t :: t in s.threads ==> t < s.nextThread && ActionsShaped(s.reg, s.threads[t])
  }

  ghost predicate Shaped(s: System) {
    Inv(s.reg, s.maxEdges) && RecordsShaped(s) && MappedAreRead(s) && ThreadsShaped(s)
  }

  /** What no step takes away: records keep their connection and their unwritten messages, closed
      connections stay closed. */
  ghost predicate Extends(g: Registry<RecId>, h: Registry<RecId>) {
    && g.shut <= h.shut
    && forall r :: r in g.recs ==> r in h.recs && h.recs[r].conn == g.recs[r].conn && g.recs[r].queue <= h.recs[r].queue
  }

  lemma ReplacedExtends(g: Registry<RecId>, u: Uuid)
    requires g.Closed()
    ensures Extends(g, Replaced(g, u)) && Replaced(g, u).recs.Keys == g.recs.Keys
    ensures forall r :: r in g.recs && Replaced(g, u).recs[r].closed ==> g.recs[r].closed || g.recs[r].conn in Replaced(g, u).shut
    ensures Replaced(g, u).uuidByConn.Keys <= g.uuidByConn.Keys
  {
    if u in g.edges {
      assert Replaced(g, u).recs.Keys == g.recs.Keys + {g.edges[u]};
    }
  }

  /** What the locked section of handleRegister may change. */
  ghost predicate RegisterChange(g: Registry<RecId>, c: ConnId, u: Uuid, r: RecId, h: Registry<RecId>) {
    && Extends(g, h) && h.recs.Keys <= g.recs.Keys + {r}
    && (r in h.recs ==> h.recs[r] == Rec(u, c, [], false, 0))
    && (forall q :: q in g.recs && h.recs[q].closed ==> g.recs[q].closed || g.recs[q].conn in h.shut)
    && h.uuidByConn.Keys <= g.uuidByConn.Keys + {c}
  }

  lemma RegisteredExtends(g: Registry<RecId>, c: ConnId, u: Uuid, maxEdges: int, r: RecId)
    requires g.Closed() && r !in g.recs
    ensures RegisterChange(g, c, u, r, Registered(g, c, u, maxEdges, r))
  {
    if OutcomeOf(g, c, u, maxEdges).Stored? {
      StoringExtends(g, c, u, r);
    }
  }

  lemma StoringExtends(g: Registry<RecId>, c: ConnId, u: Uuid, r: RecId)
    requires g.Closed() && r !in g.recs
    ensures RegisterChange(g, c, u, r, WithRecord(Replaced(g, u), c, u, r))
  {
    ReplacedExtends(g, u);
  }

  /** What the locked section of handleRegister may have done, as far as the shape goes. */
  ghost predicate ShapedRegister(s: System, c: ConnId, h: Registry<RecId>) {
    && Inv(h, s.maxEdges) && Extends(s.reg, h)
    && h.recs.Keys <= s.reg.recs.Keys + {s.nextRec}
    && (s.nextRec in h.recs ==> h.recs[s.nextRec].conn == c && !h.recs[s.nextRec].closed)
    && (forall q :: q in s.reg.recs && h.recs[q].closed ==> s.reg.recs[q].closed || s.reg.recs[q].conn in h.shut)
    && h.uuidByConn.Keys <= s.reg.uuidByConn.Keys + {c}
  }

  lemma RegisterIsShaped(s: System, c: ConnId, u: Uuid)
    requires Shaped(s)
    ensures ShapedRegister(s, c, Registered(s.reg, c, u, s.maxEdges, s.nextRec))
  {
    assert s.nextRec !in s.reg.recs;
    RegisterKeepsInv(s.reg, c, u, s.maxEdges, s.nextRec);
    RegisteredExtends(s.reg, c, u, s.maxEdges, s.nextRec);
  }

  lemma SpawnKeepsShape(s: System, actions: seq<Action>)
    requires Shaped(s) && ActionsShaped(s.reg, actions)
    ensures Shaped(Spawned(s, actions))
  {
    var t := Spawned(s, actions);
    assert RecordsShaped(t) && MappedAreRead(t);
    assert forall th :: th in t.threads && th != s.nextThread ==> t.threads[th] == s.threads[th];
  }

  lemma ExtensionKeepsThreads(s: System, t: System)
    requires ThreadsShaped(s) && Extends(s.reg, t.reg) && t.threads == s.threads && t.nextThread == s.nextThread
    ensures ThreadsShaped(t)
  {
    forall th | th in t.threads ensures th < t.nextThread && ActionsShaped(t.reg, t.threads[th]) {
      assert ActionsShaped(s.reg, s.threads[th]);
    }
  }

  lemma RegisterKeepsRecords(s: System, c: ConnId, h: Registry<RecId>)
    requires RecordsShaped(s) && Reading(s, c) && ShapedRegister(s, c, h)
    ensures RecordsShaped(s.(reg := h, nextRec := s.nextRec + 1))
  {
    var t := s.(reg := h, nextRec := s.nextRec + 1);
    forall r | r in h.recs
      ensures r < t.nextRec && h.recs[r].conn in t.links
      ensures h.recs[r].closed ==> h.recs[r].conn in h.shut || !Reading(t, h.recs[r].conn)
    {
      if r != s.nextRec {
        assert r in s.reg.recs;
      }
    }
  }

  lemma StoreKeepsShape(s: System, c: ConnId, h: Registry<RecId>)
    requires Shaped(s) && Reading(s, c) && ShapedRegister(s, c, h)
    ensures Shaped(s.(reg := h, nextRec := s.nextRec + 1))
  {
    var t := s.(reg := h, nextRec := s.nextRec + 1);
    ExtensionKeepsThreads(s, t);
    RegisterKeepsRecords(s, c, h);
    assert MappedAreRead(t);
  }

  lemma OwingKeepsShape(s: System, c: ConnId, m: Msg)
    requires Shaped(s) && c in s.links
    ensures Shaped(Owing(s, c, m))
  {
    LinkKeepsShape(s, c, s.links[c].(owed := s.links[c].owed + {m}));
  }

  lemma AfterRegisterIsShaped(s: System, c: ConnId, h: Registry<RecId>, o: RegisterOutcome)
    requires Shaped(s) && Reading(s, c) && ShapedRegister(s, c, h)
    ensures Shaped(AfterRegister(s, c, h, o))
  {
    StoreKeepsShape(s, c, h);
    GreetingKeepsShape(s.(reg := h, nextRec := s.nextRec + 1), c);
  }

  lemma GreetingKeepsShape(s: System, c: ConnId)
    requires Shaped(s) && c in s.links
    ensures Shaped(Greeted(s, c))
  {
    OwingKeepsShape(s, c, RegisterAck(s.nextThread));
    SpawnKeepsShape(Owing(s, c, RegisterAck(s.nextThread)), Greeting(c, s.nextThread));
  }

  lemma QueryKeepsShape(s: System, c: ConnId)
    requires Shaped(s) && Enabled(s, QueryTopology(c))
    ensures Shaped(Next(s, QueryTopology(c)))
  {
    var answer := TopoResponse(s.nextThread);
    OwingKeepsShape(s, c, answer);
    SpawnKeepsShape(if c in s.reg.uuidByConn then Owing(s, c, answer) else s, [LookUp(c, answer)]);
  }

  lemma RegisterKeepsShape(s: System, c: ConnId, u: Uuid)
    requires Shaped(s) && Enabled(s, Register(c, u))
    ensures Shaped(Next(s, Register(c, u)))
  {
    RegisterIsShaped(s, c, u);
    AfterRegisterIsShaped(s, c, Registered(s.reg, c, u, s.maxEdges, s.nextRec), OutcomeOf(s.reg, c, u, s.maxEdges));
  }

  lemma UnregisteredRecords(g: Registry<RecId>, c: ConnId)
    requires g.Closed() && IndexSound(g)
    ensures var h := Unregistered(g, c);
            && Extends(g, h) && h.recs.Keys == g.recs.Keys
            && (forall q :: q in g.recs && h.recs[q].closed ==> g.recs[q].closed || g.recs[q].conn == c)
            && h.uuidByConn == g.uuidByConn - {c} && h.shut == g.shut
  {
    if c in g.uuidByConn {
      assert Unregistered(g, c).recs.Keys == g.recs.Keys + {g.edges[g.uuidByConn[c]]};
    } else {
      assert g.uuidByConn - {c} == g.uuidByConn;
    }
  }

  lemma UnregisterKeepsShape(s: System, c: ConnId)
    requires Shaped(s) && Enabled(s, Unregister(c))
    ensures Shaped(Next(s, Unregister(c)))
  {
    UnregisterKeepsInv(s.reg, c, s.maxEdges);
    UnregisteredRecords(s.reg, c);
    var t := Next(s, Unregister(c));
    assert forall th :: th in t.threads ==> ActionsShaped(s.reg, s.threads[th]);
  }

  lemma EnqueuedExtends(g: Registry<RecId>, r: RecId, m: Msg)
    requires r in g.recs
    ensures var h := Enqueued(g, r, m);
            && Extends(g, h) && h.recs.Keys == g.recs.Keys && h.uuidByConn == g.uuidByConn
            && forall q :: q in g.recs && h.recs[q].closed ==> g.recs[q].closed || g.recs[q].conn in h.shut
  {
    var rec := g.recs[r];
    assert Enqueued(g, r, m).recs.Keys == g.recs.Keys + {r};
    assert rec.queue <= rec.queue + [m];
  }

  lemma EffectKeepsInv(s: System, a: Action)
    requires Inv(s.reg, s.maxEdges) && ActionsShaped(s.reg, [a])
    ensures Inv(Effect(s.reg, a), s.maxEdges)
    ensures Extends(s.reg, Effect(s.reg, a)) && Effect(s.reg, a).recs.Keys == s.reg.recs.Keys
    ensures Effect(s.reg, a).uuidByConn == s.reg.uuidByConn
    ensures forall r :: r in s.reg.recs && Effect(s.reg, a).recs[r].closed ==>
              s.reg.recs[r].closed || s.reg.recs[r].conn in Effect(s.reg, a).shut
  {
    match a {
      case LookUp(c, _) => LookupsNeverMeetNil(s.reg, s.maxEdges, c, c);
      case Enqueue(r, m) =>
        assert a in [a];
        EnqueueKeepsInv(s.reg, r, m, s.maxEdges);
        EnqueuedExtends(s.reg, r, m);
      case _ =>
    }
  }

  lemma RunKeepsShape(s: System, t: ThreadId, order: seq<ConnId>)
    requires Shaped(s) && Enabled(s, Run(t, order))
    ensures Shaped(Next(s, Run(t, order)))
  {
    var a, n := s.threads[t][0], Next(s, Run(t, order));
    assert ActionsShaped(s.reg, s.threads[t]);
    EffectKeepsInv(s, a);
    forall th | th in n.threads ensures th < n.nextThread && ActionsShaped(n.reg, n.threads[th]) {
      assert ActionsShaped(s.reg, s.threads[th]);
    }
  }

  lemma WriteOutKeepsInv(s: System, r: RecId)
    requires Shaped(s) && Enabled(s, WriteOut(r))
    ensures Inv(Next(s, WriteOut(r)).reg, s.maxEdges)
  {
    var g, h := s.reg, Next(s, WriteOut(r)).reg;
    assert h.recs.Keys == g.recs.Keys + {r};
    assert forall q :: q in h.recs ==> h.recs[q] == g.recs[q].(queue := h.recs[q].queue);
    assert forall q :: q in h.recs ==> (InEdges(h, q) <==> InEdges(g, q));
  }

  lemma WriteOutKeepsShape(s: System, r: RecId)
    requires Shaped(s) && Enabled(s, WriteOut(r))
    ensures Shaped(Next(s, WriteOut(r)))
  {
    var n := Next(s, WriteOut(r));
    WriteOutKeepsInv(s, r);
    assert n.reg.recs.Keys == s.reg.recs.Keys + {r};
    assert n.links.Keys == s.links.Keys + {s.reg.recs[r].conn};
    assert forall c :: Reading(n, c) <==> Reading(s, c);
    assert forall t :: t in n.threads ==> ActionsShaped(s.reg, s.threads[t]);
  }

  lemma LinkKeepsShape(s: System, c: ConnId, l: Link)
    requires Shaped(s) && (c in s.links ==> l.reading == s.links[c].reading)
    ensures Shaped(s.(links := s.links[c := l]))
  {
    var n := s.(links := s.links[c := l]);
    assert forall d :: d in s.links ==> (Reading(n, d) <==> Reading(s, d));
    ExtensionKeepsThreads(s, n);
  }

  lemma ShutKeepsShape(s: System, c: ConnId)
    requires Shaped(s)
    ensures Shaped(s.(reg := s.reg.(shut := s.reg.shut + {c})))
  {
    var n := s.(reg := s.reg.(shut := s.reg.shut + {c}));
    assert forall r :: r in s.reg.recs ==> InEdges(n.reg, r) == InEdges(s.reg, r);
    assert forall d :: Reading(n, d) == Reading(s, d);
    ExtensionKeepsThreads(s, n);
  }

  lemma OtherStepKeepsShape(s: System, e: Event)
    requires Shaped(s) && Enabled(s, e) && !e.Register? && !e.Unregister? && !e.Run? && !e.WriteOut?
    ensures Shaped(Next(s, e))
  {
    match e {
      case Rotate(secret) => SpawnKeepsShape(s.(secrets := s.secrets + [secret]), [Snapshot(secret, s.Version() + 1)]);
      case QueryTopology(c) => QueryKeepsShape(s, c);
      case Connect(c, keys) => LinkKeepsShape(s, c, Next(s, e).links[c]);
      case Deliver(c, now) => LinkKeepsShape(s, c, Next(s, e).links[c]);
      case Reject(c) => ShutKeepsShape(s, c);
      case NetworkFails(c) => ShutKeepsShape(s, c);
      case _ =>
    }
  }

  lemma StepKeepsShape(s: System, e: Event)
    requires Shaped(s) && Enabled(s, e)
    ensures Shaped(Next(s, e))
  {
    match e {
      case Register(c, u) => RegisterKeepsShape(s, c, u);
      case Unregister(c) => UnregisterKeepsShape(s, c);
      case Run(t, order) => RunKeepsShape(s, t, order);
      case WriteOut(r) => WriteOutKeepsShape(s, r);
      case _ => OtherStepKeepsShape(s, e);
    }
  }

  lemma {:induction false} RunKeepsShaped(from: System, events: seq<Event>, s: System)
    requires Shaped(from) && Reaches(from, events, s)
    ensures Shaped(s)
    decreases |events|
  {
    if events != [] {
      StepKeepsShape(from, events[0]);
      RunKeepsShaped(Next(from, events[0]), events[1..], s);
    }
  }

  lemma StepKeepsLimits(from: System, events: seq<Event>, s: System)
    requires Reaches(from, events, s)
    ensures s.maxEdges == from.maxEdges && s.ttl == from.ttl
    decreases |events|
  {
    if events != [] {
      StepKeepsLimits(Next(from, events[0]), events[1..], s);
    }
  }
}
