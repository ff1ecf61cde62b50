/** The Center's registry of edges and their write queues, one critical section at a time
    (src/center/center.go). */
module CenterRegistry {
  import opened Auth

  const WRITE_QUEUE_CAPACITY := 256
  const DEFAULT_MAX_EDGES := 1024

  type Uuid = string
  type ConnId = nat

  /** Answers carry the number of the request they answer, so that they can be told apart. */
  datatype Msg = RegisterAck(request: nat) | TopoResponse(request: nat) | SecretPush(secret: Secret, version: nat)

  /** What concurrency can see of an EdgeRecord: its connection, its write queue, the retired flag, and how
      often the queue has been closed. */
  datatype Rec = Rec(uuid: Uuid, conn: ConnId, queue: seq<Msg>, closed: bool, closes: nat)

  /** The two maps, all records ever created, and the connections closed so far. `R` is the identity of a
      record. `panicked` records what would stop the process: a second close of a queue, a send on a closed
      queue, or the use of a record that is not there. */
  datatype Registry<R> = Registry(
    edges: map<Uuid, R>,
    uuidByConn: map<ConnId, Uuid>,
    recs: map<R, Rec>,
    shut: set<ConnId>,
    panicked: bool
  ) {
    /** Every registered edge has a record. */
    predicate Closed() {
      forall u :: u in edges ==> edges[u] in recs
    }
  }

  function Empty<R>(): Registry<R> {
    Registry(map[], map[], map[], {}, false)
  }

  function EffectiveMax(maxEdges: int): nat {
    if maxEdges <= 0 then DEFAULT_MAX_EDGES else maxEdges
  }

  /** Marks a record closed and closes its queue. */
  function Retired<R>(g: Registry<R>, r: R): Registry<R>
    requires r in g.recs
  {
    var rec := g.recs[r];
    g.(recs := g.recs[r := rec.(closed := true, closes := rec.closes + 1)], panicked := g.panicked || rec.closes > 0)
  }

  datatype RegisterOutcome = Reused | Stored | CapacityReached

  function OutcomeOf<R>(g: Registry<R>, c: ConnId, u: Uuid, maxEdges: int): RegisterOutcome
    requires g.Closed()
  {
    if u in g.edges then
      if g.recs[g.edges[u]].conn == c then Reused else Stored
    else if |g.edges| >= EffectiveMax(maxEdges) then CapacityReached
    else Stored
  }

  /** The record that already holds `u` leaves: its connection is unmapped and closed, its queue closed. */
  function Replaced<R>(g: Registry<R>, u: Uuid): Registry<R>
    requires g.Closed()
  {
    if u !in g.edges then g
    else
      var previous := g.edges[u];
      var c := g.recs[previous].conn;
      Retired(g.(uuidByConn := g.uuidByConn - {c}, shut := g.shut + {c}), previous)
  }

  /** The locked section of handleRegister for a new record `r`; the connection of a refused edge is closed. */
  function Registered<R>(g: Registry<R>, c: ConnId, u: Uuid, maxEdges: int, r: R): Registry<R>
    requires g.Closed()
  {
    match OutcomeOf(g, c, u, maxEdges)
    case Reused => g
    case CapacityReached => g.(shut := g.shut + {c})
    case Stored => WithRecord(Replaced(g, u), c, u, r)
  }

  function WithRecord<R>(g: Registry<R>, c: ConnId, u: Uuid, r: R): Registry<R> {
    g.(edges := g.edges[u := r], uuidByConn := g.uuidByConn[c := u], recs := g.recs[r := Rec(u, c, [], false, 0)])
  }

  function Unregistered<R>(g: Registry<R>, c: ConnId): Registry<R>
    requires g.Closed()
  {
    if c !in g.uuidByConn then g
    else
      var u := g.uuidByConn[c];
      var h := if u in g.edges then Retired(g, g.edges[u]) else g;
      h.(edges := h.edges - {u}, uuidByConn := h.uuidByConn - {c})
  }

  datatype Found<R> = NotMapped | NilRecord | Record(r: R)

  /** The first section of sendMsg. */
  function LookedUp<R>(g: Registry<R>, c: ConnId): Found<R> {
    if c !in g.uuidByConn then NotMapped
    else if g.uuidByConn[c] !in g.edges then NilRecord
    else Record(g.edges[g.uuidByConn[c]])
  }

  /** The second section of sendMsg, under the lock of the record. */
  function Enqueued<R>(g: Registry<R>, r: R, m: Msg): Registry<R>
    requires r in g.recs
  {
    var rec := g.recs[r];
    if rec.closed then g
    else if rec.closes > 0 then g.(panicked := true)
    else if |rec.queue| < WRITE_QUEUE_CAPACITY then g.(recs := g.recs[r := rec.(queue := rec.queue + [m])])
    else g.(recs := g.recs[r := rec.(closed := true)], shut := g.shut + {rec.conn})
  }

  // ---------- The server object ----------

  class EdgeRecord {
    const uuid: Uuid
    const conn: ConnId
    var writeCh: seq<Msg>
    var closed: bool
    var closes: nat

    constructor (uuid: Uuid, conn: ConnId)
      ensures View() == Rec(uuid, conn, [], false, 0)
    {
      this.uuid, this.conn, writeCh, closed, closes := uuid, conn, [], false, 0;
    }

    ghost function View(): Rec
      reads this
    {
      Rec(uuid, conn, writeCh, closed, closes)
    }
  }

  class CenterServer {
    const maxEdges: int
    var edges: map<Uuid, EdgeRecord>
    var uuidByConn: map<ConnId, Uuid>
    var shut: set<ConnId>
    var panicked: bool
    ghost var records: set<EdgeRecord>

    var currentSecret: Secret
    var secretVersion: nat

    ghost predicate Valid()
      reads this
    {
      forall u :: u in edges ==> edges[u] in records
    }

    /** The abstract registry; records are identified by their references. */
    ghost function View(): Registry<EdgeRecord>
      reads this, records
    {
      Registry(edges, uuidByConn, map r | r in records :: r.View(), shut, panicked)
    }

    constructor (maxEdges: int)
      ensures Valid() && fresh(records) && View() == Empty()
      ensures this.maxEdges == maxEdges && currentSecret == [] && secretVersion == 0
    {
      this.maxEdges := maxEdges;
      edges, uuidByConn, shut, panicked, records := map[], map[], {}, false, {};
      currentSecret, secretVersion := [], 0;
    }

    /** When one record changes, the abstract registry changes at that record. */
    twostate lemma OnlyRecordChanged(rec: EdgeRecord)
      requires rec in records && records == old(records) && unchanged(records - {rec})
      ensures View().recs == old(View()).recs[rec := rec.View()]
    {
    }

    method Retire(rec: EdgeRecord)
      requires Valid() && rec in records
      modifies rec, `panicked
      ensures Valid() && View() == Retired(old(View()), rec)
    {
      if rec.closes > 0 {
        panicked := true;
      }
      rec.closed := true;
      rec.closes := rec.closes + 1;
      OnlyRecordChanged(rec);
    }

    method Store(record: EdgeRecord)
      requires Valid() && record !in records && record.View() == Rec(record.uuid, record.conn, [], false, 0)
      modifies `edges, `uuidByConn, `records
      ensures Valid() && records == old(records) + {record}
      ensures View() == WithRecord(old(View()), record.conn, record.uuid, record)
    {
      edges := edges[record.uuid := record];
      uuidByConn := uuidByConn[record.conn := record.uuid];
      records := records + {record};
    }

    method ReplaceExisting(uuid: Uuid)
      requires Valid() && uuid in edges
      modifies `uuidByConn, `shut, `panicked, edges[uuid]
      ensures Valid() && View() == Replaced(old(View()), uuid)
    {
      var previous := edges[uuid];
      uuidByConn := uuidByConn - {previous.conn};
      shut := shut + {previous.conn};
      Retire(previous);
    }

    /** A record is created in every case, and joins the registry only when it is stored. */
    method RegisterLocked(conn: ConnId, uuid: Uuid) returns (o: RegisterOutcome, record: EdgeRecord)
      requires Valid()
      modifies this, records
      ensures Valid() && fresh(record)
      ensures o == OutcomeOf(old(View()), conn, uuid, maxEdges)
      ensures records == old(records) + if o.Stored? then {record} else {}
      ensures View() == Registered(old(View()), conn, uuid, maxEdges, record)
    {
      record := new EdgeRecord(uuid, conn);
      if uuid in edges {
        if edges[uuid].conn == conn {
          return Reused, record;
        }
        ReplaceExisting(uuid);
      } else if |edges| >= EffectiveMax(maxEdges) {
        shut := shut + {conn};
        return CapacityReached, record;
      }
      Store(record);
      o := Stored;
    }

    method UnregisterByConn(conn: ConnId)
      requires Valid()
      modifies this, records
      ensures Valid() && records == old(records)
      ensures View() == Unregistered(old(View()), conn)
    {
      if conn in uuidByConn {
        var uuid := uuidByConn[conn];
        if uuid in edges {
          Retire(edges[uuid]);
        }
        edges := edges - {uuid};
        uuidByConn := uuidByConn - {conn};
      }
    }

    method LookUp(conn: ConnId) returns (rec: EdgeRecord?, mapped: bool)
      requires Valid()
      ensures match LookedUp(View(), conn)
              case NotMapped => !mapped && rec == null
              case NilRecord => mapped && rec == null
              case Record(r) => mapped && rec == r && rec in records
    {
      if conn !in uuidByConn {
        return null, false;
      }
      mapped := true;
      rec := if uuidByConn[conn] in edges then edges[uuidByConn[conn]] else null;
    }

    method Enqueue(rec: EdgeRecord, m: Msg)
      requires Valid() && rec in records
      modifies rec, `shut, `panicked
      ensures Valid() && View() == Enqueued(old(View()), rec, m)
    {
      if rec.closed {
        return;
      }
      if rec.closes > 0 {
        panicked := true;
      } else if |rec.writeCh| < WRITE_QUEUE_CAPACITY {
        rec.writeCh := rec.writeCh + [m];
        OnlyRecordChanged(rec);
      } else {
        rec.closed := true;
        shut := shut + {rec.conn};
        OnlyRecordChanged(rec);
      }
    }

    /** The locked section of rotateSecret. */
    method BumpVersion(secret: Secret) returns (version: nat)
      modifies `currentSecret, `secretVersion
      ensures version == secretVersion == old(secretVersion) + 1 && currentSecret == secret
    {
      currentSecret := secret;
      secretVersion := secretVersion + 1;
      version := secretVersion;
    }

    /** The locked section of broadcastSecret: the connections of all records, in arbitrary order. */
    method SnapshotConns() returns (conns: seq<ConnId>)
      requires Valid()
      ensures IsConnList(View(), conns)
    {
      conns := ConnsOf(edges, View());
    }
  }

  /** The loop over the records, in arbitrary order. */
  method ConnsOf(edges: map<Uuid, EdgeRecord>, ghost g: Registry<EdgeRecord>) returns (conns: seq<ConnId>)
    requires g.Closed() && g.edges == edges && forall u :: u in edges ==> g.recs[edges[u]].conn == edges[u].conn
    ensures IsConnList(g, conns)
  {
    conns := [];
    var todo := edges.Keys;
    while todo != {}
      invariant todo <= edges.Keys && ListedSoFar(g, conns, todo)
      decreases todo
    {
      var u :| u in todo;
      ListOne(g, conns, todo, u);
      todo := todo - {u};
      conns := conns + [edges[u].conn];
    }
    AllListed(g, conns);
  }

  /** Each connection has as many entries as it has records outside `todo`. */
  ghost predicate ListedSoFar<R>(g: Registry<R>, conns: seq<ConnId>, todo: set<Uuid>) {
    && |conns| + |todo| == |g.edges|
    && forall c :: multiset(conns)[c] + |todo * RecordsOf(g, c)| == |RecordsOf(g, c)|
  }

  lemma AllListed<R>(g: Registry<R>, conns: seq<ConnId>)
    requires ListedSoFar(g, conns, {}) && g.Closed()
    ensures IsConnList(g, conns)
  {
    assert forall c :: {} * RecordsOf(g, c) == {};
  }

  lemma ListOne<R>(g: Registry<R>, conns: seq<ConnId>, todo: set<Uuid>, u: Uuid)
    requires ListedSoFar(g, conns, todo) && u in todo && u in g.edges && g.edges[u] in g.recs
    ensures ListedSoFar(g, conns + [g.recs[g.edges[u]].conn], todo - {u})
  {
    forall c ensures multiset(conns + [g.recs[g.edges[u]].conn])[c] + |(todo - {u}) * RecordsOf(g, c)| == |RecordsOf(g, c)| {
      OneLess(todo, RecordsOf(g, c), u);
      assert multiset(conns)[c] + |todo * RecordsOf(g, c)| == |RecordsOf(g, c)|;
    }
  }

  lemma OneLess(todo: set<Uuid>, some: set<Uuid>, u: Uuid)
    requires u in todo
    ensures |(todo - {u}) * some| == |todo * some| - if u in some then 1 else 0
  {
    assert (todo - {u}) * some == todo * some - {u};
  }

  /** The UUIDs registered with records of a connection. */
  ghost function RecordsOf<R>(g: Registry<R>, c: ConnId): set<Uuid> {
    set u | u in g.edges && g.edges[u] in g.recs && g.recs[g.edges[u]].conn == c
  }

  /** The connections of all registered records, in some order: each appears once for every record it has. */
  ghost predicate IsConnList<R>(g: Registry<R>, conns: seq<ConnId>) {
    && g.Closed() && |conns| == |g.edges|
    && forall c :: multiset(conns)[c] == |RecordsOf(g, c)|
  }

  lemma RegisteredIsListed<R>(g: Registry<R>, conns: seq<ConnId>, u: Uuid)
    requires IsConnList(g, conns) && u in g.edges
    ensures g.recs[g.edges[u]].conn in conns
  {
    var c := g.recs[g.edges[u]].conn;
    assert u in RecordsOf(g, c);
    assert multiset(conns)[c] > 0;
  }

  // ---------- The registry invariant ----------

  predicate InEdges<R(==)>(g: Registry<R>, r: R)
    requires r in g.recs
  {
    g.recs[r].uuid in g.edges && g.edges[g.recs[r].uuid] == r
  }

  /** Every edge is registered under the UUID of its record. */
  ghost predicate EdgesNamed<R>(g: Registry<R>) {
    g.Closed() && forall u :: u in g.edges ==> g.recs[g.edges[u]].uuid == u
  }

  /** Every mapped connection names a registered edge, with a record of that same connection. */
  ghost predicate IndexSound<R>(g: Registry<R>)
    requires g.Closed()
  {
    forall c :: c in g.uuidByConn ==> g.uuidByConn[c] in g.edges && g.recs[g.edges[g.uuidByConn[c]]].conn == c
  }

  /** A record in `edges` has an open queue; one that has left had its queue closed exactly once. */
  ghost predicate ClosedOnLeaving<R>(g: Registry<R>) {
    forall r :: r in g.recs ==> if InEdges(g, r) then g.recs[r].closes == 0 else g.recs[r].closes == 1 && g.recs[r].closed
  }

  ghost predicate Inv<R>(g: Registry<R>, maxEdges: int) {
    && EdgesNamed(g)
    && IndexSound(g)
    && ClosedOnLeaving(g)
    && !g.panicked
    && |g.edges| <= EffectiveMax(maxEdges)
  }

  /** What replacing the record of `u` leaves for the new one: the old one is closed and no connection is
      mapped to `u`. */
  ghost predicate ReadyFor<R>(g: Registry<R>, u: Uuid) {
    && EdgesNamed(g) && IndexSound(g) && !g.panicked
    && (forall c :: c in g.uuidByConn ==> g.uuidByConn[c] != u)
    && (forall r :: r in g.recs ==>
          if InEdges(g, r) && g.recs[r].uuid != u then g.recs[r].closes == 0 else g.recs[r].closes == 1 && g.recs[r].closed)
  }

  lemma ReplaceMakesReady<R>(g: Registry<R>, u: Uuid, maxEdges: int)
    requires Inv(g, maxEdges)
    ensures ReadyFor(Replaced(g, u), u) && Replaced(g, u).edges == g.edges && Replaced(g, u).recs.Keys == g.recs.Keys
  {
    var t := Replaced(g, u);
    if u in g.edges {
      assert t.recs.Keys == g.recs.Keys + {g.edges[u]};
    }
  }

  lemma RecordKeepsNames<R>(g: Registry<R>, c: ConnId, u: Uuid, r: R)
    requires EdgesNamed(g) && r !in g.recs
    ensures EdgesNamed(WithRecord(g, c, u, r))
  {
  }

  lemma RecordKeepsIndex<R>(g: Registry<R>, c: ConnId, u: Uuid, r: R)
    requires EdgesNamed(g) && IndexSound(g) && r !in g.recs && forall d :: d in g.uuidByConn ==> g.uuidByConn[d] != u
    ensures WithRecord(g, c, u, r).Closed() && IndexSound(WithRecord(g, c, u, r))
  {
    var t := WithRecord(g, c, u, r);
    RecordKeepsNames(g, c, u, r);
    forall d | d in t.uuidByConn && d != c
      ensures t.uuidByConn[d] in t.edges && t.recs[t.edges[t.uuidByConn[d]]].conn == d
    {
      assert g.uuidByConn[d] in g.edges && g.edges[g.uuidByConn[d]] in g.recs;
    }
  }

  lemma RecordClosesOnce<R>(g: Registry<R>, c: ConnId, u: Uuid, r: R)
    requires ReadyFor(g, u) && r !in g.recs
    ensures ClosedOnLeaving(WithRecord(g, c, u, r))
  {
    var t := WithRecord(g, c, u, r);
    forall s | s in t.recs && s != r
      ensures if InEdges(t, s) then t.recs[s].closes == 0 else t.recs[s].closes == 1 && t.recs[s].closed
    {
      assert t.recs[s] == g.recs[s];
      assert InEdges(t, s) <==> InEdges(g, s) && g.recs[s].uuid != u;
    }
  }

  lemma RegisterKeepsInv<R>(g: Registry<R>, c: ConnId, u: Uuid, maxEdges: int, r: R)
    requires Inv(g, maxEdges) && r !in g.recs
    ensures Inv(Registered(g, c, u, maxEdges, r), maxEdges)
  {
    if OutcomeOf(g, c, u, maxEdges).Stored? {
      var h := Replaced(g, u);
      ReplaceMakesReady(g, u, maxEdges);
      RecordKeepsNames(h, c, u, r);
      RecordKeepsIndex(h, c, u, r);
      RecordClosesOnce(h, c, u, r);
      AddedEdgeCount(h.edges, u, r);
    }
  }

  lemma AddedEdgeCount<R>(m: map<Uuid, R>, u: Uuid, r: R)
    ensures |m[u := r]| == |m| + if u in m then 0 else 1
  {
    assert m[u := r].Keys == m.Keys + {u};
    assert |m[u := r]| == |m[u := r].Keys| && |m| == |m.Keys|;
  }

  lemma UnregisterKeepsInv<R>(g: Registry<R>, c: ConnId, maxEdges: int)
    requires Inv(g, maxEdges)
    ensures Inv(Unregistered(g, c), maxEdges)
  {
    if c in g.uuidByConn {
      var t := Unregistered(g, c);
      var u := g.uuidByConn[c];
      assert t.edges.Keys == g.edges.Keys - {u};
      assert |t.edges| == |t.edges.Keys| && |g.edges| == |g.edges.Keys|;
      assert |g.edges.Keys - {u}| == |g.edges.Keys| - 1;
    }
  }

  lemma EnqueueKeepsInv<R>(g: Registry<R>, r: R, m: Msg, maxEdges: int)
    requires Inv(g, maxEdges) && r in g.recs
    ensures Inv(Enqueued(g, r, m), maxEdges)
  {
  }

  /** sendMsg never meets a nil record, finds the record of the UUID its connection is mapped to, and the index
      from connections to edges is injective. */
  lemma LookupsNeverMeetNil<R>(g: Registry<R>, maxEdges: int, c: ConnId, d: ConnId)
    requires Inv(g, maxEdges)
    ensures !LookedUp(g, c).NilRecord?
    ensures LookedUp(g, c).Record? <==> c in g.uuidByConn
    ensures LookedUp(g, c).Record? ==>
              var r := LookedUp(g, c).r; r in g.recs && g.recs[r].conn == c && g.recs[r].uuid == g.uuidByConn[c]
    ensures c in g.uuidByConn && d in g.uuidByConn && g.uuidByConn[c] == g.uuidByConn[d] ==> c == d
  {
  }

  // ---------- What each operation does, field by field ----------

  /** The registry changed only at the record `r`, and perhaps closed the connection `c`. */
  ghost predicate OnlyRecord<R>(g: Registry<R>, h: Registry<R>, r: R) {
    && h.edges == g.edges && h.uuidByConn == g.uuidByConn && h.panicked == g.panicked
    && h.recs.Keys == g.recs.Keys && forall q :: q in g.recs && q != r ==> h.recs[q] == g.recs[q]
  }

  /** A message to an open record with room joins its queue behind all others; a closed record drops it; a full
      one drops it too, is marked closed and has its connection closed, and keeps its queue for the writer. */
  lemma MessagesAreQueued<R>(g: Registry<R>, r: R, m: Msg, maxEdges: int)
    requires Inv(g, maxEdges) && r in g.recs
    ensures var h, rec := Enqueued(g, r, m), g.recs[r];
            && OnlyRecord(g, h, r)
            && (rec.closed ==> h == g)
            && (!rec.closed && |rec.queue| < 256 ==>
                  h.recs[r] == Rec(rec.uuid, rec.conn, rec.queue + [m], false, rec.closes) && h.shut == g.shut)
            && (!rec.closed && |rec.queue| >= 256 ==>
                  h.recs[r] == Rec(rec.uuid, rec.conn, rec.queue, true, rec.closes) && h.shut == g.shut + {rec.conn})
  {
    assert Enqueued(g, r, m).recs.Keys == g.recs.Keys + {r};
  }

  /** A UUID that comes back on another connection takes its registration over, whatever the capacity: the old
      connection is unmapped and closed, the old queue closed once, and nobody else notices. */
  lemma ReconnectTakesOver<R>(g: Registry<R>, c: ConnId, u: Uuid, maxEdges: int, r: R)
    requires Inv(g, maxEdges) && r !in g.recs && u in g.edges && g.recs[g.edges[u]].conn != c
    ensures var h, before, left := Registered(g, c, u, maxEdges, r), g.edges[u], g.recs[g.edges[u]].conn;
            && OutcomeOf(g, c, u, maxEdges) == Stored
            && h.edges == g.edges[u := r] && h.uuidByConn == (g.uuidByConn - {left})[c := u]
            && h.shut == g.shut + {left} && !h.panicked
            && h.recs.Keys == g.recs.Keys + {r} && h.recs[r] == Rec(u, c, [], false, 0)
            && h.recs[before] == Rec(u, left, g.recs[before].queue, true, 1)
            && forall q :: q in g.recs && q != before ==> h.recs[q] == g.recs[q]
  {
    ReplaceMakesReady(g, u, maxEdges);
  }

  /** A UUID that is not registered is stored exactly while fewer edges are than MaxEdges, or than 1024 when that
      is not positive; otherwise its connection is closed and nothing else happens. */
  lemma NewUuidNeedsRoom<R>(g: Registry<R>, c: ConnId, u: Uuid, maxEdges: int, r: R)
    requires Inv(g, maxEdges) && r !in g.recs && u !in g.edges
    ensures var h, room := Registered(g, c, u, maxEdges, r), |g.edges| < (if maxEdges <= 0 then 1024 else maxEdges);
            && OutcomeOf(g, c, u, maxEdges) == (if room then Stored else CapacityReached)
            && (room ==> h == Registry(g.edges[u := r], g.uuidByConn[c := u], g.recs[r := Rec(u, c, [], false, 0)], g.shut, false))
            && (!room ==> h == Registry(g.edges, g.uuidByConn, g.recs, g.shut + {c}, false))
  {
  }

  /** Repeating a registration on its own connection keeps record, queue and maps. */
  lemma RepeatKeepsRegistration<R>(g: Registry<R>, c: ConnId, u: Uuid, maxEdges: int, r: R)
    requires Inv(g, maxEdges) && u in g.edges && g.recs[g.edges[u]].conn == c
    ensures OutcomeOf(g, c, u, maxEdges) == Reused && Registered(g, c, u, maxEdges, r) == g
  {
  }

  /** Unregistering a connection removes its mapping and its edge and closes the queue of that edge; an unmapped
      connection changes nothing. */
  lemma UnregisterRemovesItsEdge<R>(g: Registry<R>, c: ConnId, maxEdges: int)
    requires Inv(g, maxEdges)
    ensures c !in g.uuidByConn ==> Unregistered(g, c) == g
    ensures c in g.uuidByConn ==>
              var h, u := Unregistered(g, c), g.uuidByConn[c]; var r := g.edges[u];
              && h.edges == g.edges - {u} && h.uuidByConn == g.uuidByConn - {c} && h.shut == g.shut && !h.panicked
              && h.recs.Keys == g.recs.Keys && h.recs[r] == Rec(u, c, g.recs[r].queue, true, 1)
              && forall q :: q in g.recs && q != r ==> h.recs[q] == g.recs[q]
  {
    if c in g.uuidByConn {
      assert Unregistered(g, c).recs.Keys == g.recs.Keys + {g.edges[g.uuidByConn[c]]};
    }
  }
}
