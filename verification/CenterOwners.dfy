/** When the two maps of the Center are inverse to each other, and what happens when one connection registers
    two UUIDs (src/center/center.go). */
module CenterOwners {
  import opened CenterRegistry
  import opened CenterRuns
  import Auth

  /** Every registered edge is what its connection is mapped to: the converse of the index. */
  ghost predicate Converse(g: Registry<RecId>)
    requires g.Closed()
  {
    forall u :: u in g.edges ==> var c := g.recs[g.edges[u]].conn; c in g.uuidByConn && g.uuidByConn[c] == u
  }

  /** The registration stores a record for a connection that is mapped to another UUID. */
  predicate SecondUuid(g: Registry<RecId>, c: ConnId, u: Uuid, maxEdges: int)
    requires g.Closed()
  {
    OutcomeOf(g, c, u, maxEdges).Stored? && c in g.uuidByConn && g.uuidByConn[c] != u
  }

  /** The locked section of handleRegister keeps the converse exactly when it does not give a mapped
      connection a second UUID. */
  lemma RegisterKeepsConverseExactly(g: Registry<RecId>, c: ConnId, u: Uuid, maxEdges: int, r: RecId)
    requires CenterRegistry.Inv(g, maxEdges) && Converse(g) && r !in g.recs
    ensures Registered(g, c, u, maxEdges, r).Closed()
    ensures Converse(Registered(g, c, u, maxEdges, r)) <==> !SecondUuid(g, c, u, maxEdges)
  {
    RegisterKeepsInv(g, c, u, maxEdges, r);
    if OutcomeOf(g, c, u, maxEdges).Stored? {
      var h := Replaced(g, u);
      ReplacedExtends(g, u);
      var t := WithRecord(h, c, u, r);
      if SecondUuid(g, c, u, maxEdges) {
        var v := g.uuidByConn[c];
        assert v in t.edges && t.edges[v] == g.edges[v] && t.recs[t.edges[v]].conn == c && t.uuidByConn[c] == u;
      } else {
        forall v | v in t.edges ensures var d := t.recs[t.edges[v]].conn; d in t.uuidByConn && t.uuidByConn[d] == v {
          if v != u {
            assert t.edges[v] == g.edges[v];
          }
        }
      }
    }
  }

  /** Each connection registers at most one UUID, the one `owner` names. */
  ghost predicate OneUuidEach(events: seq<Event>, owner: ConnId -> Uuid) {
    forall i :: 0 <= i < |events| && events[i].Register? ==> owner(events[i].conn) == events[i].uuid
  }

  ghost predicate MappedToOwner(g: Registry<RecId>, owner: ConnId -> Uuid) {
    forall c :: c in g.uuidByConn ==> g.uuidByConn[c] == owner(c)
  }

  ghost predicate SameMaps(g: Registry<RecId>, h: Registry<RecId>) {
    && h.edges == g.edges && h.uuidByConn == g.uuidByConn
    && forall r :: r in g.recs ==> r in h.recs && h.recs[r].conn == g.recs[r].conn
  }

  lemma OtherStepsKeepMaps(s: System, e: Event)
    requires Shaped(s) && Enabled(s, e) && !e.Register? && !e.Unregister?
    ensures SameMaps(s.reg, Next(s, e).reg)
  {
    if e.Run? {
      EffectKeepsMaps(s.reg, s.threads[e.thread][0]);
    }
  }

  lemma EffectKeepsMaps(g: Registry<RecId>, a: Action)
    ensures SameMaps(g, Effect(g, a))
  {
  }

  lemma StepKeepsConverse(s: System, e: Event, owner: ConnId -> Uuid)
    requires Shaped(s) && Enabled(s, e) && Converse(s.reg) && MappedToOwner(s.reg, owner)
    requires e.Register? ==> owner(e.conn) == e.uuid
    ensures Next(s, e).reg.Closed() && Converse(Next(s, e).reg) && MappedToOwner(Next(s, e).reg, owner)
  {
    match e {
      case Register(c, u) =>
        assert s.nextRec !in s.reg.recs;
        RegisterKeepsConverseExactly(s.reg, c, u, s.maxEdges, s.nextRec);
      case Unregister(c) => UnregisterKeepsConverse(s.reg, c, s.maxEdges, owner);
      case _ =>
        OtherStepsKeepMaps(s, e);
        SameMapsKeepConverse(s.reg, Next(s, e).reg, owner);
    }
  }

  lemma UnregisterKeepsConverse(g: Registry<RecId>, c: ConnId, maxEdges: int, owner: ConnId -> Uuid)
    requires CenterRegistry.Inv(g, maxEdges) && Converse(g) && MappedToOwner(g, owner)
    ensures Unregistered(g, c).Closed() && Converse(Unregistered(g, c)) && MappedToOwner(Unregistered(g, c), owner)
  {
    UnregisterKeepsInv(g, c, maxEdges);
    UnregisteredRecords(g, c);
  }

  lemma SameMapsKeepConverse(g: Registry<RecId>, h: Registry<RecId>, owner: ConnId -> Uuid)
    requires g.Closed() && Converse(g) && MappedToOwner(g, owner) && SameMaps(g, h)
    ensures h.Closed() && Converse(h) && MappedToOwner(h, owner)
  {
    forall u | u in h.edges
      ensures h.edges[u] in h.recs && (var c := h.recs[h.edges[u]].conn; c in h.uuidByConn && h.uuidByConn[c] == u)
    {
      assert g.edges[u] in g.recs;
    }
  }

  lemma {:induction false} RunKeepsConverse(from: System, events: seq<Event>, s: System, owner: ConnId -> Uuid)
    requires Shaped(from) && Converse(from.reg) && MappedToOwner(from.reg, owner)
    requires Reaches(from, events, s) && OneUuidEach(events, owner)
    ensures s.reg.Closed() && Converse(s.reg)
    decreases |events|
  {
    if events != [] {
      StepKeepsShape(from, events[0]);
      StepKeepsConverse(from, events[0], owner);
      RunKeepsConverse(Next(from, events[0]), events[1..], s, owner);
    }
  }

  /** On every run where no connection registers two UUIDs the maps are inverse to each other, so unregistering
      by connection removes exactly that connection's edge. */
  lemma MapsAreInverse(maxEdges: int, ttl: nat, events: seq<Event>, s: System, owner: ConnId -> Uuid)
    requires Reaches(Init(maxEdges, ttl), events, s) && OneUuidEach(events, owner)
    ensures s.reg.Closed()
    ensures forall u, c :: u in s.reg.edges && s.reg.recs[s.reg.edges[u]].conn == c
              <==> c in s.reg.uuidByConn && s.reg.uuidByConn[c] == u
  {
    RunKeepsConverse(Init(maxEdges, ttl), events, s, owner);
    RunKeepsShaped(Init(maxEdges, ttl), events, s);
  }

  /** One connection that registers two UUIDs leaves the first one behind: after its read loop has ended no
      connection is mapped any more, yet the first edge is still registered and occupies capacity, until its
      UUID registers again. */
  lemma TwoUuidsLeaveAnEdgeBehind(ttl: nat, keys: Auth.Keys) returns (events: seq<Event>, s: System)
    ensures Reaches(Init(8, ttl), events, s) && s.reg.Closed()
    ensures s.reg.edges.Keys == {"a"} && s.reg.uuidByConn == map[] && !Reading(s, 1)
  {
    s, events := TwoEdgeRun(ttl, keys);
    s, events := Append(Init(8, ttl), events, s, Unregister(1));
  }

  lemma TwoEdgeRun(ttl: nat, keys: Auth.Keys) returns (s: System, events: seq<Event>)
    ensures Reaches(Init(8, ttl), events, s) && s.reg == SecondEdge() && Reading(s, 1)
  {
    s, events := OneEdgeRun(ttl, keys);
    s, events := Append(Init(8, ttl), events, s, Register(1, "b"));
  }

  lemma OneEdgeRun(ttl: nat, keys: Auth.Keys) returns (s: System, events: seq<Event>)
    ensures Reaches(Init(8, ttl), events, s) && s.reg == FirstEdge() && Reading(s, 1) && s.nextRec == 1 && s.maxEdges == 8
  {
    var s0 := Init(8, ttl);
    s, events := Append(s0, [], s0, Connect(1, keys));
    s, events := Append(s0, events, s, Register(1, "a"));
    assert s.reg.edges == FirstEdge().edges && s.reg.uuidByConn == FirstEdge().uuidByConn && s.reg.recs == FirstEdge().recs;
  }

  function FirstEdge(): Registry<RecId> {
    Registry(map["a" := 0], map[1 := "a"], map[0 := Rec("a", 1, [], false, 0)], {}, false)
  }

  function SecondEdge(): Registry<RecId> {
    Registry(map["a" := 0, "b" := 1], map[1 := "b"], map[0 := Rec("a", 1, [], false, 0), 1 := Rec("b", 1, [], false, 0)], {}, false)
  }

}
