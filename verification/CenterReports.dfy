/** What edges report to the Center: client records, FAKE-IP latencies and Server Agent records
    (src/center/center.go). */
module CenterReports {
  import opened Common

  type Uuid = string

  // ---------- Client records ----------

  const MAX_CLIENT_INFOS := 1000

  datatype ClientInfo = ClientInfo(ip: string, version: string, timestamp: int)

  // ---------- FAKE-IP latencies ----------

  const MAX_FAKE_RTTS_PER_REPORT := 1024
  const MAX_FAKE_RTT_KEYS := 4096
  const MAX_REPORTED_RTT_MS := 600_000

  type Ip = string

  /** One latency entry; `isIp` says whether the trimmed text is an address. */
  datatype RttEntry = RttEntry(ip: Ip, isIp: bool, rttMs: int)

  predicate IsLinkStatus(status: string) {
    status == "stable" || status == "unstable"
  }

  predicate PlausibleRtt(ms: int) {
    0 <= ms <= MAX_REPORTED_RTT_MS
  }

  predicate AcceptableReport(rttMs: int, entries: seq<RttEntry>) {
    && PlausibleRtt(rttMs)
    && |entries| <= MAX_FAKE_RTTS_PER_REPORT
    && forall i :: 0 <= i < |entries| ==> entries[i].isIp && PlausibleRtt(entries[i].rttMs)
  }

  /** A report is dropped whole for one implausible latency, one entry that is no address, or too many entries. */
  lemma AcceptableExactly(rttMs: int, entries: seq<RttEntry>)
    ensures AcceptableReport(rttMs, entries) <==>
            && 0 <= rttMs <= 600_000 && |entries| <= 1024
            && forall e :: e in entries ==> e.isIp && 0 <= e.rttMs <= 600_000
  {
    assert forall i :: 0 <= i < |entries| ==> entries[i] in entries;
  }

  /** One entry: a known key takes the value, a new one only below the cap. */
  function Stored(m: map<Ip, int>, e: RttEntry): map<Ip, int> {
    if e.ip !in m && |m| >= MAX_FAKE_RTT_KEYS then m else m[e.ip := e.rttMs]
  }

  function StoredAll(m: map<Ip, int>, entries: seq<RttEntry>): map<Ip, int> {
    if entries == [] then m else Stored(StoredAll(m, entries[..|entries| - 1]), entries[|entries| - 1])
  }

  predicate Mentions(entries: seq<RttEntry>, ip: Ip) {
    exists i :: 0 <= i < |entries| && entries[i].ip == ip
  }

  /** The last value reported for an address. */
  function Latest(entries: seq<RttEntry>, ip: Ip): int
    requires Mentions(entries, ip)
  {
    var last := entries[|entries| - 1];
    if last.ip == ip then last.rttMs else Latest(entries[..|entries| - 1], ip)
  }

  /** The latest value comes from the last entry for its address. */
  lemma {:induction false} LatestAt(entries: seq<RttEntry>, ip: Ip) returns (i: nat)
    requires Mentions(entries, ip)
    ensures i < |entries| && entries[i].ip == ip && entries[i].rttMs == Latest(entries, ip)
    ensures forall j :: i < j < |entries| ==> entries[j].ip != ip
  {
    i := |entries| - 1;
    if entries[i].ip != ip {
      i := LatestAt(entries[..i], ip);
    }
  }

  /** The values a table holds after a report, without the order in which entries were stored: a stored key
      has the latest value reported for it, or the one it had before. */
  ghost predicate HoldsLatest(before: map<Ip, int>, entries: seq<RttEntry>, r: map<Ip, int>) {
    forall ip :: ip in r ==>
      if Mentions(entries, ip) then r[ip] == Latest(entries, ip) else ip in before && r[ip] == before[ip]
  }

  ghost predicate DropsOnlyWhenFull(entries: seq<RttEntry>, r: map<Ip, int>) {
    forall i :: 0 <= i < |entries| && entries[i].ip !in r ==> |r| == MAX_FAKE_RTT_KEYS
  }

  lemma {:induction false} StoredAllIsLatest(m: map<Ip, int>, entries: seq<RttEntry>)
    requires |m| <= MAX_FAKE_RTT_KEYS
    ensures |m| <= |StoredAll(m, entries)| <= MAX_FAKE_RTT_KEYS
    ensures m.Keys <= StoredAll(m, entries).Keys
    ensures HoldsLatest(m, entries, StoredAll(m, entries))
    ensures DropsOnlyWhenFull(entries, StoredAll(m, entries))
  {
    if entries != [] {
      var n := |entries| - 1;
      StoredAllIsLatest(m, entries[..n]);
      StoredSize(StoredAll(m, entries[..n]), entries[n]);
      OneMoreEntry(m, entries[..n], StoredAll(m, entries[..n]), entries[n]);
      assert entries[..n] + [entries[n]] == entries;
    }
  }

  lemma OneMoreEntry(m: map<Ip, int>, entries: seq<RttEntry>, r: map<Ip, int>, e: RttEntry)
    requires HoldsLatest(m, entries, r) && DropsOnlyWhenFull(entries, r) && |r| <= MAX_FAKE_RTT_KEYS
    ensures HoldsLatest(m, entries + [e], Stored(r, e)) && DropsOnlyWhenFull(entries + [e], Stored(r, e))
  {
    var all, after := entries + [e], Stored(r, e);
    assert all[..|entries|] == entries && all[|entries|] == e;
    StoredSize(r, e);
    forall ip | ip in after
      ensures if Mentions(all, ip) then after[ip] == Latest(all, ip) else ip in m && after[ip] == m[ip]
    {
      MentionsOneMore(entries, e, ip);
    }
  }

  lemma MentionsOneMore(entries: seq<RttEntry>, e: RttEntry, ip: Ip)
    ensures Mentions(entries + [e], ip) <==> Mentions(entries, ip) || e.ip == ip
    ensures Mentions(entries, ip) && e.ip != ip ==> Latest(entries + [e], ip) == Latest(entries, ip)
  {
    var all := entries + [e];
    assert all[..|entries|] == entries && all[|entries|] == e;
    assert forall i :: 0 <= i < |entries| ==> all[i] == entries[i];
  }

  lemma StoredSize(m: map<Ip, int>, e: RttEntry)
    requires |m| <= MAX_FAKE_RTT_KEYS
    ensures |m| <= |Stored(m, e)| <= MAX_FAKE_RTT_KEYS && m.Keys <= Stored(m, e).Keys
  {
    assert m[e.ip := e.rttMs].Keys == m.Keys + {e.ip};
    assert |m.Keys + {e.ip}| == |m.Keys| + if e.ip in m then 0 else 1;
    assert |m[e.ip := e.rttMs]| == |m[e.ip := e.rttMs].Keys| && |m| == |m.Keys|;
  }

  ghost predicate PlausibleTable(m: map<Ip, int>) {
    forall ip :: ip in m ==> 0 <= m[ip] <= 600_000
  }

  lemma {:induction false} StoredStaysPlausible(m: map<Ip, int>, entries: seq<RttEntry>)
    requires PlausibleTable(m) && forall i :: 0 <= i < |entries| ==> PlausibleRtt(entries[i].rttMs)
    ensures PlausibleTable(StoredAll(m, entries))
  {
    if entries != [] {
      StoredStaysPlausible(m, entries[..|entries| - 1]);
    }
  }

  /** The check loop of handleRTTReport. */
  method CheckEntries(entries: seq<RttEntry>) returns (ok: bool)
    ensures ok <==> forall i :: 0 <= i < |entries| ==> entries[i].isIp && PlausibleRtt(entries[i].rttMs)
  {
    for i := 0 to |entries|
      invariant forall k :: 0 <= k < i ==> entries[k].isIp && PlausibleRtt(entries[k].rttMs)
    {
      if !entries[i].isIp || entries[i].rttMs < 0 || entries[i].rttMs > MAX_REPORTED_RTT_MS {
        return false;
      }
    }
    return true;
  }

  /** The store loop of handleRTTReport. */
  method StoreEntries(m: map<Ip, int>, entries: seq<RttEntry>) returns (r: map<Ip, int>, droppedKeys: nat)
    ensures r == StoredAll(m, entries)
    ensures droppedKeys == 0 ==> forall i :: 0 <= i < |entries| ==> entries[i].ip in r
  {
    r, droppedKeys := m, 0;
    for i := 0 to |entries|
      invariant r == StoredAll(m, entries[..i])
      invariant droppedKeys == 0 ==> forall k :: 0 <= k < i ==> entries[k].ip in r
    {
      var e := entries[i];
      assert entries[..i + 1][..i] == entries[..i];
      if e.ip !in r && |r| >= MAX_FAKE_RTT_KEYS {
        droppedKeys := droppedKeys + 1;
      } else {
        r := r[e.ip := e.rttMs];
      }
    }
    assert entries[..|entries|] == entries;
  }

  /** The delete loop of handleFakeUpdate, in any map order. */
  method KeepListed(m: map<Ip, int>, items: seq<Ip>) returns (r: map<Ip, int>)
    ensures r == map ip | ip in m && ip in items :: m[ip]
    ensures |r| <= |m|
  {
    r := m;
    var todo := m.Keys;
    while todo != {}
      invariant todo <= r.Keys <= m.Keys
      invariant forall ip :: ip in r ==> r[ip] == m[ip]
      invariant forall ip :: ip in m && ip !in todo ==> (ip in r <==> ip in items)
      decreases todo
    {
      var ip :| ip in todo;
      todo := todo - {ip};
      if ip !in items {
        r := r - {ip};
      }
    }
    SubsetSize(r.Keys, m.Keys);
  }

  /** The report state of one record. */
  class EdgeReports {
    var rttToOriginMs: int
    var linkStatus: string
    var fakeRTTs: map<Ip, int>
    var fakeItems: seq<Ip>
    var clientInfos: seq<ClientInfo>
    ghost var reported: seq<ClientInfo>

    /** The client list is always the tail of everything reported to this record, the latencies stay within their
        cap, and what is stored is plausible. */
    ghost predicate Valid()
      reads this
    {
      && clientInfos == LastOf(reported, 1000)
      && |fakeRTTs| <= 4096 && PlausibleTable(fakeRTTs)
      && 0 <= rttToOriginMs <= 600_000 && linkStatus in {"", "stable", "unstable"}
    }

    constructor ()
      ensures Valid() && reported == [] && fakeRTTs == map[] && clientInfos == []
    {
      rttToOriginMs, linkStatus, fakeRTTs, fakeItems, clientInfos, reported := 0, "", map[], [], [], [];
    }

    /** The client part of handleVersionReport, which a setting switches off. */
    method AddClients(collectClientInfo: bool, batch: seq<ClientInfo>)
      requires Valid()
      modifies `clientInfos, `reported
      ensures Valid() && reported == old(reported) + if collectClientInfo then batch else []
    {
      LastOfAppend(reported, batch, MAX_CLIENT_INFOS);
      if collectClientInfo && |batch| > 0 {
        clientInfos := clientInfos + batch;
        if |clientInfos| > MAX_CLIENT_INFOS {
          clientInfos := clientInfos[|clientInfos| - MAX_CLIENT_INFOS..];
        }
      }
      if collectClientInfo {
        reported := reported + batch;
      } else {
        assert reported + [] == reported;
      }
    }

    /** handleRTTReport: a report with one implausible value is dropped whole; otherwise every key that is
        stored takes the latest value reported for it, and a key is left out only while the table is full. */
    method HandleRTTReport(rttMs: int, status: string, entries: seq<RttEntry>) returns (droppedKeys: nat)
      requires Valid()
      modifies `rttToOriginMs, `linkStatus, `fakeRTTs
      ensures Valid()
      ensures !AcceptableReport(rttMs, entries) ==>
                rttToOriginMs == old(rttToOriginMs) && linkStatus == old(linkStatus) && fakeRTTs == old(fakeRTTs)
      ensures AcceptableReport(rttMs, entries) ==>
                && rttToOriginMs == rttMs
                && linkStatus == (if IsLinkStatus(status) then status else old(linkStatus))
                && fakeRTTs == StoredAll(old(fakeRTTs), entries)
                && HoldsLatest(old(fakeRTTs), entries, fakeRTTs)
                && DropsOnlyWhenFull(entries, fakeRTTs)
                && (droppedKeys == 0 ==> forall i :: 0 <= i < |entries| ==> entries[i].ip in fakeRTTs)
    {
      droppedKeys := 0;
      if rttMs < 0 || rttMs > MAX_REPORTED_RTT_MS || |entries| > MAX_FAKE_RTTS_PER_REPORT {
        return;
      }
      var ok := CheckEntries(entries);
      if !ok {
        return;
      }
      rttToOriginMs := rttMs;
      if IsLinkStatus(status) {
        linkStatus := status;
      }
      StoredAllIsLatest(fakeRTTs, entries);
      StoredStaysPlausible(fakeRTTs, entries);
      fakeRTTs, droppedKeys := StoreEntries(fakeRTTs, entries);
    }

    /** What a repeated registration on the same connection does to the report state: the list is replaced, and
        every latency is forgotten. */
    method RefreshRegistration(items: seq<Ip>)
      requires Valid()
      modifies `fakeItems, `fakeRTTs
      ensures Valid() && fakeItems == items && fakeRTTs == map[]
    {
      fakeItems := items;
      fakeRTTs := map[];
    }

    /** handleFakeUpdate: exactly the latencies of addresses no longer listed are forgotten. */
    method HandleFakeUpdate(items: seq<Ip>)
      requires Valid()
      modifies `fakeItems, `fakeRTTs
      ensures Valid() && fakeItems == items
      ensures fakeRTTs == map ip | ip in old(fakeRTTs) && ip in items :: old(fakeRTTs)[ip]
    {
      fakeItems := items;
      fakeRTTs := KeepListed(fakeRTTs, items);
    }
  }

  /** Trimming after every batch is the same as trimming once, after all of them. */
  lemma LastOfAppend<T>(all: seq<T>, batch: seq<T>, cap: nat)
    ensures LastOf(LastOf(all, cap) + batch, cap) == LastOf(all + batch, cap)
    ensures batch == [] ==> LastOf(all, cap) + batch == LastOf(all, cap) == LastOf(all + batch, cap)
  {
    assert LastOf(all, cap) + batch == (all + batch)[|all| - |LastOf(all, cap)|..];
    if batch == [] {
      assert all + batch == all;
    }
  }

  // ---------- Server Agent records ----------

  datatype ServerInfo = ServerInfo(uuid: string, ip: string, version: string)

  datatype ServerRecord = ServerRecord(ip: string, version: string, updatedAt: int, edges: seq<Uuid>)

  type Servers = map<string, ServerRecord>

  function Without(s: seq<Uuid>, x: Uuid): (r: seq<Uuid>)
    ensures |r| <= |s| && x !in r
    ensures forall y :: y in r <==> y in s && y != x
  {
    if s == [] then []
    else if s[|s| - 1] == x then Without(s[..|s| - 1], x)
    else Without(s[..|s| - 1], x) + [s[|s| - 1]]
  }

  function Reported(servers: Servers, info: ServerInfo, edge: Uuid, now: int): Servers {
    var edges := if info.uuid in servers then servers[info.uuid].edges else [];
    servers[info.uuid := ServerRecord(info.ip, info.version, now, if edge in edges then edges else edges + [edge])]
  }

  function Removed(servers: Servers, edge: Uuid): Servers {
    map k | k in servers && Without(servers[k].edges, edge) != [] ::
      servers[k].(edges := Without(servers[k].edges, edge))
  }

  /** The other entries keep their order and their number. */
  lemma {:induction false} WithoutOfConcat(a: seq<Uuid>, b: seq<Uuid>, x: Uuid)
    ensures Without(a + b, x) == Without(a, x) + Without(b, x)
    ensures |b| == 1 ==> Without(b, x) == if b[0] == x then [] else b
  {
    if b == [] {
      assert a + b == a;
    } else {
      var n := |b| - 1;
      assert (a + b)[..|a| + n] == a + b[..n] && b == b[..n] + [b[n]];
      WithoutOfConcat(a, b[..n], x);
      if b[n] != x {
        SeqAssoc(Without(a, x), Without(b[..n], x), [b[n]]);
      }
    }
  }

  /** A report keeps the edges listed before in their order, adds its own at the end unless it is listed, takes the
      reported fields, and leaves every other record alone. */
  lemma ReportAddsItsEdge(servers: Servers, info: ServerInfo, edge: Uuid, now: int)
    ensures var r := Reported(servers, info, edge, now);
            && r.Keys == servers.Keys + {info.uuid} && (forall k :: k in servers && k != info.uuid ==> r[k] == servers[k])
            && r[info.uuid].ip == info.ip && r[info.uuid].version == info.version && r[info.uuid].updatedAt == now
            && (info.uuid !in servers ==> r[info.uuid].edges == [edge])
            && (info.uuid in servers && edge in servers[info.uuid].edges ==> r[info.uuid].edges == servers[info.uuid].edges)
            && (info.uuid in servers && edge !in servers[info.uuid].edges ==> r[info.uuid].edges == servers[info.uuid].edges + [edge])
  {
  }

  /** Compaction in place, writing behind the reading position: the kept prefix is the order-preserving
      filter of the original list. */
  method CompactInPlace(list: array<Uuid>, x: Uuid) returns (kept: nat)
    modifies list
    ensures kept <= list.Length && list[..kept] == Without(old(list[..]), x)
  {
    kept := 0;
    for i := 0 to list.Length
      invariant kept <= i
      invariant list[..kept] == Without(old(list[..])[..i], x)
      invariant forall k :: i <= k < list.Length ==> list[k] == old(list[k])
    {
      var uuid := list[i];
      assert old(list[..])[..i + 1][..i] == old(list[..])[..i];
      if uuid != x {
        list[kept] := uuid;
        kept := kept + 1;
        assert list[..kept] == list[..kept - 1] + [uuid];
      }
    }
    assert old(list[..])[..list.Length] == old(list[..]);
  }

  /** The list of one record, compacted in its own array. */
  method Compacted(edges: seq<Uuid>, edge: Uuid) returns (left: seq<Uuid>)
    ensures left == Without(edges, edge)
  {
    var list := new Uuid[|edges|](i requires 0 <= i < |edges| => edges[i]);
    assert list[..] == edges;
    var kept := CompactInPlace(list, edge);
    left := list[..kept];
  }

  method DropFromAll(servers: Servers, edge: Uuid) returns (r: Servers)
    ensures r == Removed(servers, edge)
  {
    r := servers;
    var todo := servers.Keys;
    while todo != {}
      invariant todo <= r.Keys <= servers.Keys
      invariant forall k :: k in todo ==> r[k] == servers[k]
      invariant forall k :: k in servers && k !in todo ==> (k in r <==> k in Removed(servers, edge))
      invariant forall k :: k in r && k !in todo ==> r[k] == Removed(servers, edge)[k]
      decreases todo
    {
      var k :| k in todo;
      todo := todo - {k};
      var left := Compacted(r[k].edges, edge);
      if |left| == 0 {
        r := r - {k};
      } else {
        r := r[k := r[k].(edges := left)];
      }
    }
    assert r.Keys == Removed(servers, edge).Keys;
  }

  /** containsString. */
  method ContainsString(s: seq<string>, target: string) returns (found: bool)
    ensures found <==> target in s
  {
    for i := 0 to |s|
      invariant target !in s[..i]
    {
      if s[i] == target {
        return true;
      }
    }
    assert s[..|s|] == s;
    return false;
  }

  /** The table of Server Agents. */
  class ServerTable {
    var records: Servers

    constructor ()
      ensures records == map[]
    {
      records := map[];
    }

    /** The server part of handleVersionReport. */
    method Report(info: ServerInfo, edge: Uuid, now: int)
      modifies this
      ensures records == if info.uuid == "" then old(records) else Reported(old(records), info, edge, now)
    {
      if info.uuid != "" {
        var sr := if info.uuid in records then records[info.uuid] else ServerRecord("", "", 0, []);
        sr := sr.(ip := info.ip, version := info.version, updatedAt := now);
        var known := ContainsString(sr.edges, edge);
        if !known {
          sr := sr.(edges := sr.edges + [edge]);
        }
        records := records[info.uuid := sr];
      }
    }

    /** removeEdgeFromServerRecords. */
    method RemoveEdge(edge: Uuid)
      modifies this
      ensures records == Removed(old(records), edge)
    {
      records := DropFromAll(records, edge);
    }
  }

  ghost predicate NoDuplicates(s: seq<Uuid>) {
    forall i, j :: 0 <= i < j < |s| ==> s[i] != s[j]
  }

  ghost predicate NamesOnly(servers: Servers, registered: set<Uuid>) {
    forall k :: k in servers ==> forall u :: u in servers[k].edges ==> u in registered
  }

  /** Every record lists at least one edge and none twice. */
  ghost predicate WellListed(servers: Servers) {
    forall k :: k in servers ==> servers[k].edges != [] && NoDuplicates(servers[k].edges)
  }

  type ConnId = nat

  /** Who is registered on which connection, the reports that have looked their edge up and not applied it yet,
      and the records. The handlers of one connection run one after the other. */
  datatype Center = Center(
    owner: map<Uuid, ConnId>,
    mapped: map<ConnId, Uuid>,
    looking: map<ConnId, Uuid>,
    servers: Servers
  )

  datatype Step =
    | Register(conn: ConnId, edge: Uuid)                   // locked section of handleRegister
    | Unregister(conn: ConnId)                             // unregisterByConn
    | LookUp(conn: ConnId)                                 // first section of handleVersionReport
    | Apply(conn: ConnId, info: ServerInfo, now: int)      // its second section

  predicate Enabled(s: Center, e: Step) {
    match e
    case Register(c, _) => c !in s.looking
    case Unregister(c) => c !in s.looking
    case LookUp(c) => c !in s.looking && c in s.mapped && s.mapped[c] in s.owner
    case Apply(c, _, _) => c in s.looking
  }

  function Next(s: Center, e: Step): Center
    requires Enabled(s, e)
  {
    match e
    case Register(c, u) =>
      if u in s.owner && s.owner[u] == c then s
      else
        var rest := if u in s.owner then s.mapped - {s.owner[u]} else s.mapped;
        s.(owner := s.owner[u := c], mapped := rest[c := u])
    case Unregister(c) =>
      if c !in s.mapped then s
      else
        var u := s.mapped[c];
        s.(owner := s.owner - {u}, mapped := s.mapped - {c}, servers := Removed(s.servers, u))
    case LookUp(c) => s.(looking := s.looking[c := s.mapped[c]])
    case Apply(c, info, now) =>
      s.(looking := s.looking - {c},
         servers := if info.uuid == "" then s.servers else Reported(s.servers, info, s.looking[c], now))
  }

  ghost predicate Reaches(from: Center, steps: seq<Step>, s: Center)
    decreases |steps|
  {
    if steps == [] then s == from else Enabled(from, steps[0]) && Reaches(Next(from, steps[0]), steps[1..], s)
  }

  /** A mapped connection is the one its edge is registered on, and one that looks its edge up stays mapped to
      that edge or is replaced. */
  ghost predicate MapsSound(s: Center) {
    && (forall c :: c in s.mapped ==> s.mapped[c] in s.owner && s.owner[s.mapped[c]] == c)
    && (forall c :: c in s.looking && c in s.mapped ==> s.mapped[c] == s.looking[c])
  }

  ghost predicate Exact(s: Center) {
    MapsSound(s) && WellListed(s.servers) && NamesOnly(s.servers, s.owner.Keys)
  }

  /** Every report is applied while the edge it has looked up is registered. */
  ghost predicate ReportsInTime(from: Center, steps: seq<Step>)
    decreases |steps|
  {
    steps == [] ||
    (&& Enabled(from, steps[0])
     && (steps[0].Apply? ==> from.looking[steps[0].conn] in from.owner)
     && ReportsInTime(Next(from, steps[0]), steps[1..]))
  }

  lemma {:induction false} WithoutKeepsDistinct(s: seq<Uuid>, x: Uuid)
    requires NoDuplicates(s)
    ensures NoDuplicates(Without(s, x))
  {
    if s != [] {
      WithoutKeepsDistinct(s[..|s| - 1], x);
      if s[|s| - 1] != x {
        assert s[|s| - 1] !in s[..|s| - 1];
      }
    }
  }

  /** A report keeps the records naming only registered edges exactly when its edge is still registered as
      it is applied. */
  lemma ReportKeepsNamesExactly(registered: set<Uuid>, servers: Servers, info: ServerInfo, edge: Uuid, now: int)
    requires NamesOnly(servers, registered)
    ensures NamesOnly(Reported(servers, info, edge, now), registered) <==> edge in registered
  {
    var r := Reported(servers, info, edge, now);
    assert edge in r[info.uuid].edges;
  }

  /** A connection that has not been replaced since its report looked it up is such a case. */
  lemma UnreplacedReportIsInTime(s: Center, c: ConnId)
    requires MapsSound(s) && c in s.looking && c in s.mapped
    ensures s.looking[c] in s.owner
  {
  }

  lemma StepKeepsMaps(s: Center, e: Step)
    requires MapsSound(s) && Enabled(s, e)
    ensures MapsSound(Next(s, e))
  {
  }

  lemma StepKeepsLists(s: Center, e: Step)
    requires WellListed(s.servers) && Enabled(s, e)
    ensures WellListed(Next(s, e).servers)
  {
    if e.Unregister? && e.conn in s.mapped {
      forall k | k in s.servers ensures NoDuplicates(Without(s.servers[k].edges, s.mapped[e.conn])) {
        WithoutKeepsDistinct(s.servers[k].edges, s.mapped[e.conn]);
      }
    }
  }

  /** Every step keeps the records exact, a report with a server if and only if its edge is still registered. */
  lemma StepKeepsServersExactly(s: Center, e: Step)
    requires Exact(s) && Enabled(s, e)
    ensures Exact(Next(s, e)) <==> (e.Apply? && e.info.uuid != "" ==> s.looking[e.conn] in s.owner)
  {
    StepKeepsMaps(s, e);
    StepKeepsLists(s, e);
    if e.Apply? && e.info.uuid != "" {
      ReportKeepsNamesExactly(s.owner.Keys, s.servers, e.info, s.looking[e.conn], e.now);
    }
  }

  lemma {:induction false} RunKeepsServers(from: Center, steps: seq<Step>, s: Center)
    requires Exact(from) && ReportsInTime(from, steps) && Reaches(from, steps, s)
    ensures Exact(s)
    decreases |steps|
  {
    if steps != [] {
      StepKeepsServersExactly(from, steps[0]);
      RunKeepsServers(Next(from, steps[0]), steps[1..], s);
    }
  }

  /** The record of server `k` lists edge `u`. */
  predicate Lists(s: Center, k: string, u: Uuid) {
    k in s.servers && u in s.servers[k].edges
  }

  predicate Reports(s: Center, e: Step, k: string, u: Uuid) {
    e.Apply? && e.info.uuid == k && k != "" && e.conn in s.looking && s.looking[e.conn] == u
  }

  predicate Takes(s: Center, e: Step, u: Uuid) {
    e.Unregister? && e.conn in s.mapped && s.mapped[e.conn] == u
  }

  ghost predicate NeverTaken(from: Center, steps: seq<Step>, u: Uuid)
    decreases |steps|
  {
    steps == [] || (Enabled(from, steps[0]) && !Takes(from, steps[0], u) && NeverTaken(Next(from, steps[0]), steps[1..], u))
  }

  /** Some report of `u` for `k` is applied, and after it `u` is not unregistered any more. */
  ghost predicate ReportedForGood(from: Center, steps: seq<Step>, k: string, u: Uuid)
    decreases |steps|
  {
    && steps != [] && Enabled(from, steps[0])
    && (|| (Reports(from, steps[0], k, u) && NeverTaken(Next(from, steps[0]), steps[1..], u))
        || ReportedForGood(Next(from, steps[0]), steps[1..], k, u))
  }

  lemma StepListsExactly(s: Center, e: Step, k: string, u: Uuid)
    requires Enabled(s, e)
    ensures Lists(Next(s, e), k, u) <==> Reports(s, e, k, u) || (Lists(s, k, u) && !Takes(s, e, u))
  {
    if e.Apply? {
      ReportAddsItsEdge(s.servers, e.info, s.looking[e.conn], e.now);
    }
  }

  lemma {:induction false} RunListsExactly(from: Center, steps: seq<Step>, s: Center, k: string, u: Uuid)
    requires Reaches(from, steps, s)
    ensures Lists(s, k, u) <==> ReportedForGood(from, steps, k, u) || (Lists(from, k, u) && NeverTaken(from, steps, u))
    decreases |steps|
  {
    if steps != [] {
      StepListsExactly(from, steps[0], k, u);
      RunListsExactly(Next(from, steps[0]), steps[1..], s, k, u);
    }
  }

  const NO_EDGES := Center(map[], map[], map[], map[])

  /** Over every run in which each report is applied while its edge is registered, server records are non-empty,
      duplicate-free and name only registered edges. */
  lemma ServerRecordsStayExact(steps: seq<Step>, s: Center)
    requires ReportsInTime(NO_EDGES, steps) && Reaches(NO_EDGES, steps, s)
    ensures WellListed(s.servers) && NamesOnly(s.servers, s.owner.Keys)
  {
    RunKeepsServers(NO_EDGES, steps, s);
  }

  /** Over every run, in time or not, a record lists exactly the edges that have reported its server and have not
      been unregistered since. */
  lemma RecordsListReporters(steps: seq<Step>, s: Center, k: string, u: Uuid)
    requires Reaches(NO_EDGES, steps, s)
    ensures k in s.servers && u in s.servers[k].edges <==> ReportedForGood(NO_EDGES, steps, k, u)
  {
    RunListsExactly(NO_EDGES, steps, s, k, u);
  }

  /** A replacement can get in between: another connection registers the UUID and disconnects after a report has
      looked it up, and the report names an edge that is gone. */
  lemma ReplacedReportNamesAGoneEdge(info: ServerInfo) returns (steps: seq<Step>, s: Center)
    requires info.uuid != ""
    ensures Reaches(NO_EDGES, steps, s)
    ensures s.owner == map[] && info.uuid in s.servers && "a" in s.servers[info.uuid].edges
  {
    var s1 := Next(NO_EDGES, Register(1, "a"));
    var s2 := Next(s1, LookUp(1));
    var s3 := Next(s2, Register(2, "a"));
    assert s2.mapped == map[1 := "a"] && s2.owner == map["a" := 1] && s2.looking == map[1 := "a"];
    assert s3.mapped == map[2 := "a"] && s3.owner == map["a" := 2];
    var s4 := Next(s3, Unregister(2));
    s := Next(s4, Apply(1, info, 0));
    assert Reaches(s4, [Apply(1, info, 0)], s);
    ReachesFrom(s3, Unregister(2), [Apply(1, info, 0)], s);
    ReachesFrom(s2, Register(2, "a"), [Unregister(2), Apply(1, info, 0)], s);
    ReachesFrom(s1, LookUp(1), [Register(2, "a"), Unregister(2), Apply(1, info, 0)], s);
    steps := [Register(1, "a")] + [LookUp(1), Register(2, "a"), Unregister(2), Apply(1, info, 0)];
    ReachesFrom(NO_EDGES, Register(1, "a"), steps[1..], s);
  }

  lemma ReachesFrom(from: Center, e: Step, rest: seq<Step>, s: Center)
    requires Enabled(from, e) && Reaches(Next(from, e), rest, s)
    ensures Reaches(from, [e] + rest, s)
  {
    assert ([e] + rest)[1..] == rest;
  }
}
