/** Route selection during bootstrap (src/edge/bootstrap.go): every node's items are merged under one-time
    codes, measured by the client, decoded, and the least total wins. The reference it is proved against
    knows no codes: a direct minimum over (node, item) pairs. */
module RouteSelection {
  import opened Common
  import opened Addresses
  import opened Shuffle

  // ---------- Topology (src/protocol/message.go) ----------

  datatype Item = Item(ip: string, proto: string, port: int, weight: real,
                       rttFallbackMs: int, rttMs: int, isReal: bool)

  /** `items` is None for a topology cached without the field. */
  datatype Node = Node(uuid: string, ip: string, probePort: int, items: Option<seq<Item>>,
                       rttToOriginMs: int, bwStatus: string)

  /** Items of a node; only an old cache entry gets one made up. */
  function EffectiveItems(n: Node): seq<Item> {
    match n.items
    case Some(items) => items
    case None =>
      if n.ip != "" && n.probePort > 0 then [Item(n.ip, "udp", n.probePort, 1.0, 0, 0, true)] else []
  }

  /** A node with a list is probed at exactly the items on it, be there none; one cached without a list at its own
      address, by one real item of weight one, if it has an address and a port. */
  lemma ItemsOfNode(n: Node, i: Item)
    ensures n.items.Some? ==> EffectiveItems(n) == n.items.value
    ensures n.items.None? ==>
              |EffectiveItems(n)| <= 1
              && (i in EffectiveItems(n) <==> n.ip != "" && n.probePort > 0 && i == Item(n.ip, "udp", n.probePort, 1.0, 0, 0, true))
  {
  }

  function EffectiveRtt(i: Item): int {
    if i.rttMs > 0 then i.rttMs else i.rttFallbackMs
  }

  datatype Pair = Pair(node: Node, item: Item)

  type Key = string

  /** How an item's address, port and protocol become the key it is merged under. The selection is proved
      for every such function; the source uses ItemKey. */
  type Keying = (string, int, string) -> Key

  function KeyOf(key: Keying, i: Item): Key {
    key(i.ip, i.port, i.proto)
  }

  function PairsOf(n: Node, items: seq<Item>): (r: seq<Pair>)
    ensures |r| == |items| && forall i :: 0 <= i < |r| ==> r[i] == Pair(n, items[i])
  {
    if items == [] then [] else PairsOf(n, items[..|items| - 1]) + [Pair(n, items[|items| - 1])]
  }

  /** Every node with each of its items. */
  function Pairs(topo: seq<Node>): seq<Pair> {
    if topo == [] then []
    else Pairs(topo[..|topo| - 1]) + PairsOf(topo[|topo| - 1], EffectiveItems(topo[|topo| - 1]))
  }

  lemma {:induction false} PairComesFromTopology(topo: seq<Node>, p: Pair)
    ensures p in Pairs(topo) <==> exists i :: 0 <= i < |topo| && topo[i] == p.node && p.item in EffectiveItems(p.node)
  {
    if topo != [] {
      var n := |topo| - 1;
      PairComesFromTopology(topo[..n], p);
      assert forall i :: 0 <= i < n ==> topo[..n][i] == topo[i];
    }
  }

  // ---------- What the client sees ----------

  type Code = nat

  datatype ProbeItem = ProbeItem(code: Code, ip: string, proto: string, port: int)

  function ProbeKey(key: Keying, p: ProbeItem): Key {
    key(p.ip, p.port, p.proto)
  }

  // ---------- Merging under codes ----------

  datatype Table = Table(codeByKey: map<Key, Code>, codeByItem: map<Code, seq<Pair>>, probeItems: seq<ProbeItem>)

  function WithKey(key: Keying, pairs: seq<Pair>, k: Key): (r: seq<Pair>)
    ensures forall p :: p in r <==> p in pairs && KeyOf(key, p.item) == k
  {
    if pairs == [] then []
    else
      var rest, p := WithKey(key, pairs[..|pairs| - 1], k), pairs[|pairs| - 1];
      if KeyOf(key, p.item) == k then rest + [p] else rest
  }

  /** The pairs with a key keep their order. */
  lemma {:induction false} WithKeyOfConcat(key: Keying, a: seq<Pair>, b: seq<Pair>, k: Key)
    ensures WithKey(key, a + b, k) == WithKey(key, a, k) + WithKey(key, b, k)
  {
    if b == [] {
      assert a + b == a;
    } else {
      var n := |b| - 1;
      WithKeyOfConcat(key, a, b[..n], k);
      AddedPair(key, a + b[..n], b[n], k);
      AddedPair(key, b[..n], b[n], k);
      SeqAssoc(a, b[..n], [b[n]]);
      SeqAssoc(WithKey(key, a, k), WithKey(key, b[..n], k), WithKey(key, b, k)[|WithKey(key, b[..n], k)|..]);
      assert b == b[..n] + [b[n]];
    }
  }

  lemma AddedPair(key: Keying, pairs: seq<Pair>, p: Pair, k: Key)
    ensures WithKey(key, pairs + [p], k) == WithKey(key, pairs, k) + if KeyOf(key, p.item) == k then [p] else []
  {
    assert (pairs + [p])[..|pairs|] == pairs;
  }

  /** One code for one key, both ways. */
  ghost predicate CodesMatchKeys(t: Table) {
    && (forall j, k :: j in t.codeByKey && k in t.codeByKey && t.codeByKey[j] == t.codeByKey[k] ==> j == k)
    && (forall k :: k in t.codeByKey ==> t.codeByKey[k] in t.codeByItem)
    && (forall c :: c in t.codeByItem ==> exists k :: k in t.codeByKey && t.codeByKey[k] == c)
  }

  /** Behind each code stand exactly the pairs with its key, in topology order. */
  ghost predicate HoldsPairs(key: Keying, t: Table, pairs: seq<Pair>) {
    && (forall p :: p in pairs ==> KeyOf(key, p.item) in t.codeByKey)
    && (forall k :: k in t.codeByKey ==>
          t.codeByKey[k] in t.codeByItem && t.codeByItem[t.codeByKey[k]] == WithKey(key, pairs, k) != [])
  }

  /** The list names every key once, under its code. */
  ghost predicate Lists(key: Keying, codeByKey: map<Key, Code>, probeItems: seq<ProbeItem>) {
    && (forall p :: p in probeItems ==> ProbeKey(key, p) in codeByKey && codeByKey[ProbeKey(key, p)] == p.code)
    && (forall k :: k in codeByKey ==> exists p :: p in probeItems && ProbeKey(key, p) == k)
  }

  ghost predicate ProbedOnce(key: Keying, probeItems: seq<ProbeItem>) {
    forall i, j :: 0 <= i < j < |probeItems| ==>
      probeItems[i].code != probeItems[j].code && ProbeKey(key, probeItems[i]) != ProbeKey(key, probeItems[j])
  }

  ghost predicate Merged(key: Keying, t: Table, pairs: seq<Pair>) {
    && CodesMatchKeys(t)
    && HoldsPairs(key, t, pairs)
    && Lists(key, t.codeByKey, t.probeItems)
    && ProbedOnce(key, t.probeItems)
  }

  lemma {:induction false} UnusedCodeExists(used: set<Code>)
    ensures exists c: Code :: c !in used
  {
    var c := CodeAbove(used);
    assert c !in used;
  }

  lemma {:induction false} CodeAbove(used: set<Code>) returns (c: Code)
    ensures forall u :: u in used ==> u < c
    decreases used
  {
    c := 0;
    if used != {} {
      var u :| u in used;
      var d := CodeAbove(used - {u});
      c := if u < d then d else u + 1;
      assert forall v :: v in used ==> v == u || v in used - {u};
    }
  }

  /** Any code not in use yet. */
  method NewProbeCode(used: set<Code>) returns (code: Code)
    ensures code !in used
  {
    UnusedCodeExists(used);
    code :| code !in used;
  }

  /** The body of the merge loop. */
  method AddPair(key: Keying, t: Table, p: Pair, ghost pairs: seq<Pair>) returns (r: Table)
    requires Merged(key, t, pairs)
    ensures Merged(key, r, pairs + [p])
  {
    var k := KeyOf(key, p.item);
    if k !in t.codeByKey {
      var code := NewProbeCode(t.codeByItem.Keys);
      r := Table(t.codeByKey[k := code],
                 t.codeByItem[code := [p]],
                 t.probeItems + [ProbeItem(code, p.item.ip, p.item.proto, p.item.port)]);
      NewKeyKeepsMerged(key, t, pairs, p, code);
    } else {
      var code := t.codeByKey[k];
      r := t.(codeByItem := t.codeByItem[code := t.codeByItem[code] + [p]]);
      KnownKeyKeepsMerged(key, t, pairs, p);
    }
  }

  lemma NoPairWithKey(key: Keying, pairs: seq<Pair>, k: Key)
    requires forall p :: p in pairs ==> KeyOf(key, p.item) != k
    ensures WithKey(key, pairs, k) == []
  {
    if WithKey(key, pairs, k) != [] {
      assert WithKey(key, pairs, k)[0] in WithKey(key, pairs, k);
    }
  }

  lemma NewKeyKeepsMerged(key: Keying, t: Table, pairs: seq<Pair>, p: Pair, code: Code)
    requires Merged(key, t, pairs) && KeyOf(key, p.item) !in t.codeByKey && code !in t.codeByItem
    ensures Merged(key, Table(t.codeByKey[KeyOf(key, p.item) := code], t.codeByItem[code := [p]],
                         t.probeItems + [ProbeItem(code, p.item.ip, p.item.proto, p.item.port)]), pairs + [p])
  {
    var newKey := KeyOf(key, p.item);
    var r := Table(t.codeByKey[newKey := code], t.codeByItem[code := [p]],
                   t.probeItems + [ProbeItem(code, p.item.ip, p.item.proto, p.item.port)]);
    NoPairWithKey(key, pairs, newKey);
    assert CodesMatchKeys(r) by {
      forall c | c in r.codeByItem ensures exists k :: k in r.codeByKey && r.codeByKey[k] == c {
        if c == code {
          assert r.codeByKey[newKey] == c;
        } else {
          var k :| k in t.codeByKey && t.codeByKey[k] == c;
          assert r.codeByKey[k] == c;
        }
      }
    }
    assert HoldsPairs(key, r, pairs + [p]) by {
      forall k | k in r.codeByKey
        ensures r.codeByItem[r.codeByKey[k]] == WithKey(key, pairs + [p], k) != []
      {
      }
    }
    ListGrows(key, t.codeByKey, t.probeItems, ProbeItem(code, p.item.ip, p.item.proto, p.item.port));
  }

  lemma ListGrows(key: Keying, codeByKey: map<Key, Code>, list: seq<ProbeItem>, added: ProbeItem)
    requires Lists(key, codeByKey, list) && ProbedOnce(key, list)
    requires ProbeKey(key, added) !in codeByKey && forall k :: k in codeByKey ==> codeByKey[k] != added.code
    ensures Lists(key, codeByKey[ProbeKey(key, added) := added.code], list + [added]) && ProbedOnce(key, list + [added])
  {
    var longer, longerMap := list + [added], codeByKey[ProbeKey(key, added) := added.code];
    assert longer[|list|] == added;
    assert Lists(key, longerMap, longer) by {
      forall k | k in codeByKey ensures exists q :: q in longer && ProbeKey(key, q) == k {
        var q :| q in list && ProbeKey(key, q) == k;
        assert q in longer;
      }
    }
    assert ProbedOnce(key, longer) by {
      forall i | 0 <= i < |list| ensures longer[i] == list[i] && list[i].code != added.code && ProbeKey(key, list[i]) != ProbeKey(key, added) {
        assert list[i] in list;
      }
    }
  }

  lemma KnownKeyKeepsMerged(key: Keying, t: Table, pairs: seq<Pair>, p: Pair)
    requires Merged(key, t, pairs) && KeyOf(key, p.item) in t.codeByKey
    ensures var code := t.codeByKey[KeyOf(key, p.item)];
            Merged(key, t.(codeByItem := t.codeByItem[code := t.codeByItem[code] + [p]]), pairs + [p])
  {
    var code := t.codeByKey[KeyOf(key, p.item)];
    var r := t.(codeByItem := t.codeByItem[code := t.codeByItem[code] + [p]]);
    assert HoldsPairs(key, r, pairs + [p]) by {
      forall k | k in r.codeByKey
        ensures r.codeByItem[r.codeByKey[k]] == WithKey(key, pairs + [p], k) != []
      {
      }
    }
  }

  lemma PairsGrow(topo: seq<Node>, i: nat)
    requires i < |topo|
    ensures Pairs(topo[..i + 1]) == Pairs(topo[..i]) + PairsOf(topo[i], EffectiveItems(topo[i]))
  {
    assert topo[..i + 1][..i] == topo[..i];
  }

  /** The inner loop: one node with each of its items. */
  method MergeNode(key: Keying, t: Table, own: seq<Pair>, ghost before: seq<Pair>) returns (r: Table)
    requires Merged(key, t, before)
    ensures Merged(key, r, before + own)
  {
    r := t;
    ghost var done := before;
    for j := 0 to |own|
      invariant done == before + own[..j]
      invariant Merged(key, r, done)
    {
      r := AddPair(key, r, own[j], done);
      assert own[..j + 1] == own[..j] + [own[j]];
      done := done + [own[j]];
    }
    assert own[..|own|] == own;
  }

  /** The merge loops. */
  method MergeItems(key: Keying, topo: seq<Node>) returns (t: Table)
    ensures Merged(key, t, Pairs(topo))
  {
    t := Table(map[], map[], []);
    ghost var done := [];
    for i := 0 to |topo|
      invariant Merged(key, t, done) && done == Pairs(topo[..i])
    {
      t := MergeNode(key, t, PairsOf(topo[i], EffectiveItems(topo[i])), done);
      PairsGrow(topo, i);
      done := done + PairsOf(topo[i], EffectiveItems(topo[i]));
    }
    assert topo[..|topo|] == topo;
  }

  // ---------- Totals ----------

  /** Conversion of a float to int64: toward zero. */
  function Trunc(x: real): int {
    if x >= 0.0 then x.Floor else -((-x).Floor)
  }

  function Scaled(ms: int, factor: real): int {
    Trunc(ms as real * factor)
  }

  predicate Overloaded(n: Node) {
    n.bwStatus == "overloaded"
  }

  function Total(p: Pair, clientRtt: int, penalty: real): int {
    var front := if p.item.isReal then clientRtt else clientRtt + EffectiveRtt(p.item);
    var total := Scaled(front, p.item.weight) + p.node.rttToOriginMs;
    if p.node.bwStatus == "warning" && penalty > 0.0 then Scaled(total, penalty) else total
  }

  // ---------- What a total is ----------

  /** `t` is `x` cut to an integer toward zero. */
  ghost predicate CutToInteger(t: int, x: real) {
    if x >= 0.0 then t as real <= x < t as real + 1.0 else t as real - 1.0 < x <= t as real
  }

  /** The latency in front of the origin: what the client measured, and for a FAKE item the node's own
      measurement on top, or its fallback when there is none. */
  ghost function FrontRtt(i: Item, clientRtt: int): int {
    clientRtt + if i.isReal then 0 else if i.rttMs > 0 then i.rttMs else i.rttFallbackMs
  }

  lemma ScaledCuts(ms: int, factor: real)
    ensures CutToInteger(Scaled(ms, factor), ms as real * factor)
  {
    TruncCuts(ms as real * factor);
  }

  lemma TruncCuts(x: real)
    ensures CutToInteger(Trunc(x), x)
  {
  }

  lemma TotalFromBase(p: Pair, clientRtt: int, penalty: real)
    ensures var base := Scaled(FrontRtt(p.item, clientRtt), p.item.weight) + p.node.rttToOriginMs;
            Total(p, clientRtt, penalty) == if p.node.bwStatus == "warning" && penalty > 0.0 then Scaled(base, penalty) else base
  {
  }

  /** A total in numbers: the weighted front, cut to an integer, plus the unweighted origin latency; then the
      penalty, for a warning node only, on that sum. */
  lemma TotalInNumbers(p: Pair, clientRtt: int, penalty: real) returns (base: int)
    ensures CutToInteger(base - p.node.rttToOriginMs, FrontRtt(p.item, clientRtt) as real * p.item.weight)
    ensures if p.node.bwStatus == "warning" && penalty > 0.0 then CutToInteger(Total(p, clientRtt, penalty), base as real * penalty)
            else Total(p, clientRtt, penalty) == base
  {
    TotalFromBase(p, clientRtt, penalty);
    base := Scaled(FrontRtt(p.item, clientRtt), p.item.weight) + p.node.rttToOriginMs;
    ScaledCuts(FrontRtt(p.item, clientRtt), p.item.weight);
    ScaledCuts(base, penalty);
  }

  /** The node side does not touch a real item, and a FAKE item costs what a real one does at the client's
      measurement plus the node's. */
  lemma NodeSideCountsForFakeItems(p: Pair, clientRtt: int, rttMs: int, fallbackMs: int, penalty: real)
    ensures p.item.isReal ==>
              Total(p, clientRtt, penalty) == Total(p.(item := p.item.(rttMs := rttMs, rttFallbackMs := fallbackMs)), clientRtt, penalty)
    ensures !p.item.isReal ==>
              Total(p, clientRtt, penalty)
              == Total(p.(item := p.item.(isReal := true)),
                       clientRtt + if p.item.rttMs > 0 then p.item.rttMs else p.item.rttFallbackMs, penalty)
  {
  }

  /** A weight of one takes nothing away. */
  lemma PlainTotal(p: Pair, clientRtt: int, penalty: real)
    requires p.item.weight == 1.0 && p.node.bwStatus != "warning"
    ensures Total(p, clientRtt, penalty) == FrontRtt(p.item, clientRtt) + p.node.rttToOriginMs
  {
    var base := TotalInNumbers(p, clientRtt, penalty);
    assert FrontRtt(p.item, clientRtt) as real * 1.0 == FrontRtt(p.item, clientRtt) as real;
  }

  // ---------- The reference: a direct choice ----------

  ghost predicate Eligible(key: Keying, topo: seq<Node>, rtts: map<Key, int>, p: Pair) {
    p in Pairs(topo) && KeyOf(key, p.item) in rtts
  }

  ghost predicate SomeUsable(key: Keying, topo: seq<Node>, rtts: map<Key, int>) {
    exists p :: Eligible(key, topo, rtts, p) && !Overloaded(p.node)
  }

  /** The pairs to choose from: overloaded nodes only when nothing else was measured. */
  ghost predicate InContest(key: Keying, topo: seq<Node>, rtts: map<Key, int>, p: Pair) {
    Eligible(key, topo, rtts, p) && (SomeUsable(key, topo, rtts) ==> !Overloaded(p.node))
  }

  ghost predicate IsBestPair(key: Keying, topo: seq<Node>, rtts: map<Key, int>, penalty: real, p: Pair) {
    && InContest(key, topo, rtts, p)
    && forall q :: InContest(key, topo, rtts, q) ==> TotalIn(key, rtts, p, penalty) <= TotalIn(key, rtts, q, penalty)
  }

  /** The total of a measured pair. */
  function TotalIn(key: Keying, rtts: map<Key, int>, p: Pair, penalty: real): int {
    Total(p, if KeyOf(key, p.item) in rtts then rtts[KeyOf(key, p.item)] else 0, penalty)
  }

  /** A node is a right choice when one of its pairs is best; there is none exactly when nothing is eligible. */
  ghost predicate DirectChoice(key: Keying, topo: seq<Node>, rtts: map<Key, int>, penalty: real, best: Option<Node>) {
    match best
    case None => forall p :: !Eligible(key, topo, rtts, p)
    case Some(n) => exists p :: IsBestPair(key, topo, rtts, penalty, p) && p.node == n
  }

  /** All weights are one and no node is penalised. */
  ghost predicate IsPlain(topo: seq<Node>) {
    forall p :: p in Pairs(topo) ==> p.item.weight == 1.0 && p.node.bwStatus != "warning"
  }

  /** Measured, and overloaded only when nothing else was. */
  ghost predicate MayCarry(key: Keying, topo: seq<Node>, rtts: map<Key, int>, p: Pair) {
    && p in Pairs(topo) && KeyOf(key, p.item) in rtts
    && (p.node.bwStatus == "overloaded" ==>
          forall q :: q in Pairs(topo) && KeyOf(key, q.item) in rtts ==> q.node.bwStatus == "overloaded")
  }

  /** One of the node's pairs has the least sum of the client's latency, the node side of a FAKE item and the
      origin's latency. */
  ghost predicate HasLeastSum(key: Keying, topo: seq<Node>, rtts: map<Key, int>, n: Node) {
    exists p :: MayCarry(key, topo, rtts, p) && p.node == n &&
      forall q :: MayCarry(key, topo, rtts, q) ==>
        FrontRtt(p.item, rtts[KeyOf(key, p.item)]) + p.node.rttToOriginMs
        <= FrontRtt(q.item, rtts[KeyOf(key, q.item)]) + q.node.rttToOriginMs
  }

  lemma ContestIsOpen(key: Keying, topo: seq<Node>, rtts: map<Key, int>, p: Pair)
    ensures InContest(key, topo, rtts, p) <==> MayCarry(key, topo, rtts, p)
  {
    if MayCarry(key, topo, rtts, p) && SomeUsable(key, topo, rtts) {
      var q :| Eligible(key, topo, rtts, q) && !Overloaded(q.node);
    }
    if InContest(key, topo, rtts, p) && Overloaded(p.node) {
      forall q | q in Pairs(topo) && KeyOf(key, q.item) in rtts ensures q.node.bwStatus == "overloaded" {
        assert Eligible(key, topo, rtts, q);
      }
    }
  }

  /** Without weights and penalties the choice is the least plain sum of latencies. */
  lemma ChoiceHasLeastSum(key: Keying, topo: seq<Node>, rtts: map<Key, int>, penalty: real, n: Node)
    requires DirectChoice(key, topo, rtts, penalty, Some(n)) && IsPlain(topo)
    ensures HasLeastSum(key, topo, rtts, n)
  {
    var p :| IsBestPair(key, topo, rtts, penalty, p) && p.node == n;
    ContestIsOpen(key, topo, rtts, p);
    PlainTotal(p, rtts[KeyOf(key, p.item)], penalty);
    forall q | MayCarry(key, topo, rtts, q)
      ensures FrontRtt(p.item, rtts[KeyOf(key, p.item)]) + p.node.rttToOriginMs
              <= FrontRtt(q.item, rtts[KeyOf(key, q.item)]) + q.node.rttToOriginMs
    {
      ContestIsOpen(key, topo, rtts, q);
      PlainTotal(q, rtts[KeyOf(key, q.item)], penalty);
    }
  }

  // ---------- What the client answers ----------

  datatype ProbeResult = ProbeResult(code: Code, rttMs: int)

  const MAX_ACCEPTED_PROBE_RTT_MS := 60_000

  function MaxRtt(probeTimeoutMs: int): int {
    if probeTimeoutMs > 0 && probeTimeoutMs * 2 > MAX_ACCEPTED_PROBE_RTT_MS then probeTimeoutMs * 2
    else MAX_ACCEPTED_PROBE_RTT_MS
  }

  /** The last plausible result for a code. */
  function LastAccepted(results: seq<ProbeResult>, code: Code, maxRtt: int): Option<int> {
    if results == [] then None
    else
      var r := results[|results| - 1];
      if r.code == code && 0 <= r.rttMs <= maxRtt then Some(r.rttMs)
      else LastAccepted(results[..|results| - 1], code, maxRtt)
  }

  /** The bound on a plausible result: a minute, or twice the probe timeout when that is longer. */
  lemma BoundOnResults(probeTimeoutMs: int)
    ensures MaxRtt(probeTimeoutMs) >= 60_000 && MaxRtt(probeTimeoutMs) >= 2 * probeTimeoutMs
    ensures MaxRtt(probeTimeoutMs) == 60_000 || MaxRtt(probeTimeoutMs) == 2 * probeTimeoutMs
  {
  }

  ghost predicate PlausibleFor(r: ProbeResult, code: Code, maxRtt: int) {
    r.code == code && 0 <= r.rttMs && r.rttMs <= maxRtt
  }

  /** A later plausible result for a code replaces an earlier one, an implausible one does not. */
  lemma {:induction false} LastAcceptedExactly(results: seq<ProbeResult>, code: Code, maxRtt: int, v: int)
    ensures LastAccepted(results, code, maxRtt) == Some(v) <==>
            exists i :: 0 <= i < |results| && PlausibleFor(results[i], code, maxRtt) && results[i].rttMs == v
                        && forall j :: i < j < |results| ==> !PlausibleFor(results[j], code, maxRtt)
  {
    if results != [] {
      var n := |results| - 1;
      var rest := results[..n];
      LastAcceptedExactly(rest, code, maxRtt, v);
      assert forall i :: 0 <= i < n ==> rest[i] == results[i];
      if !PlausibleFor(results[n], code, maxRtt) && LastAccepted(rest, code, maxRtt) == Some(v) {
        var i :| 0 <= i < n && PlausibleFor(rest[i], code, maxRtt) && rest[i].rttMs == v
                 && forall j :: i < j < n ==> !PlausibleFor(rest[j], code, maxRtt);
        assert PlausibleFor(results[i], code, maxRtt);
      }
    }
  }

  /** The accepted reports, by what they measured instead of by code. */
  function AcceptedByKey(key: Keying, sent: seq<ProbeItem>, results: seq<ProbeResult>, maxRtt: int): map<Key, int> {
    if sent == [] then map[]
    else
      var p, m := sent[|sent| - 1], AcceptedByKey(key, sent[..|sent| - 1], results, maxRtt);
      var last := LastAccepted(results, p.code, maxRtt);
      if last.Some? then m[ProbeKey(key, p) := last.value] else m
  }

  // ---------- Decoding the reports ----------

  /** The loop over the client's results: unknown codes and implausible values are skipped, and a later
      result for the same code replaces an earlier one. */
  method ReadReports(results: seq<ProbeResult>, codes: set<Code>, maxRtt: int) returns (rttByCode: map<Code, int>)
    ensures forall c :: c in rttByCode <==> c in codes && LastAccepted(results, c, maxRtt).Some?
    ensures forall c :: c in rttByCode ==> LastAccepted(results, c, maxRtt) == Some(rttByCode[c])
  {
    rttByCode := map[];
    for i := 0 to |results|
      invariant forall c :: c in rttByCode <==> c in codes && LastAccepted(results[..i], c, maxRtt).Some?
      invariant forall c :: c in rttByCode ==> LastAccepted(results[..i], c, maxRtt) == Some(rttByCode[c])
    {
      var r := results[i];
      assert results[..i + 1][..i] == results[..i];
      if r.code !in codes || r.rttMs < 0 || r.rttMs > maxRtt {
        continue;
      }
      rttByCode := rttByCode[r.code := r.rttMs];
    }
    assert results[..|results|] == results;
  }

  /** Reading by code and reading by key are the same. */
  ghost predicate SameRtts(codeByKey: map<Key, Code>, rttByCode: map<Code, int>, rtts: map<Key, int>) {
    && rtts.Keys <= codeByKey.Keys
    && forall k :: k in codeByKey ==>
         && (k in rtts <==> codeByKey[k] in rttByCode)
         && (k in rtts ==> rtts[k] == rttByCode[codeByKey[k]])
  }

  lemma {:induction false} AcceptedIsLast(key: Keying, codeByKey: map<Key, Code>, sent: seq<ProbeItem>, results: seq<ProbeResult>, maxRtt: int)
    requires forall p :: p in sent ==> ProbeKey(key, p) in codeByKey && codeByKey[ProbeKey(key, p)] == p.code
    ensures var rtts := AcceptedByKey(key, sent, results, maxRtt);
            && (forall k :: k in rtts ==> k in codeByKey && LastAccepted(results, codeByKey[k], maxRtt) == Some(rtts[k]))
            && (forall p :: p in sent && LastAccepted(results, p.code, maxRtt).Some? ==> ProbeKey(key, p) in rtts)
  {
    if sent != [] {
      var n := |sent| - 1;
      assert sent == sent[..n] + [sent[n]];
      assert forall p :: p in sent[..n] ==> p in sent;
      AcceptedIsLast(key, codeByKey, sent[..n], results, maxRtt);
    }
  }

  lemma DecodingAgrees(key: Keying, t: Table, pairs: seq<Pair>, sent: seq<ProbeItem>, results: seq<ProbeResult>,
                       maxRtt: int, rttByCode: map<Code, int>)
    requires Lists(key, t.codeByKey, sent) && CodesMatchKeys(t)
    requires forall c :: c in rttByCode <==> c in t.codeByItem.Keys && LastAccepted(results, c, maxRtt).Some?
    requires forall c :: c in rttByCode ==> LastAccepted(results, c, maxRtt) == Some(rttByCode[c])
    ensures SameRtts(t.codeByKey, rttByCode, AcceptedByKey(key, sent, results, maxRtt))
  {
    var rtts := AcceptedByKey(key, sent, results, maxRtt);
    AcceptedIsLast(key, t.codeByKey, sent, results, maxRtt);
    forall k | k in t.codeByKey
      ensures k in rtts <==> t.codeByKey[k] in rttByCode
    {
      var p :| p in sent && ProbeKey(key, p) == k;
    }
  }

  // ---------- Candidates ----------

  datatype Candidate = Candidate(node: Node, totalRtt: int)

  function AsSet<T>(s: seq<T>): set<T> {
    set x | x in s
  }

  /** What the pairs behind one code offer. */
  ghost function Offers(entries: seq<Pair>, rtt: int, penalty: real, overloaded: bool): set<Candidate> {
    set p | p in entries && Overloaded(p.node) == overloaded :: Candidate(p.node, Total(p, rtt, penalty))
  }

  /** The total of one pair: overloaded nodes are set aside before the penalty. */
  method CandidateOf(ci: Pair, clientRtt: int, penalty: real) returns (x: Candidate)
    ensures x == Candidate(ci.node, Total(ci, clientRtt, penalty))
  {
    var total: int;
    if ci.item.isReal {
      total := Scaled(clientRtt, ci.item.weight) + ci.node.rttToOriginMs;
    } else {
      total := Scaled(clientRtt + EffectiveRtt(ci.item), ci.item.weight) + ci.node.rttToOriginMs;
    }
    if ci.node.bwStatus == "overloaded" {
      return Candidate(ci.node, total);
    }
    if ci.node.bwStatus == "warning" && penalty > 0.0 {
      total := Scaled(total, penalty);
    }
    x := Candidate(ci.node, total);
  }

  /** The inner loop over the pairs behind one code. */
  method CollectEntries(entries: seq<Pair>, clientRtt: int, penalty: real) returns (candidates: seq<Candidate>, overloaded: seq<Candidate>)
    ensures AsSet(candidates) == Offers(entries, clientRtt, penalty, false)
    ensures AsSet(overloaded) == Offers(entries, clientRtt, penalty, true)
  {
    candidates, overloaded := [], [];
    for i := 0 to |entries|
      invariant AsSet(candidates) == Offers(entries[..i], clientRtt, penalty, false)
      invariant AsSet(overloaded) == Offers(entries[..i], clientRtt, penalty, true)
    {
      var ci := entries[i];
      assert entries[..i + 1] == entries[..i] + [ci];
      var x := CandidateOf(ci, clientRtt, penalty);
      if ci.node.bwStatus == "overloaded" {
        AsSetGrows(overloaded, x);
        overloaded := overloaded + [x];
      } else {
        AsSetGrows(candidates, x);
        candidates := candidates + [x];
      }
    }
    assert entries[..|entries|] == entries;
  }

  lemma AsSetGrows<T>(s: seq<T>, x: T)
    ensures AsSet(s + [x]) == AsSet(s) + {x}
  {
  }

  /** What all the measured codes of a set offer. */
  ghost function AllOffers(codes: set<Code>, codeByItem: map<Code, seq<Pair>>, rttByCode: map<Code, int>,
                           penalty: real, overloaded: bool): set<Candidate>
    requires codes <= codeByItem.Keys
  {
    set c, x | c in codes && c in rttByCode && x in Offers(codeByItem[c], rttByCode[c], penalty, overloaded) :: x
  }

  /** The loop over the code map, in any order. */
  method CollectAll(codeByItem: map<Code, seq<Pair>>, rttByCode: map<Code, int>, penalty: real)
    returns (candidates: seq<Candidate>, overloaded: seq<Candidate>)
    ensures AsSet(candidates) == AllOffers(codeByItem.Keys, codeByItem, rttByCode, penalty, false)
    ensures AsSet(overloaded) == AllOffers(codeByItem.Keys, codeByItem, rttByCode, penalty, true)
  {
    candidates, overloaded := [], [];
    var todo := codeByItem.Keys;
    ghost var done: set<Code> := {};
    while todo != {}
      invariant todo + done == codeByItem.Keys
      invariant AsSet(candidates) == AllOffers(done, codeByItem, rttByCode, penalty, false)
      invariant AsSet(overloaded) == AllOffers(done, codeByItem, rttByCode, penalty, true)
      decreases todo
    {
      var c :| c in todo;
      todo := todo - {c};
      AllOffersGrow(done, c, codeByItem, rttByCode, penalty, false);
      AllOffersGrow(done, c, codeByItem, rttByCode, penalty, true);
      done := done + {c};
      if c in rttByCode {
        var more, moreOverloaded := CollectEntries(codeByItem[c], rttByCode[c], penalty);
        candidates, overloaded := candidates + more, overloaded + moreOverloaded;
      }
    }
  }

  lemma AllOffersGrow(codes: set<Code>, c: Code, codeByItem: map<Code, seq<Pair>>, rttByCode: map<Code, int>,
                      penalty: real, overloaded: bool)
    requires codes + {c} <= codeByItem.Keys
    ensures AllOffers(codes + {c}, codeByItem, rttByCode, penalty, overloaded) ==
            AllOffers(codes, codeByItem, rttByCode, penalty, overloaded) +
            if c in rttByCode then Offers(codeByItem[c], rttByCode[c], penalty, overloaded) else {}
  {
  }

  /** What the direct reference offers. */
  ghost predicate DirectOffer(key: Keying, topo: seq<Node>, rtts: map<Key, int>, penalty: real, overloaded: bool, x: Candidate) {
    exists p :: Eligible(key, topo, rtts, p) && Overloaded(p.node) == overloaded && x == Candidate(p.node, TotalIn(key, rtts, p, penalty))
  }

  /** The codes drop out: what is behind the measured codes is what the measured pairs offer. */
  lemma OffersAreDirect(key: Keying, topo: seq<Node>, t: Table, rttByCode: map<Code, int>, rtts: map<Key, int>,
                        penalty: real, overloaded: bool, x: Candidate)
    requires CodesMatchKeys(t) && HoldsPairs(key, t, Pairs(topo)) && SameRtts(t.codeByKey, rttByCode, rtts)
    ensures x in AllOffers(t.codeByItem.Keys, t.codeByItem, rttByCode, penalty, overloaded) <==>
            DirectOffer(key, topo, rtts, penalty, overloaded, x)
  {
    if x in AllOffers(t.codeByItem.Keys, t.codeByItem, rttByCode, penalty, overloaded) {
      var c :| c in t.codeByItem && c in rttByCode && x in Offers(t.codeByItem[c], rttByCode[c], penalty, overloaded);
      var k :| k in t.codeByKey && t.codeByKey[k] == c;
      var p :| p in t.codeByItem[c] && Overloaded(p.node) == overloaded && x == Candidate(p.node, Total(p, rttByCode[c], penalty));
      assert p in WithKey(key, Pairs(topo), k);
      assert Eligible(key, topo, rtts, p);
    }
    if DirectOffer(key, topo, rtts, penalty, overloaded, x) {
      var p :| Eligible(key, topo, rtts, p) && Overloaded(p.node) == overloaded && x == Candidate(p.node, TotalIn(key, rtts, p, penalty));
      var k := KeyOf(key, p.item);
      var c := t.codeByKey[k];
      assert p in WithKey(key, Pairs(topo), k) && p in t.codeByItem[c];
      assert x in Offers(t.codeByItem[c], rttByCode[c], penalty, overloaded);
    }
  }

  // ---------- The choice ----------

  ghost predicate IsLeast(s: seq<Candidate>, x: Candidate) {
    x in s && forall y :: y in s ==> x.totalRtt <= y.totalRtt
  }

  lemma {:induction false} LeastExists(s: seq<Candidate>)
    requires s != []
    ensures exists x :: IsLeast(s, x)
  {
    var n := |s| - 1;
    assert s == s[..n] + [s[n]];
    if n == 0 {
      assert IsLeast(s, s[n]);
    } else {
      LeastExists(s[..n]);
      var x :| IsLeast(s[..n], x);
      assert IsLeast(s, if x.totalRtt <= s[n].totalRtt then x else s[n]);
    }
  }

  /** The first candidate after an unstable sort: any one with the least total. */
  method FirstAfterSort(s: seq<Candidate>) returns (x: Candidate)
    requires s != []
    ensures IsLeast(s, x)
  {
    LeastExists(s);
    ghost var least :| IsLeast(s, least);
    x :| x in s && forall y :: y in s ==> x.totalRtt <= y.totalRtt;
  }

  method Choose(candidates: seq<Candidate>, overloaded: seq<Candidate>) returns (best: Option<Node>)
    ensures best == None <==> candidates == [] && overloaded == []
    ensures best.Some? ==>
              var contest := if candidates != [] then candidates else overloaded;
              exists x :: IsLeast(contest, x) && x.node == best.value
  {
    var contest := candidates;
    if |candidates| == 0 && |overloaded| > 0 {
      contest := overloaded;
    }
    if |contest| == 0 {
      return None;
    }
    var x := FirstAfterSort(contest);
    best := Some(x.node);
  }

  lemma ChoiceIsDirect(key: Keying, topo: seq<Node>, rtts: map<Key, int>, penalty: real,
                       candidates: seq<Candidate>, overloaded: seq<Candidate>, best: Option<Node>)
    requires forall x :: x in candidates <==> DirectOffer(key, topo, rtts, penalty, false, x)
    requires forall x :: x in overloaded <==> DirectOffer(key, topo, rtts, penalty, true, x)
    requires best == None <==> candidates == [] && overloaded == []
    requires best.Some? ==>
              var contest := if candidates != [] then candidates else overloaded;
              exists x :: IsLeast(contest, x) && x.node == best.value
    ensures DirectChoice(key, topo, rtts, penalty, best)
  {
    forall p | Eligible(key, topo, rtts, p)
      ensures Candidate(p.node, TotalIn(key, rtts, p, penalty)) in if Overloaded(p.node) then overloaded else candidates
    {
      assert DirectOffer(key, topo, rtts, penalty, Overloaded(p.node), Candidate(p.node, TotalIn(key, rtts, p, penalty)));
    }
    if best.Some? {
      var contest := if candidates != [] then candidates else overloaded;
      var x :| IsLeast(contest, x) && x.node == best.value;
      assert DirectOffer(key, topo, rtts, penalty, candidates == [], x);
      var p :| Eligible(key, topo, rtts, p) && Overloaded(p.node) == (candidates == []) && x == Candidate(p.node, TotalIn(key, rtts, p, penalty));
      if candidates != [] {
        assert candidates[0] in candidates;
      }
      assert IsBestPair(key, topo, rtts, penalty, p);
    }
  }

  // ---------- The whole selection ----------

  /** Why a bootstrap ended, or the node it hands out. */
  datatype Outcome = NoProbeItems | NoReport | TooManyResults | NoCandidate | Chosen(node: Node)

  ghost function KeysShown(key: Keying, sent: seq<ProbeItem>): set<Key> {
    set p | p in sent :: ProbeKey(key, p)
  }

  ghost function KeysWanted(key: Keying, topo: seq<Node>): set<Key> {
    set q | q in Pairs(topo) :: KeyOf(key, q.item)
  }

  /** What the client is shown: every key of the topology once, each under a code of its own. */
  ghost predicate Presents(key: Keying, topo: seq<Node>, sent: seq<ProbeItem>) {
    && ProbedOnce(key, sent)
    && KeysShown(key, sent) == KeysWanted(key, topo)
  }

  lemma ShuffledStillPresents(key: Keying, topo: seq<Node>, t: Table, sent: seq<ProbeItem>)
    requires Merged(key, t, Pairs(topo)) && multiset(sent) == multiset(t.probeItems)
    ensures Lists(key, t.codeByKey, sent) && Presents(key, topo, sent) && |sent| == |t.probeItems|
  {
    ShuffledOnce(key, t.probeItems, sent);
    ShuffledList(key, t.codeByKey, t.probeItems, sent);
    KeysAreWanted(key, topo, t);
  }

  lemma ShuffledList(key: Keying, codeByKey: map<Key, Code>, list: seq<ProbeItem>, sent: seq<ProbeItem>)
    requires Lists(key, codeByKey, list) && multiset(sent) == multiset(list)
    ensures Lists(key, codeByKey, sent) && KeysShown(key, sent) == codeByKey.Keys && |sent| == |list|
  {
    assert |multiset(sent)| == |sent| && |multiset(list)| == |list|;
    assert forall p :: p in list ==> p in multiset(sent);
    forall p | p in sent ensures p in list {
      assert p in multiset(sent);
    }
    forall k | k in codeByKey ensures exists p :: p in sent && ProbeKey(key, p) == k {
      var p :| p in list && ProbeKey(key, p) == k;
      assert p in sent;
    }
  }

  lemma KeysAreWanted(key: Keying, topo: seq<Node>, t: Table)
    requires HoldsPairs(key, t, Pairs(topo))
    ensures t.codeByKey.Keys == KeysWanted(key, topo)
  {
    forall k | k in t.codeByKey ensures k in KeysWanted(key, topo) {
      var q := WithKey(key, Pairs(topo), k)[0];
      assert q in WithKey(key, Pairs(topo), k);
    }
  }

  lemma ShuffledOnce(key: Keying, list: seq<ProbeItem>, sent: seq<ProbeItem>)
    requires ProbedOnce(key, list) && multiset(sent) == multiset(list)
    ensures ProbedOnce(key, sent)
  {
    PermutationOfDistinct(list, sent);
    forall i, j | 0 <= i < j < |sent|
      ensures sent[i].code != sent[j].code && ProbeKey(key, sent[i]) != ProbeKey(key, sent[j])
    {
      assert sent[i] in multiset(sent) && sent[j] in multiset(sent);
      var a :| 0 <= a < |list| && list[a] == sent[i];
      var b :| 0 <= b < |list| && list[b] == sent[j];
      assert a != b;
    }
  }

  /** The selection part of handleBootstrap. The client is any function from the list it is shown to its
      results, or to nothing when the exchange fails. */
  method SelectRoute(key: Keying, topo: seq<Node>, probeTimeoutMs: int, penalty: real,
                     draws: nat -> seq<Draw>, client: seq<ProbeItem> -> Option<seq<ProbeResult>>)
    returns (outcome: Outcome, sent: seq<ProbeItem>)
    requires forall n :: InRange(draws(n), n)
    ensures outcome == NoProbeItems <==> Pairs(topo) == []
    ensures Pairs(topo) != [] ==> Presents(key, topo, sent)
    ensures Pairs(topo) != [] ==> (outcome == NoReport <==> client(sent) == None)
    ensures Pairs(topo) != [] && client(sent).Some? ==> (outcome == TooManyResults <==> |client(sent).value| > |sent|)
    ensures outcome.NoCandidate? || outcome.Chosen? ==>
              && client(sent).Some?
              && DirectChoice(key, topo, AcceptedByKey(key, sent, client(sent).value, MaxRtt(probeTimeoutMs)), penalty,
                              if outcome.Chosen? then Some(outcome.node) else None)
    ensures outcome.Chosen? && IsPlain(topo) ==>
              HasLeastSum(key, topo, AcceptedByKey(key, sent, client(sent).value, MaxRtt(probeTimeoutMs)), outcome.node)
  {
    var t := MergeItems(key, topo);
    sent := t.probeItems;
    EmptyList(key, t, Pairs(topo));
    if |sent| == 0 {
      return NoProbeItems, sent;
    }
    sent := ShuffleList(sent, draws(|sent|));
    ShuffledStillPresents(key, topo, t, sent);
    var report := client(sent);
    if report.None? {
      return NoReport, sent;
    }
    if |report.value| > |sent| {
      return TooManyResults, sent;
    }
    var best := Decode(key, topo, t, sent, report.value, MaxRtt(probeTimeoutMs), penalty);
    outcome := if best.Some? then Chosen(best.value) else NoCandidate;
    if best.Some? && IsPlain(topo) {
      ChoiceHasLeastSum(key, topo, AcceptedByKey(key, sent, report.value, MaxRtt(probeTimeoutMs)), penalty, best.value);
    }
  }

  method ShuffleList(list: seq<ProbeItem>, draws: seq<Draw>) returns (r: seq<ProbeItem>)
    requires InRange(draws, |list|)
    ensures multiset(r) == multiset(list)
  {
    var items := new ProbeItem[|list|](i requires 0 <= i < |list| => list[i]);
    assert items[..] == list;
    ShuffleIsPermutation(list, draws);
    ShuffleInPlace(items, draws);
    r := items[..];
  }

  lemma EmptyList(key: Keying, t: Table, pairs: seq<Pair>)
    requires Merged(key, t, pairs)
    ensures t.probeItems == [] <==> pairs == []
  {
    if pairs != [] {
      assert pairs[0] in pairs;
    }
    if t.probeItems != [] {
      var p := t.probeItems[0];
      assert p in t.probeItems;
      assert WithKey(key, pairs, ProbeKey(key, p)) != [];
    }
  }

  /** From the client's results to the best node. */
  method Decode(key: Keying, ghost topo: seq<Node>, t: Table, ghost sent: seq<ProbeItem>, results: seq<ProbeResult>,
                maxRtt: int, penalty: real) returns (best: Option<Node>)
    requires CodesMatchKeys(t) && HoldsPairs(key, t, Pairs(topo)) && Lists(key, t.codeByKey, sent)
    ensures DirectChoice(key, topo, AcceptedByKey(key, sent, results, maxRtt), penalty, best)
  {
    var rttByCode := ReadReports(results, t.codeByItem.Keys, maxRtt);
    var candidates, overloaded := CollectAll(t.codeByItem, rttByCode, penalty);
    best := Choose(candidates, overloaded);
    ghost var rtts := AcceptedByKey(key, sent, results, maxRtt);
    DecodingAgrees(key, t, Pairs(topo), sent, results, maxRtt, rttByCode);
    CandidatesAreDirect(key, topo, t, rttByCode, rtts, penalty, candidates, false);
    CandidatesAreDirect(key, topo, t, rttByCode, rtts, penalty, overloaded, true);
    ChoiceIsDirect(key, topo, rtts, penalty, candidates, overloaded, best);
  }

  lemma CandidatesAreDirect(key: Keying, topo: seq<Node>, t: Table, rttByCode: map<Code, int>, rtts: map<Key, int>,
                            penalty: real, list: seq<Candidate>, overloaded: bool)
    requires CodesMatchKeys(t) && HoldsPairs(key, t, Pairs(topo)) && SameRtts(t.codeByKey, rttByCode, rtts)
    requires AsSet(list) == AllOffers(t.codeByItem.Keys, t.codeByItem, rttByCode, penalty, overloaded)
    ensures forall x :: x in list <==> DirectOffer(key, topo, rtts, penalty, overloaded, x)
  {
    forall x ensures x in list <==> DirectOffer(key, topo, rtts, penalty, overloaded, x) {
      assert x in list <==> x in AsSet(list);
      OffersAreDirect(key, topo, t, rttByCode, rtts, penalty, overloaded, x);
    }
  }

  // ---------- A client that measures addresses ----------

  /** Every result carries the measurement of an item shown. */
  ghost predicate ResultsAreMeasured(key: Keying, sent: seq<ProbeItem>, results: seq<ProbeResult>, measured: map<Key, int>) {
    forall r :: r in results ==>
      exists p :: p in sent && p.code == r.code && ProbeKey(key, p) in measured && measured[ProbeKey(key, p)] == r.rttMs
  }

  /** The results answer the list out of a table of measurements by key, in any order. */
  ghost predicate Answers(key: Keying, sent: seq<ProbeItem>, results: seq<ProbeResult>, measured: map<Key, int>) {
    && ResultsAreMeasured(key, sent, results, measured)
    && (forall p :: p in sent && ProbeKey(key, p) in measured ==> Answered(results, p.code))
  }

  ghost predicate Answered(results: seq<ProbeResult>, code: Code) {
    exists r :: r in results && r.code == code
  }

  lemma {:induction false} LastOfUniform(results: seq<ProbeResult>, code: Code, v: int, maxRtt: int)
    requires forall r :: r in results && r.code == code ==> r.rttMs == v
    ensures LastAccepted(results, code, maxRtt) == if Answered(results, code) && 0 <= v <= maxRtt then Some(v) else None
  {
    if results != [] {
      var n := |results| - 1;
      assert results == results[..n] + [results[n]];
      LastOfUniform(results[..n], code, v, maxRtt);
    }
  }

  lemma ResultsAgree(key: Keying, sent: seq<ProbeItem>, results: seq<ProbeResult>, measured: map<Key, int>, p: ProbeItem)
    requires ProbedOnce(key, sent) && ResultsAreMeasured(key, sent, results, measured) && p in sent
    ensures forall r :: r in results && r.code == p.code ==> ProbeKey(key, p) in measured && r.rttMs == measured[ProbeKey(key, p)]
  {
    forall r | r in results && r.code == p.code
      ensures ProbeKey(key, p) in measured && r.rttMs == measured[ProbeKey(key, p)]
    {
      var q :| q in sent && q.code == r.code && ProbeKey(key, q) in measured && measured[ProbeKey(key, q)] == r.rttMs;
    }
  }

  lemma LastAnswer(key: Keying, sent: seq<ProbeItem>, results: seq<ProbeResult>, measured: map<Key, int>, maxRtt: int, p: ProbeItem)
    requires ProbedOnce(key, sent) && Answers(key, sent, results, measured) && p in sent
    ensures LastAccepted(results, p.code, maxRtt) == PlausibleAt(measured, ProbeKey(key, p), maxRtt)
  {
    ResultsAgree(key, sent, results, measured, p);
    var k := ProbeKey(key, p);
    LastOfUniform(results, p.code, if k in measured then measured[k] else -1, maxRtt);
  }

  function PlausibleAt(measured: map<Key, int>, k: Key, maxRtt: int): Option<int> {
    if k in measured && 0 <= measured[k] <= maxRtt then Some(measured[k]) else None
  }

  /** The plausible measurements of some keys. */
  ghost function Plausible(measured: map<Key, int>, keys: set<Key>, maxRtt: int): map<Key, int> {
    map k | k in measured && k in keys && 0 <= measured[k] <= maxRtt :: measured[k]
  }

  lemma PlausibleGrows(measured: map<Key, int>, keys: set<Key>, k: Key, maxRtt: int)
    ensures Plausible(measured, keys + {k}, maxRtt) ==
            match PlausibleAt(measured, k, maxRtt)
            case None => Plausible(measured, keys, maxRtt)
            case Some(v) => Plausible(measured, keys, maxRtt)[k := v]
  {
  }

  /** Such a client's accepted reports are its plausible measurements of the addresses shown, whatever the
      codes and the order were. */
  lemma HonestReports(key: Keying, topo: seq<Node>, sent: seq<ProbeItem>, results: seq<ProbeResult>, measured: map<Key, int>, maxRtt: int)
    requires Presents(key, topo, sent) && Answers(key, sent, results, measured)
    ensures AcceptedByKey(key, sent, results, maxRtt) ==
            Plausible(measured, KeysWanted(key, topo), maxRtt)
  {
    AnswersByKey(key, sent, results, measured, maxRtt, sent);
  }

  lemma {:induction false} AnswersByKey(key: Keying, sent: seq<ProbeItem>, results: seq<ProbeResult>, measured: map<Key, int>, maxRtt: int, some: seq<ProbeItem>)
    requires ProbedOnce(key, sent) && Answers(key, sent, results, measured) && forall p :: p in some ==> p in sent
    ensures AcceptedByKey(key, some, results, maxRtt) == Plausible(measured, KeysShown(key, some), maxRtt)
  {
    if some != [] {
      var n := |some| - 1;
      var last := some[n];
      assert some[n] in some && forall p :: p in some[..n] ==> p in some;
      AnswersByKey(key, sent, results, measured, maxRtt, some[..n]);
      LastAnswer(key, sent, results, measured, maxRtt, last);
      PlausibleGrows(measured, KeysShown(key, some[..n]), ProbeKey(key, last), maxRtt);
      assert some == some[..n] + [last];
    }
  }

  /** Two bootstraps over the same topology and the same measurements decode to the same reports: neither
      the random codes nor the shuffle can change which choices are right. */
  lemma RandomnessDoesNotMatter(key: Keying, topo: seq<Node>, measured: map<Key, int>, maxRtt: int,
                                sent: seq<ProbeItem>, results: seq<ProbeResult>,
                                sent2: seq<ProbeItem>, results2: seq<ProbeResult>)
    requires Presents(key, topo, sent) && Answers(key, sent, results, measured)
    requires Presents(key, topo, sent2) && Answers(key, sent2, results2, measured)
    ensures AcceptedByKey(key, sent, results, maxRtt) == AcceptedByKey(key, sent2, results2, maxRtt)
  {
    HonestReports(key, topo, sent, results, measured, maxRtt);
    HonestReports(key, topo, sent2, results2, measured, maxRtt);
  }

  // ---------- What a choice guarantees ----------

  /** The node handed out was measured, and it is overloaded only when every measured node is. */
  lemma ChosenNodeWasReported(key: Keying, topo: seq<Node>, rtts: map<Key, int>, penalty: real, n: Node)
    requires DirectChoice(key, topo, rtts, penalty, Some(n))
    ensures exists i :: 0 <= i < |topo| && topo[i] == n && exists item :: item in EffectiveItems(n) && KeyOf(key, item) in rtts
    ensures Overloaded(n) ==> forall p :: Eligible(key, topo, rtts, p) ==> Overloaded(p.node)
  {
    var p :| IsBestPair(key, topo, rtts, penalty, p) && p.node == n;
    PairComesFromTopology(topo, p);
  }

  // ---------- With the source's key ----------

  /** The protocols the Center admits into the topology. */
  predicate IsProtocol(proto: string) {
    proto == "tcp" || proto == "udp" || proto == "icmp"
  }

  /** Items are probed together exactly when they name the same target, brackets aside. */
  lemma ItemsMergeExactly(i: Item, j: Item)
    requires IsProtocol(i.proto) && IsProtocol(j.proto)
    ensures KeyOf(ItemKey, i) == KeyOf(ItemKey, j) <==> Bare(i.ip) == Bare(j.ip) && i.port == j.port && i.proto == j.proto
  {
    KeysAgreeExactly(i.ip, i.port, i.proto, j.ip, j.port, j.proto);
  }

  /** The selection as handleBootstrap calls it. */
  method SelectBootstrapRoute(topo: seq<Node>, probeTimeoutMs: int, penalty: real,
                              draws: nat -> seq<Draw>, client: seq<ProbeItem> -> Option<seq<ProbeResult>>)
    returns (outcome: Outcome, sent: seq<ProbeItem>)
    requires forall n :: InRange(draws(n), n)
    ensures outcome.NoCandidate? || outcome.Chosen? ==>
              && Presents(ItemKey, topo, sent)
              && client(sent).Some?
              && DirectChoice(ItemKey, topo, AcceptedByKey(ItemKey, sent, client(sent).value, MaxRtt(probeTimeoutMs)), penalty,
                              if outcome.Chosen? then Some(outcome.node) else None)
    ensures outcome.Chosen? && IsPlain(topo) ==>
              HasLeastSum(ItemKey, topo, AcceptedByKey(ItemKey, sent, client(sent).value, MaxRtt(probeTimeoutMs)), outcome.node)
  {
    outcome, sent := SelectRoute(ItemKey, topo, probeTimeoutMs, penalty, draws, client);
  }
}
