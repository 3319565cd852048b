/** detection/investigate.py, plan_requests: which questions one agent asks its
    peers this round. */
module Planning {
  import opened Prelude
  import opened Graphs
  import opened Topology
  import opened Contract

  datatype Lead = Lead(name: Node, seenAt: Option<Time>)

  /** Everything plan_requests reads besides the topology. */
  datatype Query = Query(domain: string, finding: Option<Finding>, peers: seq<Finding>, catalog: Catalog,
                         windowStart: Time, windowEnd: Time, alarm: seq<Node>, leads: seq<Lead>, asked: set<RequestId>)

  datatype Anchor = Anchor(node: Node, firstSeen: Time, signals: seq<string>, origin: Origin)

  // ------------------------------------------------------------------ anchors

  function EvidenceAnchors(t: Names, rows: seq<Row>): seq<Anchor> {
    if rows == [] then [] else
      var r := rows[|rows| - 1];
      var rest := EvidenceAnchors(t, rows[..|rows| - 1]);
      if r.entity.kind != "" && r.entity.id != "" && ResolveIn(t, r.entity).Some?
      then rest + [Anchor(ResolveIn(t, r.entity).value, r.firstSeen, r.signals, FromEvidence)] else rest
  }

  function LeadAnchors(t: Names, leads: seq<Lead>, windowEnd: Time): seq<Anchor> {
    if leads == [] then [] else
      var l := leads[|leads| - 1];
      var rest := LeadAnchors(t, leads[..|leads| - 1], windowEnd);
      if ResolveIn(t, l.name).Some?
      then rest + [Anchor(ResolveIn(t, l.name).value, if l.seenAt.Some? then l.seenAt.value else windowEnd, [], FromLead)]
      else rest
  }

  function Probes(c: Catalog, kind: string): seq<string> {
    if kind in c.probes then c.probes[kind] else []
  }

  function AlarmAnchors(t: Names, q: Query, anchored: set<Node>, alarm: seq<Node>): seq<Anchor> {
    if alarm == [] then [] else
      var e := alarm[|alarm| - 1];
      var rest := AlarmAnchors(t, q, anchored, alarm[..|alarm| - 1]);
      if ResolveIn(t, e).Some? && ResolveIn(t, e).value !in anchored && q.domain in Probes(q.catalog, ResolveIn(t, e).value.kind)
      then rest + [Anchor(ResolveIn(t, e).value, q.windowEnd, [], FromAlarm)] else rest
  }

  function NodesOf(anchors: seq<Anchor>): set<Node> {
    set a | a in anchors :: a.node
  }

  function OwnRows(q: Query): seq<Row> {
    if q.finding.Some? && q.finding.value.anomaly then q.finding.value.evidence else []
  }

  /** The entities of this agent's own evidence, its leads, and the alarm's
      entities it can see and has not anchored already. */
  function Anchors(t: Names, q: Query): seq<Anchor> {
    OwnAnchors(t, q) + AlarmAnchors(t, q, NodesOf(OwnAnchors(t, q)), q.alarm)
  }

  predicate OfRow(t: Names, q: Query, a: Anchor) {
    q.finding.Some? && q.finding.value.anomaly &&
    exists r :: r in q.finding.value.evidence && r.entity.kind != "" && r.entity.id != "" && ResolveIn(t, r.entity) == Some(a.node) &&
                a == Anchor(a.node, r.firstSeen, r.signals, FromEvidence)
  }

  predicate OfLead(t: Names, q: Query, a: Anchor) {
    exists l :: l in q.leads && ResolveIn(t, l.name) == Some(a.node) &&
                a == Anchor(a.node, if l.seenAt.Some? then l.seenAt.value else q.windowEnd, [], FromLead)
  }

  ghost predicate OfAlarm(t: Names, q: Query, a: Anchor) {
    && (exists e :: e in q.alarm && ResolveIn(t, e) == Some(a.node))
    && a.node.kind in q.catalog.probes && q.domain in q.catalog.probes[a.node.kind]
    && a == Anchor(a.node, q.windowEnd, [], FromAlarm)
    && forall b :: OfRow(t, q, b) || OfLead(t, q, b) ==> b.node != a.node
  }

  function OriginRank(o: Origin): nat {
    match o
    case FromEvidence => 0
    case FromLead => 1
    case FromAlarm => 2
  }

  /** Which anchors there are: one for each resolvable evidence row of an anomalous
      finding, for each resolvable lead, and for the alarm's resolvable entities of
      a type this domain can see that neither names; in this order. */
  lemma AnchorsExact(t: Names, q: Query)
    ensures forall a :: a in Anchors(t, q) <==> OfRow(t, q, a) || OfLead(t, q, a) || OfAlarm(t, q, a)
    ensures forall i, j :: 0 <= i < j < |Anchors(t, q)| ==> OriginRank(Anchors(t, q)[i].origin) <= OriginRank(Anchors(t, q)[j].origin)
  {
    hide EvidenceAnchors, LeadAnchors, AlarmAnchors, OfRow, OfLead, OfAlarm, OriginRank;
    OwnExact(t, q);
    ViaAlarmExact(t, q);
    AnchorsInOrder(t, q);
  }

  function OwnAnchors(t: Names, q: Query): seq<Anchor> {
    EvidenceAnchors(t, OwnRows(q)) + LeadAnchors(t, q.leads, q.windowEnd)
  }

  lemma OwnExact(t: Names, q: Query)
    ensures forall a :: a in EvidenceAnchors(t, OwnRows(q)) <==> OfRow(t, q, a)
    ensures forall a :: a in LeadAnchors(t, q.leads, q.windowEnd) <==> OfLead(t, q, a)
    ensures forall a :: a in OwnAnchors(t, q) <==> OfRow(t, q, a) || OfLead(t, q, a)
  {
    hide EvidenceAnchors, LeadAnchors;
    EvidenceExact(t, OwnRows(q));
    LeadsExact(t, q.leads, q.windowEnd);
  }

  lemma ViaAlarmExact(t: Names, q: Query)
    ensures forall a :: a in AlarmAnchors(t, q, NodesOf(OwnAnchors(t, q)), q.alarm) <==> OfAlarm(t, q, a)
  {
    hide AlarmAnchors, OwnAnchors, OfRow, OfLead;
    OwnExact(t, q);
    AlarmExact(t, q, NodesOf(OwnAnchors(t, q)), q.alarm);
  }

  lemma AnchorsInOrder(t: Names, q: Query)
    ensures var all := Anchors(t, q); forall i, j :: 0 <= i < j < |all| ==> OriginRank(all[i].origin) <= OriginRank(all[j].origin)
  {
    hide EvidenceAnchors, LeadAnchors, AlarmAnchors;
    OwnExact(t, q);
    ViaAlarmExact(t, q);
    OneRank(EvidenceAnchors(t, OwnRows(q)), FromEvidence);
    OneRank(LeadAnchors(t, q.leads, q.windowEnd), FromLead);
    OneRank(AlarmAnchors(t, q, NodesOf(OwnAnchors(t, q)), q.alarm), FromAlarm);
    hide OfRow, OfLead, OfAlarm, NodesOf;
  }

  /** The row, lead or alarm entity each anchor is made of; None where there is none. */
  function RowAnchor(t: Names): Row -> Option<Anchor> {
    (r: Row) =>
      if r.entity.kind == "" || r.entity.id == "" || ResolveIn(t, r.entity).None? then None
      else Some(Anchor(ResolveIn(t, r.entity).value, r.firstSeen, r.signals, FromEvidence))
  }

  function LeadAnchor(t: Names, windowEnd: Time): Lead -> Option<Anchor> {
    (l: Lead) =>
      if ResolveIn(t, l.name).None? then None
      else Some(Anchor(ResolveIn(t, l.name).value, if l.seenAt.Some? then l.seenAt.value else windowEnd, [], FromLead))
  }

  function AlarmAnchor(t: Names, q: Query, own: seq<Anchor>): Node -> Option<Anchor> {
    (e: Node) =>
      var n := ResolveIn(t, e);
      if n.None? || (exists a :: a in own && a.node == n.value) || n.value.kind !in q.catalog.probes ||
         q.domain !in q.catalog.probes[n.value.kind] then None
      else Some(Anchor(n.value, q.windowEnd, [], FromAlarm))
  }

  /** The anchors come in the order of the rows, leads and alarm entities they are
      made of, one for each that makes one. */
  lemma AnchorsInSourceOrder(t: Names, q: Query)
    ensures var rows := if q.finding.Some? && q.finding.value.anomaly then q.finding.value.evidence else [];
            var own := Picked(rows, RowAnchor(t)) + Picked(q.leads, LeadAnchor(t, q.windowEnd));
            Anchors(t, q) == own + Picked(q.alarm, AlarmAnchor(t, q, own))
  {
    RowsInOrder(t, OwnRows(q));
    LeadsInOrder(t, q.leads, q.windowEnd);
    AlarmInOrder(t, q, OwnAnchors(t, q), q.alarm);
  }

  lemma {:induction false} AlarmInOrder(t: Names, q: Query, own: seq<Anchor>, alarm: seq<Node>)
    ensures AlarmAnchors(t, q, NodesOf(own), alarm) == Picked(alarm, AlarmAnchor(t, q, own))
  {
    if alarm != [] {
      AlarmInOrder(t, q, own, alarm[..|alarm| - 1]);
    }
  }

  lemma {:induction false} RowsInOrder(t: Names, rows: seq<Row>)
    ensures EvidenceAnchors(t, rows) == Picked(rows, RowAnchor(t))
  {
    if rows != [] {
      RowsInOrder(t, rows[..|rows| - 1]);
    }
  }

  lemma {:induction false} LeadsInOrder(t: Names, leads: seq<Lead>, windowEnd: Time)
    ensures LeadAnchors(t, leads, windowEnd) == Picked(leads, LeadAnchor(t, windowEnd))
  {
    if leads != [] {
      LeadsInOrder(t, leads[..|leads| - 1], windowEnd);
    }
  }

  lemma OneRank(anchors: seq<Anchor>, o: Origin)
    requires forall a :: a in anchors ==> a.origin == o
    ensures forall i :: 0 <= i < |anchors| ==> anchors[i].origin == o
  {
    assert forall i :: 0 <= i < |anchors| ==> anchors[i] in anchors;
  }

  lemma {:induction false} EvidenceExact(t: Names, rows: seq<Row>)
    ensures forall a :: a in EvidenceAnchors(t, rows) <==>
              exists r :: r in rows && r.entity.kind != "" && r.entity.id != "" && ResolveIn(t, r.entity) == Some(a.node) &&
                          a == Anchor(a.node, r.firstSeen, r.signals, FromEvidence)
  {
    if rows != [] {
      EvidenceExact(t, rows[..|rows| - 1]);
      assert rows == rows[..|rows| - 1] + [rows[|rows| - 1]];
    }
  }

  lemma {:induction false} LeadsExact(t: Names, leads: seq<Lead>, windowEnd: Time)
    ensures forall a :: a in LeadAnchors(t, leads, windowEnd) <==>
              exists l :: l in leads && ResolveIn(t, l.name) == Some(a.node) &&
                          a == Anchor(a.node, if l.seenAt.Some? then l.seenAt.value else windowEnd, [], FromLead)
  {
    if leads != [] {
      LeadsExact(t, leads[..|leads| - 1], windowEnd);
      assert leads == leads[..|leads| - 1] + [leads[|leads| - 1]];
    }
  }

  lemma {:induction false} AlarmExact(t: Names, q: Query, anchored: set<Node>, alarm: seq<Node>)
    ensures forall a :: a in AlarmAnchors(t, q, anchored, alarm) <==>
              && (exists e :: e in alarm && ResolveIn(t, e) == Some(a.node))
              && a.node !in anchored && q.domain in Probes(q.catalog, a.node.kind)
              && a == Anchor(a.node, q.windowEnd, [], FromAlarm)
  {
    if alarm != [] {
      AlarmExact(t, q, anchored, alarm[..|alarm| - 1]);
      assert alarm == alarm[..|alarm| - 1] + [alarm[|alarm| - 1]];
    }
  }

  // --------------------------------------------------------------- candidates

  predicate Covered(t: Names, peers: seq<Finding>, domain: string, node: Node) {
    exists p :: p in peers && p.domain == domain && exists r :: r in p.evidence && ResolveIn(t, r.entity) == Some(node)
  }

  function StartFor(q: Query, a: Anchor): Time {
    (if a.firstSeen < q.windowStart then a.firstSeen else q.windowStart) - q.catalog.lookback
  }

  function IdFor(q: Query, a: Anchor, target: string, node: Node): RequestId {
    Scoped(target, node, StartFor(q, a), q.windowEnd)
  }

  /** A domain the agent may ask about `node`. */
  predicate Askable(t: Names, q: Query, target: string, node: Node) {
    && target in Probes(q.catalog, node.kind)
    && target != q.domain && target in q.catalog.domains
    && !Covered(t, q.peers, target, node)
  }

  /** The anchor gives a reason to ask `target` about `node`: it is the node or
      depends on it, and that very question is unasked. */
  ghost predicate Offers(t: Topo, q: Query, a: Anchor, target: string, node: Node) {
    && (node == a.node || Reaches(t.depends, a.node, node, q.catalog.maxHops))
    && Askable(t.names, q, target, node)
    && IdFor(q, a, target, node) !in q.asked
  }

  predicate Filters(node: Node, names: seq<string>, filters: seq<Node>) {
    |filters| == |names| && forall i :: 0 <= i < |names| ==> filters[i] == Node(node.kind, names[i])
  }

  /** The request that asks `target` about `node` on behalf of the anchor: over
      a window that reaches back `lookback` before the first symptom and the
      window start, along the best walk between them. */
  ghost predicate AsksFor(t: Topo, q: Query, a: Anchor, target: string, node: Node, r: Request) {
    && r.id == IdFor(q, a, target, node)
    && r.sender == q.domain && r.target == target && r.entity == node
    && r.start == StartFor(q, a) && r.end == q.windowEnd
    && r.anchor == a.node && r.origin == a.origin
    && IsBest(NodeLe, t.adjacent, a.node, node, r.path) && r.hops == |r.path| - 1
    && exists names :: AreAliases(t.names, node, names) && Filters(node, names, r.filters)
  }

  /** No anchor among the first `n` that offers the question is nearer than
      `hops`, and none before `j` is as near. */
  ghost predicate Nearest(t: Topo, q: Query, anchors: seq<Anchor>, n: nat, j: nat, target: string, node: Node, hops: nat)
    requires j < n <= |anchors|
  {
    forall i, p: seq<Node> |
      0 <= i < n && Offers(t, q, anchors[i], target, node) && IsBest(NodeLe, t.adjacent, anchors[i].node, node, p) ::
      hops <= |p| - 1 && (i < j ==> hops < |p| - 1)
  }

  /** `r` is the question of the first nearest anchor among the first `n`. */
  ghost predicate Justified(t: Topo, q: Query, anchors: seq<Anchor>, n: nat, r: Request)
    requires n <= |anchors|
  {
    exists j :: 0 <= j < n && Offers(t, q, anchors[j], r.target, r.entity)
      && AsksFor(t, q, anchors[j], r.target, r.entity, r) && Nearest(t, q, anchors, n, j, r.target, r.entity, r.hops)
  }

  ghost predicate Offered(t: Topo, q: Query, anchors: seq<Anchor>, n: nat, target: string, node: Node)
    requires n <= |anchors|
  {
    exists i :: 0 <= i < n && Offers(t, q, anchors[i], target, node)
  }

  /** The candidate kept for one (target, node) after the first `n` anchors. */
  ghost predicate Kept(t: Topo, q: Query, anchors: seq<Anchor>, n: nat, target: string, node: Node, c: Option<Request>)
    requires n <= |anchors|
  {
    && (c.Some? <==> Offered(t, q, anchors, n, target, node))
    && (c.Some? ==> c.value.target == target && c.value.entity == node && Justified(t, q, anchors, n, c.value))
  }

  lemma KeptWithout(t: Topo, q: Query, anchors: seq<Anchor>, n: nat, target: string, node: Node, c: Option<Request>)
    requires n < |anchors| && Kept(t, q, anchors, n, target, node, c)
    requires !Offers(t, q, anchors[n], target, node)
    ensures Kept(t, q, anchors, n + 1, target, node, c)
  {
    hide Offers, AsksFor, IsBest;
    if c.Some? {
      var j :| 0 <= j < n && Offers(t, q, anchors[j], target, node) &&
        AsksFor(t, q, anchors[j], target, node, c.value) && Nearest(t, q, anchors, n, j, target, node, c.value.hops);
      assert Nearest(t, q, anchors, n + 1, j, target, node, c.value.hops);
    }
  }

  /** An offer no nearer than the candidate is passed over. */
  lemma KeptOver(t: Topo, q: Query, anchors: seq<Anchor>, n: nat, target: string, node: Node, c: Request, path: seq<Node>)
    requires n < |anchors| && Kept(t, q, anchors, n, target, node, Some(c))
    requires Offers(t, q, anchors[n], target, node)
    requires IsBest(NodeLe, t.adjacent, anchors[n].node, node, path) && c.hops <= |path| - 1
    ensures Kept(t, q, anchors, n + 1, target, node, Some(c))
  {
    hide Offers, AsksFor;
    var j :| 0 <= j < n && Offers(t, q, anchors[j], target, node) &&
      AsksFor(t, q, anchors[j], target, node, c) && Nearest(t, q, anchors, n, j, target, node, c.hops);
    assert Nearest(t, q, anchors, n + 1, j, target, node, c.hops);
  }

  /** A domain listed twice under a type is asked once. */
  lemma KeptAlready(t: Topo, q: Query, anchors: seq<Anchor>, n: nat, target: string, node: Node, c: Option<Request>,
                    path: seq<Node>)
    requires n < |anchors| && Kept(t, q, anchors, n + 1, target, node, c)
    requires Offers(t, q, anchors[n], target, node) && IsBest(NodeLe, t.adjacent, anchors[n].node, node, path)
    ensures c.Some? && c.value.hops <= |path| - 1
  {
    assert Offered(t, q, anchors, n + 1, target, node);
    var j :| 0 <= j < n + 1 && Offers(t, q, anchors[j], target, node) &&
      AsksFor(t, q, anchors[j], target, node, c.value) && Nearest(t, q, anchors, n + 1, j, target, node, c.value.hops);
  }

  /** A nearer offer, or the first one, becomes the candidate. */
  lemma KeptNew(t: Topo, q: Query, anchors: seq<Anchor>, n: nat, target: string, node: Node, c: Option<Request>, r: Request)
    requires n < |anchors| && Kept(t, q, anchors, n, target, node, c)
    requires Offers(t, q, anchors[n], target, node) && AsksFor(t, q, anchors[n], target, node, r)
    requires c.Some? ==> r.hops < c.value.hops
    ensures Kept(t, q, anchors, n + 1, target, node, Some(r))
  {
    if c.Some? {
      var j :| 0 <= j < n && Offers(t, q, anchors[j], target, node) &&
        AsksFor(t, q, anchors[j], target, node, c.value) && Nearest(t, q, anchors, n, j, target, node, c.value.hops);
    }
    forall i, p: seq<Node> | 0 <= i < n + 1 && Offers(t, q, anchors[i], target, node) &&
      IsBest(NodeLe, t.adjacent, anchors[i].node, node, p)
      ensures r.hops <= |p| - 1 && (i < n ==> r.hops < |p| - 1)
    {
      if i == n {
        NodeOrder();
        BestUnique(NodeLe, t.adjacent, anchors[n].node, node, p, r.path);
      }
    }
    assert Nearest(t, q, anchors, n + 1, n, target, node, r.hops);
  }

  // ----------------------------------------------------------------- ordering

  /** sorted(..., key=(hops, 0), target, entity type, entity id). */
  predicate RequestLe(a: Request, b: Request) {
    if a.hops != b.hops then a.hops < b.hops
    else if a.target != b.target then StrLe(a.target, b.target)
    else NodeLe(a.entity, b.entity)
  }

  lemma RequestOrder()
    ensures Preorder(RequestLe)
  {
    StringOrder();
    NodeOrder();
  }

  /** What the round could ask, before the cap: one request per (target, node)
      exactly when some anchor offers it, each the first nearest anchor's. */
  ghost predicate Complete(t: Topo, q: Query, all: seq<Request>) {
    var anchors := Anchors(t.names, q);
    && (forall i, j :: 0 <= i < j < |all| ==> all[i].target != all[j].target || all[i].entity != all[j].entity)
    && (forall r :: r in all ==> Justified(t, q, anchors, |anchors|, r))
    && (forall target, node :: Offered(t, q, anchors, |anchors|, target, node) <==>
                               exists r :: r in all && r.target == target && r.entity == node)
  }

  /** The plan of a round: everything there is to ask, nearest first, as far as
      the catalog's cap allows. */
  ghost predicate IsPlan(t: Topo, q: Query, out: seq<Request>) {
    exists all :: Complete(t, q, all) && SortedBy(RequestLe, all) && out == Take(all, q.catalog.maxRequests)
  }

  // ------------------------------------------------------------------ methods

  type Candidates = map<(string, Node), Request>

  function Known(cs: Candidates, target: string, node: Node): Option<Request> {
    if (target, node) in cs then Some(cs[(target, node)]) else None
  }

  lemma NoAnchors(t: Names, q: Query)
    ensures EvidenceAnchors(t, []) == [] && LeadAnchors(t, [], q.windowEnd) == []
  {
  }

  lemma NoAlarmAnchors(t: Names, q: Query, anchored: set<Node>)
    ensures AlarmAnchors(t, q, anchored, []) == []
  {
  }

  lemma EvidenceNext(t: Names, rows: seq<Row>, i: nat)
    requires i < |rows|
    ensures EvidenceAnchors(t, rows[..i + 1]) == EvidenceAnchors(t, rows[..i]) +
            if rows[i].entity.kind != "" && rows[i].entity.id != "" && ResolveIn(t, rows[i].entity).Some?
            then [Anchor(ResolveIn(t, rows[i].entity).value, rows[i].firstSeen, rows[i].signals, FromEvidence)] else []
  {
    assert rows[..i + 1][..i] == rows[..i];
  }

  lemma LeadNext(t: Names, q: Query, i: nat)
    requires i < |q.leads|
    ensures var l := q.leads[i];
            LeadAnchors(t, q.leads[..i + 1], q.windowEnd) == LeadAnchors(t, q.leads[..i], q.windowEnd) +
            if ResolveIn(t, l.name).Some?
            then [Anchor(ResolveIn(t, l.name).value, if l.seenAt.Some? then l.seenAt.value else q.windowEnd, [], FromLead)] else []
  {
    assert q.leads[..i + 1][..i] == q.leads[..i];
  }

  lemma AlarmNext(t: Names, q: Query, anchored: set<Node>, i: nat)
    requires i < |q.alarm|
    ensures var n := ResolveIn(t, q.alarm[i]);
            AlarmAnchors(t, q, anchored, q.alarm[..i + 1]) == AlarmAnchors(t, q, anchored, q.alarm[..i]) +
            if n.Some? && n.value !in anchored && q.domain in Probes(q.catalog, n.value.kind)
            then [Anchor(n.value, q.windowEnd, [], FromAlarm)] else []
  {
    assert q.alarm[..i + 1][..i] == q.alarm[..i];
  }

  method CollectAnchors(graph: TopologyGraph, q: Query) returns (anchors: seq<Anchor>)
    ensures anchors == Anchors(graph.View().names, q)
  {
    hide EvidenceAnchors, LeadAnchors, AlarmAnchors, NodesOf;
    ghost var t := graph.View().names;
    NoAnchors(t, q);
    anchors := [];
    var rows := OwnRows(q);
    for i := 0 to |rows|
      invariant anchors == EvidenceAnchors(t, rows[..i])
    {
      EvidenceNext(t, rows, i);
      if rows[i].entity.kind != "" && rows[i].entity.id != "" {
        var node := graph.Resolve(rows[i].entity);
        if node.Some? {
          anchors := anchors + [Anchor(node.value, rows[i].firstSeen, rows[i].signals, FromEvidence)];
        }
      }
    }
    assert rows[..|rows|] == rows;
    ghost var evidence := anchors;
    assert anchors == evidence + LeadAnchors(t, q.leads[..0], q.windowEnd);
    for i := 0 to |q.leads|
      invariant anchors == evidence + LeadAnchors(t, q.leads[..i], q.windowEnd)
    {
      LeadNext(t, q, i);
      var node := graph.Resolve(q.leads[i].name);
      if node.Some? {
        var seenAt := if q.leads[i].seenAt.Some? then q.leads[i].seenAt.value else q.windowEnd;
        anchors := anchors + [Anchor(node.value, seenAt, [], FromLead)];
      }
    }
    assert q.leads[..|q.leads|] == q.leads;
    ghost var own := anchors;
    var anchored := NodesOf(anchors);
    NoAlarmAnchors(t, q, anchored);
    assert anchors == own + AlarmAnchors(t, q, anchored, q.alarm[..0]);
    for i := 0 to |q.alarm|
      invariant anchors == own + AlarmAnchors(t, q, anchored, q.alarm[..i])
    {
      AlarmNext(t, q, anchored, i);
      var node := graph.Resolve(q.alarm[i]);
      if node.Some? && node.value !in anchored && q.domain in Probes(q.catalog, node.value.kind) {
        anchors := anchors + [Anchor(node.value, q.windowEnd, [], FromAlarm)];
      }
    }
    assert q.alarm[..|q.alarm|] == q.alarm;
  }

  lemma OffersWhen(t: Topo, q: Query, a: Anchor, target: string, node: Node)
    requires node == a.node || Reaches(t.depends, a.node, node, q.catalog.maxHops)
    ensures Offers(t, q, a, target, node) <==>
            && target in Probes(q.catalog, node.kind) && target != q.domain && target in q.catalog.domains
            && !Covered(t.names, q.peers, target, node) && IdFor(q, a, target, node) !in q.asked
  {
  }

  method MakeRequest(graph: TopologyGraph, q: Query, anchor: Anchor, target: string, node: Node, path: seq<Node>)
    returns (r: Request)
    requires IsBest(NodeLe, graph.adjacent, anchor.node, node, path)
    ensures AsksFor(graph.View(), q, anchor, target, node, r) && r.hops == |path| - 1
  {
    hide AreAliases;
    var start := StartFor(q, anchor);
    var names := graph.Aliases(node);
    var filters := seq(|names|, k requires 0 <= k < |names| => Node(node.kind, names[k]));
    r := Request(RequestId.Scoped(target, node, start, q.windowEnd), q.domain, target, node, filters, start, q.windowEnd,
                 anchor.node, anchor.origin, path, |path| - 1);
    assert Filters(node, names, filters);
  }

  /** The candidate for one domain after anchor `n` is considered; a domain that
      was already considered under this anchor (listed twice) is passed over. */
  method AskOne(graph: TopologyGraph, q: Query, anchors: seq<Anchor>, n: nat, target: string, node: Node, path: seq<Node>,
                known: Option<Request>) returns (c: Option<Request>)
    requires n < |anchors| && target in Probes(q.catalog, node.kind)
    requires IsBest(NodeLe, graph.adjacent, anchors[n].node, node, path)
    requires node == anchors[n].node || Reaches(graph.depends, anchors[n].node, node, q.catalog.maxHops)
    requires Kept(graph.View(), q, anchors, n, target, node, known) || Kept(graph.View(), q, anchors, n + 1, target, node, known)
    ensures Kept(graph.View(), q, anchors, n + 1, target, node, c)
  {
    ghost var t := graph.View();
    var hops := |path| - 1;
    hide Kept, IsBest, Reaches, Covered, Offers, AsksFor, IdFor;
    ghost var firstTime := Kept(t, q, anchors, n, target, node, known);
    c := known;
    OffersWhen(t, q, anchors[n], target, node);
    if target == q.domain || target !in q.catalog.domains {
      if firstTime { KeptWithout(t, q, anchors, n, target, node, known); }
      return;
    }
    if Covered(graph.View().names, q.peers, target, node) {
      if firstTime { KeptWithout(t, q, anchors, n, target, node, known); }
      return;
    }
    if IdFor(q, anchors[n], target, node) in q.asked {
      if firstTime { KeptWithout(t, q, anchors, n, target, node, known); }
      return;
    }
    if known.Some? && known.value.hops <= hops {
      if firstTime { KeptOver(t, q, anchors, n, target, node, known.value, path); }
      return;
    }
    if !firstTime {
      KeptAlready(t, q, anchors, n, target, node, known, path);
    }
    var r := MakeRequest(graph, q, anchors[n], target, node, path);
    KeptNew(t, q, anchors, n, target, node, known, r);
    c := Some(r);
  }

  /** Asks every domain that can see `node`, on behalf of anchor `n`. */
  method AskAbout(graph: TopologyGraph, q: Query, anchors: seq<Anchor>, n: nat, node: Node, path: seq<Node>, cs: Candidates)
    returns (cs': Candidates)
    requires n < |anchors|
    requires IsBest(NodeLe, graph.adjacent, anchors[n].node, node, path)
    requires node == anchors[n].node || Reaches(graph.depends, anchors[n].node, node, q.catalog.maxHops)
    requires forall target :: Kept(graph.View(), q, anchors, n, target, node, Known(cs, target, node))
    ensures forall target :: Kept(graph.View(), q, anchors, n + 1, target, node, Known(cs', target, node))
    ensures forall target, other :: other != node ==> Known(cs', target, other) == Known(cs, target, other)
  {
    ghost var t := graph.View();
    var targets := Probes(q.catalog, node.kind);
    cs' := cs;
    hide Kept, IsBest, Reaches, Offers;
    for i := 0 to |targets|
      invariant forall target :: target !in targets[..i] ==> Kept(t, q, anchors, n, target, node, Known(cs', target, node))
      invariant forall target :: target in targets[..i] ==> Kept(t, q, anchors, n + 1, target, node, Known(cs', target, node))
      invariant forall target, other :: other != node ==> Known(cs', target, other) == Known(cs, target, other)
    {
      assert targets[..i + 1] == targets[..i] + [targets[i]];
      var c := AskOne(graph, q, anchors, n, targets[i], node, path, Known(cs', targets[i], node));
      if c.Some? {
        cs' := cs'[(targets[i], node) := c.value];
      }
    }
    assert targets[..|targets|] == targets;
    forall target | target !in targets
      ensures Kept(t, q, anchors, n + 1, target, node, Known(cs', target, node))
    {
      OffersWhen(t, q, anchors[n], target, node);
      KeptWithout(t, q, anchors, n, target, node, Known(cs', target, node));
    }
  }

  lemma {:induction false} NothingResolves(t: Names, q: Query, rows: seq<Row>, leads: seq<Lead>, alarm: seq<Node>)
    requires AliasSound(t) && t.nodes == map[]
    ensures EvidenceAnchors(t, rows) == [] && LeadAnchors(t, leads, q.windowEnd) == []
    ensures AlarmAnchors(t, q, {}, alarm) == []
    decreases |rows| + |leads| + |alarm|
  {
    forall name
      ensures ResolveIn(t, name).None?
    {
      ResolveSound(t, name);
    }
    if rows != [] {
      NothingResolves(t, q, rows[..|rows| - 1], leads, alarm);
    }
    if leads != [] {
      NothingResolves(t, q, rows, leads[..|leads| - 1], alarm);
    }
    if alarm != [] {
      NothingResolves(t, q, rows, leads, alarm[..|alarm| - 1]);
    }
  }

  /** The candidate table while anchor `n` is walked: `done` nodes are through. */
  ghost predicate Table(t: Topo, q: Query, anchors: seq<Anchor>, n: nat, done: set<Node>, cs: Candidates)
    requires n <= |anchors| && (done != {} ==> n < |anchors|)
  {
    && (forall target, node :: node !in done ==> Kept(t, q, anchors, n, target, node, Known(cs, target, node)))
    && (forall target, node :: node in done ==> Kept(t, q, anchors, n + 1, target, node, Known(cs, target, node)))
  }

  /** Nodes the walk does not reach, or that the anchor does not depend on, are
      offered nothing by it: skipping them loses no question. */
  lemma Skipped(t: Topo, q: Query, anchors: seq<Anchor>, n: nat, node: Node, cs: Candidates)
    requires WellFormed(t) && n < |anchors|
    requires !Within(t.adjacent, anchors[n].node, node, q.catalog.maxHops) ||
             (node != anchors[n].node && !Reaches(t.depends, anchors[n].node, node, q.catalog.maxHops))
    requires forall target :: Kept(t, q, anchors, n, target, node, Known(cs, target, node))
    ensures forall target :: Kept(t, q, anchors, n + 1, target, node, Known(cs, target, node))
  {
    forall target
      ensures Kept(t, q, anchors, n + 1, target, node, Known(cs, target, node))
    {
      if Offers(t, q, anchors[n], target, node) {
        if node == anchors[n].node {
          WithinZero(t.adjacent, node, node);
          WithinGrows(t.adjacent, node, node, 0, q.catalog.maxHops);
        } else {
          DependsIsNearby(t, anchors[n].node, node, q.catalog.maxHops);
        }
        assert false;
      }
      KeptWithout(t, q, anchors, n, target, node, Known(cs, target, node));
    }
  }

  lemma BestHops(r: Rel<Node>, a: Node, b: Node, p: seq<Node>)
    requires IsBest(NodeLe, r, a, b, p)
    ensures |p| == 1 <==> a == b
  {
    if a == b {
      assert Joins(r, a, a, [a]);
    }
  }

  lemma TablePick(t: Topo, q: Query, anchors: seq<Anchor>, n: nat, done: set<Node>, cs: Candidates, node: Node)
    requires n < |anchors| && Table(t, q, anchors, n, done, cs) && node !in done
    ensures forall target :: Kept(t, q, anchors, n, target, node, Known(cs, target, node))
  {
  }

  lemma TableDone(t: Topo, q: Query, anchors: seq<Anchor>, n: nat, done: set<Node>, cs: Candidates, node: Node, cs': Candidates)
    requires n < |anchors| && Table(t, q, anchors, n, done, cs)
    requires forall target :: Kept(t, q, anchors, n + 1, target, node, Known(cs', target, node))
    requires forall target, other :: other != node ==> Known(cs', target, other) == Known(cs, target, other)
    ensures Table(t, q, anchors, n, done + {node}, cs')
  {
    hide Kept;
  }

  lemma TableNext(t: Topo, q: Query, anchors: seq<Anchor>, n: nat, done: set<Node>, cs: Candidates)
    requires WellFormed(t) && n < |anchors| && Table(t, q, anchors, n, done, cs)
    requires forall node :: Within(t.adjacent, anchors[n].node, node, q.catalog.maxHops) ==> node in done
    ensures Table(t, q, anchors, n + 1, {}, cs)
  {
    forall target, node
      ensures Kept(t, q, anchors, n + 1, target, node, Known(cs, target, node))
    {
      if node !in done {
        Skipped(t, q, anchors, n, node, cs);
      }
    }
  }

  lemma TableComplete(t: Topo, q: Query, cs: Candidates, all: seq<Request>)
    requires Table(t, q, Anchors(t.names, q), |Anchors(t.names, q)|, {}, cs)
    requires NoDup(all) && forall r :: r in all <==> exists k :: k in cs && cs[k] == r
    ensures Complete(t, q, all)
  {
    var anchors := Anchors(t.names, q);
    var n := |anchors|;
    forall k | k in cs
      ensures cs[k].target == k.0 && cs[k].entity == k.1 && Justified(t, q, anchors, n, cs[k])
    {
      assert Kept(t, q, anchors, n, k.0, k.1, Known(cs, k.0, k.1));
    }
    forall target, node
      ensures Offered(t, q, anchors, n, target, node) <==> exists r :: r in all && r.target == target && r.entity == node
    {
      assert Kept(t, q, anchors, n, target, node, Known(cs, target, node));
      if Offered(t, q, anchors, n, target, node) {
        assert (target, node) in cs && cs[(target, node)] in all;
      }
    }
    forall i, j | 0 <= i < j < |all|
      ensures all[i].target != all[j].target || all[i].entity != all[j].entity
    {
      assert all[i] in all && all[j] in all;
      var k :| k in cs && cs[k] == all[i];
      var l :| l in cs && cs[l] == all[j];
    }
  }

  /** What one anchor asks: every node it walks to and depends on. */
  method WalkFrom(graph: TopologyGraph, q: Query, anchors: seq<Anchor>, n: nat, cs0: Candidates) returns (cs: Candidates)
    requires graph.Valid() && n < |anchors| && Table(graph.View(), q, anchors, n, {}, cs0)
    ensures Table(graph.View(), q, anchors, n + 1, {}, cs)
  {
    ghost var t := graph.View();
    hide Kept, Offers, IsBest, Within, Reaches, Table, Known;
    cs := cs0;
    var paths := graph.Walk(anchors[n].node, q.catalog.maxHops);
    var rest := paths.Keys;
    while rest != {}
      invariant rest <= paths.Keys && Table(t, q, anchors, n, paths.Keys - rest, cs)
    {
      var node :| node in rest;
      var hops := |paths[node]| - 1;
      BestHops(graph.adjacent, anchors[n].node, node, paths[node]);
      var depends := graph.DependsOn(anchors[n].node, node, q.catalog.maxHops);
      ghost var before := cs;
      TablePick(t, q, anchors, n, paths.Keys - rest, cs, node);
      if hops != 0 && !depends {
        Skipped(t, q, anchors, n, node, cs);
      } else {
        cs := AskAbout(graph, q, anchors, n, node, paths[node], cs);
      }
      TableDone(t, q, anchors, n, paths.Keys - rest, before, node, cs);
      assert paths.Keys - (rest - {node}) == paths.Keys - rest + {node};
      rest := rest - {node};
    }
    assert paths.Keys - {} == paths.Keys;
    TableNext(t, q, anchors, n, paths.Keys, cs);
  }

  method Values(cs: Candidates) returns (values: seq<Request>)
    requires forall k, l :: k in cs && l in cs && cs[k] == cs[l] ==> k == l
    ensures NoDup(values) && forall r :: r in values <==> exists k :: k in cs && cs[k] == r
  {
    values := [];
    var keys := cs.Keys;
    while keys != {}
      invariant keys <= cs.Keys && NoDup(values)
      invariant forall r :: r in values <==> exists k :: k in cs.Keys - keys && cs[k] == r
    {
      var k :| k in keys;
      assert cs[k] !in values;
      assert forall l :: l in cs.Keys - (keys - {k}) <==> l in cs.Keys - keys || l == k;
      values, keys := values + [cs[k]], keys - {k};
    }
  }

  lemma NothingKept(t: Topo, q: Query, anchors: seq<Anchor>)
    ensures Table(t, q, anchors, 0, {}, map[])
  {
    hide Offers;
  }

  method Gather(graph: TopologyGraph, q: Query) returns (cs: Candidates)
    requires graph.Valid()
    ensures var anchors := Anchors(graph.View().names, q);
            Table(graph.View(), q, anchors, |anchors|, {}, cs)
  {
    hide Anchors, Table, WellFormed;
    var anchors := CollectAnchors(graph, q);
    cs := map[];
    NothingKept(graph.View(), q, anchors);
    for i := 0 to |anchors|
      invariant Table(graph.View(), q, anchors, i, {}, cs)
    {
      cs := WalkFrom(graph, q, anchors, i, cs);
    }
  }

  lemma TableKeys(t: Topo, q: Query, cs: Candidates)
    requires Table(t, q, Anchors(t.names, q), |Anchors(t.names, q)|, {}, cs)
    ensures forall k :: k in cs ==> cs[k].target == k.0 && cs[k].entity == k.1
  {
    forall k | k in cs
      ensures cs[k].target == k.0 && cs[k].entity == k.1
    {
      assert Kept(t, q, Anchors(t.names, q), |Anchors(t.names, q)|, k.0, k.1, Known(cs, k.0, k.1));
    }
  }

  lemma EmptyPlan(t: Topo, q: Query)
    requires AliasSound(t.names) && t.names.nodes == map[]
    ensures Complete(t, q, [])
  {
    NothingResolves(t.names, q, OwnRows(q), q.leads, q.alarm);
    assert NodesOf([]) == {};
    assert Anchors(t.names, q) == [];
  }

  method PlanRequests(q: Query, topology: Option<Response>) returns (out: seq<Request>)
    ensures IsPlan(Built(topology, q.catalog.relationships), q, out)
  {
    var graph := TopologyGraph.Build(topology, q.catalog.relationships);
    ghost var t := graph.View();
    if !graph.NonEmpty() {
      EmptyPlan(t, q);
      out := [];
      assert out == Take([], q.catalog.maxRequests);
      return;
    }
    hide Table, Complete, Built, Kept;
    var cs := Gather(graph, q);
    TableKeys(t, q, cs);
    var values := Values(cs);
    RequestOrder();
    SortCorrect(RequestLe, values);
    var ordered := Sort(RequestLe, values);
    SameElements(ordered, values);
    NoDupPermutation(ordered, values);
    TableComplete(t, q, cs, ordered);
    out := Take(ordered, q.catalog.maxRequests);
  }

  /** A row of a peer of that domain names the node, by its id or any alias. */
  ghost predicate Reports(t: Names, peers: seq<Finding>, domain: string, node: Node) {
    exists p, row :: p in peers && p.domain == domain && row in p.evidence && ResolveIn(t, row.entity) == Some(node)
  }

  /** The window a question is asked over on behalf of an anchor: `lookback` before
      the anchor's first sight or the window start, whichever is earlier. */
  ghost predicate WindowFrom(q: Query, a: Anchor, start: Time) {
    && start + q.catalog.lookback <= a.firstSeen && start + q.catalog.lookback <= q.windowStart
    && (start + q.catalog.lookback == a.firstSeen || start + q.catalog.lookback == q.windowStart)
  }

  /** An anchor calls for the question: it is the entity or depends on it, and no
      such question over its window has been asked. */
  ghost predicate CallsFor(t: Topo, q: Query, a: Anchor, target: string, node: Node) {
    && (a.node == node || Reaches(t.depends, a.node, node, q.catalog.maxHops))
    && exists start :: WindowFrom(q, a, start) && Scoped(target, node, start, q.windowEnd) !in q.asked
  }

  /** Exactly which questions there are: a domain is asked about an entity if and
      only if it is another known domain that probes the entity's type, has no
      evidence on the entity under any of its names, and some anchor calls for it. */
  lemma AskedExactly(t: Topo, q: Query, all: seq<Request>, target: string, node: Node)
    requires Complete(t, q, all)
    ensures (exists r :: r in all && r.target == target && r.entity == node) <==>
            && node.kind in q.catalog.probes && target in q.catalog.probes[node.kind]
            && target != q.domain && target in q.catalog.domains
            && !Reports(t.names, q.peers, target, node)
            && exists a :: a in Anchors(t.names, q) && CallsFor(t, q, a, target, node)
  {
    hide Reaches, Justified;
    var anchors := Anchors(t.names, q);
    CoveredExactly(t.names, q.peers, target, node);
    assert (exists r :: r in all && r.target == target && r.entity == node) <==> Offered(t, q, anchors, |anchors|, target, node);
    forall i | 0 <= i < |anchors|
      ensures Offers(t, q, anchors[i], target, node) <==> Askable(t.names, q, target, node) && CallsFor(t, q, anchors[i], target, node)
    {
      assert WindowFrom(q, anchors[i], StartFor(q, anchors[i]));
    }
    assert forall i :: 0 <= i < |anchors| ==> anchors[i] in anchors;
  }

  lemma CoveredExactly(t: Names, peers: seq<Finding>, domain: string, node: Node)
    ensures Covered(t, peers, domain, node) <==> Reports(t, peers, domain, node)
  {
  }

  /** Naming the peers' evidence by other aliases of the same entities changes
      nothing in the plan. */
  lemma PlanIgnoresAliases(t: Topo, q: Query, peers: seq<Finding>, out: seq<Request>)
    requires |peers| == |q.peers|
    requires forall i :: 0 <= i < |peers| ==>
               && peers[i].domain == q.peers[i].domain && |peers[i].evidence| == |q.peers[i].evidence|
               && forall j :: 0 <= j < |peers[i].evidence| ==>
                    ResolveIn(t.names, peers[i].evidence[j].entity) == ResolveIn(t.names, q.peers[i].evidence[j].entity)
    ensures IsPlan(t, q, out) <==> IsPlan(t, q.(peers := peers), out)
  {
    var q' := q.(peers := peers);
    forall target, node
      ensures Covered(t.names, q.peers, target, node) <==> Covered(t.names, peers, target, node)
    {
      ReportsAlias(t.names, q.peers, peers, target, node);
      ReportsAlias(t.names, peers, q.peers, target, node);
      CoveredExactly(t.names, q.peers, target, node);
      CoveredExactly(t.names, peers, target, node);
    }
    SameAnchors(t.names, q, q');
    forall a, target, node
      ensures Offers(t, q, a, target, node) <==> Offers(t, q', a, target, node)
    {
    }
    forall all
      ensures Complete(t, q, all) <==> Complete(t, q', all)
    {
      SameComplete(t, q, q', all);
      SameComplete(t, q', q, all);
    }
  }

  lemma ReportsAlias(t: Names, peers: seq<Finding>, others: seq<Finding>, domain: string, node: Node)
    requires |peers| == |others|
    requires forall i :: 0 <= i < |peers| ==>
               && peers[i].domain == others[i].domain && |peers[i].evidence| == |others[i].evidence|
               && forall j :: 0 <= j < |peers[i].evidence| ==>
                    ResolveIn(t, peers[i].evidence[j].entity) == ResolveIn(t, others[i].evidence[j].entity)
    ensures Reports(t, peers, domain, node) ==> Reports(t, others, domain, node)
  {
    if Reports(t, peers, domain, node) {
      var p, row :| p in peers && p.domain == domain && row in p.evidence && ResolveIn(t, row.entity) == Some(node);
      var i :| 0 <= i < |peers| && peers[i] == p;
      var j :| 0 <= j < |p.evidence| && p.evidence[j] == row;
      assert others[i] in others && others[i].evidence[j] in others[i].evidence;
    }
  }

  lemma {:induction false} SameAlarmAnchors(t: Names, q: Query, q': Query, anchored: set<Node>, alarm: seq<Node>)
    requires q' == q.(peers := q'.peers)
    ensures AlarmAnchors(t, q, anchored, alarm) == AlarmAnchors(t, q', anchored, alarm)
  {
    if alarm != [] {
      SameAlarmAnchors(t, q, q', anchored, alarm[..|alarm| - 1]);
    }
  }

  lemma SameAnchors(t: Names, q: Query, q': Query)
    requires q' == q.(peers := q'.peers)
    ensures Anchors(t, q) == Anchors(t, q')
  {
    SameAlarmAnchors(t, q, q', NodesOf(OwnAnchors(t, q)), q.alarm);
  }

  lemma SameComplete(t: Topo, q: Query, q': Query, all: seq<Request>)
    requires q' == q.(peers := q'.peers) && Anchors(t.names, q) == Anchors(t.names, q')
    requires forall a, target, node :: Offers(t, q, a, target, node) <==> Offers(t, q', a, target, node)
    ensures Complete(t, q, all) ==> Complete(t, q', all)
  {
    var anchors := Anchors(t.names, q);
    hide Offers, IsBest, AreAliases;
    forall r | r in all && Complete(t, q, all)
      ensures Justified(t, q', anchors, |anchors|, r)
    {
      var j :| 0 <= j < |anchors| && Offers(t, q, anchors[j], r.target, r.entity)
        && AsksFor(t, q, anchors[j], r.target, r.entity, r) && Nearest(t, q, anchors, |anchors|, j, r.target, r.entity, r.hops);
      assert AsksFor(t, q', anchors[j], r.target, r.entity, r);
      assert Nearest(t, q', anchors, |anchors|, j, r.target, r.entity, r.hops);
    }
    forall target, node
      ensures Offered(t, q, anchors, |anchors|, target, node) <==> Offered(t, q', anchors, |anchors|, target, node)
    {
    }
  }

  /** What the answering side relies on: a question is never put to the asker, to
      an unknown domain, to one that already reports the entity or twice; it is
      asked for an anchor, over that anchor's window up to the window end; it lists
      the entity's names; its path is a simple chain from the anchor to the entity. */
  lemma PlannedRequest(t: Topo, q: Query, all: seq<Request>, r: Request)
    requires Complete(t, q, all) && r in all
    ensures r.id !in q.asked && r.sender == q.domain && r.target != q.domain && r.target in q.catalog.domains
    ensures r.entity.kind in q.catalog.probes && r.target in q.catalog.probes[r.entity.kind]
    ensures !Reports(t.names, q.peers, r.target, r.entity)
    ensures r.id == Scoped(r.target, r.entity, r.start, r.end) && r.end == q.windowEnd
    ensures exists a :: a in Anchors(t.names, q) && a.node == r.anchor && a.origin == r.origin && WindowFrom(q, a, r.start)
    ensures r.filters != [] && r.filters[0] == r.entity && NoDup(r.filters)
    ensures forall n :: n in r.filters <==> n == r.entity || (n.kind == r.entity.kind && n.id != "" && Labelled(t.names, r.entity, n.id))
    ensures Joins(t.adjacent, r.anchor, r.entity, r.path) && NoDup(r.path) && r.hops == |r.path| - 1
    ensures r.hops > 0 ==> Reaches(t.depends, r.anchor, r.entity, q.catalog.maxHops)
    ensures forall s :: s in all && s.id == r.id ==> s == r
  {
    hide Joins, Reaches, Labelled, NoDup;
    var anchors := Anchors(t.names, q);
    var j :| 0 <= j < |anchors| && Offers(t, q, anchors[j], r.target, r.entity) && AsksFor(t, q, anchors[j], r.target, r.entity, r);
    assert anchors[j] in anchors && WindowFrom(q, anchors[j], r.start);
    CoveredExactly(t.names, q.peers, r.target, r.entity);
    BestJoins(t.adjacent, r.anchor, r.entity, r.path);
    var names :| AreAliases(t.names, r.entity, names) && Filters(r.entity, names, r.filters);
    FiltersTold(t.names, r.entity, names, r.filters);
    forall s | s in all && s.id == r.id
      ensures s == r
    {
      SameIdSame(t, q, all, r, s);
    }
  }

  lemma BestJoins(r: Rel<Node>, a: Node, b: Node, p: seq<Node>)
    requires IsBest(NodeLe, r, a, b, p)
    ensures Joins(r, a, b, p) && NoDup(p) && (|p| > 1 ==> a != b)
  {
    BestIsSimple(r, a, b, p);
    BestHops(r, a, b, p);
  }

  lemma SameIdSame(t: Topo, q: Query, all: seq<Request>, r: Request, s: Request)
    requires Complete(t, q, all) && r in all && s in all && s.id == r.id
    ensures s == r
  {
    hide Offers;
    var anchors := Anchors(t.names, q);
    assert Justified(t, q, anchors, |anchors|, r) && Justified(t, q, anchors, |anchors|, s);
  }

  lemma FiltersTold(t: Names, node: Node, names: seq<string>, filters: seq<Node>)
    requires AreAliases(t, node, names) && Filters(node, names, filters)
    ensures filters != [] && filters[0] == node && NoDup(filters)
    ensures forall n :: n in filters <==> n == node || (n.kind == node.kind && n.id != "" && Labelled(t, node, n.id))
  {
    hide Labelled;
    assert names == [names[0]] + names[1..];
    forall n
      ensures n in filters <==> n.kind == node.kind && n.id in names
    {
      if n in filters {
        var i :| 0 <= i < |filters| && filters[i] == n;
        assert names[i] in names;
      }
      if n.kind == node.kind && n.id in names {
        var i :| 0 <= i < |names| && names[i] == n.id;
        assert filters[i] == n;
      }
    }
  }

  /** In what order they are sent: nearer first, then by domain, then by entity. */
  lemma PlanOrder(t: Topo, q: Query, out: seq<Request>, i: nat, j: nat)
    requires IsPlan(t, q, out) && i < j < |out|
    ensures var a, b := out[i], out[j];
            || a.hops < b.hops
            || (a.hops == b.hops && a.target != b.target && StrLe(a.target, b.target))
            || (a.hops == b.hops && a.target == b.target && a.entity.kind != b.entity.kind && StrLe(a.entity.kind, b.entity.kind))
            || (a.hops == b.hops && a.target == b.target && a.entity.kind == b.entity.kind && StrLe(a.entity.id, b.entity.id))
  {
    var all :| Complete(t, q, all) && SortedBy(RequestLe, all) && out == Take(all, q.catalog.maxRequests);
    assert RequestLe(all[i], all[j]);
  }

  /** No question is lost: one that an anchor offers is asked, over no more hops
      than from that anchor; or the plan is full of questions no farther. */
  lemma PlanKeepsNearest(t: Topo, q: Query, out: seq<Request>, i: nat, target: string, node: Node, path: seq<Node>)
    requires IsPlan(t, q, out) && i < |Anchors(t.names, q)|
    requires Offers(t, q, Anchors(t.names, q)[i], target, node)
    requires IsBest(NodeLe, t.adjacent, Anchors(t.names, q)[i].node, node, path)
    ensures (exists r :: r in out && r.target == target && r.entity == node && r.hops <= |path| - 1) ||
            (|out| == q.catalog.maxRequests && forall r :: r in out ==> r.hops <= |path| - 1)
  {
    var all :| Complete(t, q, all) && SortedBy(RequestLe, all) && out == Take(all, q.catalog.maxRequests);
    var c := NearestAsked(t, q, all, i, target, node, path);
    hide Complete, Offers, IsBest;
    if c !in out {
      forall r | r in out
        ensures r.hops <= c.hops
      {
        CapKeepsNearest(all, q.catalog.maxRequests, r, c);
      }
    }
  }

  lemma NearestAsked(t: Topo, q: Query, all: seq<Request>, i: nat, target: string, node: Node, path: seq<Node>) returns (c: Request)
    requires Complete(t, q, all) && i < |Anchors(t.names, q)|
    requires Offers(t, q, Anchors(t.names, q)[i], target, node)
    requires IsBest(NodeLe, t.adjacent, Anchors(t.names, q)[i].node, node, path)
    ensures c in all && c.target == target && c.entity == node && c.hops <= |path| - 1
  {
    hide Offers, IsBest, AsksFor;
    var anchors := Anchors(t.names, q);
    assert Offered(t, q, anchors, |anchors|, target, node);
    c :| c in all && c.target == target && c.entity == node;
    assert Justified(t, q, anchors, |anchors|, c);
  }

  lemma CapKeepsNearest(all: seq<Request>, n: nat, kept: Request, cut: Request)
    requires SortedBy(RequestLe, all) && kept in Take(all, n) && cut in all && cut !in Take(all, n)
    ensures kept.hops <= cut.hops
  {
    var i :| 0 <= i < |Take(all, n)| && Take(all, n)[i] == kept;
    var j :| 0 <= j < |all| && all[j] == cut;
    assert forall m :: 0 <= m < |Take(all, n)| ==> Take(all, n)[m] == all[m];
    assert j >= |Take(all, n)|;
    assert RequestLe(all[i], all[j]);
  }

  /** With every earlier id among the asked ones, a question about the same
      entity only comes back over a different window. */
  lemma RepeatedOnlyOverAnotherWindow(t: Topo, q: Query, all: seq<Request>, q': Query, later: seq<Request>,
                                      r: Request, r': Request)
    requires Complete(t, q, all) && Complete(t, q', later) && r in all && r' in later
    requires forall s :: s in all ==> s.id in q'.asked
    requires r'.target == r.target && r'.entity == r.entity && r'.end == r.end
    ensures r'.start != r.start
  {
    PlannedRequest(t, q', later, r');
    var anchors, anchors' := Anchors(t.names, q), Anchors(t.names, q');
    var i :| 0 <= i < |anchors| && AsksFor(t, q, anchors[i], r.target, r.entity, r);
    var j :| 0 <= j < |anchors'| && AsksFor(t, q', anchors'[j], r'.target, r'.entity, r');
  }

  lemma AliasesUnique(t: Names, node: Node, a: seq<string>, b: seq<string>)
    requires AreAliases(t, node, a) && AreAliases(t, node, b)
    ensures a == b
  {
    StringOrder();
    SortedUnique(StrLe, a[1..], b[1..]);
    assert a == [a[0]] + a[1..] && b == [b[0]] + b[1..];
  }

  lemma AsksForUnique(t: Topo, q: Query, a: Anchor, target: string, node: Node, r: Request, s: Request)
    requires AsksFor(t, q, a, target, node, r) && AsksFor(t, q, a, target, node, s)
    ensures r == s
  {
    NodeOrder();
    BestUnique(NodeLe, t.adjacent, a.node, node, r.path, s.path);
    var names :| AreAliases(t.names, node, names) && Filters(node, names, r.filters);
    var others :| AreAliases(t.names, node, others) && Filters(node, others, s.filters);
    AliasesUnique(t.names, node, names, others);
    assert r.filters == s.filters;
  }

  lemma JustifiedUnique(t: Topo, q: Query, anchors: seq<Anchor>, n: nat, r: Request, s: Request)
    requires n <= |anchors| && Justified(t, q, anchors, n, r) && Justified(t, q, anchors, n, s)
    requires r.target == s.target && r.entity == s.entity
    ensures r == s
  {
    var i :| 0 <= i < n && Offers(t, q, anchors[i], r.target, r.entity)
             && AsksFor(t, q, anchors[i], r.target, r.entity, r) && Nearest(t, q, anchors, n, i, r.target, r.entity, r.hops);
    var j :| 0 <= j < n && Offers(t, q, anchors[j], s.target, s.entity)
             && AsksFor(t, q, anchors[j], s.target, s.entity, s) && Nearest(t, q, anchors, n, j, s.target, s.entity, s.hops);
    hide Offers;
    assert IsBest(NodeLe, t.adjacent, anchors[i].node, r.entity, r.path);
    assert IsBest(NodeLe, t.adjacent, anchors[j].node, r.entity, s.path);
    assert i == j;
    AsksForUnique(t, q, anchors[i], r.target, r.entity, r, s);
  }

  /** The plan is a function of what it is made from: in whatever order sets are
      read, the same questions come out in the same order. */
  lemma PlanUnique(t: Topo, q: Query, out: seq<Request>, other: seq<Request>)
    requires IsPlan(t, q, out) && IsPlan(t, q, other)
    ensures out == other
  {
    var all :| Complete(t, q, all) && SortedBy(RequestLe, all) && out == Take(all, q.catalog.maxRequests);
    var all' :| Complete(t, q, all') && SortedBy(RequestLe, all') && other == Take(all', q.catalog.maxRequests);
    CompleteUnique(t, q, all, all');
  }

  lemma CompleteUnique(t: Topo, q: Query, all: seq<Request>, other: seq<Request>)
    requires Complete(t, q, all) && SortedBy(RequestLe, all)
    requires Complete(t, q, other) && SortedBy(RequestLe, other)
    ensures all == other
  {
    OnlyInBoth(t, q, all, other);
    OnlyInBoth(t, q, other, all);
    forall x, y | x in all && y in all && RequestLe(x, y) && RequestLe(y, x)
      ensures x == y
    {
      SameRank(x, y);
    }
    hide Offered, Justified, RequestLe;
    SortedUnique(RequestLe, all, other);
  }

  lemma SameRank(x: Request, y: Request)
    requires RequestLe(x, y) && RequestLe(y, x)
    ensures x.target == y.target && x.entity == y.entity
  {
    StringOrder();
    NodeOrder();
  }

  lemma OnlyInBoth(t: Topo, q: Query, all: seq<Request>, other: seq<Request>)
    requires Complete(t, q, all) && Complete(t, q, other)
    ensures forall r :: r in all ==> r in other
    ensures NoDup(all) && forall x, y :: x in all && y in all && x.target == y.target && x.entity == y.entity ==> x == y
  {
    hide Offered, Justified;
    var anchors := Anchors(t.names, q);
    forall r | r in all
      ensures r in other
    {
      assert Offered(t, q, anchors, |anchors|, r.target, r.entity);
      var s :| s in other && s.target == r.target && s.entity == r.entity;
      JustifiedUnique(t, q, anchors, |anchors|, r, s);
    }
    forall x, y | x in all && y in all && x.target == y.target && x.entity == y.entity
      ensures x == y
    {
      JustifiedUnique(t, q, anchors, |anchors|, x, y);
    }
  }
}
