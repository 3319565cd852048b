/** detection/investigate.py, rank_causes: every entity with rule-fired evidence,
    scored on evidence, topology position, time precedence and role; and
    `placed` of detection/hypotheses.py, which reads the same topology. */
module Ranking {
  import opened Prelude
  import opened Graphs
  import opened Topology
  import opened Contract

  // ------------------------------------------------------------------ numbers

  /** round(x) on exact reals, ties to even. */
  function RoundHalfEven(x: real): int {
    var d := x - x.Floor as real;
    if d < 0.5 || (d == 0.5 && x.Floor % 2 == 0) then x.Floor else x.Floor + 1
  }

  /** round(x, 3): to the nearest thousandth. */
  function Round3(x: real): real {
    RoundHalfEven(x * 1000.0) as real / 1000.0
  }

  /** Rounding reaches `m` exactly from half a unit below it; at the half itself
      only when `m` is even. */
  predicate RoundsUpTo(x: real, m: int) {
    x > m as real - 0.5 || (x == m as real - 0.5 && m % 2 == 0)
  }

  lemma RoundAtLeast(x: real, m: int)
    ensures RoundHalfEven(x) >= m <==> RoundsUpTo(x, m)
  {
    var f := x.Floor;
    if f >= m {
      assert x >= m as real;
    } else if f < m - 1 {
      assert x < f as real + 1.0 <= m as real - 1.0;
    }
  }

  lemma Round3Monotone(x: real, y: real)
    requires x <= y
    ensures Round3(x) <= Round3(y)
  {
    RoundAtLeast(x * 1000.0, RoundHalfEven(x * 1000.0));
    RoundAtLeast(y * 1000.0, RoundHalfEven(x * 1000.0));
  }

  lemma Round3Near(x: real)
    ensures -0.0005 <= Round3(x) - x <= 0.0005
  {
    RoundAtLeast(x * 1000.0, RoundHalfEven(x * 1000.0));
    RoundAtLeast(x * 1000.0, RoundHalfEven(x * 1000.0) + 1);
  }

  lemma Round3Range(x: real)
    requires 0.0 <= x <= 1.0
    ensures 0.0 <= Round3(x) <= 1.0
  {
    assert Round3(0.0) == 0.0 && Round3(1.0) == 1.0;
    Round3Monotone(0.0, x);
    Round3Monotone(x, 1.0);
  }

  const PRECEDENCE_FULL_SECONDS := 300
  const PRECEDENCE_SLACK_SECONDS := 120
  const CONNECTED_ONLY := 0.1

  function Precedence(firstSeen: Time, onset: Time): real {
    var before := onset - firstSeen;
    if before < -PRECEDENCE_SLACK_SECONDS then 0.0
    else if before <= PRECEDENCE_FULL_SECONDS then 1.0
    else Round3(PRECEDENCE_FULL_SECONDS as real / before as real)
  }

  /** Precedence is full exactly from two minutes after the onset back to five
      minutes before it, none after that, and fades the further back a cause
      lies. */
  lemma PrecedenceShape(a: Time, b: Time, onset: Time)
    ensures 0.0 <= Precedence(a, onset) <= 1.0
    ensures Precedence(a, onset) == 0.0 <== a > onset + PRECEDENCE_SLACK_SECONDS
    ensures onset - PRECEDENCE_FULL_SECONDS <= a <= onset + PRECEDENCE_SLACK_SECONDS ==> Precedence(a, onset) == 1.0
    ensures a < onset - PRECEDENCE_FULL_SECONDS ==> Precedence(a, onset) < 1.0
    ensures a < onset - 300 ==> -0.0005 <= Precedence(a, onset) - 300.0 / (onset - a) as real <= 0.0005
    ensures a <= b <= onset + PRECEDENCE_SLACK_SECONDS ==> Precedence(a, onset) <= Precedence(b, onset)
  {
    var x, y := onset - a, onset - b;
    if x > 300 {
      Quotient(x);
      Round3Near(300.0 / x as real);
      if y > 300 && a <= b {
        Inverse(x as real, y as real);
        Round3Monotone(300.0 / x as real, 300.0 / y as real);
      }
      if y > 300 {
        Quotient(y);
      }
    }
  }

  lemma Inverse(x: real, y: real)
    requires 0.0 < y <= x
    ensures 300.0 / x <= 300.0 / y
  {
    var p, q := 300.0 / x, 300.0 / y;
    assert p * x == 300.0 && q * y == 300.0;
    assert q * x >= q * y;
    assert (q - p) * x >= 0.0;
  }

  lemma Quotient(x: int)
    requires x > 300
    ensures 0.0 <= Round3(300.0 / x as real) < 1.0
  {
    var q := 300.0 / x as real;
    assert q * x as real == 300.0;
    assert 0.0 < q <= 300.0 / 301.0;
    Round3Monotone(0.0, q);
    Round3Monotone(q, 300.0 / 301.0);
    assert Round3(300.0 / 301.0) == 0.997;
  }

  // ------------------------------------------------------------------ records

  /** One evidence row that resolves, filed under its node and domain. */
  datatype Hit = Hit(node: Node, domain: string, confidence: real, signals: seq<string>, role: Option<Role>,
                     severity: Severity, firstSeen: Time, onset: Option<Time>, refs: seq<string>, via: Option<Via>) {
    function Key(): (Node, string) { (node, domain) }
    function Began(): Time { if onset.Some? then onset.value else firstSeen }
  }

  datatype Features = Features(evidence: real, topology: real, precedence: real, role: real)

  datatype RankedCause = RankedCause(id: nat, entity: Node, domain: string, signals: seq<string>, refs: seq<string>,
                                     firstSeen: Time, score: real, features: Features, chain: seq<Node>,
                                     viaValidation: bool, viaHypothesis: bool, aliases: seq<string>) {
    function Key(): (Node, string) { (entity, domain) }
  }

  function HitKey(h: Hit): (Node, string) { h.Key() }

  function RowHits(t: Names, f: Finding, rows: seq<Row>): seq<Hit> {
    if rows == [] then [] else
      var rest, r := RowHits(t, f, rows[..|rows| - 1]), rows[|rows| - 1];
      match ResolveIn(t, r.entity)
      case None => rest
      case Some(node) =>
        rest + [Hit(node, f.domain, f.confidence, r.signals, r.role, r.severity, r.firstSeen, r.onset, r.refs, r.via)]
  }

  /** The resolvable evidence rows of all findings, in order. */
  function Hits(t: Names, findings: seq<Finding>): seq<Hit> {
    if findings == [] then [] else
      Hits(t, findings[..|findings| - 1]) +
      RowHits(t, findings[|findings| - 1], findings[|findings| - 1].evidence)
  }

  // ------------------------------------------------------------------ targets

  function AlarmTargets(t: Names, alarm: seq<Node>): set<Node> {
    set e | e in alarm && ResolveIn(t, e).Some? :: ResolveIn(t, e).value
  }

  function SymptomTargets(hits: seq<Hit>): set<Node> {
    set h | h in hits && h.role == Some(Symptom) :: h.node
  }

  /** What the causes are ranked against: the alarm's entities or, without
      them, the entities showing symptoms. */
  function Targets(t: Names, findings: seq<Finding>, alarm: seq<Node>): set<Node> {
    if AlarmTargets(t, alarm) != {} then AlarmTargets(t, alarm) else SymptomTargets(Hits(t, findings))
  }

  method CollectTargets(graph: TopologyGraph, findings: seq<Finding>, alarm: seq<Node>) returns (nodes: set<Node>)
    ensures nodes == Targets(graph.View().names, findings, alarm)
  {
    hide Hits, AlarmTargets, SymptomTargets;
    nodes := ResolveAlarm(graph, alarm);
    if nodes != {} {
      return;
    }
    nodes := CollectSymptoms(graph, findings);
  }

  method ResolveAlarm(graph: TopologyGraph, alarm: seq<Node>) returns (nodes: set<Node>)
    ensures nodes == AlarmTargets(graph.View().names, alarm)
  {
    hide AlarmTargets;
    ghost var t := graph.View().names;
    nodes := {};
    NoAlarm(t);
    for i := 0 to |alarm|
      invariant nodes == AlarmTargets(t, alarm[..i])
    {
      assert alarm[..i + 1] == alarm[..i] + [alarm[i]];
      AlarmSnoc(t, alarm[..i], alarm[i]);
      var node := graph.Resolve(alarm[i]);
      if node.Some? {
        nodes := nodes + {node.value};
      }
    }
    assert alarm[..|alarm|] == alarm;
  }

  lemma NoAlarm(t: Names)
    ensures AlarmTargets(t, []) == {}
  {
  }

  lemma AlarmSnoc(t: Names, alarm: seq<Node>, e: Node)
    ensures AlarmTargets(t, alarm + [e]) == AlarmTargets(t, alarm) + (if ResolveIn(t, e).Some? then {ResolveIn(t, e).value} else {})
  {
    assert forall x :: x in alarm + [e] <==> x in alarm || x == e;
    forall n | n in AlarmTargets(t, alarm)
      ensures n in AlarmTargets(t, alarm + [e])
    {
      var x :| x in alarm && ResolveIn(t, x) == Some(n);
      assert x in alarm + [e];
    }
  }

  method CollectSymptoms(graph: TopologyGraph, findings: seq<Finding>) returns (nodes: set<Node>)
    ensures nodes == SymptomTargets(Hits(graph.View().names, findings))
  {
    ghost var t := graph.View().names;
    nodes := {};
    for i := 0 to |findings|
      invariant nodes == SymptomTargets(Hits(t, findings[..i]))
    {
      var f := findings[i];
      assert findings[..i + 1][..i] == findings[..i];
      for j := 0 to |f.evidence|
        invariant nodes == SymptomTargets(Hits(t, findings[..i]) + RowHits(t, f, f.evidence[..j]))
      {
        var row := f.evidence[j];
        assert f.evidence[..j + 1][..j] == f.evidence[..j];
        ghost var before := Hits(t, findings[..i]) + RowHits(t, f, f.evidence[..j]);
        ghost var after := Hits(t, findings[..i]) + RowHits(t, f, f.evidence[..j + 1]);
        assert ResolveIn(t, row.entity).Some? ==> after == before + [after[|after| - 1]];
        if row.role == Some(Symptom) {
          var node := graph.Resolve(row.entity);
          if node.Some? {
            nodes := nodes + {node.value};
          }
        }
      }
      assert f.evidence[..|f.evidence|] == f.evidence;
    }
    assert findings[..|findings|] == findings;
  }

  // ----------------------------------------------------------------- topology

  ghost predicate Upstream(t: Topo, targets: set<Node>, node: Node, k: int) {
    exists x :: x in targets && Reaches(t.depends, x, node, k)
  }

  ghost predicate Nearby(t: Topo, targets: set<Node>, node: Node, k: int) {
    exists x :: x in targets && Within(t.adjacent, x, node, k)
  }

  /** The topology score: on the target, upstream of one, merely connected, or out of reach. */
  ghost function TopologyScore(t: Topo, targets: set<Node>, node: Node, k: int): real {
    if targets == {} then 0.5
    else if node in targets then 0.3
    else if Upstream(t, targets, node, k) then 1.0
    else if Nearby(t, targets, node, k) then CONNECTED_ONLY
    else 0.0
  }

  /** `p` is the best walk to `node` from a target, and no target is nearer. */
  ghost predicate FromNearest(t: Topo, targets: set<Node>, node: Node, k: int, p: seq<Node>) {
    && p != [] && |p| <= k + 1 && p[0] in targets && IsBest(NodeLe, t.adjacent, p[0], node, p)
    && forall x, q: seq<Node> :: x in targets && Joins(t.adjacent, x, node, q) ==> |p| <= |q|
  }

  ghost predicate ChainOf(t: Topo, targets: set<Node>, node: Node, k: int, chain: seq<Node>) {
    if node in targets || !Nearby(t, targets, node, k) then chain == []
    else exists p :: FromNearest(t, targets, node, k, p) && chain == Reverse(p)
  }

  /** A candidate that is no target, with targets present: topology 1.0 exactly
      when a target depends on it, 0.1 when it is only within reach, 0.0 out of
      reach; the chain is there exactly when topology is at least 0.1, and is a
      shortest simple chain of neighbours from the candidate to a nearest target. */
  lemma TopologyMeaning(t: Topo, targets: set<Node>, node: Node, k: nat, chain: seq<Node>)
    requires WellFormed(t) && targets != {} && node !in targets
    requires ChainOf(t, targets, node, k, chain)
    ensures TopologyScore(t, targets, node, k) == 1.0 <==> Upstream(t, targets, node, k)
    ensures TopologyScore(t, targets, node, k) >= CONNECTED_ONLY <==> chain != []
    ensures chain != [] ==>
              && chain[|chain| - 1] in targets && Joins(t.adjacent, node, chain[|chain| - 1], chain)
              && NoDup(chain) && 2 <= |chain| <= k + 1
              && (forall x, p :: x in targets && Joins(t.adjacent, node, x, p) ==> |chain| <= |p|)
  {
    if x :| x in targets && Reaches(t.depends, x, node, k) {
      DependsIsNearby(t, x, node, k);
      assert Nearby(t, targets, node, k);
    }
    if chain != [] {
      var p :| FromNearest(t, targets, node, k, p) && chain == Reverse(p);
      ReverseWalk(t.adjacent, p[0], node, p);
      BestIsSimple(t.adjacent, p[0], node, p);
      forall x, q | x in targets && Joins(t.adjacent, node, x, q)
        ensures |chain| <= |q|
      {
        ReverseWalk(t.adjacent, node, x, q);
      }
    }
  }

  /** Topology score and chain of one candidate. */
  method Position(graph: TopologyGraph, targets: set<Node>, node: Node, k: nat) returns (topo: real, chain: seq<Node>)
    requires graph.Valid()
    ensures topo == TopologyScore(graph.View(), targets, node, k)
    ensures ChainOf(graph.View(), targets, node, k, chain)
  {
    ghost var t := graph.View();
    chain := [];
    if targets == {} {
      topo := 0.5;
    } else if node in targets {
      topo := 0.3;
    } else {
      topo := 0.0;
      var best: Option<seq<Node>> := None;
      var rest := targets;
      while rest != {}
        invariant rest <= targets
        invariant topo == if Upstream(t, targets - rest, node, k) then 1.0 else 0.0
        invariant best.None? <==> !Nearby(t, targets - rest, node, k)
        invariant best.Some? ==> FromNearest(t, targets - rest, node, k, best.value)
      {
        var x :| x in rest;
        assert targets - (rest - {x}) == targets - rest + {x};
        var paths := graph.Walk(x, k);
        if node in paths && (best.None? || |paths[node]| < |best.value|) {
          best := Some(paths[node]);
        }
        var depends := graph.DependsOn(x, node, k);
        if depends {
          topo := 1.0;
        }
        rest := rest - {x};
      }
      assert targets - {} == targets;
      if best.Some? {
        chain := Reverse(best.value);
        topo := if topo < CONNECTED_ONLY then CONNECTED_ONLY else topo;
      }
    }
  }

  // ----------------------------------------------------------- group features

  function Latest(g: seq<Hit>): (r: Time)
    requires g != []
    ensures exists h :: h in g && r == h.Began()
    ensures forall h :: h in g ==> h.Began() <= r
  {
    if |g| == 1 then g[0].Began()
    else if g[0].Began() >= Latest(g[1..]) then g[0].Began() else Latest(g[1..])
  }

  function Earliest(g: seq<Hit>): (r: Time)
    requires g != []
    ensures exists h :: h in g && r == h.firstSeen
    ensures forall h :: h in g ==> r <= h.firstSeen
  {
    if |g| == 1 then g[0].firstSeen
    else if g[0].firstSeen <= Earliest(g[1..]) then g[0].firstSeen else Earliest(g[1..])
  }

  function SeverityScore(s: Severity): real {
    match s
    case Debug => 0.1
    case Info => 0.25
    case Warning => 0.5
    case Error => 0.75
    case Critical => 1.0
  }

  function Worst(g: seq<Hit>): (r: real)
    requires g != []
    ensures exists h :: h in g && r == SeverityScore(h.severity)
    ensures forall h :: h in g ==> SeverityScore(h.severity) <= r
  {
    var first := SeverityScore(g[0].severity);
    if |g| == 1 then first else if first >= Worst(g[1..]) then first else Worst(g[1..])
  }

  function GroupRole(g: seq<Hit>): Option<Role> {
    if exists h :: h in g && h.role == Some(Cause) then Some(Cause)
    else if exists h :: h in g && h.role == None then None
    else Some(Symptom)
  }

  function RoleScore(r: Option<Role>): real {
    match r
    case Some(Cause) => 1.0
    case None => 0.5
    case Some(Symptom) => 0.0
  }

  function SignalsOf(g: seq<Hit>): set<string> {
    set h, s | h in g && s in h.signals :: s
  }

  function AllRefs(g: seq<Hit>): seq<string> {
    if g == [] then [] else AllRefs(g[..|g| - 1]) + g[|g| - 1].refs
  }

  function Itself(s: string): string { s }

  /** At most two distinct signals count. */
  function EvidenceScore(severity: real, signals: nat, confidence: real): real {
    var raw := 0.5 * severity + 0.15 * (if signals < 2 then signals else 2) as real + 0.25 * confidence;
    if raw < 1.0 then raw else 1.0
  }

  function Total(w: Weights): real {
    var sum := w.evidence + w.topology + w.precedence + w.role;
    if sum == 0.0 then 1.0 else sum
  }

  function Part(weight: real, feature: real): real { weight * feature }

  function Score(w: Weights, f: Features): real {
    Parts(w, f) / Total(w)
  }

  function Parts(w: Weights, f: Features): real {
    Part(w.evidence, f.evidence) + Part(w.topology, f.topology) + Part(w.precedence, f.precedence) + Part(w.role, f.role)
  }

  // ------------------------------------------------------------------ ranking

  /** The earliest, over the groups on a target, of the group's latest episode. */
  ghost predicate StartsEpisode(hits: seq<Hit>, keys: seq<(Node, string)>, targets: set<Node>, onset: Time) {
    && (exists k :: k in keys && k.0 in targets && Members(HitKey, hits, k) != [] && onset == Latest(Members(HitKey, hits, k)))
    && (forall k :: k in keys && k.0 in targets && Members(HitKey, hits, k) != [] ==> onset <= Latest(Members(HitKey, hits, k)))
  }

  /** When the current trouble started: the earliest, over the alarmed groups,
      of a group's latest episode; without alarmed groups, the earliest symptom. */
  ghost predicate IsOnset(hits: seq<Hit>, targets: set<Node>, onset: Option<Time>) {
    var keys := Keys(HitKey, hits);
    if exists h :: h in hits && h.node in targets then
      onset.Some? && StartsEpisode(hits, keys, targets, onset.value)
    else if exists h :: h in hits && h.role == Some(Symptom) then
      && onset.Some?
      && (exists h :: h in hits && h.role == Some(Symptom) && onset.value == h.Began())
      && (forall h :: h in hits && h.role == Some(Symptom) ==> onset.value <= h.Began())
    else onset.None?
  }

  /** `c` is the cause made of one group of rows. */
  ghost predicate Scored(t: Topo, catalog: Catalog, targets: set<Node>, onset: Option<Time>, g: seq<Hit>, c: RankedCause) {
    && g != [] && c.Key() == g[0].Key()
    && SortedBy(StrLe, c.signals) && NoDup(c.signals) && (forall s :: s in c.signals <==> s in SignalsOf(g))
    && c.refs == Take(Keys(Itself, AllRefs(g)), 10)
    && c.firstSeen == Earliest(g)
    && c.features.evidence == Round3(EvidenceScore(Worst(g), |c.signals|, g[0].confidence))
    && c.features.topology == TopologyScore(t, targets, c.entity, catalog.maxHops)
    && ChainOf(t, targets, c.entity, catalog.maxHops, c.chain)
    && c.features.precedence == (if onset.Some? then Precedence(Latest(g), onset.value) else 0.5)
    && c.features.role == RoleScore(GroupRole(g))
    && c.score == Round3(Score(catalog.weights, c.features))
    && (c.viaValidation <==> exists h :: h in g && h.via == Some(Validation))
    && (c.viaHypothesis <==> exists h :: h in g && h.via == Some(Hypothesis))
    && AreAliases(t.names, c.entity, [c.entity.id] + c.aliases)
  }

  /** sorted(..., key=(-score, first_seen, entity type, entity id)). */
  predicate CauseLe(a: RankedCause, b: RankedCause) {
    if a.score != b.score then a.score > b.score
    else if a.firstSeen != b.firstSeen then a.firstSeen < b.firstSeen
    else NodeLe(a.entity, b.entity)
  }

  lemma CauseOrder()
    ensures Preorder(CauseLe)
  {
    NodeOrder();
  }

  /** One cause per (node, domain) with resolvable evidence, made of exactly that
      pair's rows, best first and numbered in that order; equals stay in the
      order their first rows came in. */
  ghost predicate IsRanking(t: Topo, catalog: Catalog, findings: seq<Finding>, alarm: seq<Node>, out: seq<RankedCause>) {
    var hits := Hits(t.names, findings);
    var targets := Targets(t.names, findings, alarm);
    && |out| == |Keys(HitKey, hits)|
    && (forall k :: k in Keys(HitKey, hits) ==> exists c :: c in out && c.Key() == k)
    && (forall i, j :: 0 <= i < j < |out| ==> out[i].Key() != out[j].Key())
    && SortedBy(CauseLe, out)
    && (forall i, j :: 0 <= i < j < |out| && CauseLe(out[j], out[i]) ==> Earlier(Keys(HitKey, hits), out[i].Key(), out[j].Key()))
    && (forall i :: 0 <= i < |out| ==> out[i].id == i + 1)
    && exists onset :: IsOnset(hits, targets, onset) &&
         forall c :: c in out ==> Scored(t, catalog, targets, onset, Members(HitKey, hits, c.Key()), c)
  }

  // ------------------------------------------------------------------ methods

  type Groups = map<(Node, string), seq<Hit>>

  ghost predicate Grouped(hits: seq<Hit>, order: seq<(Node, string)>, groups: Groups) {
    && order == Keys(HitKey, hits)
    && (forall k :: k in groups <==> k in order)
    && (forall k :: k in groups ==> groups[k] == Members(HitKey, hits, k))
  }

  lemma GroupOne(hits: seq<Hit>, h: Hit, order: seq<(Node, string)>, groups: Groups)
    requires Grouped(hits, order, groups)
    ensures h.Key() in groups ==> Grouped(hits + [h], order, groups[h.Key() := groups[h.Key()] + [h]])
    ensures h.Key() !in groups ==> Grouped(hits + [h], order + [h.Key()], groups[h.Key() := [h]])
  {
    assert (hits + [h])[..|hits|] == hits;
    GroupFacts(HitKey, hits);
    GroupFacts(HitKey, hits + [h]);
    if h.Key() !in groups {
      assert Members(HitKey, hits, h.Key()) == [];
    }
  }

  method GroupHits(graph: TopologyGraph, findings: seq<Finding>) returns (order: seq<(Node, string)>, groups: Groups)
    ensures Grouped(Hits(graph.View().names, findings), order, groups)
  {
    ghost var t := graph.View().names;
    order, groups := [], map[];
    for i := 0 to |findings|
      invariant Grouped(Hits(t, findings[..i]), order, groups)
    {
      var f := findings[i];
      assert findings[..i + 1][..i] == findings[..i];
      ghost var before := Hits(t, findings[..i]);
      assert before + RowHits(t, f, f.evidence[..0]) == before;
      for j := 0 to |f.evidence|
        invariant Grouped(before + RowHits(t, f, f.evidence[..j]), order, groups)
      {
        var r := f.evidence[j];
        assert f.evidence[..j + 1][..j] == f.evidence[..j];
        var node := graph.Resolve(r.entity);
        if node.Some? {
          var h := Hit(node.value, f.domain, f.confidence, r.signals, r.role, r.severity, r.firstSeen, r.onset, r.refs, r.via);
          GroupOne(before + RowHits(t, f, f.evidence[..j]), h, order, groups);
          assert before + RowHits(t, f, f.evidence[..j + 1]) == before + RowHits(t, f, f.evidence[..j]) + [h];
          if h.Key() in groups {
            groups := groups[h.Key() := groups[h.Key()] + [h]];
          } else {
            order, groups := order + [h.Key()], groups[h.Key() := [h]];
          }
        }
      }
      assert f.evidence[..|f.evidence|] == f.evidence;
    }
    assert findings[..|findings|] == findings;
  }

  /** The earliest, over the groups on a target, of the group's latest episode. */
  method TargetOnset(order: seq<(Node, string)>, groups: Groups, targets: set<Node>) returns (onset: Option<Time>)
    requires forall k :: k in order ==> k in groups && groups[k] != []
    ensures onset.None? <==> forall k :: k in order ==> k.0 !in targets
    ensures onset.Some? ==> exists k :: k in order && k.0 in targets && onset.value == Latest(groups[k])
    ensures onset.Some? ==> forall k :: k in order && k.0 in targets ==> onset.value <= Latest(groups[k])
  {
    onset := None;
    for i := 0 to |order|
      invariant onset.None? <==> forall k :: k in order[..i] ==> k.0 !in targets
      invariant onset.Some? ==> exists k :: k in order[..i] && k.0 in targets && onset.value == Latest(groups[k])
      invariant onset.Some? ==> forall k :: k in order[..i] && k.0 in targets ==> onset.value <= Latest(groups[k])
    {
      var k := order[i];
      assert order[..i + 1] == order[..i] + [k] && k in order[..i + 1];
      if k.0 in targets {
        var last := Latest(groups[k]);
        onset := if onset.None? || last < onset.value then Some(last) else onset;
      }
    }
    assert order[..|order|] == order;
  }

  ghost predicate EarliestSymptom(hits: seq<Hit>, onset: Option<Time>) {
    && (onset.Some? ==> exists h :: h in hits && h.role == Some(Symptom) && onset.value == h.Began())
    && (forall h :: h in hits && h.role == Some(Symptom) ==> onset.Some? && onset.value <= h.Began())
  }

  method SymptomOnset(order: seq<(Node, string)>, groups: Groups) returns (onset: Option<Time>)
    requires forall k :: k in order ==> k in groups
    ensures onset.Some? ==> exists k, h :: k in order && h in groups[k] && h.role == Some(Symptom) && onset.value == h.Began()
    ensures forall k, h :: k in order && h in groups[k] && h.role == Some(Symptom) ==> onset.Some? && onset.value <= h.Began()
  {
    onset := None;
    ghost var seen := [];
    for i := 0 to |order|
      invariant EarliestSymptom(seen, onset)
      invariant forall h :: h in seen <==> exists k :: k in order[..i] && h in groups[k]
    {
      var rows := groups[order[i]];
      ghost var before := seen;
      assert order[..i + 1] == order[..i] + [order[i]];
      for j := 0 to |rows|
        invariant EarliestSymptom(seen, onset)
        invariant seen == before + rows[..j]
      {
        assert rows[..j + 1] == rows[..j] + [rows[j]];
        seen := seen + [rows[j]];
        if rows[j].role == Some(Symptom) {
          var began := rows[j].Began();
          onset := if onset.None? || began < onset.value then Some(began) else onset;
        }
      }
      assert seen == before + rows;
    }
    assert order[..|order|] == order;
  }

  lemma GroupedHits(hits: seq<Hit>, order: seq<(Node, string)>, groups: Groups)
    requires Grouped(hits, order, groups)
    ensures forall h :: h in hits ==> HitKey(h) in order && h in groups[HitKey(h)]
    ensures forall k :: k in order ==> k in groups && groups[k] != []
    ensures forall k, h :: k in order && h in groups[k] ==> h in hits && h.node == k.0
  {
    GroupFacts(HitKey, hits);
  }

  lemma OnsetOnTargets(hits: seq<Hit>, order: seq<(Node, string)>, groups: Groups, targets: set<Node>, onset: Option<Time>,
                       k: (Node, string))
    requires Grouped(hits, order, groups) && onset.Some?
    requires k in order && k.0 in targets && k in groups && groups[k] != [] && onset.value == Latest(groups[k])
    requires forall j :: j in order && j.0 in targets && j in groups && groups[j] != [] ==> onset.value <= Latest(groups[j])
    ensures IsOnset(hits, targets, onset)
  {
    hide Keys, Members, Latest;
    assert StartsEpisode(hits, order, targets, onset.value) by {
      assert groups[k] == Members(HitKey, hits, k);
      forall j | j in order && j.0 in targets && Members(HitKey, hits, j) != []
        ensures onset.value <= Latest(Members(HitKey, hits, j))
      {
        assert groups[j] == Members(HitKey, hits, j);
      }
    }
    FirstHit(hits, order, groups, k);
  }

  lemma FirstHit(hits: seq<Hit>, order: seq<(Node, string)>, groups: Groups, k: (Node, string))
    requires Grouped(hits, order, groups) && k in order
    ensures k in groups && groups[k] != [] && groups[k][0] in hits && groups[k][0].node == k.0
  {
    GroupedHits(hits, order, groups);
    hide Grouped;
    assert groups[k][0] in groups[k];
  }

  lemma OnsetOfSymptoms(hits: seq<Hit>, order: seq<(Node, string)>, groups: Groups, targets: set<Node>, onset: Option<Time>)
    requires Grouped(hits, order, groups) && forall k :: k in order ==> k.0 !in targets && k in groups
    requires onset.Some? ==> exists k, h :: k in order && h in groups[k] && h.role == Some(Symptom) && onset.value == h.Began()
    requires forall k, h :: k in order && h in groups[k] && h.role == Some(Symptom) ==> onset.Some? && onset.value <= h.Began()
    ensures IsOnset(hits, targets, onset)
  {
    hide Keys, Members, Latest;
    GroupedHits(hits, order, groups);
    assert forall h :: h in hits ==> HitKey(h).0 == h.node;
  }

  method FindOnset(ghost hits: seq<Hit>, order: seq<(Node, string)>, groups: Groups, targets: set<Node>)
    returns (onset: Option<Time>)
    requires Grouped(hits, order, groups)
    ensures IsOnset(hits, targets, onset)
  {
    hide IsOnset, Latest, Keys, Members, Grouped;
    NoEmptyGroups(hits, order, groups);
    onset := TargetOnset(order, groups, targets);
    if onset.Some? {
      ghost var k :| k in order && k.0 in targets && onset.value == Latest(groups[k]);
      OnsetOnTargets(hits, order, groups, targets, onset, k);
    } else {
      onset := SymptomOnset(order, groups);
      OnsetOfSymptoms(hits, order, groups, targets, onset);
    }
  }

  lemma NoEmptyGroups(hits: seq<Hit>, order: seq<(Node, string)>, groups: Groups)
    requires Grouped(hits, order, groups)
    ensures forall k :: k in order ==> k in groups && groups[k] != []
  {
    GroupFacts(HitKey, hits);
  }

  method ScoreGroup(graph: TopologyGraph, catalog: Catalog, targets: set<Node>, onset: Option<Time>, g: seq<Hit>, id: nat)
    returns (c: RankedCause)
    requires graph.Valid() && g != []
    ensures Scored(graph.View(), catalog, targets, onset, g, c) && c.id == id
  {
    var node, domain := g[0].node, g[0].domain;
    StringOrder();
    var signals := SortedSet(StrLe, SignalsOf(g));
    var evidence := EvidenceScore(Worst(g), |signals|, g[0].confidence);
    var topo, chain := Position(graph, targets, node, catalog.maxHops);
    var precedence := if onset.Some? then Precedence(Latest(g), onset.value) else 0.5;
    var features := Features(Round3(evidence), topo, precedence, RoleScore(GroupRole(g)));
    var names := graph.Aliases(node);
    assert [node.id] + names[1..] == names;
    c := RankedCause(id, node, domain, signals, Take(Keys(Itself, AllRefs(g)), 10), Earliest(g),
                     Round3(Score(catalog.weights, features)), features, chain,
                     exists h :: h in g && h.via == Some(Validation), exists h :: h in g && h.via == Some(Hypothesis),
                     names[1..]);
  }

  function Numbered(cs: seq<RankedCause>): (r: seq<RankedCause>)
    ensures |r| == |cs| && forall i :: 0 <= i < |r| ==> r[i] == cs[i].(id := i + 1)
  {
    seq(|cs|, i requires 0 <= i < |cs| => cs[i].(id := i + 1))
  }

  /** The causes of the first groups, one each. */
  ghost predicate ScoredUpTo(t: Topo, catalog: Catalog, targets: set<Node>, onset: Option<Time>, hits: seq<Hit>,
                             ranked: seq<RankedCause>) {
    && |ranked| <= |Keys(HitKey, hits)|
    && forall i :: 0 <= i < |ranked| ==>
         && ranked[i].Key() == Keys(HitKey, hits)[i]
         && Scored(t, catalog, targets, onset, Members(HitKey, hits, ranked[i].Key()), ranked[i])
  }

  lemma NumberedSorted(ranked: seq<RankedCause>)
    requires forall i, j :: 0 <= i < j < |ranked| ==> ranked[i].Key() != ranked[j].Key()
    ensures var out := Numbered(Sort(CauseLe, ranked));
            && |out| == |ranked| && SortedBy(CauseLe, out)
            && (forall i, j :: 0 <= i < j < |out| ==> out[i].Key() != out[j].Key())
            && (forall c :: c in out ==> exists r :: r in ranked && c == r.(id := c.id))
            && (forall r :: r in ranked ==> exists c :: c in out && c.Key() == r.Key())
  {
    hide Sort, CauseLe;
    CauseOrder();
    SortCorrect(CauseLe, ranked);
    var sorted := Sort(CauseLe, ranked);
    SameElements(sorted, ranked);
    NoDupPermutation(sorted, ranked);
    forall i, j | 0 <= i < j < |sorted|
      ensures sorted[i].Key() != sorted[j].Key()
    {
      assert sorted[i] in ranked && sorted[j] in ranked && sorted[i] != sorted[j];
    }
    NumberedFacts(sorted);
    forall r | r in ranked
      ensures exists c :: c in Numbered(sorted) && c.Key() == r.Key()
    {
      assert r in sorted;
    }
  }

  lemma IdIsNotRanked(a: RankedCause, b: RankedCause, i: nat, j: nat)
    ensures CauseLe(a.(id := i), b.(id := j)) <==> CauseLe(a, b)
  {
  }

  lemma NumberedFacts(sorted: seq<RankedCause>)
    requires SortedBy(CauseLe, sorted)
    ensures var out := Numbered(sorted);
            && SortedBy(CauseLe, out)
            && (forall i :: 0 <= i < |out| ==> out[i].Key() == sorted[i].Key())
            && (forall c :: c in out ==> exists r :: r in sorted && c == r.(id := c.id))
            && (forall r :: r in sorted ==> exists c :: c in out && c.Key() == r.Key())
  {
    var out := Numbered(sorted);
    forall i, j | 0 <= i < j < |out|
      ensures CauseLe(out[i], out[j])
    {
      IdIsNotRanked(sorted[i], sorted[j], i + 1, j + 1);
    }
    hide CauseLe;
    forall c | c in out
      ensures exists r :: r in sorted && c == r.(id := c.id)
    {
      var i :| 0 <= i < |out| && out[i] == c;
      assert sorted[i] in sorted;
    }
    forall r | r in sorted
      ensures exists c :: c in out && c.Key() == r.Key()
    {
      var j :| 0 <= j < |sorted| && sorted[j] == r;
      assert out[j] in out && out[j].Key() == r.Key();
    }
  }

  lemma NumberedStable(ranked: seq<RankedCause>, keys: seq<(Node, string)>)
    requires |ranked| == |keys| && forall i :: 0 <= i < |keys| ==> ranked[i].Key() == keys[i]
    ensures var out := Numbered(Sort(CauseLe, ranked));
            forall i, j :: 0 <= i < j < |out| && CauseLe(out[j], out[i]) ==> Earlier(keys, out[i].Key(), out[j].Key())
  {
    CauseOrder();
    var before := (a: RankedCause, b: RankedCause) => Earlier(keys, a.Key(), b.Key());
    SortStable(CauseLe, before, ranked);
    var sorted := Sort(CauseLe, ranked);
    var out := Numbered(sorted);
    hide CauseLe, Sort, Earlier;
    forall i, j | 0 <= i < j < |out| && CauseLe(out[j], out[i])
      ensures Earlier(keys, out[i].Key(), out[j].Key())
    {
      IdIsNotRanked(sorted[j], sorted[i], j + 1, i + 1);
      assert before(sorted[i], sorted[j]);
    }
  }

  lemma ScoredIgnoresId(t: Topo, catalog: Catalog, targets: set<Node>, onset: Option<Time>, g: seq<Hit>, c: RankedCause, id: nat)
    requires Scored(t, catalog, targets, onset, g, c)
    ensures Scored(t, catalog, targets, onset, g, c.(id := id))
    ensures g != [] && c.Key() == g[0].Key()
  {
  }

  lemma FinishRanking(t: Topo, catalog: Catalog, findings: seq<Finding>, alarm: seq<Node>, onset: Option<Time>,
                      ranked: seq<RankedCause>)
    requires var hits := Hits(t.names, findings);
             && |ranked| == |Keys(HitKey, hits)|
             && IsOnset(hits, Targets(t.names, findings, alarm), onset)
             && ScoredUpTo(t, catalog, Targets(t.names, findings, alarm), onset, hits, ranked)
    ensures IsRanking(t, catalog, findings, alarm, Numbered(Sort(CauseLe, ranked)))
  {
    hide Scored, IsOnset, SortedBy, Sort, CauseLe, Targets, Hits, Earlier, Members, Keys;
    var hits, targets := Hits(t.names, findings), Targets(t.names, findings, alarm);
    var keys := Keys(HitKey, hits);
    GroupFacts(HitKey, hits);
    NumberedSorted(ranked);
    NumberedStable(ranked, keys);
    NumberedScored(t, catalog, targets, onset, hits, ranked);
    var out := Numbered(Sort(CauseLe, ranked));
    forall k | k in keys
      ensures exists c :: c in out && c.Key() == k
    {
      var i :| 0 <= i < |keys| && keys[i] == k;
      assert ranked[i] in ranked;
    }
  }

  lemma NumberedScored(t: Topo, catalog: Catalog, targets: set<Node>, onset: Option<Time>, hits: seq<Hit>, ranked: seq<RankedCause>)
    requires ScoredUpTo(t, catalog, targets, onset, hits, ranked)
    requires forall i, j :: 0 <= i < j < |ranked| ==> ranked[i].Key() != ranked[j].Key()
    ensures forall c :: c in Numbered(Sort(CauseLe, ranked)) ==> Scored(t, catalog, targets, onset, Members(HitKey, hits, c.Key()), c)
  {
    hide Scored, SortedBy, Sort, CauseLe, Members, Keys;
    NumberedSorted(ranked);
    forall c | c in Numbered(Sort(CauseLe, ranked))
      ensures Scored(t, catalog, targets, onset, Members(HitKey, hits, c.Key()), c)
    {
      var r :| r in ranked && c == r.(id := c.id);
      var i :| 0 <= i < |ranked| && ranked[i] == r;
      ScoredIgnoresId(t, catalog, targets, onset, Members(HitKey, hits, r.Key()), r, c.id);
    }
  }

  /** Without topology nothing resolves, so there is nothing to rank. */
  method RankCauses(findings: seq<Finding>, topology: Option<Response>, catalog: Catalog, alarm: seq<Node>)
    returns (out: seq<RankedCause>)
    ensures IsRanking(Built(topology, catalog.relationships), catalog, findings, alarm, out)
  {
    hide IsRanking, Scored, IsOnset, ScoredUpTo, Targets, Hits, Sort;
    var graph := TopologyGraph.Build(topology, catalog.relationships);
    ghost var t := graph.View();
    ghost var hits := Hits(t.names, findings);
    var targets := CollectTargets(graph, findings, alarm);
    var order, groups := GroupHits(graph, findings);
    var onset := FindOnset(hits, order, groups, targets);
    var ranked := ScoreAll(graph, catalog, targets, onset, hits, order, groups);
    FinishRanking(t, catalog, findings, alarm, onset, ranked);
    out := Numbered(Sort(CauseLe, ranked));
  }

  lemma ScoreNext(t: Topo, catalog: Catalog, targets: set<Node>, onset: Option<Time>, hits: seq<Hit>,
                  ranked: seq<RankedCause>, c: RankedCause)
    requires ScoredUpTo(t, catalog, targets, onset, hits, ranked) && |ranked| < |Keys(HitKey, hits)|
    requires Scored(t, catalog, targets, onset, Members(HitKey, hits, Keys(HitKey, hits)[|ranked|]), c)
    ensures ScoredUpTo(t, catalog, targets, onset, hits, ranked + [c])
  {
    hide Scored, Keys, Members;
    GroupFacts(HitKey, hits);
    var k := Keys(HitKey, hits)[|ranked|];
    var g := Members(HitKey, hits, k);
    ScoredIgnoresId(t, catalog, targets, onset, g, c, c.id);
    assert g[0] in g && HitKey(g[0]) == k;
    assert c.Key() == k;
    forall i | 0 <= i < |ranked + [c]|
      ensures (ranked + [c])[i].Key() == Keys(HitKey, hits)[i]
    {
    }
  }

  method ScoreAll(graph: TopologyGraph, catalog: Catalog, targets: set<Node>, onset: Option<Time>, ghost hits: seq<Hit>,
                  order: seq<(Node, string)>, groups: Groups) returns (ranked: seq<RankedCause>)
    requires graph.Valid() && Grouped(hits, order, groups)
    ensures |ranked| == |Keys(HitKey, hits)| && ScoredUpTo(graph.View(), catalog, targets, onset, hits, ranked)
  {
    ghost var t := graph.View();
    GroupFacts(HitKey, hits);
    assert forall k :: k in order ==> k in groups && groups[k] == Members(HitKey, hits, k) && groups[k] != [];
    assert ScoredUpTo(t, catalog, targets, onset, hits, []);
    hide Scored, ScoredUpTo, Keys, Members;
    ranked := [];
    for i := 0 to |order|
      invariant |ranked| == i && ScoredUpTo(t, catalog, targets, onset, hits, ranked)
    {
      var c := ScoreGroup(graph, catalog, targets, onset, groups[order[i]], |ranked| + 1);
      ScoreNext(t, catalog, targets, onset, hits, ranked, c);
      ranked := ranked + [c];
    }
  }

  // ----------------------------------------------------------------- theorems

  /** The candidates partition the resolvable rows by (node, domain): every row
      lies in the group of exactly one candidate, and the groups add up. */
  lemma CandidatesPartition(t: Topo, catalog: Catalog, findings: seq<Finding>, alarm: seq<Node>, out: seq<RankedCause>)
    requires IsRanking(t, catalog, findings, alarm, out)
    ensures var hits := Hits(t.names, findings);
            && SumOver(Keys(HitKey, hits), Sizes(HitKey, hits)) == |hits|
            && (forall h :: h in hits ==> exists c :: c in out && h in Members(HitKey, hits, c.Key()))
            && (forall h, i, j :: 0 <= i < j < |out| ==>
                  !(h in Members(HitKey, hits, out[i].Key()) && h in Members(HitKey, hits, out[j].Key())))
  {
    hide Scored, IsOnset, SortedBy, Targets, Hits, Members, Keys, SumOver, Sizes;
    var hits := Hits(t.names, findings);
    GroupConserves(HitKey, hits);
    GroupFacts(HitKey, hits);
    forall h | h in hits
      ensures exists c :: c in out && h in Members(HitKey, hits, c.Key())
    {
      assert HitKey(h) in Keys(HitKey, hits);
    }
    forall h, i, j | 0 <= i < j < |out| && h in Members(HitKey, hits, out[i].Key())
      ensures h !in Members(HitKey, hits, out[j].Key())
    {
      assert HitKey(h) == out[i].Key() && out[i].Key() != out[j].Key();
    }
  }

  /** The two findings differ only in which name their rows use for an entity. */
  ghost predicate SameButNames(t: Names, f: Finding, f': Finding) {
    && f.domain == f'.domain && f.confidence == f'.confidence && |f.evidence| == |f'.evidence|
    && forall i :: 0 <= i < |f.evidence| ==>
         && ResolveIn(t, f.evidence[i].entity) == ResolveIn(t, f'.evidence[i].entity)
         && f.evidence[i] == f'.evidence[i].(entity := f.evidence[i].entity)
  }

  lemma {:induction false} SameRowHits(t: Names, f: Finding, f': Finding, n: nat)
    requires SameButNames(t, f, f') && n <= |f.evidence|
    ensures RowHits(t, f, f.evidence[..n]) == RowHits(t, f', f'.evidence[..n])
  {
    if n > 0 {
      assert f.evidence[..n][..n - 1] == f.evidence[..n - 1] && f'.evidence[..n][..n - 1] == f'.evidence[..n - 1];
      SameRowHits(t, f, f', n - 1);
    }
  }

  lemma {:induction false} SameHits(t: Names, fs: seq<Finding>, fs': seq<Finding>)
    requires |fs| == |fs'| && forall i :: 0 <= i < |fs| ==> SameButNames(t, fs[i], fs'[i])
    ensures Hits(t, fs) == Hits(t, fs')
  {
    if fs != [] {
      var n := |fs| - 1;
      SameHits(t, fs[..n], fs'[..n]);
      SameRowHits(t, fs[n], fs'[n], |fs[n].evidence|);
      assert fs[n].evidence[..|fs[n].evidence|] == fs[n].evidence;
      assert fs'[n].evidence[..|fs[n].evidence|] == fs'[n].evidence;
    }
  }

  /** Naming an entity by its id or by any alias that resolves to the same node,
      in rows and in the alarm, changes nothing in the ranking. */
  lemma RenamingInvariant(t: Topo, catalog: Catalog, fs: seq<Finding>, fs': seq<Finding>, alarm: seq<Node>, alarm': seq<Node>,
                          out: seq<RankedCause>)
    requires |fs| == |fs'| && forall i :: 0 <= i < |fs| ==> SameButNames(t.names, fs[i], fs'[i])
    requires |alarm| == |alarm'| && forall i :: 0 <= i < |alarm| ==> ResolveIn(t.names, alarm[i]) == ResolveIn(t.names, alarm'[i])
    ensures IsRanking(t, catalog, fs, alarm, out) <==> IsRanking(t, catalog, fs', alarm', out)
  {
    hide Scored, IsOnset, SortedBy, Hits, AlarmTargets, SymptomTargets;
    SameHits(t.names, fs, fs');
    SameAlarm(t.names, alarm, alarm');
    SameAlarm(t.names, alarm', alarm);
    assert Targets(t.names, fs, alarm) == Targets(t.names, fs', alarm');
  }

  lemma SameAlarm(t: Names, alarm: seq<Node>, alarm': seq<Node>)
    requires |alarm| == |alarm'| && forall i :: 0 <= i < |alarm| ==> ResolveIn(t, alarm[i]) == ResolveIn(t, alarm'[i])
    ensures AlarmTargets(t, alarm) <= AlarmTargets(t, alarm')
  {
    forall n | n in AlarmTargets(t, alarm)
      ensures n in AlarmTargets(t, alarm')
    {
      var i :| 0 <= i < |alarm| && ResolveIn(t, alarm[i]) == Some(n);
      assert alarm'[i] in alarm';
    }
  }

  // ------------------------------------------------------------------- scores

  lemma Weighted(w: real, f: real)
    requires w >= 0.0 && 0.0 <= f <= 1.0
    ensures 0.0 <= Part(w, f) <= w
  {
  }

  lemma Average(w: Weights, a: real, b: real, c: real, d: real)
    requires w.Valid()
    requires 0.0 <= a <= w.evidence && 0.0 <= b <= w.topology && 0.0 <= c <= w.precedence && 0.0 <= d <= w.role
    ensures 0.0 <= (a + b + c + d) / Total(w) <= 1.0
  {
    Divide(a + b + c + d, Total(w));
  }

  lemma ScoreRange(w: Weights, f: Features)
    requires w.Valid()
    requires 0.0 <= f.evidence <= 1.0 && 0.0 <= f.topology <= 1.0 && 0.0 <= f.precedence <= 1.0 && 0.0 <= f.role <= 1.0
    ensures 0.0 <= Score(w, f) <= 1.0
  {
    hide Part, Total;
    Weighted(w.evidence, f.evidence);
    Weighted(w.topology, f.topology);
    Weighted(w.precedence, f.precedence);
    Weighted(w.role, f.role);
    Average(w, Part(w.evidence, f.evidence), Part(w.topology, f.topology), Part(w.precedence, f.precedence),
            Part(w.role, f.role));
  }

  lemma Divide(x: real, y: real)
    requires 0.0 <= x <= y && y > 0.0
    ensures 0.0 <= x / y <= 1.0
  {
  }

  /** A candidate's evidence feature leaves [0, 1] only through a confidence so
      negative that it outweighs severity and signals; for any confidence of at
      least zero it is at least 0.05. */
  lemma EvidenceRange(severity: real, signals: nat, confidence: real)
    requires 0.1 <= severity <= 1.0
    ensures EvidenceScore(severity, signals, confidence) <= 1.0
    ensures EvidenceScore(severity, signals, confidence) >= 0.0 <==>
            confidence >= -2.0 * severity - 0.6 * (if signals < 2 then signals else 2) as real
    ensures confidence >= 0.0 ==> EvidenceScore(severity, signals, confidence) >= 0.05
  {
  }

  /** What the features other than evidence bring, and half a thousandth of the
      total weight, which rounding forgives. */
  function Slack(w: Weights, f: Features): real {
    Part(w.topology, f.topology) + Part(w.precedence, f.precedence) + Part(w.role, f.role) + 0.0005 * Total(w)
  }

  /** The least evidence feature, in thousandths, that keeps the score from
      falling below zero. */
  function LeastEvidence(w: Weights, f: Features): int
    requires w.evidence > 0.0
  {
    -(1000.0 * Slack(w, f) / w.evidence).Floor
  }

  /** The confidence below which a candidate's score is negative, from its
      severity, number of signals, the weights and its other features. */
  function ConfidenceFloor(w: Weights, severity: real, signals: nat, f: Features): real
    requires w.evidence > 0.0
  {
    (LeastEvidence(w, f) as real - 0.5) / 250.0 - 2.0 * severity - 0.6 * (if signals < 2 then signals else 2) as real
  }

  /** The confidence is above the floor, or on it where rounding goes up. */
  predicate ConfidenceSuffices(w: Weights, severity: real, signals: nat, f: Features, confidence: real) {
    w.evidence > 0.0 ==>
      var floor := ConfidenceFloor(w, severity, signals, f);
      confidence > floor || (confidence == floor && LeastEvidence(w, f) % 2 == 0)
  }

  predicate OthersInRange(f: Features) {
    0.0 <= f.topology <= 1.0 && 0.0 <= f.precedence <= 1.0 && 0.0 <= f.role <= 1.0
  }

  lemma ScoreAtMostOne(w: Weights, f: Features)
    requires w.Valid() && OthersInRange(f) && f.evidence <= 1.0
    ensures Score(w, f) <= 1.0 && Round3(Score(w, f)) <= 1.0
  {
    var full := Features(1.0, 1.0, 1.0, 1.0);
    ScoreMonotone(w, f, full);
    ScoreRange(w, full);
    Round3Range(Score(w, full));
  }

  lemma SlackNonNegative(w: Weights, f: Features)
    requires w.Valid() && OthersInRange(f)
    ensures Slack(w, f) >= 0.0
  {
    hide Part;
    Weighted(w.topology, f.topology);
    Weighted(w.precedence, f.precedence);
    Weighted(w.role, f.role);
  }

  /** `k * w` makes up for a shortfall exactly from the least such whole number. */
  lemma LeastMultiple(k: int, w: real, b: real)
    requires w > 0.0
    ensures k as real * w >= -b <==> k >= -(b / w).Floor
  {
    var q := b / w;
    assert q * w == b;
    if -k as real <= q {
      assert (q + k as real) * w >= 0.0;
    } else {
      assert (q + k as real) * w < 0.0;
    }
  }

  /** A sum over a positive total rounds below zero exactly when it is less than
      minus half a thousandth of the total. */
  lemma RoundedSign(x: real, total: real)
    requires total > 0.0
    ensures Round3(x / total) >= 0.0 <==> x >= -0.0005 * total
  {
    var q := x / total;
    assert q * total == x;
    RoundAtLeast(q * 1000.0, 0);
    if q >= -0.0005 {
      assert (q + 0.0005) * total >= 0.0;
    } else {
      assert (q + 0.0005) * total < 0.0;
    }
  }

  lemma ScoreSign(w: Weights, f: Features, k: int)
    requires w.Valid() && OthersInRange(f) && f.evidence == k as real / 1000.0
    ensures Round3(Score(w, f)) >= 0.0 <==> (w.evidence > 0.0 ==> k >= LeastEvidence(w, f))
  {
    hide Round3;
    RoundedSign(Parts(w, f), Total(w));
    SlackNonNegative(w, f);
    assert Parts(w, f) >= -0.0005 * Total(w) <==> Part(w.evidence, f.evidence) >= -Slack(w, f);
    if w.evidence > 0.0 {
      var b := 1000.0 * Slack(w, f);
      assert 1000.0 * Part(w.evidence, f.evidence) == k as real * w.evidence;
      LeastMultiple(k, w.evidence, b);
    }
  }

  /** The rounded evidence feature reaches a bound of at most zero exactly from a
      confidence on. */
  lemma EvidenceReaches(severity: real, signals: nat, confidence: real, m: int)
    requires m <= 0
    ensures var floor := (m as real - 0.5) / 250.0 - 2.0 * severity - 0.6 * (if signals < 2 then signals else 2) as real;
            RoundHalfEven(EvidenceScore(severity, signals, confidence) * 1000.0) >= m <==>
            confidence > floor || (confidence == floor && m % 2 == 0)
  {
    RoundAtLeast(EvidenceScore(severity, signals, confidence) * 1000.0, m);
  }

  lemma ScoredSign(t: Topo, catalog: Catalog, targets: set<Node>, onset: Option<Time>, g: seq<Hit>, c: RankedCause)
    requires Scored(t, catalog, targets, onset, g, c) && catalog.weights.Valid()
    ensures OthersInRange(c.features) && c.score <= 1.0
    ensures c.score >= 0.0 <==> ConfidenceSuffices(catalog.weights, Worst(g), |c.signals|, c.features, g[0].confidence)
  {
    hide IsBest, Within, Reaches, SortedBy, AreAliases, ChainOf, Upstream, Nearby, Keys, Score, Precedence, RoundHalfEven, LeastEvidence,
      EvidenceScore;
    var w, f, raw := catalog.weights, c.features, EvidenceScore(Worst(g), |c.signals|, g[0].confidence);
    if onset.Some? {
      PrecedenceShape(Latest(g), Latest(g), onset.value);
    }
    EvidenceRange(Worst(g), |c.signals|, g[0].confidence);
    Round3Monotone(raw, 1.0);
    assert RoundHalfEven(1000.0) == 1000 by {
      RoundAtLeast(1000.0, 1000);
      RoundAtLeast(1000.0, 1001);
    }
    ScoreAtMostOne(w, f);
    ScoreSign(w, f, RoundHalfEven(raw * 1000.0));
    if w.evidence > 0.0 {
      LeastIsLow(w, f);
      EvidenceReaches(Worst(g), |c.signals|, g[0].confidence, LeastEvidence(w, f));
    }
  }

  lemma LeastIsLow(w: Weights, f: Features)
    requires w.Valid() && OthersInRange(f) && w.evidence > 0.0
    ensures LeastEvidence(w, f) <= 0
  {
    SlackNonNegative(w, f);
    assert 1000.0 * Slack(w, f) / w.evidence >= 0.0;
  }

  /** Scores never exceed 1, and are at least 0 exactly for the causes whose
      finding's confidence meets their floor. */
  lemma ScoresInRange(t: Topo, catalog: Catalog, findings: seq<Finding>, alarm: seq<Node>, out: seq<RankedCause>, c: RankedCause)
    requires IsRanking(t, catalog, findings, alarm, out) && c in out && catalog.weights.Valid()
    ensures OthersInRange(c.features) && c.score <= 1.0
    ensures var g := Members(HitKey, Hits(t.names, findings), c.Key());
            g != [] && (c.score >= 0.0 <==> ConfidenceSuffices(catalog.weights, Worst(g), |c.signals|, c.features, g[0].confidence))
  {
    hide Scored, IsOnset, SortedBy, Hits, Members, Keys, Targets, ConfidenceSuffices;
    var hits := Hits(t.names, findings);
    var g := Members(HitKey, hits, c.Key());
    var onset :| Scored(t, catalog, Targets(t.names, findings, alarm), onset, g, c);
    ScoredIgnoresId(t, catalog, Targets(t.names, findings, alarm), onset, g, c, c.id);
    ScoredSign(t, catalog, Targets(t.names, findings, alarm), onset, g, c);
  }

  /** The floor is never above -0.2, so with confidences from there on every score
      lies in [0, 1], whatever the weights. */
  lemma ConfidentScores(t: Topo, catalog: Catalog, findings: seq<Finding>, alarm: seq<Node>, out: seq<RankedCause>, c: RankedCause)
    requires IsRanking(t, catalog, findings, alarm, out) && c in out && catalog.weights.Valid()
    requires forall f :: f in findings ==> f.confidence >= -0.2
    ensures 0.0 <= c.score <= 1.0
  {
    hide Scored, IsOnset, SortedBy, Hits, Members, Keys, Targets, ConfidenceSuffices;
    ScoresInRange(t, catalog, findings, alarm, out, c);
    var g := Members(HitKey, Hits(t.names, findings), c.Key());
    GroupFacts(HitKey, Hits(t.names, findings));
    HitConfidence(t.names, findings, -0.2);
    assert g[0] in g;
    LowFloor(catalog.weights, Worst(g), |c.signals|, c.features, g[0].confidence);
  }

  lemma LowFloor(w: Weights, severity: real, signals: nat, f: Features, confidence: real)
    requires w.Valid() && OthersInRange(f) && severity >= 0.1 && confidence >= -0.2
    ensures ConfidenceSuffices(w, severity, signals, f, confidence)
  {
    if w.evidence > 0.0 {
      LeastIsLow(w, f);
      hide LeastEvidence;
      assert ConfidenceFloor(w, severity, signals, f) <= -0.002 - 0.2;
    }
  }

  lemma {:induction false} HitConfidence(t: Names, findings: seq<Finding>, least: real)
    requires forall f :: f in findings ==> f.confidence >= least
    ensures forall h :: h in Hits(t, findings) ==> h.confidence >= least
  {
    if findings != [] {
      var last := findings[|findings| - 1];
      HitConfidence(t, findings[..|findings| - 1], least);
      RowConfidence(t, last, last.evidence);
      assert last in findings;
    }
  }

  lemma {:induction false} RowConfidence(t: Names, f: Finding, rows: seq<Row>)
    ensures forall h :: h in RowHits(t, f, rows) ==> h.confidence == f.confidence
  {
    if rows != [] {
      RowConfidence(t, f, rows[..|rows| - 1]);
    }
  }

  const Doubtful := Finding("metrics", "metrics", true, "", [], 0, 0, -10.0, true, 1, false,
                            [Row(Node("host", "a"), ["cpu"], None, Debug, 0, 0, None, 1, [], None, None, None)], [])
  const OneHost := Response([Entity("host", "a", map[])], [])
  const EqualWeights := Catalog(map[], map[], {}, 3, 0, 5, Weights(1.0, 1.0, 1.0, 1.0))

  /** The floor is needed: a finding whose confidence fell far below zero is ranked
      with a negative score. */
  method NegativeConfidence() returns (out: seq<RankedCause>)
    ensures IsRanking(Built(Some(OneHost), map[]), EqualWeights, [Doubtful], [], out)
    ensures |out| == 1 && out[0].score == -0.2
  {
    out := RankCauses([Doubtful], Some(OneHost), EqualWeights, []);
    NegativeScore(out);
  }

  lemma NegativeScore(out: seq<RankedCause>)
    requires IsRanking(Built(Some(OneHost), map[]), EqualWeights, [Doubtful], [], out)
    ensures |out| == 1 && out[0].score == -0.2
  {
    hide Built, SortedBy, Hits, Keys, Members, IsOnset, Scored;
    var t := Built(Some(OneHost), map[]);
    OneHit(t.names);
    var hits := Hits(t.names, [Doubtful]);
    OneGroup(hits[0]);
    assert hits == [hits[0]];
    assert hits[0].Key() in Keys(HitKey, hits);
    assert Targets(t.names, [Doubtful], []) == {};
    var c := out[0];
    assert c in out && c.Key() == hits[0].Key();
    var onset :| IsOnset(hits, {}, onset) && Scored(t, EqualWeights, {}, onset, hits, c);
    ScoreOfOne(t, hits, onset, c);
  }

  lemma OneGroup(h: Hit)
    ensures Keys(HitKey, [h]) == [h.Key()] && Members(HitKey, [h], h.Key()) == [h]
  {
    assert [h][..0] == [];
  }

  lemma ScoreOfOne(t: Topo, hits: seq<Hit>, onset: Option<Time>, c: RankedCause)
    requires hits == [Hit(Node("host", "a"), "metrics", -10.0, ["cpu"], None, Debug, 0, None, [], None)]
    requires IsOnset(hits, {}, onset) && Scored(t, EqualWeights, {}, onset, hits, c)
    ensures c.score == -0.2
  {
    hide IsBest, AreAliases, ChainOf, Keys, AllRefs, Take, Built;
    assert hits[0] in hits && "cpu" in hits[0].signals;
    assert SignalsOf(hits) == {"cpu"};
    assert SortedBy(StrLe, ["cpu"]) && NoDup(["cpu"]);
    SortedUnique(StrLe, c.signals, ["cpu"]);
    assert onset == None;
    assert c.features.topology == 0.5 && c.features.precedence == 0.5 && c.features.role == 0.5;
    assert EvidenceScore(0.1, 1, -10.0) == -2.3;
    assert Round3(-2.3) == -2.3;
    assert c.features == Features(-2.3, 0.5, 0.5, 0.5);
    assert Parts(EqualWeights.weights, c.features) == -0.8;
    assert Round3(-0.2) == -0.2;
  }

  lemma OneHit(t: Names)
    requires t == Built(Some(OneHost), map[]).names
    ensures Hits(t, [Doubtful]) == [Hit(Node("host", "a"), "metrics", -10.0, ["cpu"], None, Debug, 0, None, [], None)]
  {
    assert OneHost.entities + Endpoints([]) == [Entity("host", "a", map[])];
    assert AddedAll([Entity("host", "a", map[])]) == Added(AddedAll([]), Entity("host", "a", map[]));
    assert ResolveIn(t, Node("host", "a")) == Some(Node("host", "a"));
    var r := Doubtful.evidence;
    assert r[..0] == [] && [Doubtful][..0] == [];
    assert RowHits(t, Doubtful, r) == [Hit(Node("host", "a"), "metrics", -10.0, ["cpu"], None, Debug, 0, None, [], None)];
  }

  /** Never worse on any feature, never ranked by a lower score; and strictly
      better topology alone, with a positive weight, is a strictly higher score
      before rounding. So upstream of the alarm beats merely connected. */
  lemma ScoreMonotone(w: Weights, a: Features, b: Features)
    requires w.Valid()
    requires a.evidence <= b.evidence && a.topology <= b.topology && a.precedence <= b.precedence && a.role <= b.role
    ensures Score(w, a) <= Score(w, b) && Round3(Score(w, a)) <= Round3(Score(w, b))
    ensures w.topology > 0.0 && a.topology < b.topology ==> Score(w, a) < Score(w, b)
  {
    hide Part, Round3;
    Scaled(w.evidence, a.evidence, b.evidence);
    Scaled(w.topology, a.topology, b.topology);
    Scaled(w.precedence, a.precedence, b.precedence);
    Scaled(w.role, a.role, b.role);
    Quotients(Parts(w, a), Parts(w, b), Total(w));
    Round3Monotone(Score(w, a), Score(w, b));
  }

  lemma Scaled(w: real, x: real, y: real)
    requires w >= 0.0 && x <= y
    ensures Part(w, x) <= Part(w, y)
    ensures w > 0.0 && x < y ==> Part(w, x) < Part(w, y)
  {
  }

  lemma Quotients(x: real, y: real, z: real)
    requires x <= y && z > 0.0
    ensures x / z <= y / z
    ensures x < y ==> x / z < y / z
  {
  }

  // ------------------------------------------------------------------- placed

  /** On a target or upstream of one. */
  ghost predicate IsPlaced(t: Topo, catalog: Catalog, entity: Node, alarm: seq<Node>, findings: seq<Finding>) {
    var node := ResolveIn(t.names, entity);
    && node.Some?
    && exists x :: x in Targets(t.names, findings, alarm) && (node.value == x || Reaches(t.depends, x, node.value, catalog.maxHops))
  }

  /** detection/hypotheses.py, `placed`. */
  method Placed(entity: Node, topology: Option<Response>, catalog: Catalog, alarm: seq<Node>, findings: seq<Finding>)
    returns (ok: bool)
    ensures ok <==> IsPlaced(Built(topology, catalog.relationships), catalog, entity, alarm, findings)
  {
    var graph := TopologyGraph.Build(topology, catalog.relationships);
    ghost var t := graph.View();
    var node := graph.Resolve(entity);
    if node.None? {
      return false;
    }
    var targets := CollectTargets(graph, findings, alarm);
    hide Targets, Built, WellFormed;
    ok := OnOrUpstream(graph, targets, node.value, catalog.maxHops);
  }

  method OnOrUpstream(graph: TopologyGraph, targets: set<Node>, node: Node, k: nat) returns (ok: bool)
    ensures ok <==> exists x :: x in targets && (node == x || Reaches(graph.depends, x, node, k))
  {
    var rest := targets;
    while rest != {}
      invariant rest <= targets
      invariant forall x :: x in targets - rest ==> node != x && !Reaches(graph.depends, x, node, k)
    {
      var x :| x in rest;
      assert targets - (rest - {x}) == targets - rest + {x};
      var upstream := graph.DependsOn(x, node, k);
      if node == x || upstream {
        return true;
      }
      rest := rest - {x};
    }
    assert targets - {} == targets;
    ok := false;
  }

  /** The two readers of the topology agree. With the alarm resolved the targets
      are the alarm's, whoever's findings are at hand, so an entity one agent's
      `placed` accepted scores 0.3 or 1.0 in the final ranking, and no other
      entity does. */
  lemma PlacedScores(t: Topo, catalog: Catalog, entity: Node, alarm: seq<Node>, mine: seq<Finding>, all: seq<Finding>)
    requires AlarmTargets(t.names, alarm) != {} && ResolveIn(t.names, entity).Some?
    ensures var topo := TopologyScore(t, Targets(t.names, all, alarm), ResolveIn(t.names, entity).value, catalog.maxHops);
            IsPlaced(t, catalog, entity, alarm, mine) <==> topo == 0.3 || topo == 1.0
  {
    assert Targets(t.names, mine, alarm) == Targets(t.names, all, alarm);
  }
}
