/** The ranking of detection/investigate.py told from the evidence rows it is made
    of, whatever groups and hits it goes through. */
module RankingOnRows {
  import opened Prelude
  import opened Graphs
  import opened Topology
  import opened Contract
  import opened Ranking

  /** Every evidence row of every finding, in order. */
  function AllRows(findings: seq<Finding>): seq<(Finding, Row)> {
    if findings == [] then [] else
      AllRows(findings[..|findings| - 1]) + RowsWith(findings[|findings| - 1], findings[|findings| - 1].evidence)
  }

  function RowsWith(f: Finding, rows: seq<Row>): seq<(Finding, Row)> {
    seq(|rows|, i requires 0 <= i < |rows| => (f, rows[i]))
  }

  function HitMade(node: Node, f: Finding, r: Row): Hit {
    Hit(node, f.domain, f.confidence, r.signals, r.role, r.severity, r.firstSeen, r.onset, r.refs, r.via)
  }

  /** What the ranking reads of a row, if its entity is in the topology. */
  function HitOf(t: Names): ((Finding, Row)) -> Option<Hit> {
    (p: (Finding, Row)) =>
      match ResolveIn(t, p.1.entity)
      case None => None
      case Some(node) => Some(HitMade(node, p.0, p.1))
  }

  /** There is one hit for each row that resolves, with the row's own values and
      its finding's domain and confidence, in the order of the rows. */
  lemma {:induction false} HitsExact(t: Names, findings: seq<Finding>)
    ensures Hits(t, findings) == Picked(AllRows(findings), HitOf(t))
  {
    if findings != [] {
      var init, f := findings[..|findings| - 1], findings[|findings| - 1];
      HitsExact(t, init);
      RowHitsExact(t, f, f.evidence);
      PickedConcat(AllRows(init), RowsWith(f, f.evidence), HitOf(t));
    }
  }

  lemma {:induction false} RowHitsExact(t: Names, f: Finding, rows: seq<Row>)
    ensures RowHits(t, f, rows) == Picked(RowsWith(f, rows), HitOf(t))
  {
    if rows != [] {
      var init, r := rows[..|rows| - 1], rows[|rows| - 1];
      RowHitsExact(t, f, init);
      assert RowsWith(f, rows) == RowsWith(f, init) + [(f, r)];
      PickedSnoc(RowsWith(f, init), HitOf(t), (f, r));
    }
  }

  lemma {:induction false} AllRowsExact(findings: seq<Finding>)
    ensures forall f, r :: (f, r) in AllRows(findings) <==> f in findings && r in f.evidence
  {
    if findings != [] {
      var init, last := findings[..|findings| - 1], findings[|findings| - 1];
      AllRowsExact(init);
      RowsWithExact(last, last.evidence);
      assert findings == init + [last];
    }
  }

  lemma RowsWithExact(f: Finding, rows: seq<Row>)
    ensures forall g, r :: (g, r) in RowsWith(f, rows) <==> g == f && r in rows
  {
    forall g, r
      ensures (g, r) in RowsWith(f, rows) <==> g == f && r in rows
    {
      if g == f && r in rows {
        var i :| 0 <= i < |rows| && rows[i] == r;
        assert RowsWith(f, rows)[i] == (g, r);
      }
    }
  }

  /** The row `r` of `f` is evidence of the domain on the node. */
  ghost predicate Tells(t: Names, findings: seq<Finding>, node: Node, domain: string, f: Finding, r: Row) {
    f in findings && r in f.evidence && f.domain == domain && ResolveIn(t, r.entity) == Some(node)
  }

  lemma HitsTold(t: Names, findings: seq<Finding>, h: Hit)
    ensures h in Hits(t, findings) <==> exists f, r :: Tells(t, findings, h.node, h.domain, f, r) && HitOf(t)((f, r)) == Some(h)
  {
    HitsExact(t, findings);
    PickedMembers(AllRows(findings), HitOf(t));
    AllRowsExact(findings);
    if h in Hits(t, findings) {
      var p :| p in AllRows(findings) && HitOf(t)(p) == Some(h);
      assert p == (p.0, p.1);
      assert Tells(t, findings, h.node, h.domain, p.0, p.1);
    }
  }

  /** The causes are exactly the (entity, domain) pairs the rows are evidence of,
      whatever brought the rows. */
  lemma CausesExactly(t: Topo, catalog: Catalog, findings: seq<Finding>, alarm: seq<Node>, out: seq<RankedCause>)
    requires IsRanking(t, catalog, findings, alarm, out)
    ensures forall f, r :: f in findings && r in f.evidence && ResolveIn(t.names, r.entity).Some? ==>
              exists c :: c in out && c.domain == f.domain && Some(c.entity) == ResolveIn(t.names, r.entity)
    ensures forall c :: c in out ==> exists f, r :: Tells(t.names, findings, c.entity, c.domain, f, r)
    ensures forall i, j :: 0 <= i < j < |out| ==> out[i].entity != out[j].entity || out[i].domain != out[j].domain
  {
    hide Hits, Scored, IsOnset, SortedBy, Earlier, Keys, Members, Targets;
    var hits := Hits(t.names, findings);
    GroupFacts(HitKey, hits);
    forall f, r | f in findings && r in f.evidence && ResolveIn(t.names, r.entity).Some?
      ensures exists c :: c in out && c.domain == f.domain && Some(c.entity) == ResolveIn(t.names, r.entity)
    {
      var h := HitOf(t.names)((f, r)).value;
      assert Tells(t.names, findings, h.node, h.domain, f, r);
      HitsTold(t.names, findings, h);
      assert HitKey(h) in Keys(HitKey, hits);
      var c :| c in out && c.Key() == HitKey(h);
    }
    forall c | c in out
      ensures exists f, r :: Tells(t.names, findings, c.entity, c.domain, f, r)
    {
      var h := CauseHit(t, catalog, findings, alarm, out, c);
      HitsTold(t.names, findings, h);
    }
    forall i, j | 0 <= i < j < |out|
      ensures out[i].entity != out[j].entity || out[i].domain != out[j].domain
    {
      assert out[i].Key() != out[j].Key();
    }
  }

  lemma CauseHit(t: Topo, catalog: Catalog, findings: seq<Finding>, alarm: seq<Node>, out: seq<RankedCause>, c: RankedCause)
    returns (h: Hit)
    requires IsRanking(t, catalog, findings, alarm, out) && c in out
    ensures h in Hits(t.names, findings) && h.Key() == c.Key()
  {
    hide Hits, IsOnset, SortedBy, Earlier, Keys, Members, Targets, ChainOf, AreAliases;
    var hits := Hits(t.names, findings);
    GroupFacts(HitKey, hits);
    var g := Members(HitKey, hits, c.Key());
    assert g != [];
    h := g[0];
    assert h in g;
  }

  /** What the ranking reads of the rows of one candidate. */
  function Filed(t: Names, node: Node, domain: string): ((Finding, Row)) -> Option<Hit> {
    (p: (Finding, Row)) => if ResolveIn(t, p.1.entity) == Some(node) && p.0.domain == domain then HitOf(t)(p) else None
  }

  lemma GroupTold(t: Names, findings: seq<Finding>, node: Node, domain: string)
    ensures var g := Members(HitKey, Hits(t, findings), (node, domain));
            && g == Picked(AllRows(findings), Filed(t, node, domain))
            && forall h :: h in g <==> exists f, r :: Tells(t, findings, node, domain, f, r) && HitOf(t)((f, r)) == Some(h)
  {
    HitsExact(t, findings);
    PickedMembersOf(AllRows(findings), HitOf(t), Filed(t, node, domain), HitKey, (node, domain));
    PickedMembers(AllRows(findings), Filed(t, node, domain));
    AllRowsExact(findings);
    forall h
      ensures (exists p :: p in AllRows(findings) && Filed(t, node, domain)(p) == Some(h)) <==>
              exists f, r :: Tells(t, findings, node, domain, f, r) && HitOf(t)((f, r)) == Some(h)
    {
      if p :| p in AllRows(findings) && Filed(t, node, domain)(p) == Some(h) {
        assert p == (p.0, p.1);
        assert Tells(t, findings, node, domain, p.0, p.1);
      }
      if f, r :| Tells(t, findings, node, domain, f, r) && HitOf(t)((f, r)) == Some(h) {
        assert (f, r) in AllRows(findings) && Filed(t, node, domain)((f, r)) == Some(h);
      }
    }
  }

  /** A row's latest episode. */
  function BeganAt(r: Row): Time { if r.onset.Some? then r.onset.value else r.firstSeen }

  /** What a cause says of its rows. */
  ghost predicate SumsUp(t: Names, findings: seq<Finding>, c: RankedCause) {
    && (forall s :: s in c.signals <==> exists f, r :: Tells(t, findings, c.entity, c.domain, f, r) && s in r.signals)
    && (exists f, r :: Tells(t, findings, c.entity, c.domain, f, r) && r.firstSeen == c.firstSeen)
    && (forall f, r :: Tells(t, findings, c.entity, c.domain, f, r) ==> c.firstSeen <= r.firstSeen)
    && (c.viaValidation <==> exists f, r :: Tells(t, findings, c.entity, c.domain, f, r) && r.via == Some(Validation))
    && (c.viaHypothesis <==> exists f, r :: Tells(t, findings, c.entity, c.domain, f, r) && r.via == Some(Hypothesis))
    && NoDup(c.signals)
  }

  /** `g` holds a hit for each of the rows, and no other. */
  ghost predicate Mirrors(t: Names, findings: seq<Finding>, node: Node, domain: string, g: seq<Hit>) {
    && (forall f, r :: Tells(t, findings, node, domain, f, r) ==> HitMade(node, f, r) in g)
    && (forall h :: h in g ==> exists f, r :: Tells(t, findings, node, domain, f, r) && h == HitMade(node, f, r))
  }

  lemma GroupMirrors(t: Names, findings: seq<Finding>, node: Node, domain: string)
    ensures Mirrors(t, findings, node, domain, Members(HitKey, Hits(t, findings), (node, domain)))
  {
    hide Members, Hits;
    GroupTold(t, findings, node, domain);
    var g := Members(HitKey, Hits(t, findings), (node, domain));
    forall f, r | Tells(t, findings, node, domain, f, r)
      ensures HitMade(node, f, r) in g
    {
      assert HitOf(t)((f, r)) == Some(HitMade(node, f, r));
    }
  }

  /** The rows of a candidate and what Scored makes of them. */
  lemma CauseParts(t: Topo, catalog: Catalog, findings: seq<Finding>, alarm: seq<Node>, out: seq<RankedCause>, c: RankedCause)
    returns (g: seq<Hit>)
    requires IsRanking(t, catalog, findings, alarm, out) && c in out
    ensures g != [] && g == Members(HitKey, Hits(t.names, findings), (c.entity, c.domain))
    ensures Mirrors(t.names, findings, c.entity, c.domain, g)
    ensures NoDup(c.signals) && forall s :: s in c.signals <==> s in SignalsOf(g)
    ensures c.firstSeen == Earliest(g) && c.refs == Take(Keys(Itself, AllRefs(g)), 10)
    ensures c.viaValidation <==> exists h :: h in g && h.via == Some(Validation)
    ensures c.viaHypothesis <==> exists h :: h in g && h.via == Some(Hypothesis)
    ensures c.features.role == RoleScore(GroupRole(g))
    ensures c.features.evidence == Round3(EvidenceScore(Worst(g), |c.signals|, g[0].confidence))
    ensures c.features.topology == TopologyScore(t, Targets(t.names, findings, alarm), c.entity, catalog.maxHops)
    ensures c.score == Round3(Score(catalog.weights, c.features))
    ensures AreAliases(t.names, c.entity, [c.entity.id] + c.aliases)
  {
    hide IsOnset, SortedBy, Earlier, Hits, Targets, ChainOf, AreAliases, TopologyScore, Score, Mirrors;
    g := Members(HitKey, Hits(t.names, findings), c.Key());
    GroupMirrors(t.names, findings, c.entity, c.domain);
  }

  /** Signals, first sight and origin flags of a cause are those of its rows. */
  lemma CauseSumsUp(t: Topo, catalog: Catalog, findings: seq<Finding>, alarm: seq<Node>, out: seq<RankedCause>, c: RankedCause)
    requires IsRanking(t, catalog, findings, alarm, out) && c in out
    ensures SumsUp(t.names, findings, c)
  {
    hide *;
    var g := CauseParts(t, catalog, findings, alarm, out, c);
    SumsUpGroup(t.names, findings, c, g);
  }

  lemma SumsUpGroup(t: Names, findings: seq<Finding>, c: RankedCause, g: seq<Hit>)
    requires g != [] && Mirrors(t, findings, c.entity, c.domain, g)
    requires NoDup(c.signals) && forall s :: s in c.signals <==> s in SignalsOf(g)
    requires c.firstSeen == Earliest(g)
    requires c.viaValidation <==> exists h :: h in g && h.via == Some(Validation)
    requires c.viaHypothesis <==> exists h :: h in g && h.via == Some(Hypothesis)
    ensures SumsUp(t, findings, c)
  {
    hide Tells, NoDup, Earliest;
    var first :| first in g && first.firstSeen == Earliest(g);
    forall s
      ensures s in SignalsOf(g) <==> exists f, r :: Tells(t, findings, c.entity, c.domain, f, r) && s in r.signals
    {
      if f, r :| Tells(t, findings, c.entity, c.domain, f, r) && s in r.signals {
        assert HitMade(c.entity, f, r) in g;
      }
    }
  }

  /** The role feature: full when a row is a cause, half when none is but one has
      no role, none when all are symptoms. */
  lemma RoleTold(t: Topo, catalog: Catalog, findings: seq<Finding>, alarm: seq<Node>, out: seq<RankedCause>, c: RankedCause)
    requires IsRanking(t, catalog, findings, alarm, out) && c in out
    ensures c.features.role ==
            if exists f, r :: Tells(t.names, findings, c.entity, c.domain, f, r) && r.role == Some(Cause) then 1.0
            else if exists f, r :: Tells(t.names, findings, c.entity, c.domain, f, r) && r.role == None then 0.5
            else 0.0
  {
    hide *;
    var g := CauseParts(t, catalog, findings, alarm, out, c);
    RoleGroup(t.names, findings, c.entity, c.domain, g);
  }

  lemma RoleGroup(t: Names, findings: seq<Finding>, node: Node, domain: string, g: seq<Hit>)
    requires Mirrors(t, findings, node, domain, g)
    ensures RoleScore(GroupRole(g)) ==
            if exists f, r :: Tells(t, findings, node, domain, f, r) && r.role == Some(Cause) then 1.0
            else if exists f, r :: Tells(t, findings, node, domain, f, r) && r.role == None then 0.5
            else 0.0
  {
    hide Tells;
    if f, r :| Tells(t, findings, node, domain, f, r) && r.role == Some(Cause) {
      assert HitMade(node, f, r) in g;
    }
    if f, r :| Tells(t, findings, node, domain, f, r) && r.role == None {
      assert HitMade(node, f, r) in g;
    }
  }

  /** How bad a severity is. */
  function Weight(s: Severity): real {
    match s
    case Critical => 1.0
    case Error => 0.75
    case Warning => 0.5
    case Info => 0.25
    case Debug => 0.1
  }

  predicate Near(x: real, y: real) { -0.0005 <= x - y <= 0.0005 }

  /** `f` is the finding of the candidate's first row. */
  ghost predicate FirstFinding(t: Names, findings: seq<Finding>, node: Node, domain: string, f: Finding) {
    exists i :: 0 <= i < |AllRows(findings)| && AllRows(findings)[i].0 == f && Filed(t, node, domain)(AllRows(findings)[i]).Some?
             && forall j :: 0 <= j < i ==> Filed(t, node, domain)(AllRows(findings)[j]).None?
  }

  ghost predicate WorstRow(t: Names, findings: seq<Finding>, node: Node, domain: string, worst: Severity) {
    && (exists f, r :: Tells(t, findings, node, domain, f, r) && r.severity == worst)
    && (forall f, r :: Tells(t, findings, node, domain, f, r) ==> Weight(r.severity) <= Weight(worst))
  }

  /** The evidence feature: half for the worst row, 0.15 for each of up to two
      signals, a quarter of the first finding's confidence, at most 1. */
  lemma EvidenceTold(t: Topo, catalog: Catalog, findings: seq<Finding>, alarm: seq<Node>, out: seq<RankedCause>, c: RankedCause)
    requires IsRanking(t, catalog, findings, alarm, out) && c in out
    ensures exists worst, first ::
              && WorstRow(t.names, findings, c.entity, c.domain, worst) && FirstFinding(t.names, findings, c.entity, c.domain, first)
              && var sum := 0.5 * Weight(worst) + (if |c.signals| == 0 then 0.0 else if |c.signals| == 1 then 0.15 else 0.3) + 0.25 * first.confidence;
                 Near(c.features.evidence, if sum > 1.0 then 1.0 else sum)
  {
    hide *;
    var g := CauseParts(t, catalog, findings, alarm, out, c);
    var worst := WorstGroup(t.names, findings, c.entity, c.domain, g);
    var first := FirstGroup(t.names, findings, c.entity, c.domain, g);
    EvidenceNear(worst, |c.signals|, first.confidence);
  }

  lemma WorstGroup(t: Names, findings: seq<Finding>, node: Node, domain: string, g: seq<Hit>) returns (worst: Severity)
    requires g != [] && Mirrors(t, findings, node, domain, g)
    ensures WorstRow(t, findings, node, domain, worst) && Worst(g) == SeverityScore(worst)
  {
    hide Tells;
    var score := Worst(g);
    var h :| h in g && score == SeverityScore(h.severity);
    worst := h.severity;
    forall f, r | Tells(t, findings, node, domain, f, r)
      ensures Weight(r.severity) <= Weight(worst)
    {
      assert HitMade(node, f, r) in g;
    }
  }

  lemma FirstGroup(t: Names, findings: seq<Finding>, node: Node, domain: string, g: seq<Hit>) returns (first: Finding)
    requires g != [] && g == Members(HitKey, Hits(t, findings), (node, domain))
    ensures FirstFinding(t, findings, node, domain, first) && first.confidence == g[0].confidence
  {
    hide Members, Hits, AllRows;
    GroupTold(t, findings, node, domain);
    PickedFirst(AllRows(findings), Filed(t, node, domain));
    var i :| 0 <= i < |AllRows(findings)| && Filed(t, node, domain)(AllRows(findings)[i]) == Some(g[0])
      && forall j :: 0 <= j < i ==> Filed(t, node, domain)(AllRows(findings)[j]).None?;
    first := AllRows(findings)[i].0;
  }

  lemma EvidenceNear(worst: Severity, signals: nat, confidence: real)
    ensures var sum := 0.5 * Weight(worst) + (if signals == 0 then 0.0 else if signals == 1 then 0.15 else 0.3) + 0.25 * confidence;
            Near(Round3(EvidenceScore(SeverityScore(worst), signals, confidence)), if sum > 1.0 then 1.0 else sum)
  {
    hide Round3;
    Round3Near(EvidenceScore(SeverityScore(worst), signals, confidence));
  }

  /** The topology feature: half without targets; on a target 0.3; where a target
      depends on the entity 1; within reach of one 0.1; otherwise nothing. */
  lemma TopologyTold(t: Topo, catalog: Catalog, findings: seq<Finding>, alarm: seq<Node>, out: seq<RankedCause>, c: RankedCause)
    requires IsRanking(t, catalog, findings, alarm, out) && c in out
    ensures c.features.topology ==
            if forall n :: !IsTarget(t.names, findings, alarm, n) then 0.5
            else if IsTarget(t.names, findings, alarm, c.entity) then 0.3
            else if exists n :: IsTarget(t.names, findings, alarm, n) && Reaches(t.depends, n, c.entity, catalog.maxHops) then 1.0
            else if exists n :: IsTarget(t.names, findings, alarm, n) && Within(t.adjacent, n, c.entity, catalog.maxHops) then 0.1
            else 0.0
  {
    hide *;
    var g := CauseParts(t, catalog, findings, alarm, out, c);
    TopologyOnTargets(t, findings, alarm, c.entity, catalog.maxHops);
  }

  lemma TopologyOnTargets(t: Topo, findings: seq<Finding>, alarm: seq<Node>, node: Node, k: nat)
    ensures TopologyScore(t, Targets(t.names, findings, alarm), node, k) ==
            if forall n :: !IsTarget(t.names, findings, alarm, n) then 0.5
            else if IsTarget(t.names, findings, alarm, node) then 0.3
            else if exists n :: IsTarget(t.names, findings, alarm, n) && Reaches(t.depends, n, node, k) then 1.0
            else if exists n :: IsTarget(t.names, findings, alarm, n) && Within(t.adjacent, n, node, k) then 0.1
            else 0.0
  {
    hide Targets, IsTarget, Reaches, Within;
    TargetsExactly(t.names, findings, alarm);
  }

  /** A target of the ranking: an entity of the alarm, or if none of these resolves
      one showing a symptom. */
  ghost predicate IsTarget(t: Names, findings: seq<Finding>, alarm: seq<Node>, n: Node) {
    if exists e :: e in alarm && ResolveIn(t, e).Some? then exists e :: e in alarm && ResolveIn(t, e) == Some(n)
    else exists f, r :: f in findings && r in f.evidence && r.role == Some(Symptom) && ResolveIn(t, r.entity) == Some(n)
  }

  lemma TargetsExactly(t: Names, findings: seq<Finding>, alarm: seq<Node>)
    ensures forall n :: n in Targets(t, findings, alarm) <==> IsTarget(t, findings, alarm, n)
    ensures Targets(t, findings, alarm) == {} <==> forall n :: !IsTarget(t, findings, alarm, n)
  {
    hide Hits;
    if e :| e in alarm && ResolveIn(t, e).Some? {
      assert ResolveIn(t, e).value in AlarmTargets(t, alarm);
    }
    forall n
      ensures n in SymptomTargets(Hits(t, findings)) <==>
              exists f, r :: f in findings && r in f.evidence && r.role == Some(Symptom) && ResolveIn(t, r.entity) == Some(n)
    {
      SymptomsTold(t, findings, n);
    }
  }

  lemma SymptomsTold(t: Names, findings: seq<Finding>, n: Node)
    ensures n in SymptomTargets(Hits(t, findings)) <==>
            exists f, r :: f in findings && r in f.evidence && r.role == Some(Symptom) && ResolveIn(t, r.entity) == Some(n)
  {
    hide Hits;
    if n in SymptomTargets(Hits(t, findings)) {
      var h :| h in Hits(t, findings) && h.role == Some(Symptom) && h.node == n;
      HitsTold(t, findings, h);
    }
    if f, r :| f in findings && r in f.evidence && r.role == Some(Symptom) && ResolveIn(t, r.entity) == Some(n) {
      var h := HitMade(n, f, r);
      assert Tells(t, findings, n, f.domain, f, r) && HitOf(t)((f, r)) == Some(h);
      HitsTold(t, findings, h);
    }
  }

  /** The latest episode of the rows of one (entity, domain). */
  ghost predicate LatestOf(t: Names, findings: seq<Finding>, node: Node, domain: string, at: Time) {
    && (exists f, r :: Tells(t, findings, node, domain, f, r) && BeganAt(r) == at)
    && (forall f, r :: Tells(t, findings, node, domain, f, r) ==> BeganAt(r) <= at)
  }

  /** A row of some finding shows a symptom that began then. */
  ghost predicate SymptomAt(t: Names, findings: seq<Finding>, at: Time) {
    exists f: Finding, r: Row, n: Node :: Tells(t, findings, n, f.domain, f, r) && r.role == Some(Symptom) && BeganAt(r) == at
  }

  ghost predicate TargetEpisode(t: Names, findings: seq<Finding>, alarm: seq<Node>, at: Time) {
    exists n, d :: IsTarget(t, findings, alarm, n) && LatestOf(t, findings, n, d, at)
  }

  /** When the current trouble began: the earliest, over the evidence on targets, of
      its latest episode; without any, the earliest symptom. */
  ghost predicate IsTrouble(t: Names, findings: seq<Finding>, alarm: seq<Node>, onset: Option<Time>) {
    if exists at :: TargetEpisode(t, findings, alarm, at) then
      onset.Some? && TargetEpisode(t, findings, alarm, onset.value) && forall at :: TargetEpisode(t, findings, alarm, at) ==> onset.value <= at
    else if exists at :: SymptomAt(t, findings, at) then
      onset.Some? && SymptomAt(t, findings, onset.value) && forall at :: SymptomAt(t, findings, at) ==> onset.value <= at
    else onset.None?
  }

  lemma LatestGroup(t: Names, findings: seq<Finding>, node: Node, domain: string, g: seq<Hit>)
    requires g != [] && Mirrors(t, findings, node, domain, g)
    ensures forall at :: LatestOf(t, findings, node, domain, at) <==> at == Latest(g)
  {
    hide Tells;
    var latest := Latest(g);
    var h :| h in g && latest == h.Began();
    forall f, r | Tells(t, findings, node, domain, f, r)
      ensures BeganAt(r) <= latest
    {
      assert HitMade(node, f, r) in g && HitMade(node, f, r).Began() == BeganAt(r);
    }
    var f, r :| Tells(t, findings, node, domain, f, r) && h == HitMade(node, f, r);
    assert BeganAt(r) == latest;
  }

  lemma EpisodesTold(t: Names, findings: seq<Finding>, node: Node, domain: string)
    ensures var g := Members(HitKey, Hits(t, findings), (node, domain));
            && ((exists at :: LatestOf(t, findings, node, domain, at)) <==> g != [])
            && (g != [] ==> forall at :: LatestOf(t, findings, node, domain, at) <==> at == Latest(g))
            && (g != [] <==> (node, domain) in Keys(HitKey, Hits(t, findings)))
  {
    hide Members, Keys, Hits, Tells, Latest;
    GroupFacts(HitKey, Hits(t, findings));
    GroupMirrors(t, findings, node, domain);
    var g := Members(HitKey, Hits(t, findings), (node, domain));
    if g != [] {
      LatestGroup(t, findings, node, domain, g);
      assert LatestOf(t, findings, node, domain, Latest(g));
    }
    if at :| LatestOf(t, findings, node, domain, at) {
      var f, r :| Tells(t, findings, node, domain, f, r) && BeganAt(r) == at;
      assert HitMade(node, f, r) in g;
    }
  }

  lemma SymptomHits(t: Names, findings: seq<Finding>, at: Time)
    ensures SymptomAt(t, findings, at) <==> exists h :: h in Hits(t, findings) && h.role == Some(Symptom) && h.Began() == at
  {
    hide Hits;
    if f: Finding, r: Row, n: Node :| Tells(t, findings, n, f.domain, f, r) && r.role == Some(Symptom) && BeganAt(r) == at {
      var h := HitMade(n, f, r);
      assert HitOf(t)((f, r)) == Some(h);
      HitsTold(t, findings, h);
    }
    if h :| h in Hits(t, findings) && h.role == Some(Symptom) && h.Began() == at {
      HitsTold(t, findings, h);
      var f, r :| Tells(t, findings, h.node, h.domain, f, r) && HitOf(t)((f, r)) == Some(h);
      assert Tells(t, findings, h.node, f.domain, f, r) && BeganAt(r) == at;
    }
  }

  lemma TargetEpisodes(t: Names, findings: seq<Finding>, alarm: seq<Node>, at: Time)
    ensures TargetEpisode(t, findings, alarm, at) <==>
            exists k :: k in Keys(HitKey, Hits(t, findings)) && k.0 in Targets(t, findings, alarm) &&
                        Members(HitKey, Hits(t, findings), k) != [] && at == Latest(Members(HitKey, Hits(t, findings), k))
  {
    hide Members, Keys, Hits, Tells, Latest, Targets, IsTarget, LatestOf;
    TargetsExactly(t, findings, alarm);
    if n, d :| IsTarget(t, findings, alarm, n) && LatestOf(t, findings, n, d, at) {
      EpisodesTold(t, findings, n, d);
      assert (n, d) in Keys(HitKey, Hits(t, findings));
    }
    if k :| k in Keys(HitKey, Hits(t, findings)) && k.0 in Targets(t, findings, alarm) &&
            Members(HitKey, Hits(t, findings), k) != [] && at == Latest(Members(HitKey, Hits(t, findings), k)) {
      EpisodesTold(t, findings, k.0, k.1);
      assert k == (k.0, k.1);
      assert IsTarget(t, findings, alarm, k.0) && LatestOf(t, findings, k.0, k.1, at);
    }
  }

  lemma AnyTargetHit(t: Names, findings: seq<Finding>, alarm: seq<Node>)
    ensures (exists h :: h in Hits(t, findings) && h.node in Targets(t, findings, alarm)) <==> exists at :: TargetEpisode(t, findings, alarm, at)
  {
    hide Members, Keys, Hits, Latest, Targets, TargetEpisode;
    var hits := Hits(t, findings);
    GroupFacts(HitKey, hits);
    if h :| h in hits && h.node in Targets(t, findings, alarm) {
      var g := Members(HitKey, hits, HitKey(h));
      assert HitKey(h) in Keys(HitKey, hits) && g != [];
      TargetEpisodes(t, findings, alarm, Latest(g));
    }
    if at :| TargetEpisode(t, findings, alarm, at) {
      TargetEpisodes(t, findings, alarm, at);
      var k :| k in Keys(HitKey, hits) && k.0 in Targets(t, findings, alarm) && Members(HitKey, hits, k) != [];
      var h := Members(HitKey, hits, k)[0];
      assert h in Members(HitKey, hits, k);
      assert h in hits && HitKey(h) == k;
    }
  }

  lemma TroubleTold(t: Names, findings: seq<Finding>, alarm: seq<Node>, onset: Option<Time>)
    requires IsOnset(Hits(t, findings), Targets(t, findings, alarm), onset)
    ensures IsTrouble(t, findings, alarm, onset)
  {
    hide Keys, Hits, Targets, TargetEpisode, SymptomAt, StartsEpisode;
    AnyTargetHit(t, findings, alarm);
    if onset.Some? {
      StartsTold(t, findings, alarm, onset.value);
    }
    forall at
      ensures SymptomAt(t, findings, at) <==> exists h :: h in Hits(t, findings) && h.role == Some(Symptom) && h.Began() == at
    {
      SymptomHits(t, findings, at);
    }
  }

  lemma StartsTold(t: Names, findings: seq<Finding>, alarm: seq<Node>, onset: Time)
    ensures StartsEpisode(Hits(t, findings), Keys(HitKey, Hits(t, findings)), Targets(t, findings, alarm), onset) <==>
            TargetEpisode(t, findings, alarm, onset) && forall at :: TargetEpisode(t, findings, alarm, at) ==> onset <= at
  {
    hide Members, Keys, Hits, Latest, Targets, TargetEpisode;
    var hits, targets := Hits(t, findings), Targets(t, findings, alarm);
    forall at
      ensures TargetEpisode(t, findings, alarm, at) <==>
              exists k :: k in Keys(HitKey, hits) && k.0 in targets && Members(HitKey, hits, k) != [] && at == Latest(Members(HitKey, hits, k))
    {
      TargetEpisodes(t, findings, alarm, at);
    }
    forall k | k in Keys(HitKey, hits) && k.0 in targets && Members(HitKey, hits, k) != []
      ensures TargetEpisode(t, findings, alarm, Latest(Members(HitKey, hits, k)))
    {
    }
  }

  /** The precedence feature: that of the cause's latest episode before the onset of
      the trouble, or half without one. */
  lemma PrecedenceTold(t: Topo, catalog: Catalog, findings: seq<Finding>, alarm: seq<Node>, out: seq<RankedCause>, c: RankedCause)
    requires IsRanking(t, catalog, findings, alarm, out) && c in out
    ensures exists onset, at ::
              && IsTrouble(t.names, findings, alarm, onset) && LatestOf(t.names, findings, c.entity, c.domain, at)
              && c.features.precedence == if onset.None? then 0.5 else Precedence(at, onset.value)
  {
    hide *;
    var g, onset := CausePrecedence(t, catalog, findings, alarm, out, c);
    EpisodesTold(t.names, findings, c.entity, c.domain);
    TroubleTold(t.names, findings, alarm, onset);
    assert LatestOf(t.names, findings, c.entity, c.domain, Latest(g));
  }

  lemma CausePrecedence(t: Topo, catalog: Catalog, findings: seq<Finding>, alarm: seq<Node>, out: seq<RankedCause>, c: RankedCause)
    returns (g: seq<Hit>, onset: Option<Time>)
    requires IsRanking(t, catalog, findings, alarm, out) && c in out
    ensures g != [] && g == Members(HitKey, Hits(t.names, findings), (c.entity, c.domain))
    ensures IsOnset(Hits(t.names, findings), Targets(t.names, findings, alarm), onset)
    ensures c.features.precedence == if onset.None? then 0.5 else Precedence(Latest(g), onset.value)
  {
    hide IsOnset, SortedBy, Earlier, Hits, Targets, ChainOf, AreAliases, TopologyScore, Score, Members, Keys, Latest, Precedence;
    g := Members(HitKey, Hits(t.names, findings), c.Key());
    onset :| IsOnset(Hits(t.names, findings), Targets(t.names, findings, alarm), onset) &&
      forall d :: d in out ==> Scored(t, catalog, Targets(t.names, findings, alarm), onset, Members(HitKey, Hits(t.names, findings), d.Key()), d);
  }

  /** The references: distinct ones its rows cite, all of them or the first ten. */
  lemma RefsTold(t: Topo, catalog: Catalog, findings: seq<Finding>, alarm: seq<Node>, out: seq<RankedCause>, c: RankedCause)
    requires IsRanking(t, catalog, findings, alarm, out) && c in out
    ensures NoDup(c.refs) && |c.refs| <= 10
    ensures forall x :: x in c.refs ==> exists f, r :: Tells(t.names, findings, c.entity, c.domain, f, r) && x in r.refs
    ensures |c.refs| < 10 ==> forall f, r, x :: Tells(t.names, findings, c.entity, c.domain, f, r) && x in r.refs ==> x in c.refs
  {
    hide *;
    var g := CauseParts(t, catalog, findings, alarm, out, c);
    RefsGroup(t.names, findings, c.entity, c.domain, g);
  }

  lemma RefsGroup(t: Names, findings: seq<Finding>, node: Node, domain: string, g: seq<Hit>)
    requires Mirrors(t, findings, node, domain, g)
    ensures var refs := Take(Keys(Itself, AllRefs(g)), 10);
            && NoDup(refs) && |refs| <= 10
            && (forall x :: x in refs ==> exists f, r :: Tells(t, findings, node, domain, f, r) && x in r.refs)
            && (|refs| < 10 ==> forall f, r, x :: Tells(t, findings, node, domain, f, r) && x in r.refs ==> x in refs)
  {
    hide Tells, Keys, AllRefs;
    GroupFacts(Itself, AllRefs(g));
    RefsOf(g);
    var all := Keys(Itself, AllRefs(g));
    assert forall x :: x in Take(all, 10) ==> x in all;
    assert forall x :: x in all <==> x in AllRefs(g) by {
      KeysOfItself(AllRefs(g));
    }
    forall f, r, x | Tells(t, findings, node, domain, f, r) && x in r.refs
      ensures x in all
    {
      assert HitMade(node, f, r) in g;
    }
    forall x | x in all
      ensures exists f, r :: Tells(t, findings, node, domain, f, r) && x in r.refs
    {
      var h :| h in g && x in h.refs;
      var f, r :| Tells(t, findings, node, domain, f, r) && h == HitMade(node, f, r);
      assert x in r.refs;
    }
  }

  lemma {:induction false} KeysOfItself(xs: seq<string>)
    ensures forall x :: x in Keys(Itself, xs) <==> x in xs
  {
    if xs != [] {
      KeysOfItself(xs[..|xs| - 1]);
      assert xs == xs[..|xs| - 1] + [xs[|xs| - 1]];
    }
  }

  lemma {:induction false} RefsOf(g: seq<Hit>)
    ensures forall x :: x in AllRefs(g) <==> exists h :: h in g && x in h.refs
  {
    if g != [] {
      RefsOf(g[..|g| - 1]);
      assert g == g[..|g| - 1] + [g[|g| - 1]];
    }
  }

  /** The score: the mean of the features by the catalog's weights. */
  lemma ScoreTold(t: Topo, catalog: Catalog, findings: seq<Finding>, alarm: seq<Node>, out: seq<RankedCause>, c: RankedCause)
    requires IsRanking(t, catalog, findings, alarm, out) && c in out && catalog.weights.Valid()
    ensures var w, f := catalog.weights, c.features;
            exists mean :: Near(c.score, mean) &&
              mean * (if w.evidence == w.topology == w.precedence == w.role == 0.0 then 1.0 else w.evidence + w.topology + w.precedence + w.role) ==
              w.evidence * f.evidence + w.topology * f.topology + w.precedence * f.precedence + w.role * f.role
  {
    hide *;
    var g := CauseParts(t, catalog, findings, alarm, out, c);
    MeanTold(catalog.weights, c.features);
  }

  lemma MeanTold(w: Weights, f: Features)
    requires w.Valid()
    ensures Near(Round3(Score(w, f)), Score(w, f))
    ensures Score(w, f) * (if w.evidence == w.topology == w.precedence == w.role == 0.0 then 1.0 else w.evidence + w.topology + w.precedence + w.role) ==
            w.evidence * f.evidence + w.topology * f.topology + w.precedence * f.precedence + w.role * f.role
  {
    hide Round3, Parts, Total;
    Round3Near(Score(w, f));
    TotalTold(w);
    PartsTold(w, f);
    Undivided(Parts(w, f), Total(w));
  }

  lemma TotalTold(w: Weights)
    requires w.Valid()
    ensures Total(w) > 0.0
    ensures Total(w) == if w.evidence == w.topology == w.precedence == w.role == 0.0 then 1.0 else w.evidence + w.topology + w.precedence + w.role
  {
  }

  lemma PartsTold(w: Weights, f: Features)
    ensures Parts(w, f) == w.evidence * f.evidence + w.topology * f.topology + w.precedence * f.precedence + w.role * f.role
  {
  }

  lemma Undivided(x: real, y: real)
    requires y > 0.0
    ensures x / y * y == x
  {
  }

  /** The order: higher scores first, then the earlier seen, then by entity. */
  lemma RankingOrder(t: Topo, catalog: Catalog, findings: seq<Finding>, alarm: seq<Node>, out: seq<RankedCause>, i: nat, j: nat)
    requires IsRanking(t, catalog, findings, alarm, out) && i < j < |out|
    ensures var a, b := out[i], out[j];
            || a.score > b.score
            || (a.score == b.score && a.firstSeen < b.firstSeen)
            || (a.score == b.score && a.firstSeen == b.firstSeen && a.entity.kind != b.entity.kind && StrLe(a.entity.kind, b.entity.kind))
            || (a.score == b.score && a.firstSeen == b.firstSeen && a.entity.kind == b.entity.kind && StrLe(a.entity.id, b.entity.id))
  {
    hide Scored, IsOnset, Hits, Targets, Keys, Members, Earlier;
    assert CauseLe(out[i], out[j]);
  }

  /** The `placed` check on the rows: the entity resolves and is a target or upstream
      of one. */
  lemma PlacedTold(t: Topo, catalog: Catalog, entity: Node, alarm: seq<Node>, findings: seq<Finding>)
    ensures IsPlaced(t, catalog, entity, alarm, findings) <==>
            exists node, x :: ResolveIn(t.names, entity) == Some(node) && IsTarget(t.names, findings, alarm, x) &&
                              (node == x || Reaches(t.depends, x, node, catalog.maxHops))
  {
    hide Targets, IsTarget, Reaches;
    TargetsExactly(t.names, findings, alarm);
  }
}
