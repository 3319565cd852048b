/** detection/investigate.py, TopologyGraph: an alias-resolving graph filled in
    place from a topology response, and its two bounded searches. */
module Topology {
  import opened Prelude
  import opened Graphs

  /** (entity type, entity id); also the key of the alias table. */
  datatype Node = Node(kind: string, id: string)

  type Labels = map<string, string>

  datatype Entity = Entity(kind: string, id: string, labels: Labels) {
    function Name(): Node { Node(kind, id) }
  }

  datatype Edge = Edge(kind: string, source: Entity, target: Entity)
  datatype Response = Response(entities: seq<Entity>, relationships: seq<Edge>)

  /** Which end of a relationship depends on the other. */
  datatype Dependent = SourceEnd | TargetEnd | BothEnds
  type Relationships = map<string, Dependent>

  predicate NodeLe(m: Node, n: Node) {
    if m.kind == n.kind then StrLe(m.id, n.id) else StrLe(m.kind, n.kind)
  }

  lemma NodeOrder()
    ensures TotalOrder(NodeLe)
  {
    StringOrder();
  }

  // ------------------------------------------------------------------- naming

  /** The graph's nodes with their labels, and the alias table. */
  datatype Names = Names(nodes: map<Node, Labels>, alias: map<Node, Node>)

  /** Labels accumulate; a value already known wins. */
  function Merged(nodes: map<Node, Labels>, node: Node, labels: Labels): Labels {
    labels + (if node in nodes then nodes[node] else map[])
  }

  /** A node's own id always names it; its label values only where free. */
  function Claim(alias: map<Node, Node>, node: Node, values: set<string>): map<Node, Node> {
    var own := alias[node := node];
    (map v | v in values && Node(node.kind, v) !in own :: Node(node.kind, v) := node) + own
  }

  function Added(t: Names, e: Entity): Names {
    var merged := Merged(t.nodes, e.Name(), e.labels);
    Names(t.nodes[e.Name() := merged], Claim(t.alias, e.Name(), merged.Values))
  }

  function AddedAll(es: seq<Entity>): Names {
    if es == [] then Names(map[], map[]) else Added(AddedAll(es[..|es| - 1]), es[|es| - 1])
  }

  function ResolveIn(t: Names, name: Node): Option<Node> {
    if name in t.alias then Some(t.alias[name]) else None
  }

  predicate Labelled(t: Names, n: Node, value: string) {
    n in t.nodes && value in t.nodes[n].Values
  }

  predicate Fits(t: Names, n: Node, name: Node) {
    n in t.nodes && n.kind == name.kind && (n == name || Labelled(t, n, name.id))
  }

  /** What holds of the alias table whatever the build order: an id names its
      own node, an alias leads to a node of that type with that id or label, and
      every label leads somewhere. */
  ghost predicate AliasSound(t: Names) {
    && (forall n :: n in t.nodes ==> ResolveIn(t, n) == Some(n))
    && (forall k :: ResolveIn(t, k).Some? ==> Fits(t, ResolveIn(t, k).value, k))
    && (forall n, v :: Labelled(t, n, v) ==> ResolveIn(t, Node(n.kind, v)).Some?)
  }

  lemma AddedResolve(t: Names, e: Entity, name: Node)
    ensures ResolveIn(Added(t, e), name) ==
            if name == e.Name() then Some(name)
            else if ResolveIn(t, name).Some? then ResolveIn(t, name)
            else if name.kind == e.kind && name.id in Merged(t.nodes, e.Name(), e.labels).Values then Some(e.Name())
            else None
  {
  }

  lemma AddedLabels(t: Names, e: Entity, n: Node, v: string)
    ensures Labelled(t, n, v) ==> Labelled(Added(t, e), n, v)
    ensures n != e.Name() ==> (Labelled(t, n, v) <==> Labelled(Added(t, e), n, v))
    ensures Labelled(Added(t, e), e.Name(), v) <==> v in Merged(t.nodes, e.Name(), e.labels).Values
  {
    if Labelled(t, n, v) && n == e.Name() {
      var key :| key in t.nodes[n] && t.nodes[n][key] == v;
      assert key in Added(t, e).nodes[n] && Added(t, e).nodes[n][key] == v;
    }
  }

  lemma AddedSound(t: Names, e: Entity)
    requires AliasSound(t)
    ensures AliasSound(Added(t, e))
    ensures Added(t, e).nodes.Keys == t.nodes.Keys + {e.Name()}
  {
    var t' := Added(t, e);
    forall n, v {
      AddedLabels(t, e, n, v);
    }
    forall k {
      AddedResolve(t, e, k);
    }
  }

  lemma {:induction false} AddedAllSound(es: seq<Entity>)
    ensures AliasSound(AddedAll(es))
    ensures forall n :: n in AddedAll(es).nodes <==> exists e :: e in es && e.Name() == n
  {
    if es != [] {
      var init, last := es[..|es| - 1], es[|es| - 1];
      AddedAllSound(init);
      AddedSound(AddedAll(init), last);
      assert es == init + [last];
    }
  }

  /** The first entity in build order that brings the name as a label value. */
  function FirstLabelled(es: seq<Entity>, name: Node): Option<Node> {
    if es == [] then None else
      var init, last := es[..|es| - 1], es[|es| - 1];
      var earlier := FirstLabelled(init, name);
      if earlier.Some? then earlier
      else if last.kind == name.kind && name.id in Merged(AddedAll(init).nodes, last.Name(), last.labels).Values then Some(last.Name())
      else None
  }

  predicate Present(es: seq<Entity>, name: Node) {
    exists e :: e in es && e.Name() == name
  }

  lemma PresentSnoc(es: seq<Entity>, e: Entity, name: Node)
    ensures Present(es + [e], name) <==> Present(es, name) || e.Name() == name
  {
    assert e in es + [e];
    if x :| x in es && x.Name() == name {
      assert x in es + [e];
    }
  }

  lemma ResolveSnoc(es: seq<Entity>, e: Entity, name: Node)
    ensures ResolveIn(AddedAll(es + [e]), name) ==
            if name == e.Name() then Some(name)
            else if ResolveIn(AddedAll(es), name).Some? then ResolveIn(AddedAll(es), name)
            else if name.kind == e.kind && name.id in Merged(AddedAll(es).nodes, e.Name(), e.labels).Values then Some(e.Name())
            else None
    ensures FirstLabelled(es + [e], name) ==
            if FirstLabelled(es, name).Some? then FirstLabelled(es, name)
            else if e.kind == name.kind && name.id in Merged(AddedAll(es).nodes, e.Name(), e.labels).Values then Some(e.Name())
            else None
  {
    hide Added, Merged;
    assert (es + [e])[..|es|] == es;
    AddedResolve(AddedAll(es), e, name);
  }

  /** Resolution, exactly: an entity with that id if there is one, whatever
      labels others carry; otherwise the first entity in build order labelled
      with it. */
  lemma {:induction false} ResolveExact(es: seq<Entity>, name: Node)
    ensures ResolveIn(AddedAll(es), name) == if Present(es, name) then Some(name) else FirstLabelled(es, name)
  {
    if es == [] {
      assert AddedAll(es).alias == map[];
    } else {
      var init, last := es[..|es| - 1], es[|es| - 1];
      assert es == init + [last];
      ResolveExact(init, name);
      ResolveSnoc(init, last, name);
      PresentSnoc(init, last, name);
      hide Present, Added, ResolveIn, Merged, AddedAll, FirstLabelled;
    }
  }

  /** Resolution is sound and complete: it keeps the type, a node's own id names
      that node even if another node has that value as a label, it only ever
      hits a node with that id or label, and misses only names no node has. */
  lemma ResolveSound(t: Names, name: Node)
    requires AliasSound(t)
    ensures name in t.nodes ==> ResolveIn(t, name) == Some(name)
    ensures ResolveIn(t, name).Some? ==> Fits(t, ResolveIn(t, name).value, name)
    ensures ResolveIn(t, name).Some? <==> exists n :: Fits(t, n, name)
  {
    if n :| Fits(t, n, name) {
      assert n == name || ResolveIn(t, Node(n.kind, name.id)).Some?;
    }
  }

  // -------------------------------------------------------------------- edges

  function Linked(r: Rel<Node>, a: Node, b: Node): Rel<Node> {
    r[a := Succ(r, a) + {b}]
  }

  function DependentOf(rels: Relationships, e: Edge): Dependent {
    if e.kind in rels then rels[e.kind] else BothEnds
  }

  function WithAdjacency(r: Rel<Node>, e: Edge): Rel<Node> {
    Linked(Linked(r, e.source.Name(), e.target.Name()), e.target.Name(), e.source.Name())
  }

  function WithDependence(rels: Relationships, r: Rel<Node>, e: Edge): Rel<Node> {
    var a, b := e.source.Name(), e.target.Name();
    match DependentOf(rels, e)
    case SourceEnd => Linked(r, a, b)
    case TargetEnd => Linked(r, b, a)
    case BothEnds => Linked(Linked(r, a, b), b, a)
  }

  function Adjacency(edges: seq<Edge>): Rel<Node> {
    if edges == [] then map[] else WithAdjacency(Adjacency(edges[..|edges| - 1]), edges[|edges| - 1])
  }

  function Dependence(rels: Relationships, edges: seq<Edge>): Rel<Node> {
    if edges == [] then map[]
    else WithDependence(rels, Dependence(rels, edges[..|edges| - 1]), edges[|edges| - 1])
  }

  predicate Ends(e: Edge, a: Node, b: Node) {
    || (a == e.source.Name() && b == e.target.Name())
    || (a == e.target.Name() && b == e.source.Name())
  }

  /** `e` makes `a` depend on `b`. */
  predicate MakesDepend(rels: Relationships, e: Edge, a: Node, b: Node) {
    || (a == e.source.Name() && b == e.target.Name() && (e.kind in rels ==> rels[e.kind] != TargetEnd))
    || (a == e.target.Name() && b == e.source.Name() && (e.kind in rels ==> rels[e.kind] != SourceEnd))
  }

  lemma LinkedExactly(r: Rel<Node>, x: Node, y: Node, a: Node, b: Node)
    ensures b in Succ(Linked(r, x, y), a) <==> b in Succ(r, a) || (a == x && b == y)
  {
  }

  lemma LastEdge(rels: Relationships, edges: seq<Edge>, a: Node, b: Node)
    requires edges != []
    ensures b in Succ(Adjacency(edges), a) <==>
            b in Succ(Adjacency(edges[..|edges| - 1]), a) || Ends(edges[|edges| - 1], a, b)
    ensures b in Succ(Dependence(rels, edges), a) <==>
            b in Succ(Dependence(rels, edges[..|edges| - 1]), a) || MakesDepend(rels, edges[|edges| - 1], a, b)
  {
    hide Succ, Linked;
    var e := edges[|edges| - 1];
    var x, y := e.source.Name(), e.target.Name();
    var near, up := Adjacency(edges[..|edges| - 1]), Dependence(rels, edges[..|edges| - 1]);
    LinkedExactly(near, x, y, a, b);
    LinkedExactly(Linked(near, x, y), y, x, a, b);
    LinkedExactly(up, x, y, a, b);
    LinkedExactly(up, y, x, a, b);
    LinkedExactly(Linked(up, x, y), y, x, a, b);
  }

  lemma AnySnoc(init: seq<Edge>, last: Edge, test: Edge -> bool)
    ensures (exists e :: e in init + [last] && test(e)) <==> (exists e :: e in init && test(e)) || test(last)
  {
    assert last in init + [last];
    if e :| e in init && test(e) {
      assert e in init + [last];
    }
  }

  /** The built relations are exactly the topology's edges: adjacency in both
      directions, dependence in the direction the catalog gives it. */
  lemma {:induction false} EdgesExact(rels: Relationships, edges: seq<Edge>, a: Node, b: Node)
    ensures b in Succ(Adjacency(edges), a) <==> exists e :: e in edges && Ends(e, a, b)
    ensures b in Succ(Dependence(rels, edges), a) <==> exists e :: e in edges && MakesDepend(rels, e, a, b)
  {
    if edges != [] {
      var init, last := edges[..|edges| - 1], edges[|edges| - 1];
      EdgesExact(rels, init, a, b);
      LastEdge(rels, edges, a, b);
      hide Adjacency, Dependence, Ends, MakesDepend;
      assert edges == init + [last];
      AnySnoc(init, last, (e: Edge) => Ends(e, a, b));
      AnySnoc(init, last, (e: Edge) => MakesDepend(rels, e, a, b));
    }
  }

  // -------------------------------------------------------------- whole build

  datatype Topo = Topo(names: Names, adjacent: Rel<Node>, depends: Rel<Node>)

  function Endpoints(edges: seq<Edge>): seq<Entity> {
    if edges == [] then []
    else Endpoints(edges[..|edges| - 1]) + [edges[|edges| - 1].source] + [edges[|edges| - 1].target]
  }

  /** The graph of a topology response: its entities and then its edge ends are
      named in order, and every edge is linked. */
  function Built(topology: Option<Response>, rels: Relationships): Topo {
    match topology
    case None => Topo(AddedAll([]), map[], map[])
    case Some(r) =>
      Topo(AddedAll(r.entities + Endpoints(r.relationships)), Adjacency(r.relationships),
           Dependence(rels, r.relationships))
  }

  ghost predicate WellFormed(t: Topo) {
    && AliasSound(t.names)
    && Symmetric(t.adjacent)
    && Includes(t.adjacent, t.depends)
    && (forall a, b :: b in Succ(t.adjacent, a) ==> a in t.names.nodes)
  }

  lemma {:induction false} EndpointsNamed(edges: seq<Edge>, e: Edge)
    requires e in edges
    ensures e.source in Endpoints(edges) && e.target in Endpoints(edges)
  {
    var init, last := edges[..|edges| - 1], edges[|edges| - 1];
    assert edges == init + [last];
    if e != last {
      EndpointsNamed(init, e);
    }
  }

  lemma EdgesSound(rels: Relationships, edges: seq<Edge>, a: Node, b: Node)
    ensures b in Succ(Adjacency(edges), a) ==> a in Succ(Adjacency(edges), b)
    ensures b in Succ(Adjacency(edges), a) ==> exists e :: e in Endpoints(edges) && e.Name() == a
    ensures b in Succ(Dependence(rels, edges), a) ==> b in Succ(Adjacency(edges), a)
  {
    EdgesExact(rels, edges, a, b);
    EdgesExact(rels, edges, b, a);
    if e :| e in edges && Ends(e, a, b) {
      assert Ends(e, b, a);
      EndpointsNamed(edges, e);
    }
    if e :| e in edges && MakesDepend(rels, e, a, b) {
      assert Ends(e, a, b);
    }
  }

  lemma PartsSound(es: seq<Entity>, rels: Relationships, edges: seq<Edge>)
    requires forall e :: e in Endpoints(edges) ==> e in es
    ensures WellFormed(Topo(AddedAll(es), Adjacency(edges), Dependence(rels, edges)))
  {
    hide AddedAll, Adjacency, Dependence, AliasSound;
    AddedAllSound(es);
    forall a, b | b in Succ(Adjacency(edges), a)
      ensures a in AddedAll(es).nodes
    {
      EdgesSound(rels, edges, a, b);
    }
    forall a, b | b in Succ(Adjacency(edges), a)
      ensures a in Succ(Adjacency(edges), b)
    {
      EdgesSound(rels, edges, a, b);
    }
    forall a, b | b in Succ(Dependence(rels, edges), a)
      ensures b in Succ(Adjacency(edges), a)
    {
      EdgesSound(rels, edges, a, b);
    }
    var t := Topo(AddedAll(es), Adjacency(edges), Dependence(rels, edges));
    assert forall a, b :: b in Succ(Adjacency(edges), a) ==> a in AddedAll(es).nodes;
    assert Includes(t.adjacent, t.depends) by {
      assert forall a, b :: b in Succ(Dependence(rels, edges), a) ==> b in Succ(Adjacency(edges), a);
    }
  }

  /** Every build is well formed: aliases are sound, adjacency is symmetric and
      holds every depends edge, and only named nodes have edges. */
  lemma BuiltSound(topology: Option<Response>, rels: Relationships)
    ensures WellFormed(Built(topology, rels))
  {
    match topology
    case None => AddedAllSound([]);
    case Some(r) => PartsSound(r.entities + Endpoints(r.relationships), rels, r.relationships);
  }

  // -------------------------------------------------------------- walk theory

  /** A best walk visits no node twice. */
  lemma BestIsSimple(r: Rel<Node>, a: Node, b: Node, p: seq<Node>)
    requires IsBest(NodeLe, r, a, b, p)
    ensures NoDup(p)
  {
    if i, j :| 0 <= i < j < |p| && p[i] == p[j] {
      var q := p[..i] + p[j..];
      assert Joins(r, a, b, q);
    }
  }

  /** What the directed search finds, the undirected walk finds from either end. */
  lemma DependsIsNearby(t: Topo, a: Node, b: Node, k: int)
    requires WellFormed(t) && Reaches(t.depends, a, b, k)
    ensures Within(t.adjacent, a, b, k) && Within(t.adjacent, b, a, k)
  {
    ReachesWithin(t.depends, a, b, k);
    WithinMonotone(t.adjacent, t.depends, a, b, k);
    WithinSymmetric(t.adjacent, a, b, k);
  }

  // -------------------------------------------------------------------- class

  function Prefix(r: Response, rels: Relationships, i: nat, j: nat): Topo
    requires i <= |r.entities| && j <= |r.relationships|
  {
    Topo(AddedAll(r.entities[..i] + Endpoints(r.relationships[..j])), Adjacency(r.relationships[..j]),
         Dependence(rels, r.relationships[..j]))
  }

  lemma PrefixEnds(topology: Option<Response>, rels: Relationships)
    ensures topology.None? ==> Built(topology, rels) == Topo(Names(map[], map[]), map[], map[])
    ensures topology.Some? ==>
              var r := topology.value;
              && Prefix(r, rels, 0, 0) == Topo(Names(map[], map[]), map[], map[])
              && Prefix(r, rels, |r.entities|, |r.relationships|) == Built(topology, rels)
  {
    if topology.Some? {
      var r := topology.value;
      assert r.entities[..|r.entities|] == r.entities && r.relationships[..|r.relationships|] == r.relationships;
    }
  }

  lemma PrefixEntity(r: Response, rels: Relationships, i: nat)
    requires i < |r.entities|
    ensures Prefix(r, rels, i + 1, 0) == Prefix(r, rels, i, 0).(names := Added(Prefix(r, rels, i, 0).names, r.entities[i]))
  {
    var es := r.entities;
    assert es[..i + 1][..i] == es[..i] && es[..i] + [] == es[..i] && es[..i + 1] + [] == es[..i + 1];
  }

  lemma AddedAllSnoc(es: seq<Entity>, e: Entity)
    ensures AddedAll(es + [e]) == Added(AddedAll(es), e)
  {
    assert (es + [e])[..|es|] == es;
  }

  lemma PrefixEdge(r: Response, rels: Relationships, j: nat)
    requires j < |r.relationships|
    ensures var before, e := Prefix(r, rels, |r.entities|, j), r.relationships[j];
            Prefix(r, rels, |r.entities|, j + 1) ==
            Topo(Added(Added(before.names, e.source), e.target), WithAdjacency(before.adjacent, e),
                 WithDependence(rels, before.depends, e))
  {
    var es, edges := r.entities, r.relationships;
    var before := es + Endpoints(edges[..j]);
    assert edges[..j + 1][..j] == edges[..j] && es[..|es|] == es;
    assert es + Endpoints(edges[..j + 1]) == before + [edges[j].source] + [edges[j].target];
    calc {
      AddedAll(es + Endpoints(edges[..j + 1]));
      AddedAll(before + [edges[j].source] + [edges[j].target]);
      { AddedAllSnoc(before + [edges[j].source], edges[j].target); }
      Added(AddedAll(before + [edges[j].source]), edges[j].target);
      { AddedAllSnoc(before, edges[j].source); }
      Added(Added(AddedAll(before), edges[j].source), edges[j].target);
    }
  }

  /** A node's id first, then every other non-empty label value once, sorted. */
  ghost predicate AreAliases(t: Names, node: Node, names: seq<string>) {
    && names != [] && names[0] == node.id
    && SortedBy(StrLe, names[1..]) && NoDup(names)
    && forall v :: v in names[1..] <==> Labelled(t, node, v) && v != "" && v != node.id
  }

  // ------------------------------------------- breadth-first search invariants

  function Parent(p: seq<Node>): seq<Node> {
    if p == [] then [] else p[..|p| - 1]
  }

  type Paths = map<Node, seq<Node>>

  /** Every path found is a walk from the start of at most `k` hops. */
  ghost predicate Found(r: Rel<Node>, start: Node, k: nat, paths: Paths) {
    && start in paths && paths[start] == [start]
    && forall m :: m in paths ==> Joins(r, start, m, paths[m]) && |paths[m]| <= k + 1
  }

  /** The queue is in path order, and none of its nodes has children yet. */
  ghost predicate Queued(start: Node, paths: Paths, queue: seq<Node>) {
    && NoDup(queue)
    && (forall q :: q in queue ==> q in paths)
    && (forall i, j :: 0 <= i < j < |queue| ==> WalkLe(NodeLe, paths[queue[i]], paths[queue[j]]))
    && (forall q, m :: q in queue && m in paths && m != start ==> Parent(paths[m]) != paths[q])
  }

  /** No node was found through a path worse than `limit`. */
  ghost predicate Shallow(start: Node, paths: Paths, limit: seq<Node>) {
    forall m :: m in paths && m != start ==> WalkLe(NodeLe, Parent(paths[m]), limit)
  }

  /** `x` was reached, at a path no worse than the one through `m`. */
  ghost predicate Covers(paths: Paths, m: Node, x: Node)
    requires m in paths
  {
    x in paths && WalkLe(NodeLe, paths[x], paths[m] + [x])
  }

  ghost predicate Expanded(r: Rel<Node>, k: nat, paths: Paths, m: Node)
    requires m in paths
  {
    |paths[m]| <= k ==> forall x :: x in Succ(r, m) ==> Covers(paths, m, x)
  }

  /** While `current` is expanded: only its neighbours in `done` are its children. */
  ghost predicate Expanding(start: Node, paths: Paths, queue: seq<Node>, current: Node, done: seq<Node>) {
    && current in paths && current !in queue
    && Queued(start, paths, queue)
    && Shallow(start, paths, paths[current])
    && (forall q :: q in queue ==> WalkLe(NodeLe, paths[current], paths[q]))
    && (forall m :: m in paths && m != start && Parent(paths[m]) == paths[current] ==> m in done)
    && (forall x :: x in done ==> Covers(paths, current, x))
  }

  lemma Initial(r: Rel<Node>, start: Node, k: nat)
    ensures var paths := map[start := [start]];
            Found(r, start, k, paths) && Queued(start, paths, [start]) && Shallow(start, paths, [start])
  {
  }

  lemma Dequeue(start: Node, paths: Paths, queue: seq<Node>)
    requires queue != [] && Queued(start, paths, queue) && Shallow(start, paths, paths[queue[0]])
    ensures Expanding(start, paths, queue[1..], queue[0], [])
  {
    assert queue == [queue[0]] + queue[1..];
  }

  lemma AlreadyFound(r: Rel<Node>, start: Node, k: nat, paths: Paths, queue: seq<Node>, current: Node, done: seq<Node>, x: Node)
    requires Found(r, start, k, paths) && Expanding(start, paths, queue, current, done)
    requires x in paths
    ensures Expanding(start, paths, queue, current, done + [x])
  {
    NodeOrder();
    if x != start {
      WalkLeReflexive(NodeLe, [x]);
      WalkLeAppend(NodeLe, Parent(paths[x]), paths[current], x, x);
      assert paths[x] == Parent(paths[x]) + [x];
    }
    assert Covers(paths, current, x);
  }

  /** Queued nodes stay ahead of a newly discovered one. */
  lemma BehindQueue(r: Rel<Node>, start: Node, k: nat, paths: Paths, queue: seq<Node>, current: Node, done: seq<Node>,
                    q: Node, x: Node)
    requires Found(r, start, k, paths) && Expanding(start, paths, queue, current, done)
    requires q in queue && forall y :: y in done ==> NodeLe(y, x)
    ensures WalkLe(NodeLe, paths[q], paths[current] + [x])
  {
    NodeOrder();
    if q != start {
      WalkLeAppend(NodeLe, Parent(paths[q]), paths[current], q, x);
      assert paths[q] == Parent(paths[q]) + [q];
    }
  }

  lemma Discover(r: Rel<Node>, start: Node, k: nat, paths: Paths, queue: seq<Node>, current: Node, done: seq<Node>, x: Node)
    requires Found(r, start, k, paths) && Expanding(start, paths, queue, current, done)
    requires |paths[current]| <= k && x in Succ(r, current)
    requires x !in paths && forall y :: y in done ==> NodeLe(y, x)
    ensures var paths' := paths[x := paths[current] + [x]];
            Found(r, start, k, paths') && Expanding(start, paths', queue + [x], current, done + [x])
  {
    hide Joins, WalkLe, Parent, Queued, Shallow, Covers;
    NodeOrder();
    var path := paths[current] + [x];
    var paths' := paths[x := path];
    WalkExtend(r, start, current, paths[current], x);
    ParentOf(paths[current], x);
    WalkLeReflexive(NodeLe, paths[current]);
    DiscoverLast(r, start, k, paths, queue, current, done, x);
    DiscoverQueued(start, paths, queue, x, path);
    DiscoverShallow(start, paths, paths[current], x, path);
    forall y | y in done + [x]
      ensures Covers(paths', current, y)
    {
      DiscoverCovers(paths, current, x, y);
    }
    DiscoverBehind(paths, current, x);
  }

  lemma ParentOf(p: seq<Node>, x: Node)
    requires p != []
    ensures Parent(p + [x]) == p
  {
  }

  lemma DiscoverQueued(start: Node, paths: Paths, queue: seq<Node>, x: Node, path: seq<Node>)
    requires Queued(start, paths, queue) && x !in paths
    requires forall q :: q in queue ==> WalkLe(NodeLe, paths[q], path) && Parent(path) != paths[q]
    requires (forall m :: m in paths && m != start ==> Parent(paths[m]) != path) && Parent(path) != path
    ensures Queued(start, paths[x := path], queue + [x])
  {
    hide WalkLe, Parent;
    assert forall q :: q in queue + [x] <==> q in queue || q == x;
  }

  lemma DiscoverShallow(start: Node, paths: Paths, limit: seq<Node>, x: Node, path: seq<Node>)
    requires Shallow(start, paths, limit) && WalkLe(NodeLe, Parent(path), limit)
    ensures Shallow(start, paths[x := path], limit)
  {
  }

  lemma DiscoverCovers(paths: Paths, current: Node, x: Node, y: Node)
    requires current in paths && x !in paths && (y == x || Covers(paths, current, y))
    ensures Covers(paths[x := paths[current] + [x]], current, y)
  {
    NodeOrder();
    WalkLeReflexive(NodeLe, paths[current] + [x]);
  }

  lemma DiscoverBehind(paths: Paths, current: Node, x: Node)
    requires current in paths
    ensures WalkLe(NodeLe, paths[current], paths[current] + [x])
  {
  }

  /** The new path is behind every queued one and nobody's parent yet. */
  lemma DiscoverLast(r: Rel<Node>, start: Node, k: nat, paths: Paths, queue: seq<Node>, current: Node, done: seq<Node>, x: Node)
    requires Found(r, start, k, paths) && Expanding(start, paths, queue, current, done)
    requires x !in paths && forall y :: y in done ==> NodeLe(y, x)
    ensures var path := paths[current] + [x];
            && (forall q :: q in queue ==> WalkLe(NodeLe, paths[q], path) && Parent(path) != paths[q])
            && (forall m :: m in paths && m != start ==> Parent(paths[m]) != path)
            && Parent(path) != path
  {
    NodeOrder();
    var path := paths[current] + [x];
    assert Parent(path) == paths[current];
    forall q | q in queue
      ensures WalkLe(NodeLe, paths[q], path) && Parent(path) != paths[q]
    {
      BehindQueue(r, start, k, paths, queue, current, done, q, x);
      assert paths[q][|paths[q]| - 1] == q && paths[current][|paths[current]| - 1] == current;
    }
    forall m | m in paths && m != start
      ensures Parent(paths[m]) != path
    {
      assert WalkLe(NodeLe, Parent(paths[m]), paths[current]);
    }
  }

  /** The node taken from the queue is finished, and the queue is in order again. */
  lemma Finish(r: Rel<Node>, start: Node, k: nat, paths: Paths, queue: seq<Node>, current: Node, done: seq<Node>)
    requires Expanding(start, paths, queue, current, done)
    requires |paths[current]| <= k ==> forall x :: x in Succ(r, current) ==> x in done
    ensures Queued(start, paths, queue) && Expanded(r, k, paths, current)
    ensures queue != [] ==> Shallow(start, paths, paths[queue[0]])
  {
    NodeOrder();
    if queue != [] {
      forall m | m in paths && m != start
        ensures WalkLe(NodeLe, Parent(paths[m]), paths[queue[0]])
      {
        WalkLeTransitive(NodeLe, Parent(paths[m]), paths[current], paths[queue[0]]);
      }
    }
  }

  lemma QueueFound(start: Node, paths: Paths, queue: seq<Node>)
    requires Queued(start, paths, queue)
    ensures forall q :: q in queue ==> q in paths
  {
  }

  lemma SortedBefore(nearby: seq<Node>, i: nat)
    requires SortedBy(NodeLe, nearby) && i < |nearby|
    ensures forall y :: y in nearby[..i] ==> NodeLe(y, nearby[i])
  {
  }

  lemma SearchExact(r: Rel<Node>, start: Node, k: nat, paths: Paths)
    requires Found(r, start, k, paths)
    requires forall m :: m in paths ==> Expanded(r, k, paths, m)
    ensures forall n :: n in paths <==> Within(r, start, n, k)
    ensures forall n :: n in paths ==> IsBest(NodeLe, r, start, n, paths[n])
  {
    NodeOrder();
    forall m, x | m in paths && |paths[m]| <= k && x in Succ(r, m)
      ensures x in paths && WalkLe(NodeLe, paths[x], paths[m] + [x])
    {
      assert Expanded(r, k, paths, m) && Covers(paths, m, x);
    }
    forall n, q | Joins(r, start, n, q) && |q| <= k + 1
      ensures n in paths && WalkLe(NodeLe, paths[n], q)
    {
      ClosedIsBest(NodeLe, r, paths, start, k, q, n);
    }
  }

  lemma StillExpanded(r: Rel<Node>, k: nat, paths: Paths, x: Node, p: seq<Node>, m: Node)
    requires m in paths && x !in paths && Expanded(r, k, paths, m)
    ensures Expanded(r, k, paths[x := p], m)
  {
    forall y | |paths[m]| <= k && y in Succ(r, m)
      ensures Covers(paths[x := p], m, y)
    {
      assert Covers(paths, m, y);
    }
  }

  // ------------------------------------------------ reachability invariants

  /** `n` was expanded without meeting the dependency. */
  ghost predicate Cleared(r: Rel<Node>, seen: set<Node>, dependency: Node, n: Node) {
    Succ(r, n) <= seen && dependency !in Succ(r, n)
  }

  /** One hop out of `ball` so far: `next` holds what is new. */
  ghost predicate Grown(r: Rel<Node>, ball: set<Node>, seen: set<Node>, next: seq<Node>) {
    && ball <= seen
    && (forall n :: n in next ==> n in seen)
    && (forall n :: n in seen ==> n in ball || (n in next && exists m :: m in ball && n in Succ(r, m)))
  }

  class TopologyGraph {
    var nodes: map<Node, Labels>
    var adjacent: Rel<Node>
    var depends: Rel<Node>
    var alias: map<Node, Node>

    function View(): Topo
      reads this
    {
      Topo(Names(nodes, alias), adjacent, depends)
    }

    ghost predicate Valid()
      reads this
    {
      WellFormed(View())
    }

    constructor ()
      ensures View() == Topo(Names(map[], map[]), map[], map[])
    {
      nodes, adjacent, depends, alias := map[], map[], map[], map[];
    }

    static method Build(topology: Option<Response>, rels: Relationships) returns (graph: TopologyGraph)
      ensures fresh(graph) && graph.Valid()
      ensures graph.View() == Built(topology, rels)
    {
      hide Prefix, Built, Added, WellFormed;
      graph := new TopologyGraph();
      BuiltSound(topology, rels);
      PrefixEnds(topology, rels);
      if topology.None? {
        return;
      }
      var r := topology.value;
      for i := 0 to |r.entities|
        invariant graph.View() == Prefix(r, rels, i, 0)
      {
        PrefixEntity(r, rels, i);
        var _ := graph.Add(r.entities[i]);
      }
      for j := 0 to |r.relationships|
        invariant graph.View() == Prefix(r, rels, |r.entities|, j)
      {
        PrefixEdge(r, rels, j);
        graph.Connect(r.relationships[j], rels);
      }
    }

    /** One relationship of the build loop. */
    method Connect(edge: Edge, rels: Relationships)
      modifies this
      ensures View() == Topo(Added(Added(old(View().names), edge.source), edge.target),
                             WithAdjacency(old(adjacent), edge), WithDependence(rels, old(depends), edge))
    {
      hide Added;
      var a := Add(edge.source);
      var b := Add(edge.target);
      adjacent := Linked(adjacent, a, b);
      adjacent := Linked(adjacent, b, a);
      var dependent := DependentOf(rels, edge);
      if dependent.SourceEnd? || dependent.BothEnds? {
        depends := Linked(depends, a, b);
      }
      if dependent.TargetEnd? || dependent.BothEnds? {
        depends := Linked(depends, b, a);
      }
    }

    method Add(e: Entity) returns (node: Node)
      modifies this
      ensures node == e.Name()
      ensures View() == Topo(Added(old(View().names), e), old(adjacent), old(depends))
    {
      node := e.Name();
      var merged := e.labels + (if node in nodes then nodes[node] else map[]);
      nodes := nodes[node := merged];
      alias := alias[node := node];
      ghost var own := alias;
      var rest := merged.Values;
      while rest != {}
        invariant rest <= merged.Values
        invariant nodes == old(nodes)[node := merged] && adjacent == old(adjacent) && depends == old(depends)
        invariant alias == Claim(old(alias), node, merged.Values - rest)
      {
        var value :| value in rest;
        ClaimOne(old(alias), node, merged.Values - rest, value);
        assert merged.Values - (rest - {value}) == merged.Values - rest + {value};
        if Node(node.kind, value) !in alias {
          alias := alias[Node(node.kind, value) := node];
        }
        rest := rest - {value};
      }
      assert merged.Values - {} == merged.Values;
    }

    /** `__bool__`. */
    predicate NonEmpty()
      reads this
    {
      nodes != map[]
    }

    function Resolve(name: Node): (r: Option<Node>)
      reads this
    {
      if name in alias then Some(alias[name]) else None
    }

    /** The node's id, then its other names in order. */
    method Aliases(node: Node) returns (out: seq<string>)
      ensures AreAliases(View().names, node, out)
    {
      StringOrder();
      var values := if node in nodes then nodes[node].Values else {};
      var others := SortedSet(StrLe, set v | v in values && v != "" && v != node.id);
      out := [node.id] + others;
      assert out[1..] == others && node.id !in others;
      assert forall i :: 0 < i < |out| ==> out[i] == others[i - 1];
    }

    /** The inner loop of the walk: `current` has left the queue, and its
        neighbours are visited in order. */
    method Expand(start: Node, maxHops: nat, current: Node, paths0: Paths, queue0: seq<Node>)
      returns (paths: Paths, queue: seq<Node>)
      requires Valid() && Found(adjacent, start, maxHops, paths0) && current in paths0 && |paths0[current]| <= maxHops
      requires Expanding(start, paths0, queue0, current, [])
      requires forall m :: m in paths0 && m !in queue0 && m != current ==> Expanded(adjacent, maxHops, paths0, m)
      ensures paths0.Keys <= paths.Keys <= paths0.Keys + nodes.Keys && (paths.Keys == paths0.Keys ==> queue == queue0)
      ensures Found(adjacent, start, maxHops, paths) && Queued(start, paths, queue)
      ensures queue != [] ==> queue[0] in paths && Shallow(start, paths, paths[queue[0]])
      ensures forall m :: m in paths && m !in queue ==> Expanded(adjacent, maxHops, paths, m)
    {
      hide Queued, Shallow, Expanding, Expanded, Covers, SortedBy, Joins;
      paths, queue := paths0, queue0;
      NodeOrder();
      var nearby := SortedSet(NodeLe, Succ(adjacent, current));
      for i := 0 to |nearby|
        invariant paths0.Keys <= paths.Keys <= paths0.Keys + nodes.Keys && (paths.Keys == paths0.Keys ==> queue == queue0)
        invariant Found(adjacent, start, maxHops, paths) && |paths[current]| <= maxHops
        invariant Expanding(start, paths, queue, current, nearby[..i])
        invariant forall m :: m in paths && m !in queue && m != current ==> Expanded(adjacent, maxHops, paths, m)
      {
        var next := nearby[i];
        assert nearby[..i + 1] == nearby[..i] + [next];
        SortedBefore(nearby, i);
        if next !in paths {
          Discover(adjacent, start, maxHops, paths, queue, current, nearby[..i], next);
          forall m | m in paths && m !in queue && m != current {
            StillExpanded(adjacent, maxHops, paths, next, paths[current] + [next], m);
          }
          assert next in Succ(adjacent, current) && current in Succ(adjacent, next);
          paths := paths[next := paths[current] + [next]];
          queue := queue + [next];
        } else {
          AlreadyFound(adjacent, start, maxHops, paths, queue, current, nearby[..i], next);
        }
      }
      assert nearby[..|nearby|] == nearby;
      Finish(adjacent, start, maxHops, paths, queue, current, nearby);
      QueueFound(start, paths, queue);
    }

    /** Every node within `maxHops` of `start`, each with the best walk to it. */
    method Walk(start: Node, maxHops: nat) returns (paths: map<Node, seq<Node>>)
      requires Valid()
      ensures forall n :: n in paths <==> Within(adjacent, start, n, maxHops)
      ensures forall n :: n in paths ==> IsBest(NodeLe, adjacent, start, n, paths[n])
    {
      hide Queued, Shallow, Expanding, Expanded, Covers, IsBest, Within, Joins, WellFormed;
      Initial(adjacent, start, maxHops);
      paths := map[start := [start]];
      var queue := [start];
      ghost var universe := nodes.Keys + {start};
      while queue != []
        invariant paths.Keys <= universe && Found(adjacent, start, maxHops, paths) && Queued(start, paths, queue)
        invariant queue != [] ==> queue[0] in paths && Shallow(start, paths, paths[queue[0]])
        invariant forall m :: m in paths && m !in queue ==> Expanded(adjacent, maxHops, paths, m)
        decreases universe - paths.Keys, |queue|
      {
        var current := queue[0];
        assert queue == [current] + queue[1..];
        Dequeue(start, paths, queue);
        queue := queue[1..];
        if |paths[current]| > maxHops {
          Finish(adjacent, start, maxHops, paths, queue, current, []);
          QueueFound(start, paths, queue);
          continue;
        }
        paths, queue := Expand(start, maxHops, current, paths, queue);
      }
      SearchExact(adjacent, start, maxHops, paths);
    }

    /** Does `dependent` reach `dependency` in 1 to `maxHops` depends edges? */
    method DependsOn(dependent: Node, dependency: Node, maxHops: nat) returns (found: bool)
      ensures found <==> Reaches(depends, dependent, dependency, maxHops)
    {
      var seen, frontier := {dependent}, [dependent];
      forall n {
        WithinZero(depends, dependent, n);
      }
      for hop := 0 to maxHops
        invariant forall n :: n in seen <==> Within(depends, dependent, n, hop)
        invariant forall n :: n in frontier ==> n in seen
        invariant forall n :: n in seen && n !in frontier ==> Cleared(depends, seen, dependency, n)
        invariant hop > 0 ==> forall n :: Within(depends, dependent, n, hop - 1) ==> dependency !in Succ(depends, n)
      {
        ghost var ball := seen;
        var next := [];
        for i := 0 to |frontier|
          invariant Grown(depends, ball, seen, next)
          invariant forall n :: n in ball && n !in frontier[i..] ==> Cleared(depends, seen, dependency, n)
        {
          var node := frontier[i];
          ghost var before := seen;
          var rest := Succ(depends, node);
          while rest != {}
            invariant rest <= Succ(depends, node) <= seen + rest && before <= seen
            invariant dependency in Succ(depends, node) ==> dependency in rest
            invariant Grown(depends, ball, seen, next)
          {
            var dep :| dep in rest;
            if dep == dependency {
              ReachesStep(depends, dependent, dependency, maxHops);
              WithinGrows(depends, dependent, node, hop, maxHops - 1);
              return true;
            }
            if dep !in seen {
              seen := seen + {dep};
              next := next + [dep];
            }
            rest := rest - {dep};
          }
          assert Cleared(depends, seen, dependency, node);
          forall n | n in ball && n !in frontier[i + 1..]
            ensures Cleared(depends, seen, dependency, n)
          {
            assert n != node ==> n !in frontier[i..];
          }
        }
        frontier := next;
        forall n
          ensures n in seen <==> Within(depends, dependent, n, hop + 1)
        {
          WithinStep(depends, dependent, n, hop);
          if m :| m in ball && n in Succ(depends, m) {
            assert Cleared(depends, seen, dependency, m);
          }
        }
        assert forall n :: n in ball ==> Cleared(depends, seen, dependency, n);
      }
      ReachesStep(depends, dependent, dependency, maxHops);
      found := false;
    }
  }

  lemma ClaimOne(alias: map<Node, Node>, node: Node, values: set<string>, v: string)
    ensures var before := Claim(alias, node, values);
            Claim(alias, node, values + {v}) ==
            if Node(node.kind, v) in before then before else before[Node(node.kind, v) := node]
  {
  }
}
