/** The names of detection/investigate.py's topology graph told from the entities
    it is built of: what labels a node has, and whom a name means. */
module Naming {
  import opened Prelude
  import opened Topology

  /** The entity at `i` is the first of its node to bring the label. */
  ghost predicate Gives(es: seq<Entity>, i: nat, node: Node, key: string, v: string) {
    && i < |es| && es[i].Name() == node && key in es[i].labels && es[i].labels[key] == v
    && forall j :: 0 <= j < i && es[j].Name() == node ==> key !in es[j].labels
  }

  /** The entity at `i` is the first of its node to bring a label of this value. */
  ghost predicate Brings(es: seq<Entity>, i: nat, name: Node) {
    i < |es| && es[i].kind == name.kind && exists key :: Gives(es, i, es[i].Name(), key, name.id)
  }

  lemma GivesSnoc(es: seq<Entity>, e: Entity, node: Node, key: string, v: string)
    ensures forall i :: 0 <= i < |es| ==> (Gives(es + [e], i, node, key, v) <==> Gives(es, i, node, key, v))
    ensures Gives(es + [e], |es|, node, key, v) <==>
            e.Name() == node && key in e.labels && e.labels[key] == v && forall j :: 0 <= j < |es| && es[j].Name() == node ==> key !in es[j].labels
  {
    forall i | 0 <= i < |es|
      ensures Gives(es + [e], i, node, key, v) <==> Gives(es, i, node, key, v)
    {
      assert forall j :: 0 <= j <= i ==> (es + [e])[j] == es[j];
    }
    assert (es + [e])[|es|] == e && forall j :: 0 <= j < |es| ==> (es + [e])[j] == es[j];
  }

  predicate HasLabel(t: Names, node: Node, key: string, v: string) {
    node in t.nodes && key in t.nodes[node] && t.nodes[node][key] == v
  }

  predicate HasKey(t: Names, node: Node, key: string) { node in t.nodes && key in t.nodes[node] }

  predicate Carries(es: seq<Entity>, node: Node, key: string) {
    exists i :: 0 <= i < |es| && es[i].Name() == node && key in es[i].labels
  }

  /** The labels of a node: under each key the value of the first of its entities
      that brings the key, and no other. */
  lemma {:induction false} LabelsExactly(es: seq<Entity>, node: Node)
    ensures node in AddedAll(es).nodes <==> exists i :: 0 <= i < |es| && es[i].Name() == node
    ensures forall key :: HasKey(AddedAll(es), node, key) <==> Carries(es, node, key)
    ensures forall key, v :: HasLabel(AddedAll(es), node, key, v) <==> exists i: nat :: Gives(es, i, node, key, v)
  {
    hide Gives, HasLabel, HasKey, Carries, Added;
    if es == [] {
      NothingGives(node);
    } else {
      var init, e := es[..|es| - 1], es[|es| - 1];
      assert es == init + [e];
      LabelsExactly(init, node);
      AddedAllSnoc(init, e);
      NodeSnoc(AddedAll(init), e, node);
      forall key
        ensures Carries(es, node, key) <==> Carries(init, node, key) || (e.Name() == node && key in e.labels)
      {
        CarriesSnoc(init, e, node, key);
      }
      forall key, v
        ensures HasLabel(AddedAll(es), node, key, v) <==> exists i: nat :: Gives(es, i, node, key, v)
      {
        LabelSnoc(init, e, node, key, v);
      }
    }
  }

  lemma NothingGives(node: Node)
    ensures AddedAll([]).nodes == map[]
    ensures forall key :: !HasKey(AddedAll([]), node, key) && !Carries([], node, key)
    ensures forall key, v :: !HasLabel(AddedAll([]), node, key, v)
    ensures forall i: nat, key, v :: !Gives([], i, node, key, v)
  {
  }

  lemma CarriesSnoc(init: seq<Entity>, e: Entity, node: Node, key: string)
    ensures Carries(init + [e], node, key) <==> Carries(init, node, key) || (e.Name() == node && key in e.labels)
  {
    var es := init + [e];
    assert es[|init|] == e && forall i :: 0 <= i < |init| ==> es[i] == init[i];
  }

  lemma LabelSnoc(init: seq<Entity>, e: Entity, node: Node, key: string, v: string)
    requires HasLabel(AddedAll(init), node, key, v) <==> exists i: nat :: Gives(init, i, node, key, v)
    requires HasKey(AddedAll(init), node, key) <==> Carries(init, node, key)
    ensures HasLabel(AddedAll(init + [e]), node, key, v) <==> exists i: nat :: Gives(init + [e], i, node, key, v)
  {
    AddedAllSnoc(init, e);
    LabelAdded(AddedAll(init), e, node, key, v);
    GivesSnoc(init, e, node, key, v);
    hide AddedAll, HasLabel, HasKey;
    if i: nat :| Gives(init + [e], i, node, key, v) && i < |init| {
      assert Gives(init, i, node, key, v);
    }
    if i: nat :| Gives(init, i, node, key, v) {
      assert Gives(init + [e], i, node, key, v);
    }
  }

  lemma LabelAdded(t: Names, e: Entity, node: Node, key: string, v: string)
    ensures HasLabel(Added(t, e), node, key, v) <==>
            HasLabel(t, node, key, v) || (e.Name() == node && key in e.labels && e.labels[key] == v && !HasKey(t, node, key))
  {
  }

  lemma NodeSnoc(t: Names, e: Entity, node: Node)
    ensures node in Added(t, e).nodes <==> node in t.nodes || e.Name() == node
    ensures forall key :: HasKey(Added(t, e), node, key) <==> HasKey(t, node, key) || (e.Name() == node && key in e.labels)
  {
  }

  /** Whom a name means: the entity with that id, whatever labels others carry;
      without one, the entity of the first to bring the value as a label of the
      same type; without either, nobody. */
  lemma {:induction false} NameExactly(es: seq<Entity>, name: Node)
    ensures (exists i :: 0 <= i < |es| && es[i].Name() == name) ==> ResolveIn(AddedAll(es), name) == Some(name)
    ensures (forall i :: 0 <= i < |es| ==> es[i].Name() != name && !Brings(es, i, name)) ==> ResolveIn(AddedAll(es), name) == None
    ensures forall i: nat :: (forall j :: 0 <= j < |es| ==> es[j].Name() != name) && Brings(es, i, name) && (forall j :: 0 <= j < i ==> !Brings(es, j, name)) ==>
              ResolveIn(AddedAll(es), name) == Some(es[i].Name())
  {
    ResolveExact(es, name);
    hide Brings, AddedAll, ResolveIn;
    FirstExactly(es, name);
    if i :| 0 <= i < |es| && es[i].Name() == name {
      assert es[i] in es;
    }
  }

  lemma {:induction false} FirstExactly(es: seq<Entity>, name: Node)
    ensures FirstLabelled(es, name).None? <==> forall i :: 0 <= i < |es| ==> !Brings(es, i, name)
    ensures forall i: nat :: Brings(es, i, name) && (forall j :: 0 <= j < i ==> !Brings(es, j, name)) ==>
              i < |es| && FirstLabelled(es, name) == Some(es[i].Name())
  {
    hide Brings, Merged;
    if es == [] {
      forall i: nat
        ensures !Brings(es, i, name)
      {
        BringsWithin(es, i, name);
      }
    } else {
      var init, e := es[..|es| - 1], es[|es| - 1];
      assert es == init + [e];
      FirstExactly(init, name);
      BringsSnoc(init, e, name);
      forall i: nat | Brings(es, i, name)
        ensures i < |es|
      {
        BringsWithin(es, i, name);
      }
      if FirstLabelled(init, name).None? {
        NewlyBrought(init, e, name);
      } else {
        SomeFirst(init, name);
      }
    }
  }

  lemma BringsWithin(es: seq<Entity>, i: nat, name: Node)
    ensures Brings(es, i, name) ==> i < |es|
  {
  }

  lemma {:induction false} SomeFirst(es: seq<Entity>, name: Node)
    requires exists i :: 0 <= i < |es| && Brings(es, i, name)
    ensures exists i: nat :: i < |es| && Brings(es, i, name) && forall j :: 0 <= j < i ==> !Brings(es, j, name)
  {
    hide Brings;
    var i: nat :| i < |es| && Brings(es, i, name);
    while exists j :: 0 <= j < i && Brings(es, j, name)
      invariant i < |es| && Brings(es, i, name)
      decreases i
    {
      var j :| 0 <= j < i && Brings(es, j, name);
      i := j;
    }
  }

  lemma BringsSnoc(init: seq<Entity>, e: Entity, name: Node)
    ensures forall i :: 0 <= i < |init| ==> (Brings(init + [e], i, name) <==> Brings(init, i, name))
  {
    hide Gives;
    forall i | 0 <= i < |init|
      ensures Brings(init + [e], i, name) <==> Brings(init, i, name)
    {
      assert (init + [e])[i] == init[i];
      forall key
        ensures Gives(init + [e], i, init[i].Name(), key, name.id) <==> Gives(init, i, init[i].Name(), key, name.id)
      {
        GivesSnoc(init, e, init[i].Name(), key, name.id);
      }
    }
  }

  /** With nobody so far bringing the value, the next entity brings it exactly if
      it is then among its node's labels. */
  lemma NewlyBrought(init: seq<Entity>, e: Entity, name: Node)
    requires forall i :: 0 <= i < |init| ==> !Brings(init, i, name)
    ensures Brings(init + [e], |init|, name) <==>
            e.kind == name.kind && name.id in Merged(AddedAll(init).nodes, e.Name(), e.labels).Values
  {
    var t, node := AddedAll(init), e.Name();
    LabelsExactly(init, node);
    hide AddedAll, Gives, Brings, HasKey, HasLabel, Carries;
    if e.kind == name.kind && name.id in Merged(t.nodes, node, e.labels).Values {
      var key := MergedFrom(t, e, name.id);
      GivesSnoc(init, e, node, key, name.id);
      if i: nat :| Gives(init, i, node, key, name.id) {
        GivenBrings(init, i, node, key, name);
      }
      NoKeyBefore(init, node, key);
      GivenBrings(init + [e], |init|, node, key, name);
    }
    if Brings(init + [e], |init|, name) {
      var key := BroughtFrom(init, e, name);
      GivesSnoc(init, e, node, key, name.id);
      NoKeyBefore(init, node, key);
      NewKeyMerged(t, e, key);
    }
  }

  lemma MergedFrom(t: Names, e: Entity, v: string) returns (key: string)
    requires v in Merged(t.nodes, e.Name(), e.labels).Values
    ensures HasLabel(t, e.Name(), key, v) || (!HasKey(t, e.Name(), key) && key in e.labels && e.labels[key] == v)
  {
    var merged := Merged(t.nodes, e.Name(), e.labels);
    key :| key in merged && merged[key] == v;
  }

  lemma NewKeyMerged(t: Names, e: Entity, key: string)
    requires key in e.labels && !HasKey(t, e.Name(), key)
    ensures e.labels[key] in Merged(t.nodes, e.Name(), e.labels).Values
  {
    assert Merged(t.nodes, e.Name(), e.labels)[key] == e.labels[key];
  }

  lemma NoKeyBefore(init: seq<Entity>, node: Node, key: string)
    ensures Carries(init, node, key) <==> !(forall j :: 0 <= j < |init| && init[j].Name() == node ==> key !in init[j].labels)
  {
  }

  lemma GivenBrings(es: seq<Entity>, i: nat, node: Node, key: string, name: Node)
    requires node.kind == name.kind
    ensures Gives(es, i, node, key, name.id) ==> Brings(es, i, name) && i < |es|
  {
  }

  lemma BroughtFrom(init: seq<Entity>, e: Entity, name: Node) returns (key: string)
    requires Brings(init + [e], |init|, name)
    ensures e.kind == name.kind && Gives(init + [e], |init|, e.Name(), key, name.id)
  {
    assert (init + [e])[|init|] == e;
    key :| Gives(init + [e], |init|, (init + [e])[|init|].Name(), key, name.id);
  }

  /** The graph is named by the entities of the response and then by the two ends
      of each edge, in order. */
  lemma BuiltFrom(r: Response, rels: Relationships) returns (es: seq<Entity>)
    ensures Built(Some(r), rels).names == AddedAll(es)
    ensures |es| == |r.entities| + 2 * |r.relationships| && es[..|r.entities|] == r.entities
    ensures forall i :: 0 <= i < |r.relationships| ==>
              && es[|r.entities| + 2 * i] == r.relationships[i].source
              && es[|r.entities| + 2 * i + 1] == r.relationships[i].target
  {
    es := r.entities + Endpoints(r.relationships);
    EndsInOrder(r.relationships);
  }

  lemma {:induction false} EndsInOrder(edges: seq<Edge>)
    ensures |Endpoints(edges)| == 2 * |edges|
    ensures forall i :: 0 <= i < |edges| ==> Endpoints(edges)[2 * i] == edges[i].source && Endpoints(edges)[2 * i + 1] == edges[i].target
  {
    if edges != [] {
      var n := |edges| - 1;
      EndsInOrder(edges[..n]);
      var before := Endpoints(edges[..n]);
      forall i | 0 <= i < |edges|
        ensures Endpoints(edges)[2 * i] == edges[i].source && Endpoints(edges)[2 * i + 1] == edges[i].target
      {
        if i < n {
          assert before[2 * i] == edges[..n][i].source && before[2 * i + 1] == edges[..n][i].target;
        }
      }
    }
  }
}
