/** agents/rca_synthesizer.py: the guard around the LLM's order of causes and its
    root-cause sentence. */
module Synthesis {
  import opened Prelude
  import opened Topology
  import opened Contract
  import opened Ranking

  const RERANK_MARGIN := 0.05

  // ------------------------------------------------------------------- rerank

  function AtLeastScore(cs: seq<RankedCause>, score: real): seq<RankedCause> {
    if cs == [] then [] else
      var rest := AtLeastScore(cs[..|cs| - 1], score);
      if cs[|cs| - 1].score >= score then rest + [cs[|cs| - 1]] else rest
  }

  /** The near-tied leaders. */
  function Tied(ranked: seq<RankedCause>): seq<RankedCause>
    requires ranked != []
  {
    AtLeastScore(ranked, ranked[0].score - RERANK_MARGIN)
  }

  function ById(cs: seq<RankedCause>, id: nat): Option<RankedCause> {
    if cs == [] then None
    else if cs[|cs| - 1].id == id then Some(cs[|cs| - 1]) else ById(cs[..|cs| - 1], id)
  }

  function Named(cs: seq<RankedCause>, ids: seq<nat>): seq<RankedCause> {
    if ids == [] then [] else
      var rest, c := Named(cs, ids[..|ids| - 1]), ById(cs, ids[|ids| - 1]);
      if c.Some? then rest + [c.value] else rest
  }

  function ItselfId(id: nat): nat { id }

  /** The tied causes the LLM names, each once, in its order. */
  function Chosen(ranked: seq<RankedCause>, ids: seq<nat>): seq<RankedCause>
    requires ranked != []
  {
    Named(Tied(ranked), Keys(ItselfId, ids))
  }

  function Excluding(cs: seq<RankedCause>, out: seq<RankedCause>): seq<RankedCause> {
    if cs == [] then [] else
      var rest := Excluding(cs[..|cs| - 1], out);
      if cs[|cs| - 1] in out then rest else rest + [cs[|cs| - 1]]
  }

  /** _rerank; ids that are missing or no list are None. */
  function Reranked(ranked: seq<RankedCause>, ids: Option<seq<nat>>): seq<RankedCause> {
    if ranked == [] || ids.None? then ranked else
      var chosen := Chosen(ranked, ids.value);
      if chosen == [] then ranked else chosen + Excluding(ranked, chosen)
  }

  ghost predicate ByScore(cs: seq<RankedCause>) {
    forall i, j :: 0 <= i < j < |cs| ==> cs[i].score >= cs[j].score
  }

  ghost predicate DistinctIds(cs: seq<RankedCause>) {
    forall i, j :: 0 <= i < j < |cs| ==> cs[i].id != cs[j].id
  }

  lemma {:induction false} LeadersAreAPrefix(cs: seq<RankedCause>, score: real)
    requires ByScore(cs)
    ensures var m := |AtLeastScore(cs, score)|;
            && m <= |cs| && AtLeastScore(cs, score) == cs[..m]
            && (forall i :: 0 <= i < |cs| ==> (i < m <==> cs[i].score >= score))
  {
    if cs != [] {
      var init, n := cs[..|cs| - 1], |cs| - 1;
      LeadersAreAPrefix(init, score);
      var m := |AtLeastScore(init, score)|;
      assert init[..m] == cs[..m];
      if cs[n].score >= score {
        assert forall i :: 0 <= i < n ==> init[i].score >= score && i < m;
        assert cs[..n] + [cs[n]] == cs[..n + 1];
      }
    }
  }

  lemma {:induction false} ByIdFacts(cs: seq<RankedCause>, id: nat)
    ensures ById(cs, id).Some? ==> ById(cs, id).value in cs && ById(cs, id).value.id == id
    ensures ById(cs, id).None? ==> forall c :: c in cs ==> c.id != id
  {
    if cs != [] {
      ByIdFacts(cs[..|cs| - 1], id);
      assert cs == cs[..|cs| - 1] + [cs[|cs| - 1]];
    }
  }

  lemma {:induction false} NamedFacts(cs: seq<RankedCause>, ids: seq<nat>)
    requires NoDup(ids)
    ensures NoDup(Named(cs, ids))
    ensures forall c :: c in Named(cs, ids) ==> c in cs && c.id in ids
    ensures forall id :: id in ids && (exists c :: c in cs && c.id == id) ==> exists c :: c in Named(cs, ids) && c.id == id
  {
    if ids != [] {
      var init, id := ids[..|ids| - 1], ids[|ids| - 1];
      NamedFacts(cs, init);
      ByIdFacts(cs, id);
      assert ids == init + [id] && id !in init;
      forall i | i in ids && exists c :: c in cs && c.id == i
        ensures exists c :: c in Named(cs, ids) && c.id == i
      {
        if i == id {
          assert ById(cs, id).value in Named(cs, ids);
        } else {
          var c :| c in Named(cs, init) && c.id == i;
          assert c in Named(cs, ids);
        }
      }
    }
  }

  lemma {:induction false} ExcludingSplit(a: seq<RankedCause>, b: seq<RankedCause>, out: seq<RankedCause>)
    requires forall c :: c in b ==> c !in out
    ensures Excluding(a + b, out) == Excluding(a, out) + b
  {
    if b == [] {
      assert a + b == a;
    } else {
      assert (a + b)[..|a + b| - 1] == a + b[..|b| - 1];
      ExcludingSplit(a, b[..|b| - 1], out);
      assert b == b[..|b| - 1] + [b[|b| - 1]];
    }
  }

  lemma {:induction false} ExcludingFacts(cs: seq<RankedCause>, out: seq<RankedCause>)
    ensures forall c :: multiset(Excluding(cs, out))[c] == if c in out then 0 else multiset(cs)[c]
  {
    if cs != [] {
      ExcludingFacts(cs[..|cs| - 1], out);
      assert cs == cs[..|cs| - 1] + [cs[|cs| - 1]];
    }
  }

  lemma ChosenAndRest(cs: seq<RankedCause>, chosen: seq<RankedCause>)
    requires NoDup(cs) && NoDup(chosen) && forall c :: c in chosen ==> c in cs
    ensures multiset(chosen + Excluding(cs, chosen)) == multiset(cs)
  {
    ExcludingFacts(cs, chosen);
    NoDupMultiset(cs);
    NoDupMultiset(chosen);
    forall c
      ensures multiset(chosen + Excluding(cs, chosen))[c] == multiset(cs)[c]
    {
      if c in chosen {
        assert c in multiset(chosen) && c in multiset(cs);
      }
    }
  }

  lemma TailApart(ranked: seq<RankedCause>, m: nat)
    requires DistinctIds(ranked) && m <= |ranked|
    ensures NoDup(ranked[..m]) && forall c :: c in ranked[m..] ==> c !in ranked[..m]
  {
    forall i, j | 0 <= i < m <= j < |ranked|
      ensures ranked[i] != ranked[j]
    {
      assert ranked[i].id != ranked[j].id;
    }
  }

  /** The chosen ones in front permute the tied prefix; the rest stays. */
  lemma RerankShape(ranked: seq<RankedCause>, ids: seq<nat>, m: nat)
    requires ranked != [] && DistinctIds(ranked) && m <= |ranked| && Tied(ranked) == ranked[..m]
    ensures var chosen := Chosen(ranked, ids); var front := chosen + Excluding(ranked[..m], chosen);
            && chosen + Excluding(ranked, chosen) == front + ranked[m..]
            && multiset(front) == multiset(ranked[..m]) && |front| == m
            && (forall c :: c in chosen ==> c in ranked[..m])
  {
    hide Tied, Keys, Named, Excluding, Members;
    var head, tail := ranked[..m], ranked[m..];
    assert ranked == head + tail;
    var chosen := Chosen(ranked, ids);
    GroupFacts(ItselfId, ids);
    NamedFacts(Tied(ranked), Keys(ItselfId, ids));
    TailApart(ranked, m);
    ExcludingSplit(head, tail, chosen);
    ChosenAndRest(head, chosen);
    var front := chosen + Excluding(head, chosen);
    SameElements(front, head);
    assert chosen + (Excluding(head, chosen) + tail) == front + tail;
  }

  /** On a score-sorted list with distinct ids the LLM can only permute the causes
      within the margin of the top: the result is a permutation, the first `m`
      places hold the same causes as before, every later place is untouched, and
      so the new first is within the margin of the old one. */
  lemma RerankOnlyBreaksNearTies(ranked: seq<RankedCause>, ids: Option<seq<nat>>)
    requires ranked != [] && ByScore(ranked) && DistinctIds(ranked)
    ensures var r, m := Reranked(ranked, ids), |Tied(ranked)|;
            && |r| == |ranked| && 1 <= m <= |ranked|
            && multiset(r) == multiset(ranked) && multiset(r[..m]) == multiset(ranked[..m]) && r[m..] == ranked[m..]
            && (forall i :: 0 <= i < |ranked| ==> (i < m <==> ranked[i].score >= ranked[0].score - RERANK_MARGIN))
            && r[0].score >= ranked[0].score - RERANK_MARGIN
  {
    hide Excluding, Chosen, AtLeastScore;
    var m := |Tied(ranked)|;
    LeadersAreAPrefix(ranked, ranked[0].score - RERANK_MARGIN);
    assert ranked == ranked[..m] + ranked[m..];
    if ids.Some? && Chosen(ranked, ids.value) != [] {
      var chosen := Chosen(ranked, ids.value);
      RerankShape(ranked, ids.value, m);
      HeadReplaced(ranked, m, chosen + Excluding(ranked[..m], chosen), ranked[0].score - RERANK_MARGIN);
    }
  }

  lemma HeadReplaced(ranked: seq<RankedCause>, m: nat, front: seq<RankedCause>, score: real)
    requires 1 <= m <= |ranked| && multiset(front) == multiset(ranked[..m])
    requires forall i :: 0 <= i < m ==> ranked[i].score >= score
    ensures var r := front + ranked[m..];
            && |r| == |ranked| && multiset(r) == multiset(ranked) && r[..m] == front && r[m..] == ranked[m..]
            && r[0].score >= score
  {
    assert ranked == ranked[..m] + ranked[m..];
    SameElements(front, ranked[..m]);
    assert front[0] in front;
    var i :| 0 <= i < m && ranked[..m][i] == front[0];
    assert ranked[i] == front[0];
  }

  /** rank_causes hands over such a list. */
  lemma RankingFits(t: Topo, catalog: Catalog, findings: seq<Finding>, alarm: seq<Node>, out: seq<RankedCause>)
    requires IsRanking(t, catalog, findings, alarm, out)
    ensures ByScore(out) && DistinctIds(out)
  {
    hide Scored, IsOnset, Targets, Hits, Keys, Members;
    forall i, j | 0 <= i < j < |out|
      ensures out[i].score >= out[j].score
    {
      assert CauseLe(out[i], out[j]);
    }
  }

  // --------------------------------------------------------------- root cause

  /** What the LLM put under root_cause: a text, or something of another type. */
  datatype RootValue = Text(text: string) | NotText

  /** The LLM's answer, an arbitrary dictionary; `more` is whether it has other keys. */
  datatype LlmResult = LlmResult(ids: Option<seq<nat>>, root: Option<RootValue>, more: bool) {
    predicate Truthy() { ids.Some? || root.Some? || more }
  }

  /** How texts are read and sentences worded: the E-numbers a text cites, whether
      it names a cause, and the deterministic sentence for a cause (with status). */
  datatype Texts = Texts(cites: string -> seq<nat>, names: (string, RankedCause) -> bool, sentence: RankedCause -> string)

  function RowCount(findings: seq<Finding>): nat {
    if findings == [] then 0 else RowCount(findings[..|findings| - 1]) + |findings[|findings| - 1].evidence|
  }

  /** The citable evidence is E1 to En, one per evidence row. */
  predicate CitedOk(texts: Texts, text: string, n: nat) {
    n == 0 || (texts.cites(text) != [] && forall c :: c in texts.cites(text) ==> 1 <= c <= n)
  }

  /** The LLM's root cause is reported: a text, with citations that hold, that
      names the first cause if there is one. */
  ghost predicate Trusted(llm: Option<LlmResult>, evidence: nat, texts: Texts, final: seq<RankedCause>) {
    && llm.Some? && llm.value.root.Some? && llm.value.root.value.Text?
    && CitedOk(texts, llm.value.root.value.text, evidence)
    && (final == [] || texts.names(llm.value.root.value.text, final[0]))
  }

  /** Final order and root cause of a report; None stands for the error raised when
      an LLM answer is required and missing. */
  ghost predicate IsSettled(ranked: seq<RankedCause>, llm: Option<LlmResult>, evidence: nat, texts: Texts, plain: string,
                            requireLlm: bool, root: Option<string>, final: seq<RankedCause>) {
    && (root.None? <==> requireLlm && llm.None?)
    && final == (if llm.Some? then Reranked(ranked, llm.value.ids) else ranked)
    && (root.Some? ==>
          root.value == if Trusted(llm, evidence, texts, final) then llm.value.root.value.text
                        else if final == [] then plain else texts.sentence(final[0]))
  }

  /** The part of synthesize_report that settles order and root cause when some
      finding is anomalous. `plain` is the sentence without ranked causes. */
  method SettleRootCause(ranked: seq<RankedCause>, llm: Option<LlmResult>, evidence: nat, texts: Texts, plain: string,
                         requireLlm: bool) returns (root: Option<string>, final: seq<RankedCause>)
    ensures IsSettled(ranked, llm, evidence, texts, plain, requireLlm, root, final)
  {
    final := ranked;
    var sentence := if ranked != [] then texts.sentence(ranked[0]) else plain;
    var result := llm;
    if result.Some? && result.value.Truthy() && ranked != [] {
      final := Reranked(ranked, result.value.ids);
      RerankedNonEmpty(ranked, result.value.ids);
      sentence := texts.sentence(final[0]);
    }
    if result.Some? && result.value.root.Some? && result.value.root.value.Text? && !CitedOk(texts, result.value.root.value.text, evidence) {
      result := Some(result.value.(root := None));
    }
    if result.Some? && final != [] && result.value.root.Some? && result.value.root.value.Text? &&
       !texts.names(result.value.root.value.text, final[0]) {
      result := Some(result.value.(root := None));
    }
    if requireLlm && result.None? {
      return None, final;
    }
    if result.Some? && result.value.root.Some? && result.value.root.value.Text? {
      root := Some(result.value.root.value.text);
    } else {
      root := Some(sentence);
    }
  }

  lemma RerankedNonEmpty(ranked: seq<RankedCause>, ids: Option<seq<nat>>)
    ensures Reranked(ranked, ids) == [] <==> ranked == []
  {
  }

  /** Ranked causes come from evidence rows, so there is something to cite. */
  lemma RankedHaveEvidence(t: Topo, catalog: Catalog, findings: seq<Finding>, alarm: seq<Node>, out: seq<RankedCause>)
    requires IsRanking(t, catalog, findings, alarm, out) && out != []
    ensures RowCount(findings) > 0
  {
    hide Scored, IsOnset, Targets;
    NoRowsNoHits(t.names, findings);
    assert Keys(HitKey, []) == [];
  }

  lemma {:induction false} NoRowsNoHits(t: Names, findings: seq<Finding>)
    ensures RowCount(findings) == 0 ==> Hits(t, findings) == []
  {
    if findings != [] {
      NoRowsNoHits(t, findings[..|findings| - 1]);
    }
  }

  /** With ranked causes the reported root cause is the deterministic sentence for
      the cause that ends up first, or a text that names that cause, cites at
      least one evidence id, and cites only known ones; and any such text of the LLM
      is the one reported. */
  lemma RootCauseTrusted(t: Topo, catalog: Catalog, findings: seq<Finding>, alarm: seq<Node>, ranked: seq<RankedCause>,
                         llm: Option<LlmResult>, texts: Texts, plain: string, requireLlm: bool, root: string, final: seq<RankedCause>)
    requires IsRanking(t, catalog, findings, alarm, ranked) && ranked != []
    requires IsSettled(ranked, llm, RowCount(findings), texts, plain, requireLlm, Some(root), final)
    ensures final != [] && final[0].score >= ranked[0].score - RERANK_MARGIN
    ensures root == texts.sentence(final[0]) ||
            (texts.names(root, final[0]) && texts.cites(root) != [] && forall c :: c in texts.cites(root) ==> 1 <= c <= RowCount(findings))
    ensures llm.Some? && llm.value.root.Some? && llm.value.root.value.Text? ==>
              var text := llm.value.root.value.text;
              texts.names(text, final[0]) && texts.cites(text) != [] && (forall c :: c in texts.cites(text) ==> 1 <= c <= RowCount(findings)) ==>
                root == text
  {
    RankingFits(t, catalog, findings, alarm, ranked);
    RankedHaveEvidence(t, catalog, findings, alarm, ranked);
    RerankOnlyBreaksNearTies(ranked, if llm.Some? then llm.value.ids else None);
  }

  /** "A claim cites only known evidence ids" is not a law of the check alone: a
      text that cites an unknown id passes exactly when there is no evidence. */
  lemma UnknownCitationExactly(texts: Texts, text: string, n: nat)
    requires exists c :: c in texts.cites(text) && !(1 <= c <= n)
    ensures CitedOk(texts, text, n) <==> n == 0
  {
  }

  // ------------------------------------------------------------ the LLM's order

  /** The LLM names the one id, and before it any of the other. */
  ghost predicate NamesFirst(ids: seq<nat>, a: nat, b: nat) {
    exists i :: 0 <= i < |ids| && ids[i] == a && forall j :: 0 <= j <= i ==> ids[j] != b
  }

  /** The order among the tied causes is the LLM's: those it names come first, in
      the order it first names them, and then the others in the order they had. */
  lemma RerankFollowsTheLlm(ranked: seq<RankedCause>, ids: seq<nat>, i: nat, j: nat)
    requires ranked != [] && ByScore(ranked) && DistinctIds(ranked) && i < j < |Tied(ranked)|
    ensures var r := Reranked(ranked, Some(ids));
            && |Tied(ranked)| <= |r|
            && (NamesFirst(ids, r[i].id, r[j].id) || (r[i].id !in ids && r[j].id !in ids && Earlier(ranked, r[i], r[j])))
  {
    var m := |Tied(ranked)|;
    LeadersAreAPrefix(ranked, ranked[0].score - RERANK_MARGIN);
    assert Tied(ranked) == ranked[..m];
    hide Tied, Chosen, Excluding, AtLeastScore, Reranked, ByScore, DistinctIds;
    RerankFront(ranked, ids, m);
    var front := Chosen(ranked, ids) + Excluding(ranked[..m], Chosen(ranked, ids));
    assert forall k :: 0 <= k < m ==> Reranked(ranked, Some(ids))[k] == front[k];
    FrontOrder(ranked, ids, m, i, j);
  }

  lemma RerankFront(ranked: seq<RankedCause>, ids: seq<nat>, m: nat)
    requires ranked != [] && DistinctIds(ranked) && m <= |ranked| && Tied(ranked) == ranked[..m]
    ensures var front := Chosen(ranked, ids) + Excluding(ranked[..m], Chosen(ranked, ids));
            |front| == m <= |Reranked(ranked, Some(ids))| && Reranked(ranked, Some(ids))[..m] == front
  {
    hide Tied, Chosen, Excluding, DistinctIds;
    RerankShape(ranked, ids, m);
    ExcludingNone(ranked[..m]);
  }

  lemma FrontOrder(ranked: seq<RankedCause>, ids: seq<nat>, m: nat, i: nat, j: nat)
    requires ranked != [] && DistinctIds(ranked) && m <= |ranked| && Tied(ranked) == ranked[..m]
    requires i < j < |Chosen(ranked, ids) + Excluding(ranked[..m], Chosen(ranked, ids))|
    ensures var front := Chosen(ranked, ids) + Excluding(ranked[..m], Chosen(ranked, ids));
            NamesFirst(ids, front[i].id, front[j].id) || (front[i].id !in ids && front[j].id !in ids && Earlier(ranked, front[i], front[j]))
  {
    hide Tied, Chosen, Excluding, DistinctIds, NamesFirst, Earlier;
    var chosen := Chosen(ranked, ids);
    var rest := Excluding(ranked[..m], chosen);
    ChosenTold(ranked, ids, m);
    RestInOrder(ranked[..m], chosen);
    if j < |chosen| {
      ChosenInOrder(ranked, ids, chosen, i, j);
    } else if i < |chosen| {
      assert chosen[i] in chosen && rest[j - |chosen|] in rest;
      NamedBeforeUnnamed(ids, chosen[i].id, rest[j - |chosen|].id);
    } else {
      assert rest[i - |chosen|] in rest && rest[j - |chosen|] in rest;
      PrefixEarlier(ranked, m, rest[i - |chosen|], rest[j - |chosen|]);
    }
  }

  lemma NamedBeforeUnnamed(ids: seq<nat>, a: nat, b: nat)
    requires a in ids && b !in ids
    ensures NamesFirst(ids, a, b)
  {
  }

  lemma PrefixEarlier(cs: seq<RankedCause>, m: nat, a: RankedCause, b: RankedCause)
    requires m <= |cs| && Earlier(cs[..m], a, b)
    ensures Earlier(cs, a, b)
  {
    var i, j :| 0 <= i < j < m && cs[..m][i] == a && cs[..m][j] == b;
    assert cs[i] == a && cs[j] == b;
  }

  /** What is chosen is exactly the tied causes that are named. */
  lemma ChosenTold(ranked: seq<RankedCause>, ids: seq<nat>, m: nat)
    requires ranked != [] && DistinctIds(ranked) && m <= |ranked| && Tied(ranked) == ranked[..m]
    ensures forall c :: c in Chosen(ranked, ids) ==> c.id in ids
    ensures forall c :: c in Excluding(ranked[..m], Chosen(ranked, ids)) ==> c in ranked[..m] && c.id !in ids
  {
    var tied, ks := ranked[..m], Keys(ItselfId, ids);
    GroupFacts(ItselfId, ids);
    KeysAreIds(ids);
    NamedFacts(tied, ks);
    var chosen := Chosen(ranked, ids);
    ExcludingMembers(tied, chosen);
    hide Named, Keys, Excluding;
    forall c | c in tied && c.id in ids
      ensures c in chosen
    {
      var d :| d in Named(tied, ks) && d.id == c.id;
      var x :| 0 <= x < m && tied[x] == c;
      var y :| 0 <= y < m && tied[y] == d;
      assert ranked[x].id == ranked[y].id;
    }
  }

  lemma {:induction false} KeysAreIds(ids: seq<nat>)
    ensures forall id :: id in Keys(ItselfId, ids) <==> id in ids
  {
    if ids != [] {
      KeysAreIds(ids[..|ids| - 1]);
      assert ids == ids[..|ids| - 1] + [ids[|ids| - 1]];
    }
  }

  lemma {:induction false} ExcludingMembers(cs: seq<RankedCause>, out: seq<RankedCause>)
    ensures forall c :: c in Excluding(cs, out) <==> c in cs && c !in out
  {
    if cs != [] {
      ExcludingMembers(cs[..|cs| - 1], out);
      assert cs == cs[..|cs| - 1] + [cs[|cs| - 1]];
    }
  }

  lemma {:induction false} ExcludingNone(cs: seq<RankedCause>)
    ensures Excluding(cs, []) == cs
  {
    if cs != [] {
      ExcludingNone(cs[..|cs| - 1]);
    }
  }

  ghost predicate KeepsOrder(cs: seq<RankedCause>, rest: seq<RankedCause>) {
    forall i, j :: 0 <= i < j < |rest| ==> Earlier(cs, rest[i], rest[j])
  }

  lemma {:induction false} RestInOrder(cs: seq<RankedCause>, out: seq<RankedCause>)
    ensures KeepsOrder(cs, Excluding(cs, out))
  {
    hide KeepsOrder;
    if cs == [] {
      NothingInOrder();
    } else {
      var init, z := cs[..|cs| - 1], cs[|cs| - 1];
      RestInOrder(init, out);
      ExcludingMembers(init, out);
      OrderSnoc(init, Excluding(init, out), z);
      assert cs == init + [z];
    }
  }

  lemma NothingInOrder()
    ensures KeepsOrder([], [])
  {
  }

  lemma OrderSnoc(init: seq<RankedCause>, rest: seq<RankedCause>, z: RankedCause)
    requires KeepsOrder(init, rest) && forall c :: c in rest ==> c in init
    ensures KeepsOrder(init + [z], rest) && KeepsOrder(init + [z], rest + [z])
  {
    hide Earlier;
    forall i, j | 0 <= i < j < |rest|
      ensures Earlier(init + [z], rest[i], rest[j])
    {
      EarlierGrows(init, z, rest[i], rest[j]);
    }
    forall i | 0 <= i < |rest|
      ensures Earlier(init + [z], rest[i], z)
    {
      assert rest[i] in rest;
      EarlierThanLast(init, rest[i], z);
    }
  }

  lemma EarlierGrows(init: seq<RankedCause>, z: RankedCause, a: RankedCause, b: RankedCause)
    requires Earlier(init, a, b)
    ensures Earlier(init + [z], a, b)
  {
    var i, j :| 0 <= i < j < |init| && init[i] == a && init[j] == b;
    assert (init + [z])[i] == a && (init + [z])[j] == b;
  }

  lemma EarlierThanLast(init: seq<RankedCause>, c: RankedCause, z: RankedCause)
    requires c in init
    ensures Earlier(init + [z], c, z)
  {
    var k :| 0 <= k < |init| && init[k] == c;
    assert (init + [z])[k] == c && (init + [z])[|init|] == z;
  }

  function Lookup(cs: seq<RankedCause>): nat -> Option<RankedCause> { (id: nat) => ById(cs, id) }

  lemma {:induction false} NamedPicked(cs: seq<RankedCause>, ks: seq<nat>)
    ensures Named(cs, ks) == Picked(ks, Lookup(cs))
  {
    if ks != [] {
      NamedPicked(cs, ks[..|ks| - 1]);
    }
  }

  lemma ChosenInOrder(ranked: seq<RankedCause>, ids: seq<nat>, chosen: seq<RankedCause>, i: nat, j: nat)
    requires ranked != [] && chosen == Chosen(ranked, ids) && i < j < |chosen|
    ensures NamesFirst(ids, chosen[i].id, chosen[j].id)
  {
    var tied, ks := Tied(ranked), Keys(ItselfId, ids);
    GroupFacts(ItselfId, ids);
    NamedPicked(tied, ks);
    var places := PickedPlaces(ks, Lookup(tied));
    ByIdFacts(tied, ks[places[i]]);
    ByIdFacts(tied, ks[places[j]]);
    hide Named, Picked, Keys, Tied, Chosen, ById, NonePassed, NoDup, Members;
    var a, b := chosen[i].id, chosen[j].id;
    assert ks[places[i]] == a && ks[places[j]] == b && places[i] < places[j];
    assert Earlier(ks, a, b);
    KeysByFirst(ItselfId, ids, a, b);
    var n :| 0 <= n < |ids| && ItselfId(ids[n]) == a && forall l :: 0 <= l < n ==> ItselfId(ids[l]) != b;
    assert forall l :: 0 <= l <= n ==> ids[l] != b by {
      assert forall l :: 0 <= l < n ==> ItselfId(ids[l]) == ids[l];
    }
  }

  /** Without ids, or with ids of no tied cause, the order stays. */
  lemma RerankStays(ranked: seq<RankedCause>, ids: Option<seq<nat>>)
    requires ranked != [] && ByScore(ranked) && DistinctIds(ranked)
    requires ids.Some? ==> forall c :: c in ranked && c.score >= ranked[0].score - 0.05 ==> c.id !in ids.value
    ensures Reranked(ranked, ids) == ranked
  {
    if ids.Some? {
      var m := |Tied(ranked)|;
      LeadersAreAPrefix(ranked, ranked[0].score - RERANK_MARGIN);
      var chosen := Chosen(ranked, ids.value);
      RerankShape(ranked, ids.value, m);
      ChosenTold(ranked, ids.value, m);
      hide Chosen, Tied, AtLeastScore;
      assert forall k :: 0 <= k < m ==> ranked[k] in ranked && ranked[k].score >= ranked[0].score - 0.05;
      assert forall c :: c in ranked[..m] ==> c.id !in ids.value;
      NoMembers(chosen);
    }
  }
}
