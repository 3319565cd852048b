/** core/orchestrator.py: the collaboration rounds and the state reducers. */
module Orchestrator {
  import opened Prelude
  import opened Contract
  import opened Correlation

  /** A request as it comes back in a reply; a missing id is "". */
  datatype Ask = Ask(id: string, sender: string, target: string, entityId: string, hops: nat)

  /** An answer handed back to the agent that asked. */
  datatype Delivery = Delivery(from: string, to: string, id: string)

  datatype RoundLog = RoundLog(asks: seq<Ask>, deliveries: seq<Delivery>)

  datatype State = State(findings: seq<Finding>, asked: set<string>, log: seq<RoundLog>)

  datatype Config = Config(registered: set<string>, budget: nat, rules: string -> seq<Rule>)

  /** What the agents contribute to one round: the requests in their publish
      replies, the id each answer carries (None when there is no usable answer),
      and each agent's reply to finding_update. */
  datatype Replies = Replies(published: seq<Ask>, answer: Ask -> Option<string>, update: Finding -> Option<Finding>)

  // ------------------------------------------------------------ specification

  function Ids(asks: seq<Ask>): set<string> { set a | a in asks :: a.id }

  /** New, identified, addressed to a registered agent, each id once. */
  function Collected(cfg: Config, asked: set<string>, published: seq<Ask>): seq<Ask> {
    if published == [] then [] else
      var rest, a := Collected(cfg, asked, published[..|published| - 1]), published[|published| - 1];
      if a.id != "" && a.id !in asked && a.id !in Ids(rest) && a.target in cfg.registered then rest + [a] else rest
  }

  /** sorted(..., key=(hops, target, entity id)). */
  predicate AskLe(a: Ask, b: Ask) {
    if a.hops != b.hops then a.hops < b.hops
    else if a.target != b.target then StrLe(a.target, b.target)
    else StrLe(a.entityId, b.entityId)
  }

  function Chosen(cfg: Config, asked: set<string>, published: seq<Ask>): seq<Ask> {
    var all := Collected(cfg, asked, published);
    if |all| > cfg.budget then Sort(AskLe, all)[..cfg.budget] else all
  }

  function Delivered(asks: seq<Ask>, answer: Ask -> Option<string>): seq<Delivery> {
    if asks == [] then [] else
      var rest, a := Delivered(asks[..|asks| - 1], answer), asks[|asks| - 1];
      match answer(a)
      case None => rest
      case Some(id) => if id != "" then rest + [Delivery(a.target, a.sender, id)] else rest
  }

  function Others(findings: seq<Finding>, id: string): seq<Finding> {
    if findings == [] then [] else
      var rest, f := Others(findings[..|findings| - 1], id), findings[|findings| - 1];
      if f.agentId != id then rest + [f] else rest
  }

  /** The agent's own revision, or the orchestrator's for one that only acks. */
  function Updated(cfg: Config, findings: seq<Finding>, f: Finding, reply: Option<Finding>): Finding {
    if reply.Some? && reply.value.agentId == f.agentId then reply.value
    else Reconsidered(cfg.rules(f.domain), f, Others(findings, f.agentId))
  }

  function AfterRound(cfg: Config, st: State, env: Replies): State {
    var asks := Chosen(cfg, st.asked, env.published);
    State(seq(|st.findings|, i requires 0 <= i < |st.findings| =>
                Updated(cfg, st.findings, st.findings[i], env.update(st.findings[i]))),
          st.asked + Ids(asks), st.log + [RoundLog(asks, Delivered(asks, env.answer))])
  }

  function AfterRounds(cfg: Config, st: State, envs: seq<Replies>): State {
    if envs == [] then st else AfterRound(cfg, AfterRounds(cfg, st, envs[..|envs| - 1]), envs[|envs| - 1])
  }

  function Summaries(findings: seq<Finding>): map<string, string> {
    if findings == [] then map[]
    else Summaries(findings[..|findings| - 1])[findings[|findings| - 1].agentId := findings[|findings| - 1].summary]
  }

  /** Nothing changed and nobody asked anything in the last round. */
  predicate Settled(before: State, after: State) {
    && Summaries(after.findings) == Summaries(before.findings)
    && after.log != [] && after.log[|after.log| - 1].asks == []
  }

  predicate ShortCircuit(findings: seq<Finding>, llmOn: bool, alarm: bool, unclassified: bool) {
    !(llmOn && (alarm || unclassified)) && findings != [] && forall f :: f in findings ==> !f.anomaly
  }

  // ------------------------------------------------------------------ methods

  /** One round: publish, whose replies carry the questions; route them and deliver
      the answers; revise every agent once. */
  method Round(cfg: Config, st: State, env: Replies) returns (st': State)
    ensures st' == AfterRound(cfg, st, env)
  {
    hide Sort, AskLe, Collected, Delivered, Updated;
    var requests := CollectAsks(cfg, st.asked, env.published);
    if |requests| > cfg.budget {
      requests := Sort(AskLe, requests)[..cfg.budget];
    }
    var deliveries := Deliver(requests, env.answer);
    var revised := ReviseAll(cfg, st.findings, env.update);
    st' := State(revised, st.asked + Ids(requests), st.log + [RoundLog(requests, deliveries)]);
  }

  method CollectAsks(cfg: Config, asked: set<string>, published: seq<Ask>) returns (requests: seq<Ask>)
    ensures requests == Collected(cfg, asked, published)
  {
    var ids: set<string> := {};
    requests := [];
    for i := 0 to |published|
      invariant requests == Collected(cfg, asked, published[..i]) && ids == Ids(requests)
    {
      assert published[..i + 1][..i] == published[..i];
      var a := published[i];
      if a.id != "" && a.id !in asked && a.id !in ids && a.target in cfg.registered {
        IdsSnoc(requests, a);
        requests, ids := requests + [a], ids + {a.id};
      }
    }
    assert published[..|published|] == published;
  }

  method Deliver(requests: seq<Ask>, answer: Ask -> Option<string>) returns (deliveries: seq<Delivery>)
    ensures deliveries == Delivered(requests, answer)
  {
    deliveries := [];
    for i := 0 to |requests|
      invariant deliveries == Delivered(requests[..i], answer)
    {
      assert requests[..i + 1][..i] == requests[..i];
      var result := answer(requests[i]);
      if result.None? || result.value == "" {
        continue;
      }
      deliveries := deliveries + [Delivery(requests[i].target, requests[i].sender, result.value)];
    }
    assert requests[..|requests|] == requests;
  }

  method ReviseAll(cfg: Config, findings: seq<Finding>, update: Finding -> Option<Finding>) returns (revised: seq<Finding>)
    ensures |revised| == |findings|
    ensures forall i :: 0 <= i < |findings| ==> revised[i] == Updated(cfg, findings, findings[i], update(findings[i]))
  {
    revised := [];
    for i := 0 to |findings|
      invariant |revised| == i
      invariant forall j :: 0 <= j < i ==> revised[j] == Updated(cfg, findings, findings[j], update(findings[j]))
    {
      var f := findings[i];
      var reply := update(f);
      if reply.Some? && reply.value.agentId == f.agentId {
        revised := revised + [reply.value];
        continue;
      }
      var own := Reconsider(f, Others(findings, f.agentId), cfg.rules(f.domain));
      revised := revised + [own];
    }
  }

  lemma IdsSnoc(asks: seq<Ask>, a: Ask)
    ensures Ids(asks + [a]) == Ids(asks) + {a.id}
  {
    assert a in asks + [a];
    forall id | id in Ids(asks)
      ensures id in Ids(asks + [a])
    {
      var b :| b in asks && b.id == id;
      assert b in asks + [a];
    }
  }

  ghost function At(cfg: Config, findings: seq<Finding>, envs: seq<Replies>, n: nat): State
    requires n <= |envs|
  {
    AfterRounds(cfg, State(findings, {}, []), envs[..n])
  }

  lemma AtStart(cfg: Config, findings: seq<Finding>, envs: seq<Replies>)
    ensures At(cfg, findings, envs, 0) == State(findings, {}, [])
  {
  }

  lemma AtStep(cfg: Config, findings: seq<Finding>, envs: seq<Replies>, n: nat)
    requires n < |envs|
    ensures At(cfg, findings, envs, n + 1) == AfterRound(cfg, At(cfg, findings, envs, n), envs[n])
    ensures At(cfg, findings, envs, n + 1).log != []
  {
    assert envs[..n + 1][..n] == envs[..n];
  }

  /** collaboration_node: at most |envs| rounds (max_iterations), stopping after
      the first round that changed no summary and asked nothing. */
  method Collaborate(cfg: Config, findings: seq<Finding>, envs: seq<Replies>, llmOn: bool, alarm: bool, unclassified: bool)
    returns (st: State, rounds: nat)
    ensures var skip := findings != [] && (forall f :: f in findings ==> !f.anomaly) && (llmOn ==> !alarm && !unclassified);
            if skip then st == State(findings, {}, []) && rounds == 1 else
              && rounds <= |envs| && st == At(cfg, findings, envs, rounds)
              && (rounds < |envs| ==> rounds > 0 && Settled(At(cfg, findings, envs, rounds - 1), st))
              && (forall n :: 0 < n < rounds ==> !Settled(At(cfg, findings, envs, n - 1), At(cfg, findings, envs, n)))
    ensures Quiet(cfg, envs) ==> rounds <= 2 * |findings| + 1
  {
    hide AfterRound, At, Quiet;
    st := State(findings, {}, []);
    AtStart(cfg, findings, envs);
    if ShortCircuit(findings, llmOn, alarm, unclassified) {
      return st, 1;
    }
    var previous := Summaries(findings);
    for n := 0 to |envs|
      invariant st == At(cfg, findings, envs, n) && previous == Summaries(st.findings)
      invariant forall m :: 0 < m <= n ==> !Settled(At(cfg, findings, envs, m - 1), At(cfg, findings, envs, m))
    {
      AtStep(cfg, findings, envs, n);
      st := Round(cfg, st, envs[n]);
      var current := Summaries(st.findings);
      if current == previous && st.log[|st.log| - 1].asks == [] {
        QuietBound(cfg, findings, envs, n + 1);
        return st, n + 1;
      }
      previous := current;
    }
    QuietBound(cfg, findings, envs, |envs|);
    rounds := |envs|;
  }

  // ----------------------------------------------------------------- theorems

  lemma AskOrder()
    ensures Preorder(AskLe)
  {
    StringOrder();
  }

  ghost predicate DistinctIds(asks: seq<Ask>) {
    forall i, j :: 0 <= i < j < |asks| ==> asks[i].id != asks[j].id
  }

  lemma {:induction false} CollectedFacts(cfg: Config, asked: set<string>, published: seq<Ask>)
    ensures var all := Collected(cfg, asked, published);
            && DistinctIds(all)
            && (forall a :: a in all ==> a in published && a.id != "" && a.id !in asked && a.target in cfg.registered)
            && (forall a :: a in published && a.id != "" && a.id !in asked && a.target in cfg.registered ==> a.id in Ids(all))
  {
    if published != [] {
      var init, a := published[..|published| - 1], published[|published| - 1];
      CollectedFacts(cfg, asked, init);
      assert published == init + [a];
      var rest := Collected(cfg, asked, init);
      IdsSnoc(rest, a);
      forall b | b in rest
        ensures b.id in Ids(rest)
      {
      }
    }
  }

  /** Cutting a list of distinct questions to the nearest `n`. */
  lemma CutFacts(all: seq<Ask>, n: nat)
    requires DistinctIds(all) && n < |all|
    ensures var sent := Sort(AskLe, all)[..n];
            && DistinctIds(sent) && (forall a :: a in sent ==> a in all)
            && (forall a, b :: a in sent && b in all && b !in sent ==> AskLe(a, b))
  {
    AskOrder();
    SortedPrefix(AskLe, all, n);
    hide Sort, AskLe;
    var sent := Sort(AskLe, all)[..n];
    forall i, j | 0 <= i < j < |sent|
      ensures sent[i].id != sent[j].id
    {
      if sent[i].id == sent[j].id {
        SameIdSameAsk(all, sent[i], sent[j]);
      }
    }
  }

  /** Nearer first, then by the domain asked, then by entity. */
  predicate InOrder(a: Ask, b: Ask) {
    || a.hops < b.hops
    || (a.hops == b.hops && a.target != b.target && StrLe(a.target, b.target))
    || (a.hops == b.hops && a.target == b.target && StrLe(a.entityId, b.entityId))
  }

  lemma CutInOrder(all: seq<Ask>, n: nat)
    requires n < |all|
    ensures var sent := Sort(AskLe, all)[..n]; forall i, j :: 0 <= i < j < |sent| ==> InOrder(sent[i], sent[j])
  {
    AskOrder();
    SortCorrect(AskLe, all);
    hide Sort, StrLe;
    var sorted := Sort(AskLe, all);
    assert forall i, j :: 0 <= i < j < n ==> AskLe(sorted[i], sorted[j]);
  }

  /** The publication of each collected question is the first of its id to a
      registered agent, and they come in order of publication. */
  ghost predicate CollectedFrom(cfg: Config, asked: set<string>, published: seq<Ask>, all: seq<Ask>, places: seq<nat>) {
    && |places| == |all|
    && (forall k, l :: 0 <= k < l < |places| ==> places[k] < places[l])
    && (forall k :: 0 <= k < |places| ==> places[k] < |published| && published[places[k]] == all[k])
    && (forall k, j :: 0 <= k < |places| && 0 <= j < places[k] && published[j].id == all[k].id ==> published[j].target !in cfg.registered)
  }

  lemma {:induction false} CollectedInOrder(cfg: Config, asked: set<string>, published: seq<Ask>) returns (places: seq<nat>)
    ensures CollectedFrom(cfg, asked, published, Collected(cfg, asked, published), places)
  {
    places := [];
    if published != [] {
      var init, a := published[..|published| - 1], published[|published| - 1];
      var before := CollectedInOrder(cfg, asked, init);
      CollectedFacts(cfg, asked, init);
      assert published == init + [a];
      var rest := Collected(cfg, asked, init);
      if a.id != "" && a.id !in asked && a.id !in Ids(rest) && a.target in cfg.registered {
        places := before + [|init|];
        FirstOfId(cfg, asked, init, rest, a);
        hide Collected, Ids;
        assert CollectedFrom(cfg, asked, published, rest + [a], places);
      } else {
        places := before;
      }
    }
  }

  lemma FirstOfId(cfg: Config, asked: set<string>, init: seq<Ask>, rest: seq<Ask>, a: Ask)
    requires a.id != "" && a.id !in asked && a.id !in Ids(rest)
    requires forall b :: b in init && b.id != "" && b.id !in asked && b.target in cfg.registered ==> b.id in Ids(rest)
    ensures forall j :: 0 <= j < |init| && init[j].id == a.id ==> init[j].target !in cfg.registered
  {
    forall j | 0 <= j < |init| && init[j].id == a.id
      ensures init[j].target !in cfg.registered
    {
      assert init[j] in init;
    }
  }

  /** One round's questions: all of them when they fit the budget, otherwise as
      many as fit, and none that is cut is nearer than one that is sent. Every
      one sent is new, identified and goes to a registered agent; one that is
      cut stays unasked. */
  lemma ChosenFacts(cfg: Config, asked: set<string>, published: seq<Ask>)
    ensures var all, sent := Collected(cfg, asked, published), Chosen(cfg, asked, published);
            && |sent| == (if |all| <= cfg.budget then |all| else cfg.budget)
            && DistinctIds(sent)
            && (forall a :: a in sent ==> a in all && a.id != "" && a.id !in asked && a.target in cfg.registered)
            && (forall a, b :: a in sent && b in all && b !in sent ==> a.hops <= b.hops && b.id !in asked + Ids(sent))
            && (|all| <= cfg.budget ==> sent == all)
            && (|all| > cfg.budget ==> forall i, j :: 0 <= i < j < |sent| ==> InOrder(sent[i], sent[j]))
  {
    hide Collected, Sort, StrLe, InOrder;
    CollectedFacts(cfg, asked, published);
    var all, sent := Collected(cfg, asked, published), Chosen(cfg, asked, published);
    if |all| > cfg.budget {
      CutFacts(all, cfg.budget);
      CutInOrder(all, cfg.budget);
      forall b | b in all && b !in sent
        ensures b.id !in Ids(sent)
      {
        if c :| c in sent && c.id == b.id {
          SameIdSameAsk(all, b, c);
        }
      }
    }
  }

  lemma SameIdSameAsk(all: seq<Ask>, a: Ask, b: Ask)
    requires DistinctIds(all) && a in all && b in all && a.id == b.id
    ensures a == b
  {
  }

  function AllAsks(log: seq<RoundLog>): seq<Ask> {
    if log == [] then [] else AllAsks(log[..|log| - 1]) + log[|log| - 1].asks
  }

  /** Safety of a whole run, whatever the agents reply: no request id is sent
      twice across rounds, every round sends at most the budget and only to
      registered agents, `asked` is exactly what was sent, every answer with an id
      is delivered once, to its asker, in the round of its question, and the list
      of agents never changes. */
  lemma {:induction false} RunSafe(cfg: Config, findings: seq<Finding>, envs: seq<Replies>)
    ensures var st := AfterRounds(cfg, State(findings, {}, []), envs);
            && |st.log| == |envs| && DistinctIds(AllAsks(st.log)) && st.asked == Ids(AllAsks(st.log))
            && (forall r :: 0 <= r < |st.log| ==> |st.log[r].asks| <= cfg.budget)
            && (forall r :: 0 <= r < |st.log| ==> InStep(st.log[r].asks, envs[r].answer, st.log[r].deliveries))
            && (forall a :: a in AllAsks(st.log) ==> a.id != "" && a.target in cfg.registered)
            && |st.findings| == |findings|
            && (forall i :: 0 <= i < |findings| ==> st.findings[i].agentId == findings[i].agentId)
  {
    hide InStep, AfterRound;
    if envs != [] {
      var init, env := envs[..|envs| - 1], envs[|envs| - 1];
      RunSafe(cfg, findings, init);
      var before := AfterRounds(cfg, State(findings, {}, []), init);
      RoundSafe(cfg, before, env);
      hide DistinctIds, Ids, AllAsks;
    }
  }

  lemma UpdatedKeepsAgent(cfg: Config, findings: seq<Finding>, f: Finding, reply: Option<Finding>)
    ensures Updated(cfg, findings, f, reply).agentId == f.agentId
  {
  }

  lemma RoundSafe(cfg: Config, st: State, env: Replies)
    requires DistinctIds(AllAsks(st.log)) && st.asked == Ids(AllAsks(st.log))
    ensures var st' := AfterRound(cfg, st, env);
            && st'.log == st.log + [st'.log[|st.log|]] && |st'.log[|st.log|].asks| <= cfg.budget
            && InStep(st'.log[|st.log|].asks, env.answer, st'.log[|st.log|].deliveries)
            && AllAsks(st'.log) == AllAsks(st.log) + st'.log[|st.log|].asks
            && DistinctIds(AllAsks(st'.log)) && st'.asked == Ids(AllAsks(st'.log))
            && (forall a :: a in st'.log[|st.log|].asks ==> a.id != "" && a.target in cfg.registered)
            && |st'.findings| == |st.findings|
            && (forall i :: 0 <= i < |st.findings| ==> st'.findings[i].agentId == st.findings[i].agentId)
  {
    hide Corresponds;
    ChosenFacts(cfg, st.asked, env.published);
    DeliveredOnce(Chosen(cfg, st.asked, env.published), env.answer);
    var st' := AfterRound(cfg, st, env);
    var sent, earlier := Chosen(cfg, st.asked, env.published), AllAsks(st.log);
    assert st'.log[..|st'.log| - 1] == st.log;
    forall i | 0 <= i < |st.findings|
      ensures st'.findings[i].agentId == st.findings[i].agentId
    {
      UpdatedKeepsAgent(cfg, st.findings, st.findings[i], env.update(st.findings[i]));
    }
    var all := earlier + sent;
    forall i, j | 0 <= i < j < |all|
      ensures all[i].id != all[j].id
    {
      if i < |earlier| <= j {
        assert earlier[i].id in Ids(earlier);
        assert sent[j - |earlier|] in sent;
      }
    }
    IdsConcat(earlier, sent);
  }

  lemma IdsConcat(a: seq<Ask>, b: seq<Ask>)
    ensures Ids(a + b) == Ids(a) + Ids(b)
  {
    forall id | id in Ids(a) + Ids(b)
      ensures id in Ids(a + b)
    {
      var x :| (x in a || x in b) && x.id == id;
      assert x in a + b;
    }
  }

  ghost predicate IsAnswer(asks: seq<Ask>, answer: Ask -> Option<string>, d: Delivery) {
    exists a :: a in asks && answer(a) == Some(d.id) && d.id != "" && d.from == a.target && d.to == a.sender
  }

  /** Exactly the answers that carry an id are delivered, each to its asker. */
  lemma {:induction false} DeliveredExactly(asks: seq<Ask>, answer: Ask -> Option<string>)
    ensures |Delivered(asks, answer)| <= |asks|
    ensures forall d :: d in Delivered(asks, answer) <==> IsAnswer(asks, answer, d)
  {
    if asks != [] {
      var init, a := asks[..|asks| - 1], asks[|asks| - 1];
      DeliveredExactly(init, answer);
      assert asks == init + [a];
      forall d
        ensures IsAnswer(asks, answer, d) <==>
                IsAnswer(init, answer, d) || (answer(a) == Some(d.id) && d.id != "" && d.from == a.target && d.to == a.sender)
      {
        if IsAnswer(init, answer, d) {
          var b :| b in init && answer(b) == Some(d.id) && d.id != "" && d.from == b.target && d.to == b.sender;
          assert b in asks;
        }
      }
    }
  }

  predicate Answered(answer: Ask -> Option<string>, a: Ask) { answer(a).Some? && answer(a).value != "" }

  predicate IsAnswerTo(answer: Ask -> Option<string>, a: Ask, d: Delivery) {
    Answered(answer, a) && d == Delivery(a.target, a.sender, answer(a).value)
  }

  /** `places` lists, in order, the questions whose answers were delivered: every
      question answered with an id is there once, and its answer went to its
      asker. */
  ghost predicate Corresponds(asks: seq<Ask>, answer: Ask -> Option<string>, ds: seq<Delivery>, places: seq<nat>) {
    && |places| == |ds|
    && (forall k, l :: 0 <= k < l < |places| ==> places[k] < places[l])
    && (forall k :: 0 <= k < |places| ==> places[k] < |asks| && IsAnswerTo(answer, asks[places[k]], ds[k]))
    && NoneLost(asks, answer, places)
  }

  ghost predicate NoneLost(asks: seq<Ask>, answer: Ask -> Option<string>, places: seq<nat>) {
    forall i :: 0 <= i < |asks| && Answered(answer, asks[i]) ==> i in places
  }

  ghost predicate InStep(asks: seq<Ask>, answer: Ask -> Option<string>, ds: seq<Delivery>) {
    exists places :: Corresponds(asks, answer, ds, places)
  }

  /** Deliveries and answered questions correspond one to one, in order, whatever
      ids the answers carry; where answers keep their questions' ids, no id is
      delivered twice. */
  lemma {:induction false} DeliveredOnce(asks: seq<Ask>, answer: Ask -> Option<string>)
    ensures InStep(asks, answer, Delivered(asks, answer))
    ensures DistinctIds(asks) && (forall a :: a in asks ==> answer(a) == None || answer(a) == Some(a.id)) ==>
              var ds := Delivered(asks, answer); forall i, j :: 0 <= i < j < |ds| ==> ds[i].id != ds[j].id
  {
    hide InStep, Corresponds, DistinctIds;
    if asks == [] {
      NoneAsked(answer);
    } else {
      var init, a := asks[..|asks| - 1], asks[|asks| - 1];
      DeliveredOnce(init, answer);
      assert asks == init + [a];
      AnswerSnoc(init, answer, Delivered(init, answer), a);
    }
    KeptIds(asks, answer, Delivered(asks, answer));
  }

  lemma NoneAsked(answer: Ask -> Option<string>)
    ensures InStep([], answer, [])
  {
    assert Corresponds([], answer, [], []);
  }

  lemma Answers(answer: Ask -> Option<string>, a: Ask)
    requires Answered(answer, a)
    ensures answer(a).Some? && IsAnswerTo(answer, a, Delivery(a.target, a.sender, answer(a).value))
  {
  }

  lemma AnswerSnoc(asks: seq<Ask>, answer: Ask -> Option<string>, ds: seq<Delivery>, a: Ask)
    requires InStep(asks, answer, ds)
    ensures InStep(asks + [a], answer, if Answered(answer, a) then ds + [Delivery(a.target, a.sender, answer(a).value)] else ds)
  {
    var places: seq<nat> :| Corresponds(asks, answer, ds, places);
    hide Answered, IsAnswerTo;
    if Answered(answer, a) {
      assert IsAnswerTo(answer, a, Delivery(a.target, a.sender, answer(a).value)) by {
        Answers(answer, a);
      }
      var places' := places + [|asks|];
      assert forall i :: i in places' <==> i in places || i == |asks|;
      assert Corresponds(asks + [a], answer, ds + [Delivery(a.target, a.sender, answer(a).value)], places');
    } else {
      assert Corresponds(asks + [a], answer, ds, places);
    }
  }

  lemma KeptIds(asks: seq<Ask>, answer: Ask -> Option<string>, ds: seq<Delivery>)
    requires InStep(asks, answer, ds)
    ensures DistinctIds(asks) && (forall a :: a in asks ==> answer(a) == None || answer(a) == Some(a.id)) ==>
              forall i, j :: 0 <= i < j < |ds| ==> ds[i].id != ds[j].id
  {
    hide NoneLost;
    var places: seq<nat> :| Corresponds(asks, answer, ds, places);
    if DistinctIds(asks) && forall a :: a in asks ==> answer(a) == None || answer(a) == Some(a.id) {
      forall i, j | 0 <= i < j < |ds|
        ensures ds[i].id != ds[j].id
      {
        var a, b := asks[places[i]], asks[places[j]];
        assert places[i] < places[j] && a in asks && b in asks;
        assert a.id != b.id;
      }
    }
  }

  // ---------------------------------------------------------------- revision

  lemma {:induction false} OthersExactly(findings: seq<Finding>, id: string)
    ensures forall p :: p in Others(findings, id) <==> p in findings && p.agentId != id
  {
    if findings != [] {
      OthersExactly(findings[..|findings| - 1], id);
      assert findings == findings[..|findings| - 1] + [findings[|findings| - 1]];
    }
  }

  /** What a round makes of each finding: the agent's own revision where it sent
      one; otherwise what the rules of its domain make of it, given the findings of
      all the other agents as they were before the round. */
  lemma RoundRevises(cfg: Config, st: State, env: Replies, i: nat, others: seq<Finding>)
    requires i < |st.findings|
    requires forall p :: p in others <==> p in st.findings && p.agentId != st.findings[i].agentId
    ensures var f, st' := st.findings[i], AfterRound(cfg, st, env);
            && |st'.findings| == |st.findings|
            && (env.update(f).Some? && env.update(f).value.agentId == f.agentId ==> st'.findings[i] == env.update(f).value)
            && (env.update(f).None? || env.update(f).value.agentId != f.agentId ==>
                 st'.findings[i] == Reconsidered(cfg.rules(f.domain), f, others))
  {
    hide Reconsidered;
    var f := st.findings[i];
    OthersExactly(st.findings, f.agentId);
    PeerOrderIrrelevant(cfg.rules(f.domain), f, Others(st.findings, f.agentId), others);
  }

  /** Rounds have settled exactly when the last one asked nothing and no agent's
      summary differs from the one before it. */
  lemma SettledExactly(before: State, after: State)
    requires OnePerAgent(before.findings) && |after.findings| == |before.findings|
    requires forall i :: 0 <= i < |before.findings| ==> after.findings[i].agentId == before.findings[i].agentId
    ensures Settled(before, after) <==>
            && after.log != [] && after.log[|after.log| - 1].asks == []
            && forall i :: 0 <= i < |before.findings| ==> after.findings[i].summary == before.findings[i].summary
  {
    hide Summaries;
    SameAgents(before.findings, after.findings);
    SummariesExactly(before.findings);
    SummariesExactly(after.findings);
    var a, b, n := Summaries(before.findings), Summaries(after.findings), |before.findings|;
    hide OnePerAgent;
    forall id | id in a
      ensures exists i :: 0 <= i < n && before.findings[i].agentId == id
    {
    }
    if forall i :: 0 <= i < n ==> after.findings[i].summary == before.findings[i].summary {
      SameSummaries(before.findings, after.findings, a, b);
    }
  }

  lemma SameAgents(fs: seq<Finding>, gs: seq<Finding>)
    requires OnePerAgent(fs) && |gs| == |fs| && forall i :: 0 <= i < |fs| ==> gs[i].agentId == fs[i].agentId
    ensures OnePerAgent(gs)
  {
  }

  lemma SameSummaries(fs: seq<Finding>, gs: seq<Finding>, a: map<string, string>, b: map<string, string>)
    requires |gs| == |fs| && forall i :: 0 <= i < |fs| ==> gs[i].agentId == fs[i].agentId && gs[i].summary == fs[i].summary
    requires forall id :: id in a <==> exists i :: 0 <= i < |fs| && fs[i].agentId == id
    requires forall id :: id in b <==> exists i :: 0 <= i < |gs| && gs[i].agentId == id
    requires forall i :: 0 <= i < |fs| ==> fs[i].agentId in a && a[fs[i].agentId] == fs[i].summary
    requires forall i :: 0 <= i < |gs| ==> gs[i].agentId in b && b[gs[i].agentId] == gs[i].summary
    ensures a == b
  {
    forall id
      ensures id in a <==> id in b
      ensures id in a ==> a[id] == b[id]
    {
      if i :| 0 <= i < |fs| && fs[i].agentId == id {
        assert gs[i].agentId == id;
      }
      if i :| 0 <= i < |gs| && gs[i].agentId == id {
        assert fs[i].agentId == id;
      }
    }
  }

  lemma {:induction false} SummariesExactly(fs: seq<Finding>)
    requires OnePerAgent(fs)
    ensures forall id :: id in Summaries(fs) <==> exists i :: 0 <= i < |fs| && fs[i].agentId == id
    ensures forall i :: 0 <= i < |fs| ==> fs[i].agentId in Summaries(fs) && Summaries(fs)[fs[i].agentId] == fs[i].summary
  {
    if fs != [] {
      var init := fs[..|fs| - 1];
      SummariesExactly(init);
      assert forall i :: 0 <= i < |init| ==> init[i] == fs[i];
    }
  }

  // -------------------------------------------------------------- termination

  /** Agents that ask nothing and only ack, under a catalog the loader accepts. */
  ghost predicate Quiet(cfg: Config, envs: seq<Replies>) {
    && (forall d :: Marked(cfg.rules(d)))
    && (forall n :: 0 <= n < |envs| ==> envs[n].published == [])
    && (forall n, f :: 0 <= n < |envs| ==> envs[n].update(f).None? || envs[n].update(f).value.agentId != f.agentId)
  }

  /** How many corroborations and contradictions are still to come at most. */
  ghost function Chances(findings: seq<Finding>): nat {
    if findings == [] then 0 else Chances(findings[..|findings| - 1]) + Unmarked(findings[|findings| - 1])
  }

  lemma UnmarkedAtMostTwo(f: Finding)
    ensures Unmarked(f) <= 2
  {
  }

  lemma ChancesStep(fs: seq<Finding>)
    ensures Chances(fs) == if fs == [] then 0 else Chances(fs[..|fs| - 1]) + Unmarked(fs[|fs| - 1])
  {
  }

  lemma {:induction false} ChancesFall(before: seq<Finding>, after: seq<Finding>)
    requires |before| == |after| && forall i :: 0 <= i < |before| ==> after[i] == before[i] || Unmarked(after[i]) < Unmarked(before[i])
    ensures 0 <= Chances(after) <= Chances(before) <= 2 * |before|
    ensures before != after ==> Chances(after) < Chances(before)
  {
    hide Unmarked, Chances;
    ChancesStep(before);
    ChancesStep(after);
    if before != [] {
      var n := |before| - 1;
      UnmarkedAtMostTwo(before[n]);
      ChancesFall(before[..n], after[..n]);
      assert before == before[..n] + [before[n]] && after == after[..n] + [after[n]];
    }
  }

  /** A round in which nobody asks and every agent only acks: unless it is settled,
      some finding has used up a corroboration or a contradiction. */
  lemma QuietStep(cfg: Config, st: State, env: Replies)
    requires forall d :: Marked(cfg.rules(d))
    requires env.published == [] && forall f :: env.update(f).None? || env.update(f).value.agentId != f.agentId
    ensures var st' := AfterRound(cfg, st, env);
            && |st'.findings| == |st.findings|
            && 0 <= Chances(st'.findings) <= Chances(st.findings) <= 2 * |st.findings|
            && (!Settled(st, st') ==> Chances(st'.findings) < Chances(st.findings))
  {
    hide Reconsidered, Unmarked, Marked, Summaries;
    var st' := AfterRound(cfg, st, env);
    forall i | 0 <= i < |st.findings|
      ensures st'.findings[i] == st.findings[i] || Unmarked(st'.findings[i]) < Unmarked(st.findings[i])
    {
      var f := st.findings[i];
      UnmarkedFalls(cfg.rules(f.domain), f, Others(st.findings, f.agentId));
    }
    ChancesFall(st.findings, st'.findings);
    assert Chosen(cfg, st.asked, []) == [];
  }

  lemma {:induction false} QuietSpends(cfg: Config, findings: seq<Finding>, envs: seq<Replies>, n: nat)
    requires Quiet(cfg, envs) && n <= |envs|
    requires forall m :: 0 < m <= n ==> !Settled(At(cfg, findings, envs, m - 1), At(cfg, findings, envs, m))
    ensures |At(cfg, findings, envs, n).findings| == |findings|
    ensures 0 <= Chances(At(cfg, findings, envs, n).findings) <= 2 * |findings| - n
  {
    hide Settled, AfterRound, Chances;
    if n == 0 {
      AtStart(cfg, findings, envs);
      ChancesFall(findings, findings);
    } else {
      QuietSpends(cfg, findings, envs, n - 1);
      AtStep(cfg, findings, envs, n - 1);
      QuietStep(cfg, At(cfg, findings, envs, n - 1), envs[n - 1]);
    }
  }

  /** So with such agents the rounds end after at most two per finding, and one
      more to notice. */
  lemma QuietBound(cfg: Config, findings: seq<Finding>, envs: seq<Replies>, rounds: nat)
    requires rounds <= |envs|
    requires forall m :: 0 < m < rounds ==> !Settled(At(cfg, findings, envs, m - 1), At(cfg, findings, envs, m))
    ensures Quiet(cfg, envs) ==> rounds <= 2 * |findings| + 1
  {
    if Quiet(cfg, envs) && rounds > 0 {
      QuietSpends(cfg, findings, envs, rounds - 1);
    }
  }

  // ----------------------------------------------------------------- reducers

  /** dict by agent id: a later finding replaces an earlier one in its place. */
  function PutFinding(fs: seq<Finding>, f: Finding): seq<Finding> {
    if fs == [] then [f]
    else if fs[0].agentId == f.agentId then [f] + fs[1..] else [fs[0]] + PutFinding(fs[1..], f)
  }

  function Merged(existing: seq<Finding>, more: seq<Finding>): seq<Finding> {
    if more == [] then existing else PutFinding(Merged(existing, more[..|more| - 1]), more[|more| - 1])
  }

  /** merge_findings; the dict comprehension over `existing` is the same fold. */
  method MergeFindings(existing: seq<Finding>, more: seq<Finding>) returns (out: seq<Finding>)
    ensures out == Merged([], existing + more)
  {
    out := [];
    for i := 0 to |existing|
      invariant out == Merged([], existing[..i])
    {
      assert existing[..i + 1][..i] == existing[..i];
      out := PutFinding(out, existing[i]);
    }
    assert existing[..|existing|] == existing && existing + more[..0] == existing;
    for i := 0 to |more|
      invariant out == Merged([], existing + more[..i])
    {
      assert (existing + more[..i + 1])[..|existing| + i] == existing + more[..i];
      out := PutFinding(out, more[i]);
    }
    assert more[..|more|] == more;
  }

  ghost predicate OnePerAgent(fs: seq<Finding>) {
    forall i, j :: 0 <= i < j < |fs| ==> fs[i].agentId != fs[j].agentId
  }

  lemma {:induction false} PutFacts(fs: seq<Finding>, f: Finding)
    requires OnePerAgent(fs)
    ensures OnePerAgent(PutFinding(fs, f))
    ensures forall g :: g in PutFinding(fs, f) <==> g == f || (g in fs && g.agentId != f.agentId)
    ensures f in fs ==> PutFinding(fs, f) == fs
  {
    if fs != [] {
      var head, tail := fs[0], fs[1..];
      assert fs == [head] + tail;
      forall g | g in tail
        ensures g.agentId != head.agentId
      {
        var i :| 0 <= i < |tail| && tail[i] == g;
        assert fs[i + 1] == g;
      }
      if head.agentId != f.agentId {
        PutFacts(tail, f);
        OnePerAgentCons(head, PutFinding(tail, f));
      } else {
        OnePerAgentCons(f, tail);
      }
    }
  }

  lemma OnePerAgentCons(f: Finding, fs: seq<Finding>)
    requires OnePerAgent(fs) && forall g :: g in fs ==> g.agentId != f.agentId
    ensures OnePerAgent([f] + fs)
  {
  }

  /** The position of the last finding from an agent. */
  ghost predicate IsLast(fs: seq<Finding>, i: nat) {
    i < |fs| && forall j :: i < j < |fs| ==> fs[j].agentId != fs[i].agentId
  }

  ghost predicate LastOf(fs: seq<Finding>, g: Finding) {
    exists i: nat :: IsLast(fs, i) && fs[i] == g
  }

  lemma LastSnoc(init: seq<Finding>, f: Finding, g: Finding)
    ensures LastOf(init + [f], g) <==> g == f || (LastOf(init, g) && g.agentId != f.agentId)
  {
    var fs := init + [f];
    assert IsLast(fs, |init|);
    if i: nat :| IsLast(fs, i) && fs[i] == g && i < |init| {
      assert forall j :: 0 <= j < |init| ==> init[j] == fs[j];
      assert IsLast(init, i) && fs[|init|] == f;
    }
    if LastOf(init, g) && g.agentId != f.agentId {
      var i: nat :| IsLast(init, i) && init[i] == g;
      assert IsLast(fs, i);
    }
  }

  /** Merging keeps exactly one finding per agent: the last one reported. */
  lemma {:induction false} MergedExact(fs: seq<Finding>)
    ensures OnePerAgent(Merged([], fs))
    ensures forall g :: g in Merged([], fs) <==> LastOf(fs, g)
  {
    if fs != [] {
      var init, f := fs[..|fs| - 1], fs[|fs| - 1];
      assert fs == init + [f];
      MergedExact(init);
      PutFacts(Merged([], init), f);
      hide LastOf;
      forall g
        ensures g in Merged([], fs) <==> LastOf(fs, g)
      {
        LastSnoc(init, f, g);
      }
    }
  }

  function AgentOf(f: Finding): string { f.agentId }

  function AgentsOf(fs: seq<Finding>): seq<string> {
    if fs == [] then [] else [fs[0].agentId] + AgentsOf(fs[1..])
  }

  lemma {:induction false} AgentsAt(fs: seq<Finding>)
    ensures |AgentsOf(fs)| == |fs| && forall i :: 0 <= i < |fs| ==> AgentsOf(fs)[i] == fs[i].agentId
  {
    if fs != [] {
      AgentsAt(fs[1..]);
    }
  }

  lemma {:induction false} PutAgents(fs: seq<Finding>, f: Finding)
    ensures AgentsOf(PutFinding(fs, f)) == if f.agentId in AgentsOf(fs) then AgentsOf(fs) else AgentsOf(fs) + [f.agentId]
  {
    if fs != [] {
      var head, tail := fs[0], fs[1..];
      PutAgents(tail, f);
      if head.agentId == f.agentId {
        assert ([f] + tail)[1..] == tail;
      } else {
        assert ([head] + PutFinding(tail, f))[1..] == PutFinding(tail, f);
        assert ([head.agentId] + AgentsOf(tail)) + [f.agentId] == [head.agentId] + (AgentsOf(tail) + [f.agentId]);
      }
    }
  }

  lemma {:induction false} MergedAgents(fs: seq<Finding>)
    ensures AgentsOf(Merged([], fs)) == Keys(AgentOf, fs)
  {
    if fs != [] {
      MergedAgents(fs[..|fs| - 1]);
      PutAgents(Merged([], fs[..|fs| - 1]), fs[|fs| - 1]);
    }
  }

  /** An agent keeps the place of its first report: it comes before another exactly
      when it reported before the other first did. */
  lemma MergedOrder(fs: seq<Finding>, i: nat, j: nat)
    requires i < |Merged([], fs)| && j < |Merged([], fs)| && i != j
    ensures var a, b := Merged([], fs)[i].agentId, Merged([], fs)[j].agentId;
            a != b && (i < j <==> exists p :: 0 <= p < |fs| && fs[p].agentId == a && forall q :: 0 <= q < p ==> fs[q].agentId != b)
  {
    var out := Merged([], fs);
    var a, b := out[i].agentId, out[j].agentId;
    MergedAgents(fs);
    MergedExact(fs);
    AgentsAt(out);
    hide Merged, LastOf, AgentsOf;
    assert AgentsOf(out)[i] == a && AgentsOf(out)[j] == b;
    KeysByFirst(AgentOf, fs, a, b);
    assert a != b;
    if i < j {
      assert Earlier(Keys(AgentOf, fs), a, b);
    }
    if p :| 0 <= p < |fs| && fs[p].agentId == a && forall q :: 0 <= q < p ==> fs[q].agentId != b {
      assert AgentOf(fs[p]) == a && forall q :: 0 <= q < p ==> AgentOf(fs[q]) != b;
      var k, l :| 0 <= k < l < |Keys(AgentOf, fs)| && Keys(AgentOf, fs)[k] == a && Keys(AgentOf, fs)[l] == b;
      assert out[k].agentId == a && out[l].agentId == b;
    }
  }
}
