/** agents/domain_agent.py: per-incident sessions and the message handler of one
    domain agent. */
module Agent {
  import opened Prelude
  import opened Topology
  import opened Contract
  import opened Answers
  import opened Correlation
  import opened Recency
  import opened Planning

  /** `id` is the agent's domain, the name it is also asked under. */
  datatype Settings = Settings(id: string, rules: seq<Rule>, style: Style, catalog: Catalog)

  /** The session context: what a message brings of it replaces what was there. */
  datatype Context = Context(region: Option<string>, start: Option<Time>, end: Option<Time>, alarm: Option<seq<Node>>,
                             asked: Option<set<RequestId>>)

  const NoContext := Context(None, None, None, None, None)

  function Or<T>(brought: Option<T>, held: Option<T>): Option<T> { if brought.Some? then brought else held }

  function Updated(held: Context, brought: Context): Context {
    Context(Or(brought.region, held.region), Or(brought.start, held.start), Or(brought.end, held.end),
            Or(brought.alarm, held.alarm), Or(brought.asked, held.asked))
  }

  predicate InIncident(c: Context) { c.region.Some? && c.region.value != "" }

  /** Peers' findings by round and sender; dicts keep their insertion order. */
  type Heard = seq<(string, Finding)>

  datatype State = State(context: Context, own: Option<Finding>, peers: map<int, Heard>, answers: map<int, seq<Answer>>,
                         leads: seq<Lead>, planned: set<int>)

  const NewState := State(NoContext, None, map[], map[], [], {})

  /** Reading the topology: it may fail, or find that there is none; with it come
      the questions the LLM would ask, its hypotheses over unclassified rows. */
  datatype Reading = Failed | Read(topology: Option<Response>, hypotheses: seq<Request>)

  /** The peer messages, with what the environment contributes to each: the
      topology read for a plan, what the scoped re-run found, and for a hypothesis
      the verdict of its checks. */
  datatype Body =
    | FindingPublish(sender: string, finding: Finding, expected: set<string>, reading: Reading)
    | ValidationRequest(request: Request, scoped: Finding, checked: Option<Verdict>)
    | ValidationResponse(leads: seq<Lead>)
    | FindingUpdate
    | OtherMessage

  datatype Message = Message(round: int, context: Context, body: Body)

  /** What became of planning a round: the topology could not be read and no
      requests are sent; the context lacks the window and the handler raises; or
      plan_requests was asked this. */
  datatype Plan = Unread | NoWindow | Made(query: Query, topology: Option<Response>, hypotheses: seq<Request>)

  datatype Reply = Ack | Plans(peers: Heard, plan: Plan) | Verdict(verdict: Verdict) | Revised(finding: Finding)

  /** The requests a reply carries: the hypotheses and then the plan's, or none. */
  ghost predicate Carries(reply: Reply, requests: seq<Request>) {
    if reply.Plans? && reply.plan.Made? then
      var p := reply.plan;
      exists planned :: IsPlan(Built(p.topology, p.query.catalog.relationships), p.query, planned) && requests == p.hypotheses + planned
    else requests == []
  }

  // ------------------------------------------------------------ specification

  function PutHeard(h: Heard, sender: string, f: Finding): Heard {
    if h == [] then [(sender, f)]
    else if h[0].0 == sender then [(sender, f)] + h[1..] else [h[0]] + PutHeard(h[1..], sender, f)
  }

  function Senders(h: Heard): set<string> { set p | p in h :: p.0 }

  function Findings(h: Heard): seq<Finding> {
    seq(|h|, i requires 0 <= i < |h| => h[i].1)
  }

  function HeardIn(s: State, round: int): Heard {
    if round in s.peers then s.peers[round] else []
  }

  function AnswersIn(s: State, round: int): seq<Answer> {
    if round in s.answers then s.answers[round] else []
  }

  function Entered(s: State, m: Message): State {
    s.(context := Updated(s.context, m.context))
  }

  function PlanFor(agent: Settings, s: State, heard: Heard, reading: Reading): Plan {
    if reading.Failed? then Unread
    else if s.context.start.None? || s.context.end.None? then NoWindow
    else
      Made(Query(agent.id, s.own, Findings(heard), agent.catalog, s.context.start.value, s.context.end.value,
                 if s.context.alarm.Some? then s.context.alarm.value else [], s.leads,
                 if s.context.asked.Some? then s.context.asked.value else {}),
           reading.topology, if s.own.Some? then reading.hypotheses else [])
  }

  function Publish(agent: Settings, s: State, round: int, b: Body): (State, Reply)
    requires b.FindingPublish?
  {
    var heard := PutHeard(HeardIn(s, round), b.sender, b.finding);
    var s' := s.(peers := s.peers[round := heard]);
    var expected := b.expected - {agent.id};
    if expected != {} && expected <= Senders(heard) && round !in s.planned && InIncident(s.context) then
      var plan := PlanFor(agent, s, heard, b.reading);
      (s'.(planned := s.planned + {round}, leads := if plan.Made? then [] else s.leads), Plans(heard, plan))
    else (s', Ack)
  }

  function JudgeOf(b: Body): Verdict
    requires b.ValidationRequest?
  {
    if b.checked.Some? then b.checked.value else Judge(b.scoped)
  }

  function Respond(s: State, round: int, b: Body): (State, Reply)
    requires b.ValidationRequest?
  {
    var verdict := JudgeOf(b);
    (if verdict.Supported? then s.(answers := s.answers[round := AnswersIn(s, round) + [Answer(b.request, b.scoped)]]) else s,
     Verdict(verdict))
  }

  function Revise(agent: Settings, s: State, round: int, own: Finding): Finding {
    Reconsidered(agent.rules, Absorbed(own, AnswersIn(s, round), agent.style), Findings(HeardIn(s, round)))
  }

  function Handled(agent: Settings, s0: State, m: Message): (State, Reply) {
    var s := Entered(s0, m);
    match m.body
    case FindingPublish(_, _, _, _) => Publish(agent, s, m.round, m.body)
    case ValidationRequest(_, _, _) => if InIncident(s.context) then Respond(s, m.round, m.body) else (s, Ack)
    case ValidationResponse(leads) => (s.(leads := s.leads + leads), Ack)
    case FindingUpdate =>
      if s.own.None? then (s, Ack) else
        var revised := Revise(agent, s, m.round, s.own.value);
        (s.(own := Some(revised)), Revised(revised))
    case OtherMessage => (s, Ack)
  }

  function Run(agent: Settings, s: State, ms: seq<Message>): State {
    if ms == [] then s else Handled(agent, Run(agent, s, ms[..|ms| - 1]), ms[|ms| - 1]).0
  }

  function Replies(agent: Settings, s: State, ms: seq<Message>): (r: seq<Reply>)
    ensures |r| == |ms|
  {
    if ms == [] then []
    else Replies(agent, s, ms[..|ms| - 1]) + [Handled(agent, Run(agent, s, ms[..|ms| - 1]), ms[|ms| - 1]).1]
  }

  // ------------------------------------------------------------------ classes

  class Session {
    var context: Context
    var own: Option<Finding>
    var peers: map<int, Heard>
    var answers: map<int, seq<Answer>>
    var leads: seq<Lead>
    var planned: set<int>

    function View(): State
      reads this
    {
      State(context, own, peers, answers, leads, planned)
    }

    constructor ()
      ensures View() == NewState
    {
      context, own, peers, answers, leads, planned := NoContext, None, map[], map[], [], {};
    }

    /** The `/a2a` handler's part that concerns peers; `requests` are those the
        reply carries. */
    method Handle(agent: Settings, m: Message) returns (reply: Reply, requests: seq<Request>)
      modifies this
      ensures (View(), reply) == Handled(agent, old(View()), m)
      ensures Carries(reply, requests)
    {
      hide Absorbed, Reconsidered, Senders, PutHeard, Findings, IsPlan, Judge;
      context, requests := Updated(context, m.context), [];
      var round := m.round;
      if m.body.FindingPublish? {
        var b := m.body;
        peers := peers[round := PutHeard(if round in peers then peers[round] else [], b.sender, b.finding)];
        var expected := b.expected - {agent.id};
        if expected != {} && expected <= Senders(peers[round]) && round !in planned && InIncident(context) {
          planned := planned + {round};
          var plan := PlanFor(agent, View(), peers[round], b.reading);
          if plan.Made? {
            var planned := PlanRequests(plan.query, plan.topology);
            requests := plan.hypotheses + planned;
            leads := [];
          }
          reply := Plans(peers[round], plan);
          return;
        }
        return Ack, [];
      }
      if m.body.ValidationRequest? && InIncident(context) {
        var verdict := JudgeOf(m.body);
        if verdict.Supported? {
          var sofar := if round in answers then answers[round] else [];
          answers := answers[round := sofar + [Answer(m.body.request, m.body.scoped)]];
        }
        return Verdict(verdict), [];
      }
      if m.body.ValidationResponse? {
        leads := leads + m.body.leads;
        return Ack, [];
      }
      if m.body.FindingUpdate? && own.Some? {
        var revised := Absorb(own.value, if round in answers then answers[round] else [], agent.style);
        revised := Reconsider(revised, Findings(if round in peers then peers[round] else []), agent.rules);
        own := Some(revised);
        return Revised(revised), [];
      }
      reply := Ack;
    }
  }

  class Sessions {
    var items: seq<(string, Session)>
    const limit: nat

    constructor (limit: nat)
      ensures items == [] && this.limit == limit
    {
      items := [];
      this.limit := limit;
    }

    /** The session of an incident: the one held, or a new one; it becomes the
        most recent, and the least recent ones over the limit are forgotten. */
    method Get(key: string) returns (session: Session)
      modifies this`items
      ensures items == Accessed(old(items), limit, key, session)
      ensures session == Served(old(items), key, session)
      ensures Find(old(items), key).None? ==> fresh(session) && session.View() == NewState
    {
      var held := Find(items, key);
      if held.Some? {
        session := held.value;
      } else {
        session := new Session();
      }
      items := Without(items, key) + [(key, session)];
      ghost var grown, cut: nat := items, 0;
      while |items| > limit
        invariant cut <= |grown| && items == grown[cut..] && (cut > 0 ==> |items| >= limit)
        invariant held.None? ==> fresh(session) && session.View() == NewState
      {
        items, cut := items[1..], cut + 1;
      }
    }
  }

  // ----------------------------------------------------------------- planning

  lemma SendersCons(p: (string, Finding), rest: Heard)
    ensures Senders([p] + rest) == {p.0} + Senders(rest)
  {
    assert p in [p] + rest;
    forall s | s in Senders(rest)
      ensures s in Senders([p] + rest)
    {
      var q :| q in rest && q.0 == s;
      assert q in [p] + rest;
    }
  }

  lemma {:induction false} PutHeardFacts(h: Heard, sender: string, f: Finding)
    ensures Senders(PutHeard(h, sender, f)) == Senders(h) + {sender}
  {
    hide Senders;
    if h == [] {
      assert [(sender, f)] == [(sender, f)] + [];
      SendersCons((sender, f), []);
      SendersCons((sender, f), h);
      assert Senders(h) == Senders([]);
    } else {
      assert h == [h[0]] + h[1..];
      SendersCons(h[0], h[1..]);
      if h[0].0 == sender {
        SendersCons((sender, f), h[1..]);
      } else {
        PutHeardFacts(h[1..], sender, f);
        SendersCons(h[0], PutHeard(h[1..], sender, f));
      }
    }
  }

  /** What one message does to the parts of a session the theorems follow. */
  lemma OneMessage(agent: Settings, s: State, m: Message)
    ensures var (s', reply) := Handled(agent, s, m);
            && s.planned <= s'.planned <= s.planned + {m.round}
            && (reply.Plans? <==> m.round in s'.planned && m.round !in s.planned)
            && s.leads + LeadsIn(m) == LeadsOut(reply) + s'.leads
            && (s.own.Some? ==> s'.own.Some?)
            && (s.own.Some? ==> s'.own.value == if m.body.FindingUpdate? then Revise(agent, Entered(s, m), m.round, s.own.value) else s.own.value)
  {
  }

  function LeadsIn(m: Message): seq<Lead> { if m.body.ValidationResponse? then m.body.leads else [] }

  function LeadsOut(r: Reply): seq<Lead> { if r.Plans? && r.plan.Made? then r.plan.query.leads else [] }

  /** Who has published in the round so far, in any order and however often. */
  function Delivered(ms: seq<Message>, round: int): set<string> {
    set m | m in ms && m.round == round && m.body.FindingPublish? :: m.body.sender
  }

  lemma NoneDelivered(round: int)
    ensures Delivered([], round) == {}
  {
  }

  lemma DeliveredSnoc(ms: seq<Message>, m: Message, round: int)
    ensures Delivered(ms + [m], round) ==
            Delivered(ms, round) + (if m.round == round && m.body.FindingPublish? then {m.body.sender} else {})
  {
    forall s | s in Delivered(ms, round)
      ensures s in Delivered(ms + [m], round)
    {
      var n :| n in ms && n.round == round && n.body.FindingPublish? && n.body.sender == s;
      assert n in ms + [m];
    }
    if m.round == round && m.body.FindingPublish? {
      assert m in ms + [m];
    }
  }

  lemma OneHeard(agent: Settings, s: State, m: Message, round: int)
    ensures Senders(HeardIn(Handled(agent, s, m).0, round)) ==
            Senders(HeardIn(s, round)) + (if m.round == round && m.body.FindingPublish? then {m.body.sender} else {})
  {
    hide Senders, Revise;
    if m.round == round && m.body.FindingPublish? {
      PutHeardFacts(HeardIn(s, round), m.body.sender, m.body.finding);
    }
  }

  lemma {:induction false} HeardExactly(agent: Settings, s: State, ms: seq<Message>, round: int)
    ensures Senders(HeardIn(Run(agent, s, ms), round)) == Senders(HeardIn(s, round)) + Delivered(ms, round)
  {
    hide Handled, Senders, HeardIn;
    if ms == [] {
      assert Delivered(ms, round) == {};
    } else {
      var init, m := ms[..|ms| - 1], ms[|ms| - 1];
      HeardExactly(agent, s, init, round);
      assert ms == init + [m];
      DeliveredSnoc(init, m, round);
      OneHeard(agent, Run(agent, s, init), m, round);
    }
  }

  predicate PlansRound(ms: seq<Message>, replies: seq<Reply>, i: nat, round: int) {
    i < |ms| && i < |replies| && ms[i].round == round && replies[i].Plans?
  }

  lemma {:induction false} RunSplit(agent: Settings, s: State, ms: seq<Message>, i: nat)
    requires i < |ms|
    ensures Replies(agent, s, ms)[i] == Handled(agent, Run(agent, s, ms[..i]), ms[i]).1
    ensures Run(agent, s, ms[..i + 1]) == Handled(agent, Run(agent, s, ms[..i]), ms[i]).0
  {
    hide Handled;
    assert ms[..i + 1][..i] == ms[..i];
    if i < |ms| - 1 {
      RunSplit(agent, s, ms[..|ms| - 1], i);
      assert ms[..|ms| - 1][..i] == ms[..i] && ms[..|ms| - 1][..i + 1] == ms[..i + 1];
    }
  }

  lemma {:induction false} PlannedGrows(agent: Settings, s: State, ms: seq<Message>, i: nat, j: nat)
    requires i <= j <= |ms|
    ensures Run(agent, s, ms[..i]).planned <= Run(agent, s, ms[..j]).planned
  {
    hide Handled;
    if i < j {
      PlannedGrows(agent, s, ms, i, j - 1);
      RunSplit(agent, s, ms, j - 1);
      OneMessage(agent, Run(agent, s, ms[..j - 1]), ms[j - 1]);
    }
  }

  lemma PlansUnplanned(agent: Settings, s: State, ms: seq<Message>, round: int, i: nat)
    requires PlansRound(ms, Replies(agent, s, ms), i, round)
    ensures round !in Run(agent, s, ms[..i]).planned && round in Run(agent, s, ms[..i + 1]).planned
  {
    hide Handled, Run;
    RunSplit(agent, s, ms, i);
    OneMessage(agent, Run(agent, s, ms[..i]), ms[i]);
  }

  lemma PlansOnce(agent: Settings, s: State, ms: seq<Message>, round: int, i: nat, j: nat)
    requires PlansRound(ms, Replies(agent, s, ms), i, round) && PlansRound(ms, Replies(agent, s, ms), j, round)
    ensures i == j
  {
    hide Run, Handled;
    PlansUnplanned(agent, s, ms, round, i);
    PlansUnplanned(agent, s, ms, round, j);
    if i < j {
      PlannedGrows(agent, s, ms, i + 1, j);
    }
    if j < i {
      PlannedGrows(agent, s, ms, j + 1, i);
    }
  }

  /** Whatever reaches a session, in whatever order, it plans a round at most
      once, and only on a publish that completes it: the reply's findings hold
      one from every expected peer, each delivered in that round. */
  lemma PlansAtMostOnce(agent: Settings, s: State, ms: seq<Message>, round: int, i: nat)
    requires s.planned == {} && s.peers == map[]
    requires PlansRound(ms, Replies(agent, s, ms), i, round)
    ensures forall j: nat :: PlansRound(ms, Replies(agent, s, ms), j, round) ==> j == i
    ensures ms[i].body.FindingPublish? && ms[i].body.expected - {agent.id} != {}
    ensures ms[i].body.expected - {agent.id} <= Senders(Replies(agent, s, ms)[i].peers)
    ensures ms[i].body.expected - {agent.id} <= Delivered(ms[..i + 1], round)
    ensures var r := Replies(agent, s, ms)[i]; r.plan.Made? ==> r.plan.query.peers == Findings(r.peers)
  {
    hide Run, Senders, Findings;
    RunSplit(agent, s, ms, i);
    HeardExactly(agent, s, ms[..i + 1], round);
    NoneHeard(s, round);
    forall j: nat | PlansRound(ms, Replies(agent, s, ms), j, round)
      ensures j == i
    {
      PlansOnce(agent, s, ms, round, i, j);
    }
  }

  lemma NoneHeard(s: State, round: int)
    requires s.peers == map[]
    ensures Senders(HeardIn(s, round)) == {}
  {
  }

  /** The orchestrator's side of a round: every publish of it names the same
      participants and carries the incident's context. */
  predicate RoundPublished(agent: Settings, ms: seq<Message>, round: int, participants: set<string>) {
    forall m :: m in ms && m.round == round && m.body.FindingPublish? ==>
      m.body.expected == participants && InIncident(m.context) && m.context.start.Some? && m.context.end.Some?
  }

  /** Under any order, duplication or loss of the round's publishes: the round is
      planned exactly when every expected peer's finding arrived. */
  lemma {:induction false} PlannedExactly(agent: Settings, s: State, ms: seq<Message>, round: int, participants: set<string>)
    requires s.planned == {} && s.peers == map[]
    requires RoundPublished(agent, ms, round, participants) && participants - {agent.id} != {}
    ensures round in Run(agent, s, ms).planned <==> participants - {agent.id} <= Delivered(ms, round)
  {
    hide Handled, Delivered, Senders, HeardIn;
    if ms == [] {
      NoneDelivered(round);
    } else {
      var init, m := ms[..|ms| - 1], ms[|ms| - 1];
      assert ms == init + [m];
      PlannedExactly(agent, s, init, round, participants);
      DeliveredSnoc(init, m, round);
      NoneHeard(s, round);
      HeardExactly(agent, s, ms, round);
      OneMessage(agent, Run(agent, s, init), m);
      PlansWhenHeard(agent, Run(agent, s, init), m);
      if m.round == round && m.body.FindingPublish? {
        assert m in ms;
      }
    }
  }

  /** A publish with the incident's context plans its round, unless planned, once
      the session has heard from everyone expected; nothing else plans. */
  lemma PlansWhenHeard(agent: Settings, s: State, m: Message)
    ensures var s' := Handled(agent, s, m).0;
            m.round in s'.planned <==>
            m.round in s.planned ||
            (m.body.FindingPublish? && m.body.expected - {agent.id} != {} && m.body.expected - {agent.id} <= Senders(HeardIn(s', m.round)) &&
             Updated(s.context, m.context).region.Some? && Updated(s.context, m.context).region.value != "")
  {
    hide Senders, PutHeard;
  }

  /** Every reply that plans marks its round, and a marked round has its reply. */
  lemma {:induction false} PlannedHasReply(agent: Settings, s: State, ms: seq<Message>, round: int)
    requires s.planned == {}
    ensures round in Run(agent, s, ms).planned ==> exists i: nat :: PlansRound(ms, Replies(agent, s, ms), i, round)
    ensures forall i: nat :: PlansRound(ms, Replies(agent, s, ms), i, round) ==> round in Run(agent, s, ms).planned
  {
    hide Handled;
    if ms != [] {
      var init, m := ms[..|ms| - 1], ms[|ms| - 1];
      OneMessage(agent, Run(agent, s, init), m);
      var before, after := Replies(agent, s, init), Replies(agent, s, ms);
      var reply := Handled(agent, Run(agent, s, init), m).1;
      assert after == before + [reply];
      PlannedHasReply(agent, s, init, round);
      if round in Run(agent, s, ms).planned {
        if round in Run(agent, s, init).planned {
          var i: nat :| PlansRound(init, before, i, round);
          assert PlansRound(ms, after, i, round);
        } else {
          assert PlansRound(ms, after, |init|, round);
        }
      }
      forall i: nat | PlansRound(ms, after, i, round)
        ensures round in Run(agent, s, ms).planned
      {
        if i < |init| {
          assert PlansRound(init, before, i, round);
        }
      }
    }
  }

  /** The publish at `i` is the one that completes the round. */
  predicate Completes(ms: seq<Message>, i: nat, round: int, expected: set<string>) {
    i < |ms| && expected <= Delivered(ms[..i + 1], round) && !(expected <= Delivered(ms[..i], round))
  }

  predicate CarriesRequests(ms: seq<Message>, replies: seq<Reply>, i: nat, round: int) {
    PlansRound(ms, replies, i, round) && replies[i].plan.Made?
  }

  /** The reply that plans a round answers the publish that completes it, and
      carries the requests exactly when the topology can then be read. */
  lemma PlansWhenComplete(agent: Settings, s: State, ms: seq<Message>, round: int, participants: set<string>, i: nat)
    requires s.planned == {} && s.peers == map[]
    requires RoundPublished(agent, ms, round, participants) && participants - {agent.id} != {}
    ensures PlansRound(ms, Replies(agent, s, ms), i, round) <==> Completes(ms, i, round, participants - {agent.id})
    ensures PlansRound(ms, Replies(agent, s, ms), i, round) ==>
              ms[i].body.FindingPublish? && (Replies(agent, s, ms)[i].plan.Made? <==> ms[i].body.reading.Read?)
  {
    hide Run, Delivered, Senders, PutHeard, Findings;
    if i < |ms| {
      assert forall m :: m in ms[..i] || m in ms[..i + 1] ==> m in ms;
      PlannedExactly(agent, s, ms[..i], round, participants);
      PlannedExactly(agent, s, ms[..i + 1], round, participants);
      RunSplit(agent, s, ms, i);
      OneMessage(agent, Run(agent, s, ms[..i]), ms[i]);
      assert ms[i] in ms;
    }
  }

  /** So when all are delivered, exactly one reply plans the round, and it carries
      the round's requests exactly when the topology could be read at the publish
      that completed the round; when one is lost, none does. */
  lemma OneReplyCarriesTheRequests(agent: Settings, s: State, ms: seq<Message>, round: int, participants: set<string>)
    requires s.planned == {} && s.peers == map[]
    requires RoundPublished(agent, ms, round, participants) && participants - {agent.id} != {}
    ensures participants - {agent.id} <= Delivered(ms, round) <==>
            exists i: nat :: PlansRound(ms, Replies(agent, s, ms), i, round)
    ensures forall i: nat, j: nat :: PlansRound(ms, Replies(agent, s, ms), i, round) && PlansRound(ms, Replies(agent, s, ms), j, round) ==> i == j
    ensures forall i: nat :: CarriesRequests(ms, Replies(agent, s, ms), i, round) <==>
              Completes(ms, i, round, participants - {agent.id}) && ms[i].body.FindingPublish? && ms[i].body.reading.Read?
  {
    hide Replies, Run, Delivered;
    PlannedExactly(agent, s, ms, round, participants);
    PlannedHasReply(agent, s, ms, round);
    forall i: nat, j: nat | PlansRound(ms, Replies(agent, s, ms), i, round) && PlansRound(ms, Replies(agent, s, ms), j, round)
      ensures i == j
    {
      PlansAtMostOnce(agent, s, ms, round, i);
    }
    forall i: nat
      ensures CarriesRequests(ms, Replies(agent, s, ms), i, round) <==>
              Completes(ms, i, round, participants - {agent.id}) && ms[i].body.FindingPublish? && ms[i].body.reading.Read?
    {
      PlansWhenComplete(agent, s, ms, round, participants, i);
    }
  }

  // -------------------------------------------------------------------- leads

  function LeadsGiven(ms: seq<Message>): seq<Lead> {
    if ms == [] then [] else
      LeadsGiven(ms[..|ms| - 1]) + LeadsIn(ms[|ms| - 1])
  }

  function LeadsUsed(replies: seq<Reply>): seq<Lead> {
    if replies == [] then [] else
      LeadsUsed(replies[..|replies| - 1]) + LeadsOut(replies[|replies| - 1])
  }

  /** No lead is lost and none is used twice: what came in is what the plans took,
      in order, followed by what still waits. */
  lemma {:induction false} LeadsConserved(agent: Settings, s: State, ms: seq<Message>)
    ensures s.leads + LeadsGiven(ms) == LeadsUsed(Replies(agent, s, ms)) + Run(agent, s, ms).leads
  {
    hide Handled, LeadsIn, LeadsOut;
    if ms == [] {
      assert s.leads + [] == [] + s.leads;
    } else {
      var init, m := ms[..|ms| - 1], ms[|ms| - 1];
      LeadsConserved(agent, s, init);
      OneMessage(agent, Run(agent, s, init), m);
      var before, reply := Run(agent, s, init), Handled(agent, Run(agent, s, init), m).1;
      UsedSnoc(Replies(agent, s, init), reply);
      Regroup(s.leads, LeadsGiven(init), LeadsIn(m), LeadsUsed(Replies(agent, s, init)), before.leads, LeadsOut(reply),
              Run(agent, s, ms).leads);
    }
  }

  lemma UsedSnoc(replies: seq<Reply>, r: Reply)
    ensures LeadsUsed(replies + [r]) == LeadsUsed(replies) + LeadsOut(r)
  {
    assert (replies + [r])[..|replies|] == replies;
  }

  lemma Regroup<T>(a: seq<T>, b: seq<T>, c: seq<T>, u: seq<T>, w: seq<T>, o: seq<T>, l: seq<T>)
    requires a + b == u + w && w + c == o + l
    ensures a + (b + c) == (u + o) + l
  {
    assert a + (b + c) == (a + b) + c;
    assert (u + w) + c == u + (w + c);
    assert u + (o + l) == (u + o) + l;
  }

  // ---------------------------------------------------------------- revisions

  function Updates(ms: seq<Message>): nat {
    if ms == [] then 0 else Updates(ms[..|ms| - 1]) + (if ms[|ms| - 1].body.FindingUpdate? then 1 else 0)
  }

  /** One revision: at most one count for what was absorbed, and one for each
      kind of peer note, which are given at most once ever. */
  lemma ReviseOnce(agent: Settings, s: State, round: int, own: Finding)
    requires Marked(agent.rules)
    ensures var g := Revise(agent, s, round, own);
            && g.revisionCount + Unmarked(g) <= own.revisionCount + Unmarked(own) + 1
            && own.evidence <= g.evidence && own.summary <= g.summary
            && g.agentId == own.agentId && g.domain == own.domain && (own.anomaly ==> g.anomaly)
  {
    var answers, peers := AnswersIn(s, round), Findings(HeardIn(s, round));
    var a := Absorbed(own, answers, agent.style);
    AbsorbExact(own, answers, answers, agent.style);
    FoldExact(CoreOf(own), answers);
    AbsorbIsFold(own, answers, [], agent.style);
    MarksSurvive(own.summary, a.summary);
    ReconsiderOnce(agent.rules, a, peers);
  }

  lemma MarksSurvive(s: string, t: string)
    requires s <= t
    ensures forall k: Kind :: Contains(s, Marker(k)) ==> Contains(t, Marker(k))
  {
    assert t == s + t[|s|..];
    forall k: Kind | Contains(s, Marker(k)) {
      ContainsAppend(s, t[|s|..], Marker(k));
    }
  }

  /** Over any message history the agent's finding is revised at most once per
      update plus two, keeps its identity and never loses evidence. */
  lemma {:induction false} RevisionBound(agent: Settings, s: State, ms: seq<Message>)
    requires Marked(agent.rules) && s.own.Some?
    ensures var own := Run(agent, s, ms).own;
            && own.Some? && own.value.agentId == s.own.value.agentId && s.own.value.evidence <= own.value.evidence
            && own.value.revisionCount + Unmarked(own.value) <= s.own.value.revisionCount + Unmarked(s.own.value) + Updates(ms)
            && own.value.revisionCount <= s.own.value.revisionCount + Updates(ms) + 2
  {
    if ms != [] {
      var init, m := ms[..|ms| - 1], ms[|ms| - 1];
      hide Handled, Revise;
      RevisionBound(agent, s, init);
      var before := Run(agent, s, init);
      OneMessage(agent, before, m);
      if m.body.FindingUpdate? {
        ReviseOnce(agent, Entered(before, m), m.round, before.own.value);
      }
    }
  }
}
