/** What reaches a domain agent's session and comes out of it again, told from the
    messages: agents/domain_agent.py, the message handler over whole histories. */
module Updates {
  import opened Prelude
  import opened Topology
  import opened Contract
  import opened Planning
  import opened Answers
  import opened Correlation
  import Agent

  type Message = Agent.Message
  type Context = Agent.Context

  /** The context after each message: what it brings, over what was known. */
  function Merge(held: Context, brought: Context): Context {
    Agent.Context(if brought.region.Some? then brought.region else held.region,
                  if brought.start.Some? then brought.start else held.start,
                  if brought.end.Some? then brought.end else held.end,
                  if brought.alarm.Some? then brought.alarm else held.alarm,
                  if brought.asked.Some? then brought.asked else held.asked)
  }

  function ContextAfter(c: Context, ms: seq<Message>): Context {
    if ms == [] then c else Merge(ContextAfter(c, ms[..|ms| - 1]), ms[|ms| - 1].context)
  }

  /** Each message with the context it is handled in. */
  function InContext(c: Context, ms: seq<Message>): seq<(Message, Context)> {
    seq(|ms|, i requires 0 <= i < |ms| => (ms[i], ContextAfter(c, ms[..i + 1])))
  }

  lemma InContextSnoc(c: Context, ms: seq<Message>, m: Message)
    ensures InContext(c, ms + [m]) == InContext(c, ms) + [(m, ContextAfter(c, ms + [m]))]
  {
    forall i | 0 <= i < |ms|
      ensures InContext(c, ms + [m])[i] == InContext(c, ms)[i]
    {
      assert (ms + [m])[..i + 1] == ms[..i + 1];
    }
    assert (ms + [m])[..|ms| + 1] == ms + [m];
  }

  lemma {:induction false} ContextExactly(agent: Agent.Settings, s: Agent.State, ms: seq<Message>)
    ensures Agent.Run(agent, s, ms).context == ContextAfter(s.context, ms)
  {
    if ms != [] {
      ContextExactly(agent, s, ms[..|ms| - 1]);
      ContextStep(agent, Agent.Run(agent, s, ms[..|ms| - 1]), ms[|ms| - 1]);
    }
  }

  lemma ContextStep(agent: Agent.Settings, s: Agent.State, m: Message)
    ensures Agent.Handled(agent, s, m).0.context == Merge(s.context, m.context)
  {
  }

  predicate RegionKnown(c: Context) { c.region.Some? && c.region.value != "" }

  /** A scoped answer supports the question: the hypothesis check says so, or the
      re-run found an anomaly with evidence. */
  predicate Supports(b: Agent.Body)
    requires b.ValidationRequest?
  {
    if b.checked.Some? then b.checked.value == Supported else b.scoped.anomaly && b.scoped.evidence != []
  }

  /** The answer kept of a message of the round, if any. */
  function KeptAnswer(round: int): ((Message, Context)) -> Option<Answer> {
    (p: (Message, Context)) =>
      if p.0.round == round && p.0.body.ValidationRequest? && RegionKnown(p.1) && Supports(p.0.body)
      then Some(Answer(p.0.body.request, p.0.body.scoped)) else None
  }

  /** The reply to a question: what the hypothesis check says; otherwise supported
      by an anomaly with evidence, inconclusive when the data was degraded and no
      anomaly found, and refuted in all other cases. */
  lemma VerdictTold(agent: Agent.Settings, s: Agent.State, m: Message)
    requires m.body.ValidationRequest?
    ensures var b, reply := m.body, Agent.Handled(agent, s, m).1;
            if !RegionKnown(Merge(s.context, m.context)) then reply == Agent.Ack else
              && reply.Verdict?
              && (b.checked.Some? ==> reply.verdict == b.checked.value)
              && (b.checked.None? ==>
                   && (reply.verdict == Supported <==> b.scoped.anomaly && b.scoped.evidence != [])
                   && (reply.verdict == Inconclusive <==> b.scoped.degraded && !b.scoped.anomaly))
  {
  }

  /** What is kept for a round's revision: the answers given in it that support
      their question, in order, over what was kept before. */
  lemma {:induction false} AnswersExactly(agent: Agent.Settings, s: Agent.State, ms: seq<Message>, round: int)
    ensures Agent.AnswersIn(Agent.Run(agent, s, ms), round) ==
            Agent.AnswersIn(s, round) + Picked(InContext(s.context, ms), KeptAnswer(round))
  {
    hide Agent.Handled, Agent.AnswersIn, KeptAnswer, InContext;
    if ms == [] {
      NoContexts(s.context);
    } else {
      var init, m := ms[..|ms| - 1], ms[|ms| - 1];
      AnswersExactly(agent, s, init, round);
      assert ms == init + [m];
      InContextSnoc(s.context, init, m);
      PickedSnoc(InContext(s.context, init), KeptAnswer(round), (m, ContextAfter(s.context, ms)));
      ContextExactly(agent, s, init);
      AnswersStep(agent, Agent.Run(agent, s, init), m, round);
      hide Picked, Agent.Run, Merge;
      Regrouped(Agent.AnswersIn(s, round), Picked(InContext(s.context, init), KeptAnswer(round)), KeptAnswer(round)((m, ContextAfter(s.context, ms))));
    }
  }

  lemma NoContexts(c: Context)
    ensures InContext(c, []) == []
  {
  }

  lemma Regrouped(a: seq<Answer>, b: seq<Answer>, o: Option<Answer>)
    ensures (a + b) + (match o case None => [] case Some(x) => [x]) == a + (match o case None => b case Some(x) => b + [x])
  {
  }

  lemma AnswersStep(agent: Agent.Settings, s: Agent.State, m: Message, round: int)
    ensures Agent.AnswersIn(Agent.Handled(agent, s, m).0, round) ==
            Agent.AnswersIn(s, round) +
            match KeptAnswer(round)((m, Merge(s.context, m.context))) case None => [] case Some(a) => [a]
  {
    hide Agent.Revise, Agent.Publish;
    assert forall xs: seq<Answer> :: xs + [] == xs;
    match m.body
    case FindingPublish(_, _, _, _) => PublishKeeps(agent, Agent.Entered(s, m), m.round, m.body);
    case _ =>
  }

  lemma PublishKeeps(agent: Agent.Settings, s: Agent.State, round: int, b: Agent.Body)
    requires b.FindingPublish?
    ensures Agent.Publish(agent, s, round, b).0.answers == s.answers
  {
  }

  predicate Publishes(m: Message, round: int, sender: string) {
    m.round == round && m.body.FindingPublish? && m.body.sender == sender
  }

  /** The last finding a peer published in the round. */
  ghost predicate LastPublished(ms: seq<Message>, round: int, sender: string, f: Finding) {
    exists i :: 0 <= i < |ms| && Publishes(ms[i], round, sender) && ms[i].body.finding == f
             && forall j :: i < j < |ms| ==> !Publishes(ms[j], round, sender)
  }

  /** What is heard in a round: of each peer the last finding it published, or the
      one heard before if it published none. */
  lemma {:induction false} HeardLast(agent: Agent.Settings, s: Agent.State, ms: seq<Message>, round: int, sender: string, f: Finding)
    requires DistinctSenders(Agent.HeardIn(s, round))
    ensures DistinctSenders(Agent.HeardIn(Agent.Run(agent, s, ms), round))
    ensures (sender, f) in Agent.HeardIn(Agent.Run(agent, s, ms), round) <==>
            LastPublished(ms, round, sender, f) ||
            ((sender, f) in Agent.HeardIn(s, round) && forall j :: 0 <= j < |ms| ==> !Publishes(ms[j], round, sender))
  {
    hide Agent.Handled, Agent.HeardIn, DistinctSenders;
    if ms != [] {
      var init, m := ms[..|ms| - 1], ms[|ms| - 1];
      HeardLast(agent, s, init, round, sender, f);
      assert ms == init + [m];
      HeardStep(agent, Agent.Run(agent, s, init), m, round, sender, f);
      LastSnoc(init, m, round, sender, f);
    }
  }

  lemma LastSnoc(init: seq<Message>, m: Message, round: int, sender: string, f: Finding)
    ensures LastPublished(init + [m], round, sender, f) <==>
            if Publishes(m, round, sender) then m.body.finding == f else LastPublished(init, round, sender, f)
    ensures (forall j :: 0 <= j < |init + [m]| ==> !Publishes((init + [m])[j], round, sender)) <==>
            !Publishes(m, round, sender) && forall j :: 0 <= j < |init| ==> !Publishes(init[j], round, sender)
  {
    var ms := init + [m];
    assert forall j :: 0 <= j < |init| ==> ms[j] == init[j];
    assert ms[|init|] == m;
    if !Publishes(m, round, sender) {
      if i :| 0 <= i < |init| && Publishes(init[i], round, sender) && init[i].body.finding == f
              && forall j :: i < j < |init| ==> !Publishes(init[j], round, sender) {
        assert Publishes(ms[i], round, sender) && ms[i].body.finding == f;
      }
    }
  }

  ghost predicate DistinctSenders(h: Agent.Heard) {
    forall i, j :: 0 <= i < j < |h| ==> h[i].0 != h[j].0
  }

  lemma HeardStep(agent: Agent.Settings, s: Agent.State, m: Message, round: int, sender: string, f: Finding)
    requires DistinctSenders(Agent.HeardIn(s, round))
    ensures var h, h' := Agent.HeardIn(s, round), Agent.HeardIn(Agent.Handled(agent, s, m).0, round);
            && DistinctSenders(h')
            && ((sender, f) in h' <==> if Publishes(m, round, sender) then m.body.finding == f else (sender, f) in h)
  {
    if m.round == round && m.body.FindingPublish? {
      PutExactly(Agent.HeardIn(s, round), m.body.sender, m.body.finding);
    }
  }

  lemma {:induction false} PutExactly(h: Agent.Heard, sender: string, f: Finding)
    requires DistinctSenders(h)
    ensures DistinctSenders(Agent.PutHeard(h, sender, f))
    ensures forall p :: p in Agent.PutHeard(h, sender, f) <==> p == (sender, f) || (p in h && p.0 != sender)
  {
    if h != [] {
      var tail := h[1..];
      assert h == [h[0]] + tail;
      forall p | p in tail
        ensures p.0 != h[0].0
      {
        var i :| 0 <= i < |tail| && tail[i] == p;
        assert h[i + 1] == p;
      }
      if h[0].0 != sender {
        PutExactly(tail, sender, f);
        ConsDistinct(h[0], Agent.PutHeard(tail, sender, f));
      } else {
        ConsDistinct((sender, f), tail);
      }
    }
  }

  lemma ConsDistinct(p: (string, Finding), h: Agent.Heard)
    requires DistinctSenders(h) && forall q :: q in h ==> q.0 != p.0
    ensures DistinctSenders([p] + h)
  {
  }

  /** A row with this entity and these signals is among the rows. */
  predicate HasKey(rows: seq<Row>, entity: Node, signals: seq<string>) {
    exists r :: r in rows && r.entity == entity && r.signals == signals
  }

  /** The answer was kept for the round: it was there before, or is the supported
      answer to a question of the round. */
  ghost predicate Kept(s: Agent.State, ms: seq<Message>, round: int, a: Answer) {
    || a in Agent.AnswersIn(s, round)
    || exists i :: 0 <= i < |ms| && KeepsAt(s, ms, round, i, a)
  }

  predicate KeepsAt(s: Agent.State, ms: seq<Message>, round: int, i: nat, a: Answer)
    requires i < |ms|
  {
    && ms[i].round == round && ms[i].body.ValidationRequest? && RegionKnown(ContextAfter(s.context, ms[..i + 1]))
    && Supports(ms[i].body) && a == Answer(ms[i].body.request, ms[i].body.scoped)
  }

  lemma KeptExactly(agent: Agent.Settings, s: Agent.State, ms: seq<Message>, round: int, a: Answer)
    ensures a in Agent.AnswersIn(Agent.Run(agent, s, ms), round) <==> Kept(s, ms, round, a)
  {
    hide Agent.AnswersIn, Agent.Run, KeptAnswer, Picked, ContextAfter;
    AnswersExactly(agent, s, ms, round);
    var pairs := InContext(s.context, ms);
    PickedMembers(pairs, KeptAnswer(round));
    forall i | 0 <= i < |ms|
      ensures KeptAnswer(round)(pairs[i]) == Some(a) <==> KeepsAt(s, ms, round, i, a)
    {
      KeepsTold(s, ms, round, i, a);
    }
    if a in Picked(pairs, KeptAnswer(round)) {
      var p :| p in pairs && KeptAnswer(round)(p) == Some(a);
      var i :| 0 <= i < |pairs| && pairs[i] == p;
      assert KeepsAt(s, ms, round, i, a);
    }
    if i :| 0 <= i < |ms| && KeepsAt(s, ms, round, i, a) {
      assert pairs[i] in pairs;
    }
  }

  lemma KeepsTold(s: Agent.State, ms: seq<Message>, round: int, i: nat, a: Answer)
    requires i < |ms|
    ensures KeptAnswer(round)(InContext(s.context, ms)[i]) == Some(a) <==> KeepsAt(s, ms, round, i, a)
  {
    hide Supports, RegionKnown, ContextAfter;
  }

  /** A finding_update, after any history: the reply is the revised finding; its
      evidence is what the finding had and everything the round's supported answers
      hold, and nothing else; and it is anomalous exactly when it was or one of
      them held evidence it did not. */
  lemma UpdateExactly(agent: Agent.Settings, s: Agent.State, ms: seq<Message>, m: Message)
    requires m.body.FindingUpdate? && Agent.Run(agent, s, ms).own.Some?
    requires Marked(agent.rules)
    ensures var own, (s', reply) := Agent.Run(agent, s, ms).own.value, Agent.Handled(agent, Agent.Run(agent, s, ms), m);
            && s'.own.Some? && reply == Agent.Revised(s'.own.value)
            && (forall e, sg :: HasKey(s'.own.value.evidence, e, sg) <==>
                 HasKey(own.evidence, e, sg) || exists a :: Kept(s, ms, m.round, a) && HasKey(a.finding.evidence, e, sg))
            && (s'.own.value.anomaly <==>
                 own.anomaly || exists a, e, sg :: Kept(s, ms, m.round, a) && HasKey(a.finding.evidence, e, sg) && !HasKey(own.evidence, e, sg))
  {
    var before := Agent.Run(agent, s, ms);
    var own, answers := before.own.value, Agent.AnswersIn(before, m.round);
    forall a
      ensures a in answers <==> Kept(s, ms, m.round, a)
    {
      KeptExactly(agent, s, ms, m.round, a);
    }
    UpdateStep(agent, before, m);
    hide Kept, Agent.Handled, Agent.Run, Agent.AnswersIn;
    AbsorbedKeys(own, answers, agent.style);
  }

  lemma UpdateStep(agent: Agent.Settings, s: Agent.State, m: Message)
    requires m.body.FindingUpdate? && s.own.Some? && Marked(agent.rules)
    ensures var (s', reply), g := Agent.Handled(agent, s, m), Absorbed(s.own.value, Agent.AnswersIn(s, m.round), agent.style);
            && s'.own.Some? && reply == Agent.Revised(s'.own.value)
            && s'.own.value.evidence == g.evidence && s'.own.value.anomaly == g.anomaly
  {
    hide Absorbed, Reconsidered;
    ReconsiderOnce(agent.rules, Absorbed(s.own.value, Agent.AnswersIn(s, m.round), agent.style),
                   Agent.Findings(Agent.HeardIn(s, m.round)));
  }

  lemma AbsorbedKeys(f: Finding, answers: seq<Answer>, style: Style)
    ensures var g := Absorbed(f, answers, style);
            && (forall e, sg :: HasKey(g.evidence, e, sg) <==>
                 HasKey(f.evidence, e, sg) || exists a :: a in answers && HasKey(a.finding.evidence, e, sg))
            && (g.anomaly <==> f.anomaly || exists a, e, sg :: a in answers && HasKey(a.finding.evidence, e, sg) && !HasKey(f.evidence, e, sg))
  {
    var g := Absorbed(f, answers, style);
    AbsorbIsFold(f, answers, [], style);
    FoldExact(CoreOf(f), answers);
    hide Absorbed, Fold;
    forall e, sg
      ensures RowKey(e, sg) in RowKeys(g.evidence) <==> HasKey(g.evidence, e, sg)
      ensures RowKey(e, sg) in RowKeys(f.evidence) <==> HasKey(f.evidence, e, sg)
      ensures RowKey(e, sg) in AnswerKeys(answers) <==> exists a :: a in answers && HasKey(a.finding.evidence, e, sg)
    {
      KeysTold(g.evidence, e, sg);
      KeysTold(f.evidence, e, sg);
      AnswerKeysTold(answers, e, sg);
    }
    hide RowKeys, AnswerKeys, HasKey;
    if !(AnswerKeys(answers) <= RowKeys(f.evidence)) {
      var k :| k in AnswerKeys(answers) && k !in RowKeys(f.evidence);
      assert k == RowKey(k.entity, k.signals);
    }
  }

  lemma KeysTold(rows: seq<Row>, e: Node, sg: seq<string>)
    ensures RowKey(e, sg) in RowKeys(rows) <==> HasKey(rows, e, sg)
  {
  }

  lemma AnswerKeysTold(answers: seq<Answer>, e: Node, sg: seq<string>)
    ensures RowKey(e, sg) in AnswerKeys(answers) <==> exists a :: a in answers && HasKey(a.finding.evidence, e, sg)
  {
    if a :| a in answers && HasKey(a.finding.evidence, e, sg) {
      var r :| r in a.finding.evidence && r.entity == e && r.signals == sg;
      assert KeyOf(r) == RowKey(e, sg);
    }
  }

  /** The revision as a whole: the kept answers absorbed in order, and then what the
      rules make of it given the last findings heard from the peers in the round. */
  lemma RevisionTold(agent: Agent.Settings, s: Agent.State, ms: seq<Message>, m: Message, peers: seq<Finding>)
    requires m.body.FindingUpdate? && Agent.Run(agent, s, ms).own.Some? && s.peers == map[] && s.answers == map[]
    requires forall f :: f in peers <==> exists sender :: LastPublished(ms, m.round, sender, f)
    ensures var own, s' := Agent.Run(agent, s, ms).own.value, Agent.Handled(agent, Agent.Run(agent, s, ms), m).0;
            s'.own == Some(Reconsidered(agent.rules, Absorbed(own, Picked(InContext(s.context, ms), KeptAnswer(m.round)), agent.style), peers))
  {
    hide Agent.Handled, Agent.Run, Absorbed, Reconsidered, Picked, LastPublished, Agent.AnswersIn, Agent.Findings, Agent.HeardIn, InContext;
    var before := Agent.Run(agent, s, ms);
    var own, heard := before.own.value, Agent.HeardIn(before, m.round);
    AnswersExactly(agent, s, ms, m.round);
    NoneKept(s, m.round);
    RevisedFrom(agent, before, m);
    forall f
      ensures f in Agent.Findings(heard) <==> f in peers
    {
      HeardFindings(agent, s, ms, m.round, f);
    }
    PeerOrderIrrelevant(agent.rules, Absorbed(own, Agent.AnswersIn(before, m.round), agent.style), Agent.Findings(heard), peers);
  }

  lemma NoneKept(s: Agent.State, round: int)
    requires s.answers == map[]
    ensures Agent.AnswersIn(s, round) == [] && forall xs: seq<Answer> :: [] + xs == xs
  {
  }

  lemma RevisedFrom(agent: Agent.Settings, s: Agent.State, m: Message)
    requires m.body.FindingUpdate? && s.own.Some?
    ensures Agent.Handled(agent, s, m).0.own ==
            Some(Reconsidered(agent.rules, Absorbed(s.own.value, Agent.AnswersIn(s, m.round), agent.style),
                              Agent.Findings(Agent.HeardIn(s, m.round))))
  {
  }

  lemma HeardFindings(agent: Agent.Settings, s: Agent.State, ms: seq<Message>, round: int, f: Finding)
    requires s.peers == map[]
    ensures f in Agent.Findings(Agent.HeardIn(Agent.Run(agent, s, ms), round)) <==> exists sender :: LastPublished(ms, round, sender, f)
  {
    hide Agent.Run, LastPublished;
    var heard := Agent.HeardIn(Agent.Run(agent, s, ms), round);
    if f in Agent.Findings(heard) {
      var i :| 0 <= i < |Agent.Findings(heard)| && Agent.Findings(heard)[i] == f;
      assert heard[i] == (heard[i].0, f) && heard[i] in heard;
      HeardLast(agent, s, ms, round, heard[i].0, f);
    }
    if sender :| LastPublished(ms, round, sender, f) {
      HeardLast(agent, s, ms, round, sender, f);
      var i :| 0 <= i < |heard| && heard[i] == (sender, f);
      assert Agent.Findings(heard)[i] == f;
    }
  }

  /** What a plan is made from: the finding, the leads waiting, and of the context
      the window, the alarm and the ids asked, with the topology read for it. */
  lemma PlanTold(agent: Agent.Settings, s: Agent.State, m: Message)
    requires Agent.Handled(agent, s, m).1.Plans?
    ensures var reply, c, b := Agent.Handled(agent, s, m).1, Merge(s.context, m.context), m.body;
            && b.FindingPublish? && c.region.Some? && c.region.value != ""
            && (reply.plan.Unread? <==> b.reading.Failed?)
            && (reply.plan.NoWindow? <==> b.reading.Read? && (c.start.None? || c.end.None?))
            && (reply.plan.Made? ==>
                 var q := reply.plan.query;
                 && reply.plan.topology == b.reading.topology
                 && reply.plan.hypotheses == (if s.own.None? then [] else b.reading.hypotheses)
                 && q.domain == agent.id && q.finding == s.own && q.catalog == agent.catalog && q.leads == s.leads
                 && Some(q.windowStart) == c.start && Some(q.windowEnd) == c.end
                 && q.alarm == (if c.alarm.Some? then c.alarm.value else [])
                 && q.asked == (if c.asked.Some? then c.asked.value else {})
                 && |q.peers| == |reply.peers| && forall i :: 0 <= i < |q.peers| ==> q.peers[i] == reply.peers[i].1)
  {
  }
}
