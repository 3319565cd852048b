# NetCortex in Dafny

NetCortex finds the root cause of an incident. One agent per domain (compute, network, ...) reads telemetry and
reports a finding with evidence rows; the agents then question each other along the topology in rounds, revise
their findings, and the causes are ranked and put into a report. This project models that reasoning and proves what
it is for, over every topology, catalog, finding, message history and interleaving.

`dafny verify dfyconfig.toml` verifies the project.

| module | what it models |
|---|---|
| `Prelude`, `Graphs` | stable sorting and dict-order grouping; walks over finite relations, the reference definitions of the searches |
| `Topology` | `TopologyGraph`: alias-resolving construction, the path-keeping walk, the directed `depends_on` search |
| `Contract` | findings, evidence rows, requests and the catalog settings they are read with |
| `Planning` | `plan_requests`: which questions an agent asks in a round |
| `Answers` | `verdict` and `absorb`: an agent revises its finding with the answers it gave |
| `Naming` | the graph's labels and names told from the entities it is built of |
| `Ranking` | `_targets`, `_precedence`, `rank_causes`, and `placed` of the hypothesis checks |
| `RankingOnRows` | the ranking told from the evidence rows |
| `Correlation` | `reconsider`: corroboration and contradiction by peers |
| `Recency`, `Agent` | the session store (an exact LRU) and the message handler of a domain agent |
| `Updates` | a session's context, answers, plan and revision told from the messages it was sent |
| `Orchestrator` | the collaboration rounds, `merge_findings`, the short circuit |
| `Resilience`, `Endpoint` | the circuit breaker, and any interleaving of retrying calls that share one |
| `Series`, `Rows` | firing series, onsets, entity status and incident status; deduplicated evidence and unclassified rows |
| `Observed` | series, episodes and incident status told from the observations |
| `Synthesis` | the guard around the LLM's re-rank and its root-cause sentence |
| `AlarmBridge` | the SQS alarm buffer: poll, post, delete |

Objects the source updates in place are classes (`TopologyGraph`, `Session`, `Sessions`, `CircuitBreaker`,
`EndpointClient`, `SqsAlarmBridge`), and its loops are methods with loops. Each such method is proved against a
specification on values (`Within`, `Reaches`, `Complete`, `IsRanking`, `Handled`, `AfterRound`, `Admit`, ...), and
the theorems are about those. Scores are exact reals, times are whole seconds, and hashed ids are the tuples that are
hashed. Text rendering, text search, the LLM, the clock, the queue and the endpoints are parameters or arbitrary
inputs.

## Where the code and its documentation differ

The model follows the code.

- `providers/resilience.py:76-78` promises that a half-open breaker lets exactly one trial call through. A call
  admitted while the breaker was closed can outlive the failure that opened it, fail during a trial and clear the
  trial flag, after which a second trial starts beside the first. `Endpoint.TwoTrialsHappen` gives such an
  interleaving; `Endpoint.TrialExclusiveExactly` shows that a running trial can come to share the endpoint with
  another exactly when some other call is running beside it.
- `detection/correlation.py:5-7` and `project_docs/agent-authoring-guide.md:196` promise that reconsidering again with
  the same peers changes nothing. If a corroboration and a contradiction rule both apply, the second call applies the
  second one. `Correlation.IdempotentExactly` is the exact condition on the finding before the first call,
  `Correlation.IdempotentUnlessBothApply` its plain form where no rule searches the finding's own summary,
  `Correlation.NotIdempotentInOne` the failing input, `Correlation.OneKindIdempotent` what covers a domain whose two
  kinds are meant for anomalous and for clean findings, and `Correlation.FixpointAfterTwo` what holds always.
- `ingestion/sqs_alarm_bridge.py:10-13` promises that messages are deleted only after a successful POST. It holds of
  the receipts in the buffer (`AlarmBridge.DeletedOnlyAfterPost`), but not of the messages: a redelivery of a buffered
  alarm is deleted when it is polled, under a receipt of its own, and with it the message leaves the queue.
  `AlarmBridge.RemovedWhileHeldExactly` says exactly when a message is removed while its alarm is unposted,
  `AlarmBridge.RedeliveryDeletedBeforePost` gives the input, and `AlarmBridge.UnpostedDeletedExactly` says which
  deliveries of unposted alarms a poll deletes.
- `agents/rca_synthesizer.py:238-244` accepts a text that cites unknown evidence when there is no evidence at all
  (`Synthesis.UnknownCitationExactly`); with ranked causes there always is some (`Synthesis.RootCauseTrusted`).
- Confidences are not bounded below, and a very negative one makes a score negative: `Ranking.NegativeConfidence` is
  such a ranking. `Ranking.ScoresInRange` proves that no score exceeds 1 and gives the exact floor on the confidence
  from which a score is at least 0; the floor is never above -0.2 (`Ranking.ConfidentScores`).
- The trial test in `record_failure` (`providers/resilience.py:124`) decides nothing: a trial only exists on a breaker
  that has reached its threshold (`Resilience.RefinesHistory`).

## Model

| member | source | states |
|---|---|---|
| Topology.TopologyGraph.Build | detection/investigate.py:65-86 | the graph filled in place is exactly the one of the entities and edges in order, for any response or none, and is well formed |
| Topology.TopologyGraph.Connect | detection/investigate.py:75-85 | one edge names its ends, links them both ways, and adds dependence in the catalog's direction, both ways for an unknown edge type; nothing else changes |
| Topology.TopologyGraph.Add | detection/investigate.py:88-95 | labels accumulate, a node's own id always wins its alias, label values only take free aliases |
| Topology.TopologyGraph.Aliases | detection/investigate.py:103-104 | the node's id first, then every other non-empty label value once, sorted |
| Topology.TopologyGraph.Walk | detection/investigate.py:106-118 | the search ends and returns exactly the nodes within max_hops, each with the lexicographically least of the shortest walks to it |
| Topology.TopologyGraph.Expand | detection/investigate.py:114-117 | visiting one node's neighbours keeps the queue in path order, finishes that node, and adds only new named nodes |
| Topology.TopologyGraph.DependsOn | detection/investigate.py:120-134 | true exactly when a walk of 1 to max_hops depends edges leads from dependent to dependency, despite the pruning by `seen`; itself only through a cycle |
| Topology.SearchExact | detection/investigate.py:106-118 | what a breadth-first search leaves once every found node is expanded is exact, with best walks |
| Topology.BestIsSimple | detection/investigate.py:106-118 | the path kept for a node visits no node twice |
| Graphs.ClosedIsBest | detection/investigate.py:110-118 | a closed path table beats every walk within the bound, in length and then in order |
| Graphs.BestUnique | detection/investigate.py:114-116 | because neighbours are visited sorted, the path to a node is unique, whatever order sets iterate in |
| Topology.DependsIsNearby | detection/investigate.py:78-134 | whatever the directed search finds, the undirected walk finds from either end |
| Topology.BuiltSound | detection/investigate.py:65-95 | every build has sound aliases, symmetric adjacency that holds every depends edge, and edges between named nodes only |
| Topology.EdgesExact | detection/investigate.py:75-85 | adjacency and dependence hold exactly the pairs some edge of the response gives |
| Topology.ResolveExact | detection/investigate.py:88-101 | over every build order a name resolves to the entity with that id if there is one, else to the first entity labelled with it |
| Topology.ResolveSound | detection/investigate.py:88-101 | a node's own id resolves to itself, resolution keeps the type and hits only a node with that id or label, and misses only names no node has |
| Naming.LabelsExactly | detection/investigate.py:88-92 | a node's labels: under each key the value of the first of its entities that brings the key |
| Naming.NameExactly | detection/investigate.py:88-101 | a name means the entity with that id; without one, the entity of the first to bring the value as a label of that type; without either, nobody |
| Naming.BuiltFrom | detection/investigate.py:72-77 | the graph is named by the response's entities and then by both ends of each edge, in order |
| Planning.CollectAnchors | detection/investigate.py:190-203 | anchors are the resolvable evidence of an anomalous finding, then leads, then unanchored alarm entities this domain can see, with their windows |
| Planning.AnchorsExact | detection/investigate.py:190-203 | which anchors there are: one for each resolvable evidence row of an anomalous finding, each resolvable lead, and each resolvable alarm entity this domain can see that neither names, in this order |
| Planning.AnchorsInSourceOrder | detection/investigate.py:190-203 | anchors come in the order of the rows, leads and alarm entities, one for each of them that makes one |
| Planning.WalkFrom | detection/investigate.py:206-213 | walking one anchor considers every question it can offer and takes each candidate table entry one anchor further |
| Planning.AskAbout | detection/investigate.py:214-243 | asking about one node updates the candidate of every domain for that node and of no other node |
| Planning.AskOne | detection/investigate.py:214-243 | the candidate kept for a (target, node) is the first nearest offering anchor's, also when a domain is listed twice |
| Planning.Skipped | detection/investigate.py:206-213 | nodes out of reach, or that the anchor does not depend on, are offered nothing: skipping them loses no question |
| Planning.TableComplete | detection/investigate.py:205-243 | the finished table has one candidate per (target, node) exactly when some anchor offers it, with the least hops over the offering anchors |
| Planning.PlanRequests | detection/investigate.py:159-249 | the plan is the nearest-first prefix, up to the cap, of a complete list of questions: one per (target, node) exactly when some anchor offers it, each the first nearest anchor's; without topology it is empty |
| Planning.PlanUnique | detection/investigate.py:159-249 | topology and inputs determine the plan: two such plans are equal, question by question, in every field |
| Planning.AskedExactly | detection/investigate.py:143-151 | a domain is asked about an entity iff it is another known domain that probes the type, none of its findings has evidence on the entity under any name, and some anchor that is or depends on the entity has not asked it over its window |
| Planning.PlanIgnoresAliases | detection/investigate.py:143-151 | naming the peers' evidence by other aliases of the same entities leaves the plan unchanged |
| Planning.PlanOrder | detection/investigate.py:244-245 | nearer first, then by domain, entity type and entity id |
| Planning.PlannedRequest | detection/investigate.py:174-243 | a question is never asked again, never put to the asker, an unknown domain or one with evidence on the entity; its id is what it asks; its window starts exactly `lookback` before the earlier of the anchor's first sight and the window start; it lists exactly the entity's names; its path is a simple chain from anchor to entity, which the anchor depends on; ids are distinct |
| Planning.PlanKeepsNearest | detection/investigate.py:244-249 | a question some anchor offers is asked, over no more hops than from that anchor, or the plan is full of questions no farther |
| Planning.RepeatedOnlyOverAnotherWindow | detection/investigate.py:154-156 | once its id is asked, a question about an entity comes back only over a different window |
| Answers.Absorb | detection/investigate.py:295-339 | the loop computes evidence, key events, notes, anomaly, confidence and times as one fold over the answers, adopted rows recording who asked and in which request, and returns the finding itself when nothing was new |
| Answers.AbsorbIdempotent | detection/investigate.py:299-300 | absorbing the same answers again returns the same finding, in every field |
| Answers.AbsorbIsFold | detection/investigate.py:295-339 | absorbing A and then B agrees with absorbing A + B on evidence, anomaly, confidence and times |
| Answers.AbsorbExact | detection/investigate.py:295-339 | evidence is never dropped and ends up being the old rows and everything the answers hold, in whichever order; one revision exactly when something was new; the summary only grows |
| Answers.FoldExact | detection/investigate.py:304-330 | the finding is anomalous exactly when it was or some answer held evidence it did not |
| Answers.AdoptedExactly | detection/investigate.py:307-313 | a row is adopted iff it is new when met, as it is but for the question recorded in it and, where it has none, its origin |
| Answers.NotesExactly | detection/investigate.py:304-323 | one note for each answer that brings something new, in order, with the rows that neither the finding nor an answer before holds |
| Answers.AdoptedInOrder | detection/investigate.py:307-313 | the evidence grows by the rows of the notes, each once and in order |
| Answers.FoldTold | detection/investigate.py:324-330 | confidence and start are the greatest and earliest of the finding's own, if it was anomalous, and of the answers that brought something new; the end is its own or that of the first such answer |
| Answers.JoinExactly | detection/investigate.py:314-317 | the key events that join, in order: those that fired a rule and cite nothing cited by the events there or by those that joined before |
| Answers.EventsExactly | detection/investigate.py:307-317 | only the answers that bring something new offer their key events, all of them, in order |
| Answers.AbsorbedTold | detection/investigate.py:331-339 | without news the finding is returned as it is; with news its rows, events, summary, flag and count are told from the notes and the events that joined, and nothing else changes |
| Answers.TrimTold | detection/investigate.py:333-335 | events of cause rules come first, otherwise in order; as many are kept as the limit, at least one, and the notes allow |
| Ranking.CollectTargets | detection/investigate.py:344-357 | the resolvable alarm entities, or without any the resolvable entities of symptom rows |
| Ranking.PrecedenceShape | detection/investigate.py:364-375 | within [0, 1]; full from five minutes before the onset to two after, zero later, below one and falling the further back before |
| Ranking.TopologyMeaning | detection/investigate.py:425-443 | for a non-target: 1.0 iff a target depends on it within max_hops; at least 0.1 iff the chain is nonempty, which is then a shortest simple chain of neighbours from it to a nearest target |
| Ranking.Position | detection/investigate.py:425-443 | the loop over targets computes that score and such a chain |
| Ranking.GroupHits | detection/investigate.py:390-397 | the resolvable rows filed by (node, domain) in order of first appearance |
| Ranking.TargetOnset | detection/investigate.py:404-407 | the earliest, over the groups on a target, of the group's latest episode |
| Ranking.SymptomOnset | detection/investigate.py:408-410 | without alarmed groups, the earliest symptom of any group, if there is one |
| Ranking.FindOnset | detection/investigate.py:401-410 | the onset of the current trouble, from the target groups if there are any |
| Ranking.ScoreGroup | detection/investigate.py:413-459 | signals, first sight, role, severity, features, weighted score, chain, references and flags of one group |
| Ranking.RankCauses | detection/investigate.py:378-461 | exactly one cause per (node, domain) with resolvable evidence, scored on exactly its rows, sorted by score, first sight and entity, equals in the order of their first rows, numbered in that order |
| RankingOnRows.HitsExact | detection/investigate.py:391-397 | there is one hit for each row that resolves, with the row's own values and its finding's domain and confidence, in order |
| RankingOnRows.CausesExactly | detection/investigate.py:390-397 | every resolvable row of every finding has a cause with its entity and domain, whatever brought the row, and every cause comes from such a row |
| RankingOnRows.CauseSumsUp | detection/investigate.py:415-458 | signals, first sight and origin flags of a cause are those of its rows |
| RankingOnRows.EvidenceTold | detection/investigate.py:419-423 | the evidence feature from worst severity, up to two signals and the first finding's confidence |
| RankingOnRows.RoleTold | detection/investigate.py:417-418 | full with a cause row, half when none is a cause but one has no role, none when all are symptoms |
| RankingOnRows.TopologyTold | detection/investigate.py:425-443 | 0.5 without targets, 0.3 on one, 1.0 upstream of one, 0.1 within reach of one, else 0 |
| RankingOnRows.TargetsExactly | detection/investigate.py:344-357 | a target is an alarm entity that resolves, or with none of these one that shows a symptom |
| RankingOnRows.PrecedenceTold | detection/investigate.py:401-416 | the precedence of the cause's latest episode before the onset of the trouble: the earliest, over evidence on targets, of its latest episode, or without any the earliest symptom |
| RankingOnRows.ScoreTold | detection/investigate.py:449-457 | the score is, up to rounding, the mean of the features by the catalog's weights |
| RankingOnRows.RefsTold | detection/investigate.py:453-457 | references are distinct ones of its rows, all or ten of them |
| RankingOnRows.RankingOrder | detection/investigate.py:460 | higher score first, then the earlier seen, then by entity |
| RankingOnRows.PlacedTold | detection/hypotheses.py:89-100 | accepted iff the entity resolves to a target or to something upstream of one, targets told from alarm and rows |
| Ranking.CandidatesPartition | detection/investigate.py:390-397 | the candidates partition the resolvable rows, and the group sizes add up to them |
| Ranking.RenamingInvariant | detection/investigate.py:57-58 | naming an entity by any alias that resolves to the same node, in rows and in the alarm, leaves the ranking unchanged |
| Ranking.EvidenceRange | detection/investigate.py:423 | the unrounded evidence feature never exceeds 1, and is at least 0 exactly when the confidence does not outweigh severity and signals downwards |
| Ranking.NegativeConfidence | detection/investigate.py:423-455 | the ranking of a finding with confidence -10, under equal weights: its one cause scores -0.2 |
| Ranking.ScoresInRange | detection/investigate.py:423-455 | no score exceeds 1, and a score is at least 0 exactly when the confidence meets a floor computed from severity, signals, weights and the other features |
| Ranking.ConfidentScores | detection/investigate.py:423-455 | with confidences of at least -0.2 every score is in [0, 1], whatever the weights |
| Ranking.ScoreMonotone | detection/investigate.py:447-452 | better on every feature never scores lower, also after rounding; better topology with a positive weight scores strictly higher before it |
| Ranking.Placed | detection/hypotheses.py:89-100 | true exactly when the entity resolves and is a target or upstream of one |
| Ranking.PlacedScores | detection/hypotheses.py:89-100 | with a resolving alarm, an entity is accepted exactly when its topology score in the ranking is 0.3 or 1.0, whatever findings either side has |
| Correlation.Reconsider | detection/correlation.py:70-91 | the first rule by priority that applies is applied, and no other |
| Correlation.ScopedMembers | detection/correlation.py:22-28 | a scope holds exactly the finding itself, or the peers of the listed domains that are anomalous as asked |
| Correlation.HoldsMonotone | detection/correlation.py:54-67 | a condition that holds still holds when more peers are heard |
| Correlation.PeerOrderIrrelevant | detection/correlation.py:70-91 | the order of peers and repeated peers do not matter |
| Correlation.ReconsiderOnce | detection/correlation.py:70-91 | one call changes nothing or applies one rule of a kind not yet marked, marks it, and touches only confidence, summary and revision counters |
| Correlation.ReconsideredTold | detection/correlation.py:70-91 | the first rule whose state, marker and conditions fit, and no other, adjusts the confidence and appends its note made with the anomalous peers' domains; with none nothing changes |
| Correlation.HoldsExactly | detection/correlation.py:22-67 | what each form of condition means, in terms of the findings its scope looks at |
| Correlation.AtMostOneOfEach | contract/catalog_loader.py:288-294 | over any sequence of peers a finding is corroborated at most once and contradicted at most once, because every note starts with its kind's marker; the revision count says how often |
| Correlation.FixpointAfterTwo | detection/correlation.py:70-91 | with the same peers the finding stops changing after two calls |
| Correlation.IdempotentExactly | detection/correlation.py:5-7 | a second call changes the finding iff, before the first, some rule applies and one of the other kind would on the summary with the first note appended |
| Correlation.IdempotentUnlessBothApply | detection/correlation.py:5-7 | where no rule searches the own summary: iff rules of both kinds apply and the first note does not contain the other marker |
| Correlation.OneKindIdempotent | detection/correlation.py:5-7 | a domain whose rules for one anomaly state are of one kind is idempotent on every finding and peers |
| Correlation.NotIdempotentInOne | detection/correlation.py:5-7 | rules of both kinds for which a second call with the same peers changes the finding |
| Recency.RecencyExact | agents/domain_agent.py:124-134 | recency order holds every accessed key once, by last access |
| Recency.StoreIsRecency | agents/domain_agent.py:129-134 | after any history the store's keys are the last `limit` distinct keys in recency order |
| Recency.HeldExactly | agents/domain_agent.py:129-134 | a key is held iff fewer than `limit` other distinct keys were accessed since |
| Recency.ServedExactly | agents/domain_agent.py:129-134 | an access is served an old session exactly under that condition |
| Recency.ServedIsHeld | agents/domain_agent.py:129-134 | the session served is the one the store then holds under the key |
| Agent.Sessions.Get | agents/domain_agent.py:129-134 | the held session or a fresh empty one, moved last, the oldest beyond the limit forgotten |
| Agent.Session.Handle | agents/domain_agent.py:343-385 | new session state and reply for every message type: context merge, publish with planning, scoped answer, hypothesis check, leads, revision, plain acknowledgement; the requests sent are the LLM's hypotheses followed by the plan for the peers heard, the leads waiting and the ids asked, or none when the topology cannot be read |
| Agent.HeardExactly | agents/domain_agent.py:359-361 | a round's heard peers are exactly the senders delivered in it, in any order, however often |
| Agent.PlansAtMostOnce | agents/domain_agent.py:359-367 | over any messages a retained session plans a round at most once, and only when it holds a finding of that round from every expected peer |
| Agent.PlannedExactly | agents/domain_agent.py:359-367 | under any order, duplication or loss, a round is planned iff every expected peer's finding arrived |
| Agent.PlansWhenHeard | agents/domain_agent.py:359-365 | a message marks its round planned iff it is a publish, others than the agent are expected and all of them are heard, and the context names a region |
| Agent.PlansWhenComplete | agents/domain_agent.py:359-367 | the reply that plans a round answers the publish that completes it, and carries the requests iff the topology can then be read |
| Agent.OneReplyCarriesTheRequests | agents/domain_agent.py:189-203 | with a nonempty expected set, all delivered iff exactly one reply plans the round; it carries the requests iff the topology could be read at the completing publish; one lost, none does |
| Agent.LeadsConserved | agents/domain_agent.py:189-203 | the leads given are those the plans used, in order, followed by those still waiting, also when the topology cannot be read |
| Agent.ReviseOnce | agents/domain_agent.py:315-322 | one revision counts at most one absorb and one per kind of peer note not yet given; evidence, summary and anomaly never go back |
| Agent.RevisionBound | agents/domain_agent.py:315-322 | over any messages the revision count grows by at most the number of updates plus two |
| Updates.ContextExactly | agents/domain_agent.py:345-346 | each context key holds what the last message to bring it brought |
| Updates.AnswersExactly | agents/domain_agent.py:284-313 | kept for a round are exactly its answers that support their question, in order |
| Updates.VerdictTold | detection/investigate.py:254-257 | supported iff anomalous with evidence, inconclusive iff degraded without anomaly, refuted otherwise; a hypothesis check's own verdict stands |
| Updates.HeardLast | agents/domain_agent.py:359-361 | of each peer the last finding it published in the round is heard |
| Updates.UpdateExactly | agents/domain_agent.py:315-322 | after any history, a finding_update leaves the finding with its evidence and everything the round's supported answers hold, anomalous iff it was or one of them held something new, and replies it |
| Updates.RevisionTold | agents/domain_agent.py:315-322 | the revision is the kept answers absorbed in order and then the rules applied with the last findings heard |
| Updates.PlanTold | agents/domain_agent.py:189-203 | a plan needs a publish and a region in the context; what it is made from: finding, leads, window, alarm, asked ids, peers and topology |
| Orchestrator.Round | core/orchestrator.py:334-428 | one round: collect, cut to budget, mark asked, deliver answers to askers, revise every agent once |
| Orchestrator.RoundRevises | core/orchestrator.py:408-428 | each finding becomes the agent's own revision where it sent one, and otherwise what its domain's rules make of it given all other agents' findings before the round |
| Orchestrator.CollectedInOrder | core/orchestrator.py:358-365 | questions are collected in order of publication, each the first of its id to a registered agent |
| Orchestrator.Collaborate | core/orchestrator.py:287-462 | the rounds end at the first one that changed no summary and asked nothing, or at max_iterations; a short-circuited incident has none; agents that ask nothing and only ack get at most two rounds per finding and one more |
| Orchestrator.SettledExactly | core/orchestrator.py:436-450 | a round settles iff it asked nothing and no agent's summary changed |
| Orchestrator.QuietBound | core/orchestrator.py:411-450 | that bound, from each unsettled round using up a corroboration or contradiction of some finding |
| Orchestrator.CollectedFacts | core/orchestrator.py:358-365 | collected are exactly the new, identified questions to registered agents, each id once |
| Orchestrator.ChosenFacts | core/orchestrator.py:358-373 | all when they fit the budget, else as many as fit, in order of distance, domain and entity; none cut is nearer than one sent, and what is cut stays unasked |
| Orchestrator.RunSafe | core/orchestrator.py:332-450 | over whole runs no request id is sent twice, each round sends at most the budget and only to registered agents, `asked` is exactly what was sent, each round delivers exactly its answers with an id, once each, and the agents stay the same |
| Orchestrator.DeliveredExactly | core/orchestrator.py:389-406 | exactly the answers that carry an id are delivered, each to its asker, in the same round |
| Orchestrator.DeliveredOnce | core/orchestrator.py:389-406 | deliveries and questions answered with an id correspond one to one, in order, whatever ids the answers carry |
| Orchestrator.MergeFindings | core/orchestrator.py:30-34 | the dict fold over both lists |
| Orchestrator.MergedExact | core/orchestrator.py:30-34 | one finding per agent, the last one reported |
| Orchestrator.MergedOrder | core/orchestrator.py:30-34 | an agent keeps the place of its first report |
| Resilience.CircuitBreaker.constructor | providers/resilience.py:80-95 | a new breaker is closed, with no failures and no trial |
| Resilience.CircuitBreaker.BeforeCall | providers/resilience.py:105-115 | admits when closed, one trial after the reset time, and otherwise refuses, changing nothing; the retry hint of a refusal is, with no trial running, exactly the wait until a call is let through |
| Resilience.CircuitBreaker.RecordSuccess | providers/resilience.py:117-120 | closes the breaker |
| Resilience.CircuitBreaker.RecordFailure | providers/resilience.py:122-126 | counts the failure, ends any trial and opens at the threshold, from this failure's time |
| Resilience.CircuitBreaker.ReleaseTrial | providers/resilience.py:128-130 | clears the trial and nothing else |
| Resilience.RefinesHistory | providers/resilience.py:92-126 | after any history: failures are those since the last success, opened iff they reach the threshold, and since the last failure |
| Resilience.TrialExactly | providers/resilience.py:111-130 | the trial flag is set iff a trial was let through and no outcome or release has followed |
| Resilience.AdmittedExactly | providers/resilience.py:97-115 | when a call is admitted, and as what, told from the history: trailing failures, the last failure, and whether a trial was let through since which nothing was recorded or released |
| Resilience.NoCallBeforeReset | providers/resilience.py:97-126 | with a monotone clock and no success in between, any call let through after the opening failure is a trial, at least `reset` later |
| Resilience.TrialsAreSeparated | providers/resilience.py:111-130 | between two trial admissions there is always an outcome or a release |
| Endpoint.EndpointClient.CallTool | providers/adapters/mcp_adapter.py:285-317 | for every sequence of attempt ends: which attempt decides, what the caller gets, and what the breaker records, including cancellation |
| Endpoint.AlwaysInv | providers/adapters/mcp_adapter.py:285-317 | at every point of any interleaving the breaker is what its history says and every call's bookkeeping is right |
| Endpoint.CallsAreBounded | providers/adapters/mcp_adapter.py:285-317 | an admitted call makes at most max_attempts attempts and records at most one outcome; a trial that ends without one is released, once |
| Endpoint.NeverStuck | providers/adapters/mcp_adapter.py:315-317 | a set trial flag means a trial call is running; with no call running the breaker admits again after the reset time |
| Endpoint.TrialExclusiveExactly | providers/resilience.py:74-78 | a trial can come to share the endpoint with a second one iff another call is running beside it |
| Endpoint.TwoTrialsHappen | providers/resilience.py:74-78 | an interleaving with two trials at a time |
| Endpoint.AloneIsCallTool | providers/adapters/mcp_adapter.py:285-317 | an undisturbed call of the step system takes the breaker where CallTool says, after as many attempts |
| Series.FiringSeries | detection/analyze.py:446-471 | every sample of a hit entity, in the window and after it, is filed under its (entity, signal) series in order, and lasting series are marked |
| Series.TableReads | detection/analyze.py:446-471 | every series has samples, and the series together hold every sample once |
| Series.WithOnset | detection/analyze.py:155-177 | a row's onset is the latest onset of the lasting series behind it, or its first sight |
| Series.HitCatalogNames | detection/analyze.py:160-163 | the catalog names under which each raw signal hit each entity, exactly |
| Series.WithOnsets | detection/analyze.py:155-177 | every row keeps its fields and gets its onset, told from all samples of the lasting series behind it |
| Series.RowOnsetExactly | detection/analyze.py:155-177 | where a lasting series behind the row fired, the onset begins the last firing run of one and none begins later; otherwise it is the first sight |
| Series.EntityStatus | detection/analyze.py:180-214 | one status per hit entity, in order of first hit, read off all its lasting series |
| Series.OneStatus | detection/analyze.py:194-213 | episodes are the most of any series, transitions the sum, the state that of the first latest last sample |
| Series.DomainStatus | detection/analyze.py:446-471 | table and statuses together, for any observations and later signals: one status per hit entity, read off the table of all their samples |
| Series.EpisodesTwice | detection/analyze.py:205 | two or more episodes iff there are samples firing, clear, firing in that order |
| Series.FlipsExact | detection/analyze.py:206 | flips = 2 * episodes - [first fires] - [last fires] |
| Series.CountsExactly | detection/analyze.py:205-206 | episodes and flips count the places where a series starts to fire and where it changes |
| Series.StatusCounts | detection/analyze.py:194-213 | a status row has the most episodes of any lasting series of its entity and all their flips |
| Series.LastRiseExact | detection/analyze.py:171-173 | there is a last rising edge iff it ever fired; from it on the samples are one firing run and then only clear |
| Series.OnsetExact | detection/analyze.py:171-176 | the same for timestamped samples in any order, with the flip equation |
| Series.StateExact | detection/analyze.py:207-211 | the state is that of a sample no other sample of the entity's lasting series is later than; unknown iff there is no such series |
| Series.MostEpisodesExact | detection/analyze.py:203-205 | an entity shows two or more episodes iff one of its lasting series fired, cleared and fired again |
| Series.EntityExactly | detection/analyze.py:180-214 | an entity's status told from the samples: two or more episodes iff a lasting series flapped; firing iff the series with the latest last sample, the first of those, ends firing; unknown iff it has none |
| Series.StatusShows | detection/analyze.py:446-471 | the same for the status rows of a whole domain |
| Series.IncidentExactly | detection/investigate.py:466-477 | flapping, ongoing, recovered or unknown, told from the samples of the anomalous domains |
| Observed.SamplesExactly | detection/analyze.py:446-471 | the samples are exactly the readings of hit entities, each once, those of the window first and all in order; a window reading fires iff a hit has its catalog name |
| Observed.FlapsTold | detection/analyze.py:203-205 | a series flapped iff it was read firing, later clear, and later firing again |
| Observed.DecidesTold | detection/analyze.py:207-211 | the series that decides an entity's state: a lasting one whose last reading no other is later than, the first read among equals |
| Observed.IncidentTold | detection/investigate.py:466-477 | flapping, ongoing, recovered or unknown, told from the observations of the anomalous domains |
| Rows.Evidence | detection/analyze.py:128-152 | the reported rows are the best, by role, severity and first sight, of one row per distinct key over exactly its observations |
| Rows.RowExact | detection/analyze.py:131-146 | count, true first and last sight and worst severity of the duplicates; role, entity and names are those of any of them |
| Rows.AddRefsExact | detection/analyze.py:147-150 | references are real, distinct and at most five, and complete below five |
| Rows.RowRefs | detection/analyze.py:147-150 | a row keeps the first five distinct references of its duplicates |
| Rows.EvidenceConserved | detection/analyze.py:128-152 | every observation falls under exactly one key and every key has one row; before the cap the counts always add up to the observations; no row cut outranks one reported |
| Rows.EvidenceOrder | detection/analyze.py:151-152 | causes, then rows without a role, then symptoms; the more severe first, then the earlier seen |
| Rows.RoleExactly | detection/analyze.py:111-125 | cause when any name is one beside the others, else symptom when any is; a name's first override whose other name is present decides |
| Rows.DuplicatesExactly | detection/analyze.py:105-108 | observations are duplicates iff entity, labels, text and the names of their hits agree |
| Rows.UnclassifiedRows | detection/analyze.py:234-257 | the reported rows are the most severe of one row per name, entity and blanked text over the signals in time order |
| Rows.RawRowContent | detection/analyze.py:240-255 | count, worst severity and up to five real references of a group |
| Rows.RawRowExact | detection/analyze.py:240-255 | the row's times are the true first and last sight of its signals |
| Rows.RawValueExact | detection/analyze.py:248-251 | the value is the latest one there is, between the true least and greatest |
| Rows.UnclassifiedConserved | detection/analyze.py:234-257 | the same for unclassified signals, whose rows also span the times of all their signals |
| Rows.UnclassifiedOrder | detection/analyze.py:256-257 | the more severe first, then the earlier |
| Rows.RawRowIdentity | detection/analyze.py:240-243 | a row has the name and entity its signals share |
| Synthesis.RerankOnlyBreaksNearTies | agents/rca_synthesizer.py:249-266 | whatever ids the LLM returns, the result is a permutation that moves only the causes within the margin of the top and leaves every later place identical |
| Synthesis.RerankFollowsTheLlm | agents/rca_synthesizer.py:252-266 | among the near-tied, those the LLM names come first, in the order it first names them, and the others after in the order they had |
| Synthesis.RerankStays | agents/rca_synthesizer.py:252-266 | naming none of them leaves the order as it was |
| Synthesis.RankingFits | agents/rca_synthesizer.py:252-266 | the ranking it is given is sorted by score with distinct ids |
| Synthesis.SettleRootCause | agents/rca_synthesizer.py:395-423 | final order and root cause for every LLM answer, present, empty or malformed |
| Synthesis.RootCauseTrusted | agents/rca_synthesizer.py:238-272 | with ranked causes the root cause is the deterministic sentence for the final first cause, or a text that names it and cites at least one evidence id and only known ones; and such a text of the LLM is used |
| Synthesis.RankedHaveEvidence | agents/rca_synthesizer.py:41-54 | ranked causes imply citable evidence |
| AlarmBridge.SqsAlarmBridge.Delete | ingestion/sqs_alarm_bridge.py:69-72 | the receipts are deleted in batches, up to the one the queue refuses |
| AlarmBridge.BatchesExact | ingestion/sqs_alarm_bridge.py:69-72 | the batches are nonempty, at most ten long, and hold each receipt exactly once in order |
| AlarmBridge.BatchAt | ingestion/sqs_alarm_bridge.py:69-72 | every batch but the last is full: the i-th starts at receipt 10 * i |
| AlarmBridge.EndsExactly | ingestion/sqs_alarm_bridge.py:69-125 | the loop ends iff receiving raised or deleting did with receipts left; a step deletes what it ignored or posted, up to the batch that was refused, and a refused flush keeps its buffer |
| AlarmBridge.SqsAlarmBridge.PollOnce | ingestion/sqs_alarm_bridge.py:74-99 | new alarms are buffered, all other messages deleted, and the number taken returned; a receive or delete that raises ends the loop where it does |
| AlarmBridge.PollDeletesExactly | ingestion/sqs_alarm_bridge.py:86-98 | polling gives up for deletion exactly what is no alarm or repeats an id seen before |
| AlarmBridge.PollSorts | ingestion/sqs_alarm_bridge.py:86-96 | a poll sorts its messages into those given up (no alarm, or an id seen in an earlier poll or earlier in this one) and those taken, each once and in order |
| AlarmBridge.SqsAlarmBridge.Flush | ingestion/sqs_alarm_bridge.py:107-125 | a successful post empties the buffer after deleting its receipts; a failed one only sets the retry time |
| AlarmBridge.Serve | ingestion/sqs_alarm_bridge.py:127-133 | the loop of polling and flushing when due carries out the state machine |
| AlarmBridge.PostsExactly | ingestion/sqs_alarm_bridge.py:101-125 | an incident is posted iff alarms are held, the last came `quiet` ago or the first `maxGroup` ago, no retry is awaited and the POST is accepted; it is the held alarms, in order |
| AlarmBridge.TimesExactly | ingestion/sqs_alarm_bridge.py:91-94 | first and last are the times of the first and last delivery held |
| AlarmBridge.RetryTold | ingestion/sqs_alarm_bridge.py:113-124 | only a due POST changes the retry time: thirty seconds on after a failure, none after a success |
| AlarmBridge.AlarmsConserved | ingestion/sqs_alarm_bridge.py:69-125 | over any messages, redeliveries, failures and clock: accepted events are the posted ones followed by the buffered ones, receipts in step, and after a post exactly its receipts are deleted |
| AlarmBridge.DeletedOnlyAfterPost | ingestion/sqs_alarm_bridge.py:69-125 | where each delivery has its own receipt, no deletion of any kind removes the receipt of a taken delivery before it was posted |
| AlarmBridge.RemovedWhileHeldExactly | ingestion/sqs_alarm_bridge.py:86-98 | while the alarm of a taken delivery is held, and so unposted, its message is removed from the queue iff another delivery of that message was received |
| AlarmBridge.UnpostedDeletedExactly | ingestion/sqs_alarm_bridge.py:86-98 | polling deletes an alarm whose event is unposted iff its id is held in the buffer, or is new and came earlier in the same batch |
| AlarmBridge.SeenIsPostedOrHeld | ingestion/sqs_alarm_bridge.py:86-91 | while the loop runs, the ids seen are those posted and those held, never both |
| AlarmBridge.InExactlyOnePlace | ingestion/sqs_alarm_bridge.py:74-125 | every accepted event is in exactly one posted incident or in the buffer |
| AlarmBridge.FailedPost | ingestion/sqs_alarm_bridge.py:113-116 | a failed post changes nothing but the retry time, and is not retried before it |
| AlarmBridge.RedeliveryDeletedBeforePost | ingestion/sqs_alarm_bridge.py:10-13 | a redelivery of a buffered alarm is deleted with nothing posted, and the message with it, under whatever receipt |

## Left out

- Ranking.ScoreGroup: works on exact reals, so binary rounding inside the sums is not modelled; rounding to three places is (half to even).
- Ranking.RankCauses: the early return without any resolvable row is the general case with no groups.
- Ranking.Position: which of several equally near targets the chain leads to depends on Python's set iteration order; any of them is allowed.
- Planning.PlannedRequest: the wording of a question is not modelled, and request ids are the hashed tuples, so hash collisions are not.
- Answers.Absorb: the wording of the notes is a parameter; key events carry only the fields that joining and sorting read.
- Agent.Session.Handle: the finding of a scoped re-analysis, the leads it yields and the outcome of hypothesis checks are inputs, and so are the topology read for a plan and the hypothesis questions the LLM puts before it (which unclassified rows it has already read is not kept); of the session's context the scenario, anchor time and description are left out, and a key that is present without a value counts as missing; each message is handled in one piece although the handler awaits (a round is marked planned before its first await). The analysis request that opens a session is not one of the messages.
- Agent.RevisionBound: holds for catalogs the loader accepts, whose notes start with their marker.
- Orchestrator.Round: replies are arbitrary values gathered per round; message records, round and collaboration timeouts are not modelled (the loop does not enforce them).
- Endpoint.EndpointClient.CallTool: describes a call with nobody else on the breaker; concurrent calls are the step system of the same module. Session resets and back-off lengths are left out.
- Correlation.Reconsider: comparing values and searching key events are parameters of the condition language; nesting, scopes and quantifiers are the source's.
- Rows.Evidence: the rules fired and sample text copied into a row are left out; the digit-blanked text is an input.
- Rows.UnclassifiedRows: signal type, source and the text copied into a row are left out.
- AlarmBridge.SqsAlarmBridge.PollOnce: the clock is read once per message.
- AlarmBridge.DeletedOnlyAfterPost: is about receipts, and takes it from the queue that every delivery has its own; what happens to the messages is AlarmBridge.RemovedWhileHeldExactly.
- AlarmBridge.RemovedWhileHeldExactly: is stated for a bridge whose loop runs; a poll whose deletion raised may have removed fewer messages.
- Long source functions are split into helper methods, one per loop.
- find_leads and its patterns, fire, window_before, rule parsing and the other hypothesis checks: text matching and threshold rules that would add only easy members.
- compute_confidence, RetryPolicy.delay, TaskStore, collect_hypotheses, merge_a2a_messages, catalog merge and validation: correct but shallow.
- LLM calls and prompts, triage, key events and summary templates.
- HTTP, ADK, MCP and JSON-RPC transports, session-owner tasks, authentication, deployment, telemetry plugins, fixtures.
