/** The records that travel between the parts: findings with their evidence
    rows, requests, and the catalog settings the reasoning reads. */
module Contract {
  import opened Prelude
  import opened Topology

  // Times are whole seconds.
  type Time = int

  datatype Role = Cause | Symptom
  datatype Severity = Debug | Info | Warning | Error | Critical

  function SeverityRank(s: Severity): nat {
    match s
    case Debug => 0
    case Info => 1
    case Warning => 2
    case Error => 3
    case Critical => 4
  }

  datatype Via = Validation | Hypothesis

  /** One evidence row: rule-fired signals on one entity. */
  datatype Row = Row(entity: Node, signals: seq<string>, role: Option<Role>, severity: Severity, firstSeen: Time,
                     lastSeen: Time, onset: Option<Time>, count: nat, refs: seq<string>, via: Option<Via>,
                     requestedBy: Option<string>, requestId: Option<RequestId>)

  datatype KeyEvent = KeyEvent(fired: seq<string>, refs: seq<string>, fields: map<string, string>)

  datatype State = Firing | Clear | Unknown
  datatype StatusRow = StatusRow(entity: Node, current: State, episodes: nat, transitions: nat)

  datatype Finding = Finding(agentId: string, domain: string, anomaly: bool, summary: string, keyEvents: seq<KeyEvent>,
                             start: Time, end: Time, confidence: real, revised: bool, revisionCount: nat,
                             degraded: bool, evidence: seq<Row>, status: seq<StatusRow>)

  /** Hashed in the source; kept as what is hashed, so equal ids mean equal questions. */
  datatype RequestId = Scoped(target: string, entity: Node, start: Time, end: Time) | OfHypothesis(ruleId: string)

  datatype Origin = FromEvidence | FromLead | FromAlarm

  datatype Request = Request(id: RequestId, sender: string, target: string, entity: Node, filters: seq<Node>,
                             start: Time, end: Time, anchor: Node, origin: Origin, path: seq<Node>, hops: nat)

  datatype Weights = Weights(evidence: real, topology: real, precedence: real, role: real) {
    predicate Valid() { evidence >= 0.0 && topology >= 0.0 && precedence >= 0.0 && role >= 0.0 }
  }

  datatype Catalog = Catalog(relationships: Relationships, probes: map<string, seq<string>>, domains: set<string>,
                             maxHops: nat, lookback: nat, maxRequests: nat, weights: Weights)
}
