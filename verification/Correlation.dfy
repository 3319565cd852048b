/** detection/correlation.py: cross-domain reconsideration of one finding. */
module Correlation {
  import opened Prelude
  import opened Contract

  // --------------------------------------------------------------------- text

  predicate At(s: string, i: nat, sub: string) {
    i + |sub| <= |s| && s[i..i + |sub|] == sub
  }

  predicate Contains(s: string, sub: string) {
    exists i :: 0 <= i <= |s| && At(s, i, sub)
  }

  /** Appended text hides nothing that was there and shows what it brings. */
  lemma ContainsAppend(s: string, t: string, sub: string)
    ensures Contains(s, sub) ==> Contains(s + t, sub)
    ensures Contains(t, sub) ==> Contains(s + t, sub)
  {
    if i: nat :| i <= |s| && At(s, i, sub) {
      assert (s + t)[i..i + |sub|] == s[i..i + |sub|];
      assert At(s + t, i, sub);
    }
    if i: nat :| i <= |t| && At(t, i, sub) {
      assert (s + t)[|s| + i..|s| + i + |sub|] == t[i..i + |sub|];
      assert At(s + t, |s| + i, sub);
    }
  }

  lemma ContainsStart(s: string, sub: string)
    requires sub <= s
    ensures Contains(s, sub)
  {
    assert At(s, 0, sub);
  }

  // --------------------------------------------------------------- conditions

  /** Whose findings a condition looks at. */
  datatype Scope = Self | Peers(domains: Option<set<string>>, anomalous: bool)

  /** The closed condition language. Comparing a value and looking for a text
      are parameters; nesting, scopes and quantifiers are the source's. */
  datatype Condition =
    | KeyEventMatch(scope: Scope, field: string, compare: string -> bool)
    | SummaryMatch(scope: Scope, matches: string -> bool)
    | PeerAnomaly(domains: Option<set<string>>)
    | AnyOf(any: seq<Condition>)
    | AllOf(all: seq<Condition>)
    | NoKey

  predicate InScope(s: Scope, p: Finding)
    requires s.Peers?
  {
    (s.domains.None? || p.domain in s.domains.value) && (!s.anomalous || p.anomaly)
  }

  function Scoped(s: Scope, me: Finding, peers: seq<Finding>): seq<Finding> {
    if s.Self? then [me]
    else if peers == [] then []
    else if InScope(s, peers[|peers| - 1]) then Scoped(s, me, peers[..|peers| - 1]) + [peers[|peers| - 1]]
    else Scoped(s, me, peers[..|peers| - 1])
  }

  predicate Holds(c: Condition, me: Finding, peers: seq<Finding>) {
    match c
    case KeyEventMatch(s, field, compare) =>
      exists f :: f in Scoped(s, me, peers) && exists e :: e in f.keyEvents && field in e.fields && compare(e.fields[field])
    case SummaryMatch(s, matches) => exists f :: f in Scoped(s, me, peers) && matches(f.summary)
    case PeerAnomaly(domains) => exists p :: p in peers && p.anomaly && (domains.None? || p.domain in domains.value)
    case AnyOf(any) => exists i :: 0 <= i < |any| && Holds(any[i], me, peers)
    case AllOf(all) => forall i :: 0 <= i < |all| ==> Holds(all[i], me, peers)
    case NoKey => false
  }

  lemma {:induction false} ScopedMembers(s: Scope, me: Finding, peers: seq<Finding>, f: Finding)
    ensures f in Scoped(s, me, peers) <==> if s.Self? then f == me else f in peers && InScope(s, f)
  {
    if s.Peers? && peers != [] {
      ScopedMembers(s, me, peers[..|peers| - 1], f);
      assert peers == peers[..|peers| - 1] + [peers[|peers| - 1]];
    }
  }

  /** Conditions are monotone in the peers: hearing from more of them, in any
      order and however often, never makes a condition stop holding. */
  lemma {:induction false} HoldsMonotone(c: Condition, me: Finding, peers: seq<Finding>, more: seq<Finding>)
    requires forall p :: p in peers ==> p in more
    requires Holds(c, me, peers)
    ensures Holds(c, me, more)
  {
    match c
    case KeyEventMatch(s, field, compare) =>
      var f :| f in Scoped(s, me, peers) && exists e :: e in f.keyEvents && field in e.fields && compare(e.fields[field]);
      ScopedMembers(s, me, peers, f);
      ScopedMembers(s, me, more, f);
    case SummaryMatch(s, matches) =>
      var f :| f in Scoped(s, me, peers) && matches(f.summary);
      ScopedMembers(s, me, peers, f);
      ScopedMembers(s, me, more, f);
    case PeerAnomaly(domains) =>
    case AnyOf(any) =>
      var i :| 0 <= i < |any| && Holds(any[i], me, peers);
      HoldsMonotone(any[i], me, peers, more);
    case AllOf(all) =>
      forall i | 0 <= i < |all|
        ensures Holds(all[i], me, more)
      {
        HoldsMonotone(all[i], me, peers, more);
      }
    case NoKey =>
  }

  // -------------------------------------------------------------------- rules

  datatype Kind = Corroboration | Contradiction

  function Marker(k: Kind): string {
    match k
    case Corroboration => "Peer corroboration:"
    case Contradiction => "Peer contradiction:"
  }

  datatype Adjust = AtLeast(floor: real) | Add(amount: real, cap: Option<real>)

  /** `note` renders the rule's note for the anomalous peer domains. */
  datatype Rule = Rule(kind: Kind, selfAnomaly: bool, when: seq<Condition>, adjust: Adjust, note: set<string> -> string)

  /** What the catalog loader checks: every note starts with its kind's marker. */
  ghost predicate Marked(rules: seq<Rule>) {
    forall r, ds :: r in rules ==> Marker(r.kind) <= r.note(ds)
  }

  function AnomalousDomains(peers: seq<Finding>): set<string> {
    set p | p in peers && p.anomaly :: p.domain
  }

  predicate Applies(r: Rule, f: Finding, peers: seq<Finding>) {
    && r.selfAnomaly == f.anomaly
    && !Contains(f.summary, Marker(r.kind))
    && forall i :: 0 <= i < |r.when| ==> Holds(r.when[i], f, peers)
  }

  function FirstApplying(rules: seq<Rule>, f: Finding, peers: seq<Finding>): Option<Rule> {
    if rules == [] then None
    else if Applies(rules[0], f, peers) then Some(rules[0])
    else FirstApplying(rules[1..], f, peers)
  }

  function Adjusted(a: Adjust, confidence: real): real {
    match a
    case AtLeast(floor) => if floor > confidence then floor else confidence
    case Add(amount, cap) =>
      var raised := confidence + amount;
      if cap.Some? && cap.value < raised then cap.value else raised
  }

  function Apply(r: Rule, f: Finding, peers: seq<Finding>): Finding {
    f.(confidence := Adjusted(r.adjust, f.confidence), revised := true, revisionCount := f.revisionCount + 1,
       summary := f.summary + ". " + r.note(AnomalousDomains(peers)))
  }

  function Reconsidered(rules: seq<Rule>, f: Finding, peers: seq<Finding>): Finding {
    match FirstApplying(rules, f, peers)
    case None => f
    case Some(r) => Apply(r, f, peers)
  }

  /** `rules` are the domain's rules in priority order. */
  method Reconsider(finding: Finding, peers: seq<Finding>, rules: seq<Rule>) returns (revised: Finding)
    ensures revised == Reconsidered(rules, finding, peers)
  {
    revised := finding;
    assert rules[0..] == rules;
    for i := 0 to |rules|
      invariant revised == finding
      invariant FirstApplying(rules, finding, peers) == FirstApplying(rules[i..], finding, peers)
    {
      var rule := rules[i];
      assert rules[i..][0] == rule && rules[i..][1..] == rules[i + 1..];
      if rule.selfAnomaly != revised.anomaly {
        continue;
      }
      if Contains(revised.summary, Marker(rule.kind)) {
        continue;
      }
      if !(forall j :: 0 <= j < |rule.when| ==> Holds(rule.when[j], revised, peers)) {
        continue;
      }
      revised := revised.(confidence := Adjusted(rule.adjust, revised.confidence));
      revised := revised.(revised := true, revisionCount := revised.revisionCount + 1);
      revised := revised.(summary := revised.summary + ". " + rule.note(AnomalousDomains(peers)));
      return;
    }
  }

  // ----------------------------------------------------------------- theorems

  predicate HasMark(f: Finding, k: Kind) { Contains(f.summary, Marker(k)) }

  lemma {:induction false} FirstApplies(rules: seq<Rule>, f: Finding, peers: seq<Finding>)
    ensures match FirstApplying(rules, f, peers)
            case None => forall r :: r in rules ==> !Applies(r, f, peers)
            case Some(r) => r in rules && Applies(r, f, peers)
  {
    if rules != [] {
      FirstApplies(rules[1..], f, peers);
      assert rules == [rules[0]] + rules[1..];
    }
  }

  function Open(f: Finding, k: Kind): nat { if HasMark(f, k) then 0 else 1 }

  /** One call: either nothing changes, or one rule of a kind not yet marked is
      applied and marks that kind; marks never go, and nothing but confidence,
      summary and the revision counters is touched. */
  lemma ReconsiderOnce(rules: seq<Rule>, f: Finding, peers: seq<Finding>)
    requires Marked(rules)
    ensures var g := Reconsidered(rules, f, peers);
            && f.summary <= g.summary && (forall k :: HasMark(f, k) ==> HasMark(g, k))
            && g == f.(confidence := g.confidence, summary := g.summary, revised := g.revised, revisionCount := g.revisionCount)
            && (g == f || exists k :: !HasMark(f, k) && HasMark(g, k) && g.revisionCount == f.revisionCount + 1)
  {
    hide FirstApplying, Holds;
    FirstApplies(rules, f, peers);
    var o := FirstApplying(rules, f, peers);
    if o.Some? {
      var g := Apply(o.value, f, peers);
      var note := o.value.note(AnomalousDomains(peers));
      var mark := Marker(o.value.kind);
      ContainsStart(note, mark);
      ContainsAppend(f.summary + ". ", note, mark);
      assert g.summary == f.summary + (". " + note);
      assert g.summary == (f.summary + ". ") + note;
      forall k | HasMark(f, k)
        ensures HasMark(g, k)
      {
        ContainsAppend(f.summary, ". " + note, Marker(k));
      }
      assert !HasMark(f, o.value.kind) && HasMark(g, o.value.kind);
    }
  }

  function Unmarked(f: Finding): nat { Open(f, Corroboration) + Open(f, Contradiction) }

  function ReconsideredOver(rules: seq<Rule>, f: Finding, history: seq<seq<Finding>>): Finding {
    if history == [] then f
    else Reconsidered(rules, ReconsideredOver(rules, f, history[..|history| - 1]), history[|history| - 1])
  }

  /** The kinds of the rules applied along the way, in order. */
  ghost function Applications(rules: seq<Rule>, f: Finding, history: seq<seq<Finding>>): seq<Kind> {
    if history == [] then [] else
      var before := ReconsideredOver(rules, f, history[..|history| - 1]);
      var rest := Applications(rules, f, history[..|history| - 1]);
      match FirstApplying(rules, before, history[|history| - 1])
      case None => rest
      case Some(r) => rest + [r.kind]
  }

  lemma ApplyMarks(rules: seq<Rule>, f: Finding, peers: seq<Finding>, r: Rule)
    requires Marked(rules) && FirstApplying(rules, f, peers) == Some(r)
    ensures r in rules && !HasMark(f, r.kind) && HasMark(Reconsidered(rules, f, peers), r.kind)
  {
    FirstApplies(rules, f, peers);
    var note, mark := r.note(AnomalousDomains(peers)), Marker(r.kind);
    ContainsStart(note, mark);
    ContainsAppend(f.summary + ". ", note, mark);
    assert Apply(r, f, peers).summary == (f.summary + ". ") + note;
  }

  /** Whatever the peers say, and in whatever order they are heard, a finding is
      corroborated at most once and contradicted at most once. */
  lemma {:induction false} AtMostOneOfEach(rules: seq<Rule>, f: Finding, history: seq<seq<Finding>>)
    requires Marked(rules)
    ensures NoDup(Applications(rules, f, history))
    ensures forall k :: k in Applications(rules, f, history) ==> !HasMark(f, k) && HasMark(ReconsideredOver(rules, f, history), k)
    ensures forall k :: HasMark(f, k) ==> HasMark(ReconsideredOver(rules, f, history), k)
    ensures ReconsideredOver(rules, f, history).revisionCount == f.revisionCount + |Applications(rules, f, history)|
    ensures |Applications(rules, f, history)| <= Unmarked(f) <= 2
  {
    if history != [] {
      var init, peers := history[..|history| - 1], history[|history| - 1];
      AtMostOneOfEach(rules, f, init);
      var before := ReconsideredOver(rules, f, init);
      ReconsiderOnce(rules, before, peers);
      var o := FirstApplying(rules, before, peers);
      if o.Some? {
        ApplyMarks(rules, before, peers, o.value);
      }
      TwoKinds(Applications(rules, f, history), f);
    }
  }

  lemma TwoKinds(ks: seq<Kind>, f: Finding)
    requires NoDup(ks) && forall k :: k in ks ==> !HasMark(f, k)
    ensures |ks| <= Unmarked(f) <= 2
  {
    if |ks| >= 3 {
      assert ks[0] != ks[1] && ks[1] != ks[2] && ks[0] != ks[2];
    }
    if |ks| == 2 {
      assert ks[0] != ks[1] && ks[0] in ks && ks[1] in ks;
    }
    if |ks| == 1 {
      assert ks[0] in ks;
    }
  }

  lemma HoldsTogether(c: Condition, me: Finding, peers: seq<Finding>, other: seq<Finding>)
    requires forall p :: p in peers <==> p in other
    ensures Holds(c, me, peers) <==> Holds(c, me, other)
  {
    if Holds(c, me, peers) {
      HoldsMonotone(c, me, peers, other);
    }
    if Holds(c, me, other) {
      HoldsMonotone(c, me, other, peers);
    }
  }

  /** The order the peers were heard in, and hearing one twice, do not matter. */
  lemma PeerOrderIrrelevant(rules: seq<Rule>, f: Finding, peers: seq<Finding>, other: seq<Finding>)
    requires forall p :: p in peers <==> p in other
    ensures Reconsidered(rules, f, peers) == Reconsidered(rules, f, other)
  {
    assert AnomalousDomains(peers) == AnomalousDomains(other);
    SameFirst(rules, f, peers, other);
  }

  lemma {:induction false} SameFirst(rules: seq<Rule>, f: Finding, peers: seq<Finding>, other: seq<Finding>)
    requires forall p :: p in peers <==> p in other
    ensures FirstApplying(rules, f, peers) == FirstApplying(rules, f, other)
  {
    if rules != [] {
      SameFirst(rules[1..], f, peers, other);
      forall i | 0 <= i < |rules[0].when| {
        HoldsTogether(rules[0].when[i], f, peers, other);
      }
    }
  }

  function Repeat(peers: seq<Finding>, n: nat): seq<seq<Finding>> {
    seq(n, i => peers)
  }

  /** With the same peers a finding stops changing after two calls. */
  lemma {:induction false} FixpointAfterTwo(rules: seq<Rule>, f: Finding, peers: seq<Finding>, n: nat)
    requires Marked(rules) && n >= 2
    ensures ReconsideredOver(rules, f, Repeat(peers, n)) == ReconsideredOver(rules, f, Repeat(peers, 2))
  {
    hide Reconsidered, Unmarked;
    if n > 2 {
      FixpointAfterTwo(rules, f, peers, n - 1);
      assert Repeat(peers, n)[..n - 1] == Repeat(peers, n - 1);
      assert Repeat(peers, 2)[..1] == Repeat(peers, 1) && Repeat(peers, 1)[..0] == [];
      var f1 := Reconsidered(rules, f, peers);
      var f2 := Reconsidered(rules, f1, peers);
      assert ReconsideredOver(rules, f, Repeat(peers, 1)) == f1;
      assert ReconsideredOver(rules, f, Repeat(peers, 2)) == f2;
      UnmarkedFalls(rules, f, peers);
      UnmarkedFalls(rules, f1, peers);
      UnmarkedFalls(rules, f2, peers);
    }
  }

  /** Each call that changes the finding uses up one of its at most two marks. */
  lemma UnmarkedFalls(rules: seq<Rule>, f: Finding, peers: seq<Finding>)
    requires Marked(rules)
    ensures var g := Reconsidered(rules, f, peers); Unmarked(f) <= 2 && (g == f || Unmarked(g) < Unmarked(f))
  {
    hide Contains;
    ReconsiderOnce(rules, f, peers);
  }

  /** The finding as the next call would read it, had `r` been applied: only its
      summary is read differently. */
  function WithNote(r: Rule, f: Finding, peers: seq<Finding>): Finding {
    f.(summary := f.summary + ". " + r.note(AnomalousDomains(peers)))
  }

  /** Conditions read key events and summary of the finding, and nothing else. */
  lemma {:induction false} HoldsReads(c: Condition, me: Finding, other: Finding, peers: seq<Finding>)
    requires me.keyEvents == other.keyEvents && me.summary == other.summary
    ensures Holds(c, me, peers) <==> Holds(c, other, peers)
  {
    match c
    case AnyOf(any) =>
      forall i | 0 <= i < |any| {
        HoldsReads(any[i], me, other, peers);
      }
    case AllOf(all) =>
      forall i | 0 <= i < |all| {
        HoldsReads(all[i], me, other, peers);
      }
    case KeyEventMatch(s, _, _) =>
      if s.Self? {
        assert Scoped(s, me, peers) == [me] && Scoped(s, other, peers) == [other];
      } else {
        SamePeers(s, me, other, peers);
      }
    case SummaryMatch(s, _) =>
      if s.Self? {
        assert Scoped(s, me, peers) == [me] && Scoped(s, other, peers) == [other];
      } else {
        SamePeers(s, me, other, peers);
      }
    case PeerAnomaly(_) =>
    case NoKey =>
  }

  lemma {:induction false} SamePeers(s: Scope, me: Finding, other: Finding, peers: seq<Finding>)
    requires s.Peers?
    ensures Scoped(s, me, peers) == Scoped(s, other, peers)
  {
    if peers != [] {
      SamePeers(s, me, other, peers[..|peers| - 1]);
    }
  }

  /** Somewhere in it the finding's own summary is searched. */
  predicate ReadsOwnSummary(c: Condition) {
    match c
    case SummaryMatch(s, _) => s.Self?
    case AnyOf(any) => exists i :: 0 <= i < |any| && ReadsOwnSummary(any[i])
    case AllOf(all) => exists i :: 0 <= i < |all| && ReadsOwnSummary(all[i])
    case _ => false
  }

  lemma {:induction false} HoldsIgnoresSummary(c: Condition, me: Finding, text: string, peers: seq<Finding>)
    requires !ReadsOwnSummary(c)
    ensures Holds(c, me.(summary := text), peers) <==> Holds(c, me, peers)
  {
    var other := me.(summary := text);
    match c
    case AnyOf(any) =>
      forall i | 0 <= i < |any| {
        HoldsIgnoresSummary(any[i], me, text, peers);
      }
    case AllOf(all) =>
      forall i | 0 <= i < |all| {
        HoldsIgnoresSummary(all[i], me, text, peers);
      }
    case KeyEventMatch(s, _, _) =>
      if s.Self? {
        assert Scoped(s, me, peers) == [me] && Scoped(s, other, peers) == [other];
      } else {
        SamePeers(s, me, other, peers);
      }
    case SummaryMatch(s, _) => SamePeers(s, me, other, peers);
    case PeerAnomaly(_) =>
    case NoKey =>
  }

  /** `r` will apply to the finding right after `first` has: it is of the other
      kind, meant for findings like this one, and its conditions and marker look
      the same on the summary with the first note appended. */
  predicate Follows(first: Rule, r: Rule, f: Finding, peers: seq<Finding>) {
    && r.kind != first.kind && r.selfAnomaly == f.anomaly
    && !Contains(WithNote(first, f, peers).summary, Marker(r.kind))
    && forall i :: 0 <= i < |r.when| ==> Holds(r.when[i], WithNote(first, f, peers), peers)
  }

  /** A second call with the same peers changes the finding exactly when some rule
      applies and a rule of the other kind follows it, told from the finding as
      it is before the first call. */
  lemma IdempotentExactly(rules: seq<Rule>, f: Finding, peers: seq<Finding>)
    requires Marked(rules)
    ensures var g := Reconsidered(rules, f, peers);
            Reconsidered(rules, g, peers) != g <==>
            FirstApplying(rules, f, peers).Some? &&
            exists r :: r in rules && Follows(FirstApplying(rules, f, peers).value, r, f, peers)
  {
    var o := FirstApplying(rules, f, peers);
    var g := Reconsidered(rules, f, peers);
    if o.Some? {
      ApplyMarks(rules, f, peers, o.value);
      FirstApplies(rules, g, peers);
      forall r | r in rules
        ensures Applies(r, g, peers) <==> Follows(o.value, r, f, peers)
      {
        AppliesNext(rules, o.value, r, f, peers);
      }
    }
  }

  lemma AppliesNext(rules: seq<Rule>, first: Rule, r: Rule, f: Finding, peers: seq<Finding>)
    requires Marked(rules) && FirstApplying(rules, f, peers) == Some(first)
    ensures Applies(r, Apply(first, f, peers), peers) <==> Follows(first, r, f, peers)
  {
    hide Contains, Holds;
    ApplyMarks(rules, f, peers, first);
    var g, h := Apply(first, f, peers), WithNote(first, f, peers);
    forall i | 0 <= i < |r.when|
      ensures Holds(r.when[i], g, peers) <==> Holds(r.when[i], h, peers)
    {
      HoldsReads(r.when[i], g, h, peers);
    }
  }

  /** Where no rule searches the finding's own summary, it takes a rule of the
      other kind that applies at the same time, unless the first note happens to
      contain its marker. */
  lemma IdempotentUnlessBothApply(rules: seq<Rule>, f: Finding, peers: seq<Finding>)
    requires Marked(rules) && forall r, i :: r in rules && 0 <= i < |r.when| ==> !ReadsOwnSummary(r.when[i])
    ensures var o, g := FirstApplying(rules, f, peers), Reconsidered(rules, f, peers);
            Reconsidered(rules, g, peers) != g <==>
            o.Some? && exists r :: r in rules && r.kind != o.value.kind && Applies(r, f, peers)
                                   && !Contains(o.value.note(AnomalousDomains(peers)), Marker(r.kind))
  {
    var o := FirstApplying(rules, f, peers);
    IdempotentExactly(rules, f, peers);
    if o.Some? {
      forall r | r in rules
        ensures Follows(o.value, r, f, peers) <==>
                r.kind != o.value.kind && Applies(r, f, peers) && !Contains(o.value.note(AnomalousDomains(peers)), Marker(r.kind))
      {
        FollowsPlainly(o.value, r, f, peers);
      }
    }
  }

  lemma FollowsPlainly(first: Rule, r: Rule, f: Finding, peers: seq<Finding>)
    requires forall i :: 0 <= i < |r.when| ==> !ReadsOwnSummary(r.when[i])
    ensures Follows(first, r, f, peers) <==>
            r.kind != first.kind && Applies(r, f, peers) && !Contains(first.note(AnomalousDomains(peers)), Marker(r.kind))
  {
    hide Contains, Holds, ReadsOwnSummary;
    MarkerAcross(f.summary, first.note(AnomalousDomains(peers)), r.kind);
    forall i | 0 <= i < |r.when|
      ensures Holds(r.when[i], WithNote(first, f, peers), peers) <==> Holds(r.when[i], f, peers)
    {
      HoldsIgnoresSummary(r.when[i], f, WithNote(first, f, peers).summary, peers);
    }
  }

  /** A marker never straddles the separator, which has a dot it lacks. */
  lemma MarkerAcross(s: string, t: string, k: Kind)
    ensures Contains(s + ". " + t, Marker(k)) <==> Contains(s, Marker(k)) || Contains(t, Marker(k))
  {
    var whole, m := s + ". " + t, Marker(k);
    ContainsAppend(s, ". " + t, m);
    assert whole == s + (". " + t);
    ContainsAppend(s + ". ", t, m);
    if i: nat :| i <= |whole| && At(whole, i, m) {
      assert forall j :: 0 <= j < |m| ==> whole[i + j] == m[j] by {
        assert forall j :: 0 <= j < |m| ==> whole[i..i + |m|][j] == m[j];
      }
      assert i <= |s| < i + |m| ==> m[|s| - i] == '.';
      assert i == |s| + 1 ==> m[0] == ' ';
      if i + |m| <= |s| {
        assert s[i..i + |m|] == whole[i..i + |m|];
        assert At(s, i, m);
      } else {
        var d := i - |s| - 2;
        assert t[d..d + |m|] == whole[i..i + |m|];
        assert At(t, d, m);
      }
    }
  }

  /** So a domain whose rules of one anomaly state are all of one kind is
      idempotent on every finding and every set of peers. */
  lemma OneKindIdempotent(rules: seq<Rule>, f: Finding, peers: seq<Finding>)
    requires Marked(rules) && forall r, s :: r in rules && s in rules && r.selfAnomaly == s.selfAnomaly ==> r.kind == s.kind
    ensures Reconsidered(rules, Reconsidered(rules, f, peers), peers) == Reconsidered(rules, f, peers)
  {
    IdempotentExactly(rules, f, peers);
    FirstApplies(rules, f, peers);
  }

  /** And one with an unconditional rule of each kind is not. */
  lemma NotIdempotentInOne(f: Finding)
    requires f.anomaly && f.summary == ""
    ensures exists rules :: Marked(rules) && Reconsidered(rules, Reconsidered(rules, f, []), []) != Reconsidered(rules, f, [])
  {
    var a := Rule(Corroboration, true, [], AtLeast(0.5), (ds: set<string>) => "Peer corroboration:");
    var b := Rule(Contradiction, true, [], AtLeast(0.5), (ds: set<string>) => "Peer contradiction:");
    var rules := [a, b];
    TooShort("", Marker(Corroboration));
    TooShort("", Marker(Contradiction));
    assert Applies(a, f, []);
    assert FirstApplying(rules, f, []) == Some(a);
    OtherMark();
    assert WithNote(a, f, []).summary == ". Peer corroboration:";
    assert Follows(a, b, f, []) && b in rules;
    IdempotentExactly(rules, f, []);
  }

  lemma TooShort(s: string, sub: string)
    requires |s| < |sub|
    ensures !Contains(s, sub)
  {
  }

  lemma OtherMark()
    ensures !Contains(". Peer corroboration:", Marker(Contradiction))
  {
    var s, sub := ". Peer corroboration:", Marker(Contradiction);
    forall i: nat | i <= |s|
      ensures !At(s, i, sub)
    {
      if i + |sub| <= |s| {
        assert s[i..i + |sub|][8] == s[i + 8];
      }
    }
  }

  // ---------------------------------------------------- told from the findings

  /** The finding is among those a condition of this scope looks at. */
  predicate LooksAt(s: Scope, me: Finding, peers: seq<Finding>, f: Finding) {
    match s
    case Self => f == me
    case Peers(domains, anomalous) => f in peers && (domains.Some? ==> f.domain in domains.value) && (anomalous ==> f.anomaly)
  }

  /** What a condition means. */
  ghost predicate Means(c: Condition, me: Finding, peers: seq<Finding>) {
    match c
    case KeyEventMatch(s, field, compare) =>
      exists f, e :: LooksAt(s, me, peers, f) && e in f.keyEvents && field in e.fields && compare(e.fields[field])
    case SummaryMatch(s, matches) => exists f :: LooksAt(s, me, peers, f) && matches(f.summary)
    case PeerAnomaly(domains) => exists f :: LooksAt(Peers(domains, true), me, peers, f)
    case AnyOf(any) => exists c :: c in any && Means(c, me, peers)
    case AllOf(all) => forall c :: c in all ==> Means(c, me, peers)
    case NoKey => false
  }

  lemma {:induction false} HoldsExactly(c: Condition, me: Finding, peers: seq<Finding>)
    ensures Holds(c, me, peers) <==> Means(c, me, peers)
  {
    match c
    case KeyEventMatch(s, field, compare) =>
      forall f {
        LooksExactly(s, me, peers, f);
      }
    case SummaryMatch(s, matches) =>
      forall f {
        LooksExactly(s, me, peers, f);
      }
    case PeerAnomaly(domains) =>
      forall f
        ensures LooksAt(Peers(domains, true), me, peers, f) <==> f in peers && f.anomaly && (domains.None? || f.domain in domains.value)
      {
      }
    case AnyOf(any) =>
      forall i | 0 <= i < |any| {
        HoldsExactly(any[i], me, peers);
      }
      if d :| d in any && Means(d, me, peers) {
        var i :| 0 <= i < |any| && any[i] == d;
      }
    case AllOf(all) =>
      forall i | 0 <= i < |all| {
        HoldsExactly(all[i], me, peers);
      }
    case NoKey =>
  }

  lemma LooksExactly(s: Scope, me: Finding, peers: seq<Finding>, f: Finding)
    ensures f in Scoped(s, me, peers) <==> LooksAt(s, me, peers, f)
  {
    ScopedMembers(s, me, peers, f);
  }

  /** The text occurs in the other. */
  lemma ContainsExactly(s: string, sub: string)
    ensures Contains(s, sub) <==> exists before: string, after: string :: s == before + sub + after
  {
    if i: nat :| i <= |s| && At(s, i, sub) {
      assert s == s[..i] + sub + s[i + |sub|..];
    }
    if before: string, after: string :| s == before + sub + after {
      assert At(s, |before|, sub);
    }
  }

  /** The rule is meant for findings like this one, its kind is not yet noted, and
      all its conditions are met. */
  ghost predicate IsMet(r: Rule, f: Finding, peers: seq<Finding>) {
    && r.selfAnomaly == f.anomaly
    && !Contains(f.summary, if r.kind == Corroboration then "Peer corroboration:" else "Peer contradiction:")
    && forall c :: c in r.when ==> Means(c, f, peers)
  }

  lemma MetExactly(r: Rule, f: Finding, peers: seq<Finding>)
    ensures Applies(r, f, peers) <==> IsMet(r, f, peers)
  {
    hide Contains;
    forall i | 0 <= i < |r.when| {
      HoldsExactly(r.when[i], f, peers);
    }
    if IsMet(r, f, peers) {
      assert forall i :: 0 <= i < |r.when| ==> r.when[i] in r.when;
    }
  }

  /** The confidence a rule leaves: raised to its floor, or by its amount up to its
      cap. */
  predicate IsAdjusted(a: Adjust, before: real, after: real) {
    match a
    case AtLeast(floor) => after >= before && after >= floor && (after == before || after == floor)
    case Add(amount, cap) => if cap.Some? && before + amount > cap.value then after == cap.value else after == before + amount
  }

  /** Reconsidering as a whole: of the domain's rules the first that is met, and no
      other, adjusts the confidence and adds its note, made with the domains of the
      anomalous peers; with none, nothing changes. */
  lemma ReconsideredTold(rules: seq<Rule>, f: Finding, peers: seq<Finding>)
    ensures var g := Reconsidered(rules, f, peers);
            if forall r :: r in rules ==> !IsMet(r, f, peers) then g == f
            else exists i, domains ::
              && 0 <= i < |rules| && IsMet(rules[i], f, peers) && (forall j :: 0 <= j < i ==> !IsMet(rules[j], f, peers))
              && (forall d :: d in domains <==> exists p :: p in peers && p.anomaly && p.domain == d)
              && IsAdjusted(rules[i].adjust, f.confidence, g.confidence)
              && g == f.(confidence := g.confidence, summary := f.summary + ". " + rules[i].note(domains), revised := true,
                         revisionCount := f.revisionCount + 1)
  {
    hide IsMet, Applies;
    forall r
      ensures Applies(r, f, peers) <==> IsMet(r, f, peers)
    {
      MetExactly(r, f, peers);
    }
    FirstExactly(rules, f, peers);
    FirstApplies(rules, f, peers);
    assert forall d :: d in AnomalousDomains(peers) <==> exists p :: p in peers && p.anomaly && p.domain == d;
  }

  lemma {:induction false} FirstExactly(rules: seq<Rule>, f: Finding, peers: seq<Finding>)
    ensures match FirstApplying(rules, f, peers)
            case None => true
            case Some(r) => exists i :: 0 <= i < |rules| && rules[i] == r && Applies(r, f, peers) && forall j :: 0 <= j < i ==> !Applies(rules[j], f, peers)
  {
    hide Applies;
    if rules != [] && !Applies(rules[0], f, peers) {
      FirstExactly(rules[1..], f, peers);
      var o := FirstApplying(rules[1..], f, peers);
      if o.Some? {
        var i :| 0 <= i < |rules[1..]| && rules[1..][i] == o.value && Applies(o.value, f, peers) && forall j :: 0 <= j < i ==> !Applies(rules[1..][j], f, peers);
        forall j | 0 <= j < i + 1
          ensures !Applies(rules[j], f, peers)
        {
          assert j > 0 ==> rules[j] == rules[1..][j - 1];
        }
        assert rules[i + 1] == o.value;
      }
    }
  }
}
