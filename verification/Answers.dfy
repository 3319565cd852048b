/** detection/investigate.py, verdict and absorb: reading a scoped answer, and
    revising a finding once with the supported answers of a round. */
module Answers {
  import opened Prelude
  import opened Topology
  import opened Contract

  datatype Verdict = Supported | Refuted | Inconclusive

  function Judge(f: Finding): Verdict {
    if f.degraded && !f.anomaly then Inconclusive
    else if f.anomaly && f.evidence != [] then Supported else Refuted
  }

  datatype Answer = Answer(request: Request, finding: Finding)

  /** What makes two evidence rows the same evidence. */
  datatype RowKey = RowKey(entity: Node, signals: seq<string>)

  function KeyOf(r: Row): RowKey { RowKey(r.entity, r.signals) }

  function RowKeys(rows: seq<Row>): set<RowKey> {
    set r | r in rows :: KeyOf(r)
  }

  /** A note on what an answer brought; how it is worded is a parameter. */
  datatype Note = Note(request: Request, rows: seq<Row>)

  /** The catalog's say: which signals are causes, how many key events to keep,
      and how the notes read. */
  datatype Style = Style(isCause: string -> bool, limit: Option<nat>, say: seq<Note> -> string)

  // ------------------------------------------------------------ specification

  function NewRows(known: set<RowKey>, rows: seq<Row>): seq<Row> {
    if rows == [] then [] else
      var rest, r := NewRows(known, rows[..|rows| - 1]), rows[|rows| - 1];
      if KeyOf(r) in known then rest else rest + [r]
  }

  /** A row an answer brings: a via of its own stays, the question is recorded. */
  function Adopted(q: Request, r: Row): Row {
    r.(via := if r.via.Some? then r.via else Some(Validation), requestedBy := Some(q.sender), requestId := Some(q.id))
  }

  function AdoptAll(q: Request, rows: seq<Row>): (out: seq<Row>)
    ensures |out| == |rows| && forall i :: 0 <= i < |out| ==> out[i] == Adopted(q, rows[i])
  {
    seq(|rows|, i requires 0 <= i < |rows| => Adopted(q, rows[i]))
  }

  /** The part of a finding that absorbing folds over. */
  datatype Core = Core(evidence: seq<Row>, anomaly: bool, confidence: real, start: Time, end: Time)

  function CoreOf(f: Finding): Core {
    Core(f.evidence, f.anomaly, f.confidence, f.start, f.end)
  }

  function Gain(c: Core, a: Answer): seq<Row> {
    NewRows(RowKeys(c.evidence), a.finding.evidence)
  }

  function Fold1(c: Core, a: Answer): Core {
    var gain, scoped := Gain(c, a), a.finding;
    if gain == [] then c else
      var evidence := c.evidence + AdoptAll(a.request, gain);
      if !c.anomaly then Core(evidence, true, scoped.confidence, scoped.start, scoped.end)
      else Core(evidence, true, if scoped.confidence > c.confidence then scoped.confidence else c.confidence,
                if scoped.start < c.start then scoped.start else c.start, c.end)
  }

  function Fold(c: Core, answers: seq<Answer>): Core {
    if answers == [] then c else Fold1(Fold(c, answers[..|answers| - 1]), answers[|answers| - 1])
  }

  function NotesOf(c: Core, answers: seq<Answer>): seq<Note> {
    if answers == [] then [] else
      var init, a := answers[..|answers| - 1], answers[|answers| - 1];
      var gain := Gain(Fold(c, init), a);
      if gain == [] then NotesOf(c, init) else NotesOf(c, init) + [Note(a.request, gain)]
  }

  /** Key events join unless they cite a known reference or fired no rule. */
  function JoinEvents(events: seq<KeyEvent>, refs: set<string>, more: seq<KeyEvent>): (seq<KeyEvent>, set<string>) {
    if more == [] then (events, refs) else
      var (es, rs) := JoinEvents(events, refs, more[..|more| - 1]);
      var e := more[|more| - 1];
      if e.fired != [] && (set r | r in e.refs) * rs == {} then (es + [e], rs + set r | r in e.refs) else (es, rs)
  }

  function RefsOf(events: seq<KeyEvent>): set<string> {
    set e, r | e in events && r in e.refs :: r
  }

  function EventsAfter(f: Finding, answers: seq<Answer>): (seq<KeyEvent>, set<string>) {
    if answers == [] then (f.keyEvents, RefsOf(f.keyEvents)) else
      var init, a := answers[..|answers| - 1], answers[|answers| - 1];
      var (es, rs) := EventsAfter(f, init);
      if Gain(Fold(CoreOf(f), init), a) == [] then (es, rs) else JoinEvents(es, rs, a.finding.keyEvents)
  }

  function CauseRank(isCause: string -> bool, e: KeyEvent): nat {
    if exists s :: s in e.fired && isCause(s) then 0 else 1
  }

  function CausesFirst(isCause: string -> bool): (KeyEvent, KeyEvent) -> bool {
    (a, b) => CauseRank(isCause, a) <= CauseRank(isCause, b)
  }

  function Trim(style: Style, events: seq<KeyEvent>, notes: nat): seq<KeyEvent> {
    var sorted := Sort(CausesFirst(style.isCause), events);
    if style.limit.None? then sorted else
      var n := (if style.limit.value > 1 then style.limit.value else 1) + notes;
      if |sorted| <= n then sorted else sorted[..n]
  }

  const VALIDATION_MARK := ". Peer validation: "

  function Absorbed(f: Finding, answers: seq<Answer>, style: Style): Finding {
    var notes := NotesOf(CoreOf(f), answers);
    if notes == [] then f else
      var c := Fold(CoreOf(f), answers);
      f.(evidence := c.evidence, anomaly := c.anomaly, confidence := c.confidence, start := c.start, end := c.end,
         keyEvents := Trim(style, EventsAfter(f, answers).0, |notes|),
         summary := f.summary + VALIDATION_MARK + style.say(notes),
         revised := true, revisionCount := f.revisionCount + 1)
  }

  // ------------------------------------------------------------------- method

  lemma NewRowsFacts(known: set<RowKey>, rows: seq<Row>)
    ensures forall r :: r in NewRows(known, rows) <==> r in rows && KeyOf(r) !in known
  {
    if rows != [] {
      assert rows == rows[..|rows| - 1] + [rows[|rows| - 1]];
    }
  }

  lemma AdoptedKeys(q: Request, rows: seq<Row>, more: seq<Row>)
    ensures RowKeys(rows + AdoptAll(q, more)) == RowKeys(rows) + RowKeys(more)
  {
    var adopted := AdoptAll(q, more);
    forall k | k in RowKeys(rows) + RowKeys(more)
      ensures k in RowKeys(rows + adopted)
    {
      if k in RowKeys(rows) {
        var r :| r in rows && KeyOf(r) == k;
        assert r in rows + adopted;
      } else {
        var i :| 0 <= i < |more| && KeyOf(more[i]) == k;
        assert adopted[i] in rows + adopted;
      }
    }
    forall k | k in RowKeys(rows + adopted)
      ensures k in RowKeys(rows) + RowKeys(more)
    {
      var r :| r in rows + adopted && KeyOf(r) == k;
      if r !in rows {
        var i :| 0 <= i < |adopted| && adopted[i] == r;
        assert more[i] in more;
      }
    }
  }

  lemma GainKeys(c: Core, a: Answer)
    ensures RowKeys(Fold1(c, a).evidence) == RowKeys(c.evidence) + RowKeys(a.finding.evidence)
    ensures Gain(c, a) == [] <==> RowKeys(a.finding.evidence) <= RowKeys(c.evidence)
  {
    var rows, gain := a.finding.evidence, Gain(c, a);
    NewRowsFacts(RowKeys(c.evidence), rows);
    AdoptedKeys(a.request, c.evidence, gain);
    forall r | r in rows
      ensures KeyOf(r) in RowKeys(c.evidence) || r in gain
    {
    }
    if gain != [] {
      assert gain[0] in gain && KeyOf(gain[0]) in RowKeys(rows);
    }
  }

  /** The loop's state after some answers. */
  ghost predicate Revising(finding: Finding, answers: seq<Answer>, revised: Finding, known: set<RowKey>,
                           knownRefs: set<string>, notes: seq<Note>) {
    && CoreOf(revised) == Fold(CoreOf(finding), answers)
    && known == RowKeys(revised.evidence)
    && notes == NotesOf(CoreOf(finding), answers)
    && (revised.keyEvents, knownRefs) == EventsAfter(finding, answers)
    && (notes == [] ==> revised == finding)
    && revised == finding.(evidence := revised.evidence, anomaly := revised.anomaly, confidence := revised.confidence,
                           start := revised.start, end := revised.end, keyEvents := revised.keyEvents)
  }

  method AbsorbOne(ghost finding: Finding, ghost done: seq<Answer>, answer: Answer, revised: Finding, known: set<RowKey>,
                   knownRefs: set<string>, notes: seq<Note>)
    returns (revised': Finding, known': set<RowKey>, knownRefs': set<string>, notes': seq<Note>)
    requires Revising(finding, done, revised, known, knownRefs, notes)
    ensures Revising(finding, done + [answer], revised', known', knownRefs', notes')
  {
    assert (done + [answer])[..|done|] == done;
    hide NewRows, RowKeys, AdoptAll, JoinEvents, RefsOf;
    revised', known', knownRefs', notes' := revised, known, knownRefs, notes;
    var request, scoped := answer.request, answer.finding;
    var newRows := NewRows(known, scoped.evidence);
    if newRows == [] {
      return;
    }
    AdoptedKeys(request, revised.evidence, newRows);
    known' := known + RowKeys(newRows);
    var (events, refs) := JoinEvents(revised.keyEvents, knownRefs, scoped.keyEvents);
    knownRefs' := refs;
    revised' := revised.(evidence := revised.evidence + AdoptAll(request, newRows), keyEvents := events);
    notes' := notes + [Note(request, newRows)];
    if !revised.anomaly {
      revised' := revised'.(anomaly := true, confidence := scoped.confidence, start := scoped.start, end := scoped.end);
    } else {
      revised' := revised'.(
        confidence := if scoped.confidence > revised.confidence then scoped.confidence else revised.confidence,
        start := if scoped.start < revised.start then scoped.start else revised.start);
    }
  }

  method Absorb(finding: Finding, answers: seq<Answer>, style: Style) returns (revised: Finding)
    ensures revised == Absorbed(finding, answers, style)
  {
    revised := finding;
    var known, knownRefs, notes := RowKeys(finding.evidence), RefsOf(finding.keyEvents), [];
    for i := 0 to |answers|
      invariant Revising(finding, answers[..i], revised, known, knownRefs, notes)
    {
      assert answers[..i + 1] == answers[..i] + [answers[i]];
      revised, known, knownRefs, notes :=
        AbsorbOne(finding, answers[..i], answers[i], revised, known, knownRefs, notes);
    }
    assert answers[..|answers|] == answers;
    if notes == [] {
      return finding;
    }
    revised := revised.(keyEvents := Trim(style, revised.keyEvents, |notes|),
                        summary := revised.summary + VALIDATION_MARK + style.say(notes),
                        revised := true, revisionCount := revised.revisionCount + 1);
  }

  // ----------------------------------------------------------------- theorems

  lemma {:induction false} FoldAppend(c: Core, a: seq<Answer>, b: seq<Answer>)
    ensures Fold(c, a + b) == Fold(Fold(c, a), b)
  {
    if b == [] {
      assert a + b == a;
    } else {
      assert (a + b)[..|a + b| - 1] == a + b[..|b| - 1];
      FoldAppend(c, a, b[..|b| - 1]);
    }
  }

  /** Absorbing in two goes agrees with absorbing at once on evidence, anomaly,
      confidence and times. */
  lemma AbsorbIsFold(f: Finding, a: seq<Answer>, b: seq<Answer>, style: Style)
    ensures CoreOf(Absorbed(f, a, style)) == Fold(CoreOf(f), a)
    ensures CoreOf(Absorbed(Absorbed(f, a, style), b, style)) == CoreOf(Absorbed(f, a + b, style))
  {
    NoNotesNoChange(CoreOf(f), a);
    NoNotesNoChange(CoreOf(f), a + b);
    NoNotesNoChange(CoreOf(Absorbed(f, a, style)), b);
    FoldAppend(CoreOf(f), a, b);
  }

  lemma {:induction false} NoNotesNoChange(c: Core, answers: seq<Answer>)
    ensures NotesOf(c, answers) == [] ==> Fold(c, answers) == c
  {
    if answers != [] {
      NoNotesNoChange(c, answers[..|answers| - 1]);
    }
  }

  function AnswerKeys(answers: seq<Answer>): set<RowKey> {
    set a, r | a in answers && r in a.finding.evidence :: KeyOf(r)
  }

  /** Exactly what absorbing adds: nothing that was there goes, the evidence ends
      up being the old and everything the answers hold, and the finding is
      anomalous iff it was or an answer held something new. */
  lemma {:induction false} FoldExact(c: Core, answers: seq<Answer>)
    ensures c.evidence <= Fold(c, answers).evidence
    ensures RowKeys(Fold(c, answers).evidence) == RowKeys(c.evidence) + AnswerKeys(answers)
    ensures Fold(c, answers).anomaly <==> c.anomaly || !(AnswerKeys(answers) <= RowKeys(c.evidence))
    ensures NotesOf(c, answers) == [] <==> AnswerKeys(answers) <= RowKeys(c.evidence)
  {
    hide RowKeys, AnswerKeys, Fold1, Gain;
    if answers == [] {
      NoAnswers();
    } else {
      var init, a := answers[..|answers| - 1], answers[|answers| - 1];
      assert answers == init + [a];
      FoldExact(c, init);
      GainKeys(Fold(c, init), a);
      Fold1Grows(Fold(c, init), a);
      AnswerKeysSnoc(init, a);
    }
  }

  lemma NoAnswers()
    ensures AnswerKeys([]) == {}
  {
  }

  lemma Fold1Grows(c: Core, a: Answer)
    ensures c.evidence <= Fold1(c, a).evidence
    ensures Fold1(c, a).anomaly <==> c.anomaly || Gain(c, a) != []
  {
  }

  lemma AnswerKeysSnoc(init: seq<Answer>, a: Answer)
    ensures AnswerKeys(init + [a]) == AnswerKeys(init) + RowKeys(a.finding.evidence)
  {
    forall k | k in AnswerKeys(init) + RowKeys(a.finding.evidence)
      ensures k in AnswerKeys(init + [a])
    {
      if k in AnswerKeys(init) {
        var b, r :| b in init && r in b.finding.evidence && KeyOf(r) == k;
        assert b in init + [a];
      } else {
        var r :| r in a.finding.evidence && KeyOf(r) == k;
        assert a in init + [a];
      }
    }
  }

  /** Absorbing the same answers again changes nothing at all. */
  lemma AbsorbIdempotent(f: Finding, answers: seq<Answer>, style: Style)
    ensures Absorbed(Absorbed(f, answers, style), answers, style) == Absorbed(f, answers, style)
  {
    FoldExact(CoreOf(f), answers);
    AbsorbIsFold(f, answers, [], style);
    FoldExact(CoreOf(Absorbed(f, answers, style)), answers);
  }

  /** One absorb revises at most once, and exactly when some answer holds
      evidence the finding does not; the order of the answers does not matter to
      what evidence there is, nor to whether there is an anomaly. */
  lemma AbsorbExact(f: Finding, answers: seq<Answer>, other: seq<Answer>, style: Style)
    requires forall a :: a in answers <==> a in other
    ensures f.evidence <= Absorbed(f, answers, style).evidence
    ensures RowKeys(Absorbed(f, answers, style).evidence) == RowKeys(f.evidence) + AnswerKeys(answers)
    ensures RowKeys(Absorbed(f, answers, style).evidence) == RowKeys(Absorbed(f, other, style).evidence)
    ensures Absorbed(f, answers, style).anomaly == Absorbed(f, other, style).anomaly
    ensures Absorbed(f, answers, style).revisionCount ==
            f.revisionCount + (if AnswerKeys(answers) <= RowKeys(f.evidence) then 0 else 1)
    ensures f.summary <= Absorbed(f, answers, style).summary
  {
    FoldExact(CoreOf(f), answers);
    FoldExact(CoreOf(f), other);
    AbsorbIsFold(f, answers, [], style);
    AbsorbIsFold(f, other, [], style);
    assert AnswerKeys(answers) == AnswerKeys(other);
  }

  // ------------------------------------------------------------------- in rows

  predicate Same(r: Row, x: Row) { x.entity == r.entity && x.signals == r.signals }

  /** The row of answer `i` is new: neither the finding nor an earlier answer has it. */
  ghost predicate IsNew(c: Core, answers: seq<Answer>, i: nat, r: Row)
    requires i < |answers|
  {
    && r in answers[i].finding.evidence
    && (forall x :: x in c.evidence ==> !Same(r, x))
    && (forall j, x :: 0 <= j < i && x in answers[j].finding.evidence ==> !Same(r, x))
  }

  /** Answer `i` brings something new. */
  ghost predicate Gains(c: Core, answers: seq<Answer>, i: nat)
    requires i < |answers|
  {
    exists r :: IsNew(c, answers, i, r)
  }

  lemma NewSnoc(c: Core, init: seq<Answer>, a: Answer)
    ensures forall i, r :: 0 <= i < |init| ==> (IsNew(c, init + [a], i, r) <==> IsNew(c, init, i, r))
    ensures forall i :: 0 <= i < |init| ==> (Gains(c, init + [a], i) <==> Gains(c, init, i))
    ensures forall r :: IsNew(c, init + [a], |init|, r) <==> r in Gain(Fold(c, init), a)
    ensures Gains(c, init + [a], |init|) <==> Gain(Fold(c, init), a) != []
  {
    var answers := init + [a];
    FoldExact(c, init);
    NewRowsFacts(RowKeys(Fold(c, init).evidence), a.finding.evidence);
    hide Fold;
    forall i, r | 0 <= i < |init|
      ensures IsNew(c, answers, i, r) <==> IsNew(c, init, i, r)
    {
      assert forall j :: 0 <= j <= i ==> answers[j] == init[j];
    }
    forall r
      ensures IsNew(c, answers, |init|, r) <==> r in Gain(Fold(c, init), a)
    {
      assert answers[|init|] == a && forall j :: 0 <= j < |init| ==> answers[j] == init[j];
      NewKey(c, init, r);
    }
    if Gain(Fold(c, init), a) != [] {
      assert Gain(Fold(c, init), a)[0] in Gain(Fold(c, init), a);
    }
  }

  lemma NewKey(c: Core, init: seq<Answer>, r: Row)
    ensures KeyOf(r) !in RowKeys(c.evidence) + AnswerKeys(init) <==>
            (forall x :: x in c.evidence ==> !Same(r, x)) && forall j, x :: 0 <= j < |init| && x in init[j].finding.evidence ==> !Same(r, x)
  {
    if x :| x in c.evidence && Same(r, x) {
      assert KeyOf(x) == KeyOf(r);
    }
    if j, x :| 0 <= j < |init| && x in init[j].finding.evidence && Same(r, x) {
      assert init[j] in init && KeyOf(x) == KeyOf(r);
    }
    if KeyOf(r) in AnswerKeys(init) {
      var a, x :| a in init && x in a.finding.evidence && KeyOf(x) == KeyOf(r);
      var j :| 0 <= j < |init| && init[j] == a;
      assert Same(r, x);
    }
    if KeyOf(r) in RowKeys(c.evidence) {
      var x :| x in c.evidence && KeyOf(x) == KeyOf(r);
      assert Same(r, x);
    }
  }

  /** What is adopted: every new row once it is met, as it is but for the question
      that brought it and, where it has none, its origin; nothing else. */
  lemma {:induction false} AdoptedExactly(c: Core, answers: seq<Answer>, x: Row)
    ensures x in Fold(c, answers).evidence <==>
            x in c.evidence ||
            exists i, r :: 0 <= i < |answers| && IsNew(c, answers, i, r) &&
              x == r.(via := if r.via == None then Some(Validation) else r.via, requestedBy := Some(answers[i].request.sender),
                      requestId := Some(answers[i].request.id))
  {
    hide IsNew, Gains, Gain, AdoptAll;
    if answers != [] {
      var init, a := answers[..|answers| - 1], answers[|answers| - 1];
      assert answers == init + [a];
      AdoptedExactly(c, init, x);
      NewSnoc(c, init, a);
      FoldStep(Fold(c, init), a, x);
      if i, r :| 0 <= i < |init| && IsNew(c, init, i, r) && x == Brought(init[i].request, r) {
        assert answers[i] == init[i] && IsNew(c, answers, i, r);
      }
      if r :| r in Gain(Fold(c, init), a) && x == Brought(a.request, r) {
        assert answers[|init|] == a && IsNew(c, answers, |init|, r);
      }
    }
  }

  function Brought(q: Request, r: Row): Row {
    r.(via := if r.via == None then Some(Validation) else r.via, requestedBy := Some(q.sender), requestId := Some(q.id))
  }

  lemma FoldStep(c: Core, a: Answer, x: Row)
    ensures x in Fold1(c, a).evidence <==> x in c.evidence || exists r :: r in Gain(c, a) && x == Brought(a.request, r)
  {
    hide Gain;
    var gain := Gain(c, a);
    var adopted := AdoptAll(a.request, gain);
    if x in adopted {
      var i :| 0 <= i < |adopted| && adopted[i] == x;
      assert gain[i] in gain && x == Brought(a.request, gain[i]);
    }
    if r :| r in gain && x == Brought(a.request, r) {
      var i :| 0 <= i < |gain| && gain[i] == r;
      assert adopted[i] == x;
    }
  }

  /** Of the values: the finding's own where it was anomalous, and those of the
      answers that bring something new. */
  ghost predicate IsOne(c: Core, answers: seq<Answer>, own: real, of: Finding -> real, v: real) {
    (c.anomaly && v == own) || exists i :: 0 <= i < |answers| && Gains(c, answers, i) && v == of(answers[i].finding)
  }

  ghost predicate IsTop(c: Core, answers: seq<Answer>, own: real, of: Finding -> real, v: real) {
    && IsOne(c, answers, own, of, v)
    && forall w :: IsOne(c, answers, own, of, w) ==> w <= v
  }

  function ConfidenceOf(f: Finding): real { f.confidence }

  function EarlinessOf(f: Finding): real { -(f.start as real) }

  /** Confidence and times: the most confident and the earliest start, of the finding
      if it was anomalous and of the answers that brought something new; the end is
      the finding's own if it was anomalous, and else that of the first such answer. */
  ghost predicate ValuesTold(c: Core, answers: seq<Answer>, f: Core) {
    if forall i :: 0 <= i < |answers| ==> !Gains(c, answers, i) then f == c
    else
      && f.anomaly
      && IsTop(c, answers, c.confidence, ConfidenceOf, f.confidence)
      && IsTop(c, answers, -(c.start as real), EarlinessOf, -(f.start as real))
      && (c.anomaly ==> f.end == c.end)
      && (!c.anomaly ==> exists i: nat :: FirstGain(c, answers, i) && f.end == answers[i].finding.end)
  }

  ghost predicate FirstGain(c: Core, answers: seq<Answer>, i: nat) {
    i < |answers| && Gains(c, answers, i) && forall j :: 0 <= j < i ==> !Gains(c, answers, j)
  }

  lemma {:induction false} FoldTold(c: Core, answers: seq<Answer>)
    ensures ValuesTold(c, answers, Fold(c, answers))
  {
    hide Gains, ValuesTold;
    if answers == [] {
      NothingTold(c);
    } else {
      var init, a := answers[..|answers| - 1], answers[|answers| - 1];
      assert answers == init + [a];
      FoldTold(c, init);
      ToldSnoc(c, init, a);
    }
  }

  lemma NothingTold(c: Core)
    ensures ValuesTold(c, [], c)
  {
  }

  lemma ToldSnoc(c: Core, init: seq<Answer>, a: Answer)
    requires ValuesTold(c, init, Fold(c, init))
    ensures ValuesTold(c, init + [a], Fold1(Fold(c, init), a))
  {
    hide Gains, Gain, Fold;
    NewSnoc(c, init, a);
    AnomalousAfterGain(c, init);
    if Gain(Fold(c, init), a) == [] {
      SameTold(c, init, a, Fold(c, init));
    } else {
      MoreTold(c, init, a, Fold(c, init));
    }
  }

  lemma SameTold(c: Core, init: seq<Answer>, a: Answer, f: Core)
    requires ValuesTold(c, init, f)
    requires !Gains(c, init + [a], |init|) && forall i :: 0 <= i < |init| ==> (Gains(c, init + [a], i) <==> Gains(c, init, i))
    ensures ValuesTold(c, init + [a], f)
  {
    hide Gains, IsOne, FirstGain;
    SameOnes(c, init, a, c.confidence, ConfidenceOf);
    SameOnes(c, init, a, -(c.start as real), EarlinessOf);
    FirstsSnoc(c, init, a);
  }

  lemma FirstsSnoc(c: Core, init: seq<Answer>, a: Answer)
    requires forall i :: 0 <= i < |init| ==> (Gains(c, init + [a], i) <==> Gains(c, init, i))
    ensures forall i: nat :: FirstGain(c, init, i) ==> FirstGain(c, init + [a], i) && (init + [a])[i] == init[i]
    ensures Gains(c, init + [a], |init|) && (forall i :: 0 <= i < |init| ==> !Gains(c, init, i)) ==> FirstGain(c, init + [a], |init|)
  {
    hide Gains;
  }

  lemma TopMore(c: Core, init: seq<Answer>, a: Answer, own: real, of: Finding -> real, v: real)
    requires forall w :: IsOne(c, init + [a], own, of, w) <==> IsOne(c, init, own, of, w) || w == of(a.finding)
    requires IsTop(c, init, own, of, v)
    ensures IsTop(c, init + [a], own, of, if of(a.finding) > v then of(a.finding) else v)
  {
    hide IsOne;
  }

  lemma TopFirst(c: Core, init: seq<Answer>, a: Answer, own: real, of: Finding -> real)
    requires forall w :: IsOne(c, init + [a], own, of, w) <==> IsOne(c, init, own, of, w) || w == of(a.finding)
    requires forall w :: !IsOne(c, init, own, of, w)
    ensures IsTop(c, init + [a], own, of, of(a.finding))
  {
    hide IsOne;
  }

  lemma MoreTold(c: Core, init: seq<Answer>, a: Answer, f: Core)
    requires ValuesTold(c, init, f) && Gain(f, a) != []
    requires f.anomaly <==> c.anomaly || exists i :: 0 <= i < |init| && Gains(c, init, i)
    requires Gains(c, init + [a], |init|) && forall i :: 0 <= i < |init| ==> (Gains(c, init + [a], i) <==> Gains(c, init, i))
    ensures ValuesTold(c, init + [a], Fold1(f, a))
  {
    hide Gains, Gain, AdoptAll, IsOne, IsTop, FirstGain;
    OneMore(c, init, a, c.confidence, ConfidenceOf);
    OneMore(c, init, a, -(c.start as real), EarlinessOf);
    FirstsSnoc(c, init, a);
    assert (init + [a])[|init|] == a;
    if f.anomaly {
      TopOne(c, init, c.confidence, ConfidenceOf, f.confidence);
      TopOne(c, init, -(c.start as real), EarlinessOf, -(f.start as real));
      TopMore(c, init, a, c.confidence, ConfidenceOf, f.confidence);
      TopMore(c, init, a, -(c.start as real), EarlinessOf, -(f.start as real));
    } else {
      NoOnes(c, init, c.confidence, ConfidenceOf);
      NoOnes(c, init, -(c.start as real), EarlinessOf);
      TopFirst(c, init, a, c.confidence, ConfidenceOf);
      TopFirst(c, init, a, -(c.start as real), EarlinessOf);
    }
  }

  /** Of an anomalous finding without gains the values are its own. */
  lemma TopOne(c: Core, init: seq<Answer>, own: real, of: Finding -> real, v: real)
    requires if forall i :: 0 <= i < |init| ==> !Gains(c, init, i) then c.anomaly && v == own else IsTop(c, init, own, of, v)
    ensures IsTop(c, init, own, of, v)
  {
    hide Gains;
  }

  lemma NoOnes(c: Core, init: seq<Answer>, own: real, of: Finding -> real)
    requires !c.anomaly && forall i :: 0 <= i < |init| ==> !Gains(c, init, i)
    ensures forall v :: !IsOne(c, init, own, of, v)
  {
    hide Gains;
  }

  lemma SameOnes(c: Core, init: seq<Answer>, a: Answer, own: real, of: Finding -> real)
    requires !Gains(c, init + [a], |init|) && forall i :: 0 <= i < |init| ==> (Gains(c, init + [a], i) <==> Gains(c, init, i))
    ensures forall v :: IsOne(c, init + [a], own, of, v) <==> IsOne(c, init, own, of, v)
  {
    hide Gains;
    assert forall i :: 0 <= i < |init| ==> (init + [a])[i] == init[i];
  }

  lemma OneMore(c: Core, init: seq<Answer>, a: Answer, own: real, of: Finding -> real)
    requires Gains(c, init + [a], |init|) && forall i :: 0 <= i < |init| ==> (Gains(c, init + [a], i) <==> Gains(c, init, i))
    ensures forall v :: IsOne(c, init + [a], own, of, v) <==> IsOne(c, init, own, of, v) || v == of(a.finding)
  {
    hide Gains;
    assert forall i :: 0 <= i < |init| ==> (init + [a])[i] == init[i];
    assert (init + [a])[|init|] == a;
  }

  lemma {:induction false} AnomalousAfterGain(c: Core, answers: seq<Answer>)
    ensures Fold(c, answers).anomaly <==> c.anomaly || exists i :: 0 <= i < |answers| && Gains(c, answers, i)
  {
    hide Gains, Gain;
    if answers != [] {
      var init, a := answers[..|answers| - 1], answers[|answers| - 1];
      assert answers == init + [a];
      AnomalousAfterGain(c, init);
      NewSnoc(c, init, a);
    }
  }

  // ------------------------------------------------------------------ in order

  /** A row that neither these rows nor the answers before hold. */
  ghost function NewTo(rows: seq<Row>, before: seq<Answer>): Row -> Option<Row> {
    (r: Row) =>
      if (exists x :: x in rows && Same(r, x)) || exists j, x :: 0 <= j < |before| && x in before[j].finding.evidence && Same(r, x)
      then None else Some(r)
  }

  /** One note for each answer that brings something new, in order, with the rows
      it brings; `places` are those answers. */
  ghost predicate NotedAt(c: Core, answers: seq<Answer>, notes: seq<Note>, places: seq<nat>) {
    && |places| == |notes|
    && (forall k, l :: 0 <= k < l < |places| ==> places[k] < places[l])
    && (forall k :: 0 <= k < |places| ==>
          places[k] < |answers| &&
          var a := answers[places[k]];
          notes[k] == Note(a.request, Picked(a.finding.evidence, NewTo(c.evidence, answers[..places[k]]))))
    && forall i :: 0 <= i < |answers| ==> (i in places <==> Gains(c, answers, i))
  }

  lemma {:induction false} NewRowsPicked(c: Core, init: seq<Answer>, rows: seq<Row>)
    ensures NewRows(RowKeys(Fold(c, init).evidence), rows) == Picked(rows, NewTo(c.evidence, init))
  {
    hide Fold, RowKeys, AnswerKeys;
    if rows != [] {
      NewRowsPicked(c, init, rows[..|rows| - 1]);
      FoldExact(c, init);
      NewKey(c, init, rows[|rows| - 1]);
    }
  }

  lemma {:induction false} NotesExactly(c: Core, answers: seq<Answer>) returns (places: seq<nat>)
    ensures NotedAt(c, answers, NotesOf(c, answers), places)
  {
    places := [];
    if answers != [] {
      var init, a := answers[..|answers| - 1], answers[|answers| - 1];
      assert answers == init + [a];
      var before := NotesExactly(c, init);
      NewSnoc(c, init, a);
      NewRowsPicked(c, init, a.finding.evidence);
      places := if Gain(Fold(c, init), a) == [] then before else before + [|init|];
      NotedSnoc(c, init, a, NotesOf(c, init), before);
    }
  }

  lemma NotedSnoc(c: Core, init: seq<Answer>, a: Answer, notes: seq<Note>, places: seq<nat>)
    requires NotedAt(c, init, notes, places)
    requires forall i :: 0 <= i < |init| ==> (Gains(c, init + [a], i) <==> Gains(c, init, i))
    ensures !Gains(c, init + [a], |init|) ==> NotedAt(c, init + [a], notes, places)
    ensures Gains(c, init + [a], |init|) ==>
              NotedAt(c, init + [a], notes + [Note(a.request, Picked(a.finding.evidence, NewTo(c.evidence, init)))], places + [|init|])
  {
    hide Gains, Picked, NewTo;
    var answers, more := init + [a], places + [|init|];
    assert forall k :: 0 <= k < |places| ==> answers[places[k]] == init[places[k]] && answers[..places[k]] == init[..places[k]];
    assert answers[..|init|] == init && more[|places|] == |init|;
    forall i | 0 <= i < |answers|
      ensures i in more <==> i in places || i == |init|
    {
      if i in places {
        var k :| 0 <= k < |places| && places[k] == i;
        assert more[k] == i;
      }
    }
  }

  /** The rows of the notes, as they are but for the question recorded in each and,
      where it has none, its origin. */
  function Adoption(notes: seq<Note>): seq<Row> {
    if notes == [] then [] else
      var note := notes[|notes| - 1];
      Adoption(notes[..|notes| - 1]) + seq(|note.rows|, i requires 0 <= i < |note.rows| => Brought(note.request, note.rows[i]))
  }

  lemma {:induction false} AdoptedInOrder(c: Core, answers: seq<Answer>)
    ensures Fold(c, answers).evidence == c.evidence + Adoption(NotesOf(c, answers))
  {
    hide Gain, Fold1;
    if answers != [] {
      var init, a := answers[..|answers| - 1], answers[|answers| - 1];
      AdoptedInOrder(c, init);
      AdoptsGain(Fold(c, init), a);
    }
  }

  lemma AdoptsGain(c: Core, a: Answer)
    ensures Gain(c, a) == [] ==> Fold1(c, a) == c
    ensures var gain := Gain(c, a);
            gain != [] ==> Fold1(c, a).evidence == c.evidence + seq(|gain|, i requires 0 <= i < |gain| => Brought(a.request, gain[i]))
  {
    hide Gain;
    var gain := Gain(c, a);
    assert AdoptAll(a.request, gain) == seq(|gain|, i requires 0 <= i < |gain| => Brought(a.request, gain[i]));
  }

  /** The event at `i` may join: it fired a rule and cites nothing cited before, by
      the events there or by those that joined. */
  ghost predicate MayJoin(refs: set<string>, more: seq<KeyEvent>, places: seq<nat>, i: nat)
    requires i < |more|
  {
    && more[i].fired != []
    && (forall r :: r in more[i].refs ==> r !in refs)
    && (forall p, r :: p in places && p < i && r in more[p].refs ==> r !in more[i].refs)
  }

  ghost predicate JoinsAt(refs: set<string>, more: seq<KeyEvent>, joined: seq<KeyEvent>, places: seq<nat>) {
    && |places| == |joined|
    && (forall k, l :: 0 <= k < l < |places| ==> places[k] < places[l])
    && (forall k :: 0 <= k < |places| ==> places[k] < |more| && joined[k] == more[places[k]])
    && forall i :: 0 <= i < |more| ==> (i in places <==> MayJoin(refs, more, places, i))
  }

  ghost predicate CitedBy(more: seq<KeyEvent>, places: seq<nat>, r: string) {
    exists p :: p in places && p < |more| && r in more[p].refs
  }

  /** Key events: none goes, and those that may join do, in order. */
  lemma {:induction false} JoinExactly(events: seq<KeyEvent>, refs: set<string>, more: seq<KeyEvent>)
    returns (joined: seq<KeyEvent>, places: seq<nat>)
    ensures JoinEvents(events, refs, more).0 == events + joined && JoinsAt(refs, more, joined, places)
    ensures forall r :: r in JoinEvents(events, refs, more).1 <==> r in refs || CitedBy(more, places, r)
  {
    joined, places := [], [];
    if more != [] {
      var init, e := more[..|more| - 1], more[|more| - 1];
      assert more == init + [e];
      joined, places := JoinExactly(events, refs, init);
      var (es, rs) := JoinEvents(events, refs, init);
      JoinSnoc(refs, init, e, joined, places, rs);
      OwnRefs(e, rs);
      if e.fired != [] && forall r :: r in e.refs ==> r !in rs {
        joined, places := joined + [e], places + [|init|];
      }
    }
  }

  lemma OwnRefs(e: KeyEvent, refs: set<string>)
    ensures (set r | r in e.refs) * refs == {} <==> forall r :: r in e.refs ==> r !in refs
  {
    if r :| r in e.refs && r in refs {
      assert r in (set r | r in e.refs) * refs;
    }
  }

  lemma JoinSnoc(refs: set<string>, init: seq<KeyEvent>, e: KeyEvent, joined: seq<KeyEvent>, places: seq<nat>, known: set<string>)
    requires JoinsAt(refs, init, joined, places)
    requires forall r :: r in known <==> r in refs || CitedBy(init, places, r)
    ensures var joins := e.fired != [] && forall r :: r in e.refs ==> r !in known;
            && (!joins ==> JoinsAt(refs, init + [e], joined, places) && forall r :: CitedBy(init + [e], places, r) <==> CitedBy(init, places, r))
            && (joins ==>
                 && JoinsAt(refs, init + [e], joined + [e], places + [|init|])
                 && forall r :: CitedBy(init + [e], places + [|init|], r) <==> CitedBy(init, places, r) || r in e.refs)
  {
    var more, all := init + [e], places + [|init|];
    assert all[|places|] == |init| && more[|init|] == e;
    assert forall p :: p in places ==> p < |init| && more[p] == init[p];
    assert forall p :: p in all <==> p in places || p == |init|;
    hide JoinsAt;
    forall r
      ensures CitedBy(more, places, r) <==> CitedBy(init, places, r)
      ensures CitedBy(more, all, r) <==> CitedBy(init, places, r) || r in e.refs
    {
      if CitedBy(init, places, r) {
        var p :| p in places && p < |init| && r in init[p].refs;
        assert p in all && r in more[p].refs;
      }
      if r in e.refs {
        assert |init| in all;
      }
    }
    MaySnoc(refs, init, e, joined, places, known);
  }

  lemma MaySnoc(refs: set<string>, init: seq<KeyEvent>, e: KeyEvent, joined: seq<KeyEvent>, places: seq<nat>, known: set<string>)
    requires JoinsAt(refs, init, joined, places)
    requires forall r :: r in known <==> r in refs || CitedBy(init, places, r)
    ensures var joins := e.fired != [] && forall r :: r in e.refs ==> r !in known;
            && (!joins ==> JoinsAt(refs, init + [e], joined, places))
            && (joins ==> JoinsAt(refs, init + [e], joined + [e], places + [|init|]))
  {
    var more, all := init + [e], places + [|init|];
    assert all[|places|] == |init| && more[|init|] == e;
    assert forall p :: p in places ==> p < |init| && more[p] == init[p];
    assert forall p :: p in all <==> p in places || p == |init|;
    forall i | 0 <= i < |init|
      ensures MayJoin(refs, more, places, i) <==> MayJoin(refs, init, places, i)
      ensures MayJoin(refs, more, all, i) <==> MayJoin(refs, init, places, i)
    {
    }
    assert MayJoin(refs, more, places, |init|) <==> (e.fired != [] && forall r :: r in e.refs ==> r !in known);
    assert MayJoin(refs, more, all, |init|) <==> MayJoin(refs, more, places, |init|);
  }

  lemma {:induction false} JoinConcat(events: seq<KeyEvent>, refs: set<string>, a: seq<KeyEvent>, b: seq<KeyEvent>)
    ensures var (es, rs) := JoinEvents(events, refs, a); JoinEvents(es, rs, b) == JoinEvents(events, refs, a + b)
  {
    if b == [] {
      assert a + b == a;
    } else {
      assert (a + b)[..|a + b| - 1] == a + b[..|b| - 1];
      JoinConcat(events, refs, a, b[..|b| - 1]);
    }
  }

  /** The key events of the answers that bring something new, in order. */
  ghost function NewsEvents(c: Core, answers: seq<Answer>): seq<KeyEvent> {
    if answers == [] then [] else
      NewsEvents(c, answers[..|answers| - 1]) +
      (if Gains(c, answers, |answers| - 1) then answers[|answers| - 1].finding.keyEvents else [])
  }

  lemma {:induction false} EventsExactly(f: Finding, answers: seq<Answer>)
    ensures EventsAfter(f, answers) == JoinEvents(f.keyEvents, RefsOf(f.keyEvents), NewsEvents(CoreOf(f), answers))
  {
    hide Gains, Gain, Fold, RefsOf;
    if answers != [] {
      var init, a := answers[..|answers| - 1], answers[|answers| - 1];
      assert answers == init + [a];
      EventsExactly(f, init);
      NewSnoc(CoreOf(f), init, a);
      JoinConcat(f.keyEvents, RefsOf(f.keyEvents), NewsEvents(CoreOf(f), init), a.finding.keyEvents);
      assert NewsEvents(CoreOf(f), init) + [] == NewsEvents(CoreOf(f), init);
    }
  }

  /** Absorbing as a whole: without news the finding stays; with news it takes the
      rows of the notes and the key events that may join, says so, and is revised. */
  lemma AbsorbedTold(f: Finding, answers: seq<Answer>, style: Style)
    returns (notes: seq<Note>, gaining: seq<nat>, joined: seq<KeyEvent>, joining: seq<nat>)
    ensures NotedAt(CoreOf(f), answers, notes, gaining)
    ensures JoinsAt(set e, r | e in f.keyEvents && r in e.refs :: r, NewsEvents(CoreOf(f), answers), joined, joining)
    ensures var g := Absorbed(f, answers, style);
            g == if notes == [] then f else
              f.(evidence := f.evidence + Adoption(notes), anomaly := true, confidence := g.confidence, start := g.start, end := g.end,
                 keyEvents := Trim(style, f.keyEvents + joined, |notes|), summary := f.summary + ". Peer validation: " + style.say(notes),
                 revised := true, revisionCount := f.revisionCount + 1)
  {
    notes := NotesOf(CoreOf(f), answers);
    gaining := NotesExactly(CoreOf(f), answers);
    joined, joining := JoinExactly(f.keyEvents, RefsOf(f.keyEvents), NewsEvents(CoreOf(f), answers));
    EventsExactly(f, answers);
    AdoptedInOrder(CoreOf(f), answers);
    FoldExact(CoreOf(f), answers);
    hide NotedAt, JoinsAt, NewsEvents, Trim, Fold, NotesOf, EventsAfter, JoinEvents;
  }

  /** The event fired a rule of a cause. */
  predicate OfCause(style: Style, e: KeyEvent) { exists s :: s in e.fired && style.isCause(s) }

  /** The key events kept: those of causes first and otherwise in order, all of them
      or as many as the limit (at least one) and the notes allow. */
  lemma TrimTold(style: Style, events: seq<KeyEvent>, notes: nat) returns (places: seq<nat>)
    ensures |places| == |events| && forall i :: 0 <= i < |events| ==> i in places
    ensures var out := Trim(style, events, notes);
            && |out| <= |places|
            && (forall k :: 0 <= k < |out| ==> places[k] < |events| && out[k] == events[places[k]])
            && (forall k, l :: 0 <= k < l < |out| && (OfCause(style, out[k]) <==> OfCause(style, out[l])) ==> places[k] < places[l])
    ensures var out := Trim(style, events, notes);
            var cut := style.limit.Some? && |events| > (if style.limit.value < 1 then 1 else style.limit.value) + notes;
            && (!cut ==> multiset(out) == multiset(events))
            && (cut ==> |out| == (if style.limit.value < 1 then 1 else style.limit.value) + notes)
            && (forall e :: e in out ==> e in events)
            && (forall i, j :: 0 <= i < j < |out| && OfCause(style, out[j]) ==> OfCause(style, out[i]))
            && (forall e, x :: e in out && x in events && x !in out && OfCause(style, x) ==> OfCause(style, e))
  {
    hide Sort, OfCause, CauseRank;
    var le := CausesFirst(style.isCause);
    assert Preorder(le);
    var sorted := Sort(le, events);
    SortCorrect(le, events);
    SameElements(sorted, events);
    places := SortPlaces(le, events);
    forall a, b | le(a, b) && OfCause(style, b)
      ensures OfCause(style, a)
    {
      RankTold(style, a);
      RankTold(style, b);
    }
    forall a, b | OfCause(style, a) <==> OfCause(style, b)
      ensures le(a, b)
    {
      RankTold(style, a);
      RankTold(style, b);
    }
    if style.limit.Some? {
      SortedPrefix(le, events, (if style.limit.value > 1 then style.limit.value else 1) + notes);
    }
  }

  lemma RankTold(style: Style, e: KeyEvent)
    ensures CauseRank(style.isCause, e) == if OfCause(style, e) then 0 else 1
  {
  }
}
