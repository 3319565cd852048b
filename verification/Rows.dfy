/** detection/analyze.py: evidence rows and unclassified rows, deduplicated with
    counts, extremes and caps. */
module Rows {
  import opened Prelude
  import opened Topology
  import opened Contract

  const MAX_UNCLASSIFIED := 20
  const MAX_EVIDENCE := 50
  const MAX_REFS_PER_ROW := 5

  function Worse(a: Severity, b: Severity): Severity {
    if SeverityRank(b) > SeverityRank(a) then b else a
  }

  function MinTime(a: Time, b: Time): Time { if b < a then b else a }
  function MaxTime(a: Time, b: Time): Time { if b > a then b else a }

  // -------------------------------------------------------------------- roles

  /** investigation.json: roles by signal, overrides by what fires beside it, and
      the catalog name of a raw signal. */
  datatype Roles = Roles(signalRole: string -> Option<Role>, overrides: map<string, seq<(string, Role)>>, catalogName: string -> string)

  function Override(rs: seq<(string, Role)>, present: set<string>): Option<Role> {
    if rs == [] then None else if rs[0].0 in present then Some(rs[0].1) else Override(rs[1..], present)
  }

  function RoleOfOne(roles: Roles, n: string, present: set<string>): Option<Role> {
    var o := if n in roles.overrides then Override(roles.overrides[n], present) else None;
    if o.Some? then o else roles.signalRole(n)
  }

  function RoleOf(roles: Roles, names: set<string>): Option<Role> {
    var present := names + set n | n in names :: roles.catalogName(n);
    if exists n :: n in present && RoleOfOne(roles, n, present) == Some(Cause) then Some(Cause)
    else if exists n :: n in present && RoleOfOne(roles, n, present) == Some(Symptom) then Some(Symptom)
    else None
  }

  function RoleRank(r: Option<Role>): nat {
    match r
    case Some(Cause) => 0
    case None => 1
    case Some(Symptom) => 2
  }

  // ------------------------------------------------------------- observations

  datatype HitSignal = HitSignal(name: string, severity: Severity, ref: string)

  /** A hit observation; `text` is its first line with the digits blanked. */
  datatype HitObs = HitObs(entity: Node, labels: Labels, at: Time, hits: seq<HitSignal>, text: string)

  datatype DedupeKey = DedupeKey(names: set<string>, entity: Node, labels: Labels, text: string)

  function NamesOf(o: HitObs): set<string> { set h | h in o.hits :: h.name }

  function KeyOfObs(o: HitObs): DedupeKey { DedupeKey(NamesOf(o), o.entity, o.labels, o.text) }

  function WorstHit(hits: seq<HitSignal>): (s: Severity)
    requires hits != []
    ensures exists h :: h in hits && s == h.severity
    ensures forall h :: h in hits ==> SeverityRank(h.severity) <= SeverityRank(s)
  {
    if |hits| == 1 then hits[0].severity else Worse(WorstHit(hits[..|hits| - 1]), hits[|hits| - 1].severity)
  }

  datatype EvidenceRow = EvidenceRow(entity: Node, names: set<string>, role: Option<Role>, severity: Severity,
                                     firstSeen: Time, lastSeen: Time, count: nat, refs: seq<string>)

  function AddRef(refs: seq<string>, ref: string): seq<string> {
    if ref != "" && ref !in refs && |refs| < MAX_REFS_PER_ROW then refs + [ref] else refs
  }

  function AddRefs(refs: seq<string>, hits: seq<HitSignal>): seq<string> {
    if hits == [] then refs else AddRef(AddRefs(refs, hits[..|hits| - 1]), hits[|hits| - 1].ref)
  }

  function NewRow(roles: Roles, o: HitObs): EvidenceRow
    requires o.hits != []
  {
    EvidenceRow(o.entity, NamesOf(o), RoleOf(roles, NamesOf(o)), WorstHit(o.hits), o.at, o.at, 0, [])
  }

  function Count(r: EvidenceRow, o: HitObs): EvidenceRow
    requires o.hits != []
  {
    r.(count := r.count + 1, firstSeen := MinTime(r.firstSeen, o.at), lastSeen := MaxTime(r.lastSeen, o.at),
       severity := Worse(r.severity, WorstHit(o.hits)), refs := AddRefs(r.refs, o.hits))
  }

  predicate AllHit(os: seq<HitObs>) { forall o :: o in os ==> o.hits != [] }

  /** The row of one group of duplicates. */
  function RowOf(roles: Roles, g: seq<HitObs>): EvidenceRow
    requires g != [] && AllHit(g)
  {
    if |g| == 1 then Count(NewRow(roles, g[0]), g[0]) else Count(RowOf(roles, g[..|g| - 1]), g[|g| - 1])
  }

  /** What a row says of its duplicates: how many, the true extremes, the worst
      severity; and a role, entity and names that do not depend on which of them
      came first. */
  lemma {:induction false} RowExact(roles: Roles, g: seq<HitObs>)
    requires g != [] && AllHit(g) && forall o :: o in g ==> KeyOfObs(o) == KeyOfObs(g[0])
    ensures var r := RowOf(roles, g);
            && r.count == |g|
            && (exists o :: o in g && r.firstSeen == o.at) && (forall o :: o in g ==> r.firstSeen <= o.at)
            && (exists o :: o in g && r.lastSeen == o.at) && (forall o :: o in g ==> o.at <= r.lastSeen)
            && (exists o, h :: o in g && h in o.hits && r.severity == h.severity)
            && (forall o, h :: o in g && h in o.hits ==> SeverityRank(h.severity) <= SeverityRank(r.severity))
    ensures forall o :: o in g ==>
              RowOf(roles, g).role == RoleOf(roles, NamesOf(o)) && RowOf(roles, g).entity == o.entity && RowOf(roles, g).names == NamesOf(o)
  {
    if |g| == 1 {
      assert g == [g[0]];
    } else {
      var init, last := g[..|g| - 1], g[|g| - 1];
      assert g == init + [last];
      RowExact(roles, init);
      assert last in g;
    }
  }

  /** References are kept once each, only real ones, and at most five. */
  lemma {:induction false} AddRefsExact(refs: seq<string>, hits: seq<HitSignal>)
    requires NoDup(refs) && |refs| <= MAX_REFS_PER_ROW
    ensures var r := AddRefs(refs, hits);
            && NoDup(r) && refs <= r && |r| <= MAX_REFS_PER_ROW
            && (forall x :: x in r ==> x in refs || exists h :: h in hits && h.ref == x && x != "")
            && (|r| < MAX_REFS_PER_ROW ==> forall h :: h in hits && h.ref != "" ==> h.ref in r)
  {
    if hits != [] {
      AddRefsExact(refs, hits[..|hits| - 1]);
      assert hits == hits[..|hits| - 1] + [hits[|hits| - 1]];
    }
  }

  function AllHits(g: seq<HitObs>): seq<HitSignal> {
    if g == [] then [] else AllHits(g[..|g| - 1]) + g[|g| - 1].hits
  }

  lemma {:induction false} AddRefsAppend(refs: seq<string>, a: seq<HitSignal>, b: seq<HitSignal>)
    ensures AddRefs(refs, a + b) == AddRefs(AddRefs(refs, a), b)
  {
    if b == [] {
      assert a + b == a;
    } else {
      assert (a + b)[..|a + b| - 1] == a + b[..|b| - 1];
      AddRefsAppend(refs, a, b[..|b| - 1]);
    }
  }

  /** A row's references are the first five distinct ones its duplicates cite. */
  lemma {:induction false} RowRefs(roles: Roles, g: seq<HitObs>)
    requires g != [] && AllHit(g)
    ensures RowOf(roles, g).refs == AddRefs([], AllHits(g))
  {
    if |g| == 1 {
      assert AllHits(g[..0]) == [] && AllHits(g) == g[0].hits;
    } else {
      RowRefs(roles, g[..|g| - 1]);
      AddRefsAppend([], AllHits(g[..|g| - 1]), g[|g| - 1].hits);
    }
  }

  // ----------------------------------------------------------------- evidence

  /** sorted(..., key=(role rank, -severity rank, first_seen)) */
  predicate EvidenceLe(a: EvidenceRow, b: EvidenceRow) {
    if RoleRank(a.role) != RoleRank(b.role) then RoleRank(a.role) < RoleRank(b.role)
    else if SeverityRank(a.severity) != SeverityRank(b.severity) then SeverityRank(a.severity) > SeverityRank(b.severity)
    else a.firstSeen <= b.firstSeen
  }

  type RowTable = map<DedupeKey, EvidenceRow>

  /** One row per distinct key, made of exactly that key's observations. */
  ghost predicate Deduped(roles: Roles, os: seq<HitObs>, order: seq<DedupeKey>, rows: RowTable) {
    && order == Keys(KeyOfObs, os)
    && (forall k :: k in rows <==> k in order)
    && (forall k :: k in rows ==> var g := Members(KeyOfObs, os, k); g != [] && AllHit(g) && rows[k] == RowOf(roles, g))
  }

  lemma RowSnoc(roles: Roles, g: seq<HitObs>, o: HitObs)
    requires AllHit(g) && o.hits != []
    ensures AllHit(g + [o])
    ensures RowOf(roles, g + [o]) == Count(if g == [] then NewRow(roles, o) else RowOf(roles, g), o)
  {
    assert (g + [o])[..|g|] == g;
  }

  lemma DedupeOne(roles: Roles, os: seq<HitObs>, o: HitObs, order: seq<DedupeKey>, rows: RowTable)
    requires Deduped(roles, os, order, rows) && o.hits != []
    ensures var k := KeyOfObs(o);
            Deduped(roles, os + [o], if k in rows then order else order + [k],
                    rows[k := Count(if k in rows then rows[k] else NewRow(roles, o), o)])
  {
    hide RowOf, Keys, Members, Count, NewRow;
    var k := KeyOfObs(o);
    GroupFacts(KeyOfObs, os);
    GroupSnoc(KeyOfObs, os, o);
    var g := Members(KeyOfObs, os, k);
    assert k in rows <==> g != [];
    RowSnoc(roles, g, o);
  }

  /** The row of the observations with key `k`. */
  function RowFor(roles: Roles, os: seq<HitObs>, k: DedupeKey): EvidenceRow
    requires AllHit(os) && k in Keys(KeyOfObs, os)
  {
    GroupFacts(KeyOfObs, os);
    RowOf(roles, Members(KeyOfObs, os, k))
  }

  /** One row per key. */
  function AllRows(roles: Roles, os: seq<HitObs>): (r: seq<EvidenceRow>)
    requires AllHit(os)
    ensures |r| == |Keys(KeyOfObs, os)|
  {
    var keys := Keys(KeyOfObs, os);
    seq(|keys|, i requires 0 <= i < |keys| => RowFor(roles, os, keys[i]))
  }

  method Evidence(roles: Roles, os: seq<HitObs>) returns (out: seq<EvidenceRow>)
    requires AllHit(os)
    ensures out == Top(EvidenceLe, AllRows(roles, os), MAX_EVIDENCE)
  {
    var rows: RowTable, order: seq<DedupeKey> := map[], [];
    for i := 0 to |os|
      invariant Deduped(roles, os[..i], order, rows)
    {
      var o := os[i];
      assert os[..i + 1] == os[..i] + [o];
      var key := KeyOfObs(o);
      DedupeOne(roles, os[..i], o, order, rows);
      if key !in rows {
        rows := rows[key := NewRow(roles, o)];
        order := order + [key];
      }
      rows := rows[key := Count(rows[key], o)];
    }
    assert os[..|os|] == os;
    var values := seq(|order|, i requires 0 <= i < |order| => rows[order[i]]);
    assert values == AllRows(roles, os);
    var ordered := Sort(EvidenceLe, values);
    out := if |ordered| <= MAX_EVIDENCE then ordered else ordered[..MAX_EVIDENCE];
  }

  function CountOf(r: EvidenceRow): int { r.count }

  lemma RowForCount(roles: Roles, os: seq<HitObs>, k: DedupeKey)
    requires AllHit(os) && k in Keys(KeyOfObs, os)
    ensures RowFor(roles, os, k).count == |Members(KeyOfObs, os, k)|
  {
    hide RowOf, Keys, Members;
    GroupFacts(KeyOfObs, os);
    RowExact(roles, Members(KeyOfObs, os, k));
  }

  lemma {:induction false} CountsAreSizes(roles: Roles, os: seq<HitObs>, n: nat)
    requires AllHit(os) && n <= |Keys(KeyOfObs, os)|
    ensures SumOver(AllRows(roles, os)[..n], CountOf) == SumOver(Keys(KeyOfObs, os)[..n], Sizes(KeyOfObs, os))
  {
    var keys, rows := Keys(KeyOfObs, os), AllRows(roles, os);
    if n > 0 {
      CountsAreSizes(roles, os, n - 1);
      assert rows[..n][..n - 1] == rows[..n - 1] && keys[..n][..n - 1] == keys[..n - 1];
      RowForCount(roles, os, keys[n - 1]);
      hide RowFor, Keys, Members;
    }
  }

  /** Deduplication loses no evidence. Every observation falls under one of the
      distinct keys, and each key has one row; unless rows are cut, the counts of
      the reported rows add up to the observations; and a row that is cut never
      outranks one that is reported. */
  lemma EvidenceConserved(roles: Roles, os: seq<HitObs>, out: seq<EvidenceRow>)
    requires AllHit(os) && out == Top(EvidenceLe, AllRows(roles, os), MAX_EVIDENCE)
    ensures var keys := Keys(KeyOfObs, os);
            && NoDup(keys) && (forall o :: o in os ==> KeyOfObs(o) in keys)
            && |out| == (if |keys| <= MAX_EVIDENCE then |keys| else MAX_EVIDENCE)
            && SumOver(AllRows(roles, os), CountOf) == |os|
            && (|keys| <= MAX_EVIDENCE ==> SumOver(out, CountOf) == |os|)
            && (forall r :: r in out ==> exists k :: k in keys && r == RowFor(roles, os, k))
            && (forall k, r :: k in keys && r in out && RowFor(roles, os, k) !in out ==> EvidenceLe(r, RowFor(roles, os, k)))
  {
    hide RowOf, RowFor, Sort, Keys, Members, SumOver;
    var keys, all := Keys(KeyOfObs, os), AllRows(roles, os);
    GroupFacts(KeyOfObs, os);
    GroupConserves(KeyOfObs, os);
    CountsAreSizes(roles, os, |keys|);
    assert all[..|keys|] == all && keys[..|keys|] == keys;
    SumSort(EvidenceLe, all, CountOf);
    SortedPrefix(EvidenceLe, all, MAX_EVIDENCE);
    assert forall i :: 0 <= i < |keys| ==> all[i] == RowFor(roles, os, keys[i]);
  }

  // ------------------------------------------------------------- unclassified

  datatype RawSignal = RawSignal(name: string, entity: Node, at: Time, value: Option<real>, severity: Severity, text: string, ref: string)

  datatype RawKey = RawKey(name: string, entity: Node, text: string)

  function KeyOfRaw(s: RawSignal): RawKey { RawKey(s.name, s.entity, s.text) }

  datatype RawRow = RawRow(name: string, entity: Node, at: Time, lastSeen: Time, value: Option<real>, low: Option<real>, high: Option<real>,
                           severity: Severity, count: nat, refs: seq<string>)

  function NewRaw(s: RawSignal): RawRow {
    RawRow(s.name, s.entity, s.at, s.at, s.value, None, None, s.severity, 0, [])
  }

  function Lower(a: Option<real>, x: real): Option<real> { if a.Some? && a.value <= x then a else Some(x) }
  function Higher(a: Option<real>, x: real): Option<real> { if a.Some? && a.value >= x then a else Some(x) }

  function CountRaw(r: RawRow, s: RawSignal): RawRow {
    var r1 := r.(count := r.count + 1, lastSeen := s.at, severity := Worse(r.severity, s.severity),
                 refs := if s.ref != "" && |r.refs| < MAX_REFS_PER_ROW then r.refs + [s.ref] else r.refs);
    if s.value.None? then r1 else
      r1.(value := s.value, low := Lower(r.low, s.value.value), high := Higher(r.high, s.value.value))
  }

  function RawRowOf(g: seq<RawSignal>): RawRow
    requires g != []
  {
    if |g| == 1 then CountRaw(NewRaw(g[0]), g[0]) else CountRaw(RawRowOf(g[..|g| - 1]), g[|g| - 1])
  }

  predicate RawLe(a: RawSignal, b: RawSignal) { a.at <= b.at }

  lemma RawRowStep(g: seq<RawSignal>)
    requires |g| > 1
    ensures RawRowOf(g) == CountRaw(RawRowOf(g[..|g| - 1]), g[|g| - 1])
    ensures g == g[..|g| - 1] + [g[|g| - 1]]
  {
    hide CountRaw;
  }

  lemma {:induction false} RawRowSeverity(g: seq<RawSignal>)
    requires g != []
    ensures exists s :: s in g && s.severity == RawRowOf(g).severity
    ensures forall s :: s in g ==> SeverityRank(s.severity) <= SeverityRank(RawRowOf(g).severity)
  {
    if |g| == 1 {
      assert g == [g[0]];
    } else {
      RawRowSeverity(g[..|g| - 1]);
      RawRowStep(g);
      hide RawRowOf;
    }
  }

  lemma {:induction false} RawRowRefs(g: seq<RawSignal>)
    requires g != []
    ensures |RawRowOf(g).refs| <= MAX_REFS_PER_ROW
    ensures forall x :: x in RawRowOf(g).refs ==> x != "" && exists s :: s in g && s.ref == x
  {
    if |g| == 1 {
      assert g == [g[0]];
    } else {
      var init, last := g[..|g| - 1], g[|g| - 1];
      RawRowRefs(init);
      RawRowStep(g);
      hide RawRowOf;
      forall x | x in RawRowOf(g).refs
        ensures x != "" && exists s :: s in g && s.ref == x
      {
        if x in RawRowOf(init).refs {
          var s :| s in init && s.ref == x;
          assert s in g;
        } else {
          assert last in g && last.ref == x;
        }
      }
    }
  }

  lemma {:induction false} RawRowTimes(g: seq<RawSignal>)
    requires g != []
    ensures RawRowOf(g).count == |g| && RawRowOf(g).at == g[0].at && RawRowOf(g).lastSeen == g[|g| - 1].at
  {
    if |g| > 1 {
      RawRowTimes(g[..|g| - 1]);
    }
  }

  /** Count, worst severity and references of a group. */
  lemma RawRowContent(g: seq<RawSignal>)
    requires g != []
    ensures var r := RawRowOf(g);
            && r.count == |g| && r.at == g[0].at && r.lastSeen == g[|g| - 1].at
            && (exists s :: s in g && s.severity == r.severity) && (forall s :: s in g ==> SeverityRank(s.severity) <= SeverityRank(r.severity))
            && |r.refs| <= MAX_REFS_PER_ROW && (forall x :: x in r.refs ==> x != "" && exists s :: s in g && s.ref == x)
  {
    RawRowTimes(g);
    RawRowSeverity(g);
    RawRowRefs(g);
  }

  /** Of a group in time order the row also has the true first and last sight. */
  lemma RawRowExact(g: seq<RawSignal>)
    requires g != [] && SortedBy(RawLe, g)
    ensures RawRowOf(g).count == |g|
    ensures forall s :: s in g ==> RawRowOf(g).at <= s.at <= RawRowOf(g).lastSeen
    ensures exists s :: s in g && s.at == RawRowOf(g).at
    ensures exists s :: s in g && s.at == RawRowOf(g).lastSeen
  {
    RawRowContent(g);
    hide RawRowOf;
    assert g[0] in g && g[|g| - 1] in g;
    forall s | s in g
      ensures g[0].at <= s.at <= g[|g| - 1].at
    {
      var i :| 0 <= i < |g| && g[i] == s;
      assert (i > 0 ==> RawLe(g[0], g[i])) && (i < |g| - 1 ==> RawLe(g[i], g[|g| - 1]));
    }
  }

  function LastValue(g: seq<RawSignal>): Option<real> {
    if g == [] then None
    else if g[|g| - 1].value.Some? then g[|g| - 1].value else LastValue(g[..|g| - 1])
  }

  ghost predicate Spans(g: seq<RawSignal>, low: Option<real>, high: Option<real>) {
    && (low.Some? <==> high.Some?)
    && (forall s :: s in g && s.value.Some? ==> low.Some? && low.value <= s.value.value <= high.value)
    && (low.Some? ==> (exists s :: s in g && s.value == low) && exists s :: s in g && s.value == high)
  }

  lemma SpansOne(g: seq<RawSignal>, low: Option<real>, high: Option<real>, s: RawSignal)
    requires Spans(g, low, high)
    ensures s.value.None? ==> Spans(g + [s], low, high)
    ensures s.value.Some? ==> Spans(g + [s], Lower(low, s.value.value), Higher(high, s.value.value))
  {
    assert forall x :: x in g ==> x in g + [s];
    assert s in g + [s];
  }

  /** The value shown is the latest one there is, within the true extremes. */
  lemma {:induction false} RawValueExact(g: seq<RawSignal>)
    requires g != []
    ensures var r := RawRowOf(g);
            r.value == LastValue(g) && (r.value.Some? <==> r.low.Some?) && Spans(g, r.low, r.high)
  {
    var init, last := g[..|g| - 1], g[|g| - 1];
    assert g == init + [last];
    if |g| == 1 {
      assert LastValue(init) == None;
      SpansOne(init, None, None, last);
    } else {
      RawValueExact(init);
      RawRowStep(g);
      SpansOne(init, RawRowOf(init).low, RawRowOf(init).high, last);
      hide RawRowOf, Spans;
    }
  }

  lemma {:induction false} MembersSorted(s: seq<RawSignal>, k: RawKey)
    requires SortedBy(RawLe, s)
    ensures SortedBy(RawLe, Members(KeyOfRaw, s, k))
  {
    if s != [] {
      var init := s[..|s| - 1];
      MembersSorted(init, k);
      GroupFacts(KeyOfRaw, init);
      var m := Members(KeyOfRaw, init, k);
      forall i | 0 <= i < |m|
        ensures RawLe(m[i], s[|s| - 1])
      {
        assert m[i] in m && m[i] in init;
        var j :| 0 <= j < |init| && init[j] == m[i];
        assert RawLe(s[j], s[|s| - 1]);
      }
    }
  }

  /** sorted(..., key=(-severity rank, timestamp)) */
  predicate RawRowLe(a: RawRow, b: RawRow) {
    if SeverityRank(a.severity) != SeverityRank(b.severity) then SeverityRank(a.severity) > SeverityRank(b.severity) else a.at <= b.at
  }

  type RawTable = map<RawKey, RawRow>

  ghost predicate DedupedRaw(s: seq<RawSignal>, order: seq<RawKey>, rows: RawTable) {
    && order == Keys(KeyOfRaw, s)
    && (forall k :: k in rows <==> k in order)
    && (forall k :: k in rows ==> Members(KeyOfRaw, s, k) != [] && rows[k] == RawRowOf(Members(KeyOfRaw, s, k)))
  }

  lemma DedupeRawOne(s: seq<RawSignal>, x: RawSignal, order: seq<RawKey>, rows: RawTable)
    requires DedupedRaw(s, order, rows)
    ensures var k := KeyOfRaw(x);
            DedupedRaw(s + [x], if k in rows then order else order + [k],
                       rows[k := CountRaw(if k in rows then rows[k] else NewRaw(x), x)])
  {
    hide RawRowOf, Keys, Members, CountRaw, NewRaw;
    var k := KeyOfRaw(x);
    GroupFacts(KeyOfRaw, s);
    GroupSnoc(KeyOfRaw, s, x);
    var g := Members(KeyOfRaw, s, k);
    assert k in rows <==> g != [];
    RawRowSnoc(g, x);
  }

  lemma RawRowSnoc(g: seq<RawSignal>, x: RawSignal)
    ensures RawRowOf(g + [x]) == CountRaw(if g == [] then NewRaw(x) else RawRowOf(g), x)
  {
    assert (g + [x])[..|g|] == g;
  }

  function RawRowFor(s: seq<RawSignal>, k: RawKey): RawRow
    requires k in Keys(KeyOfRaw, s)
  {
    GroupFacts(KeyOfRaw, s);
    RawRowOf(Members(KeyOfRaw, s, k))
  }

  function AllRawRows(s: seq<RawSignal>): (r: seq<RawRow>)
    ensures |r| == |Keys(KeyOfRaw, s)|
  {
    var keys := Keys(KeyOfRaw, s);
    seq(|keys|, i requires 0 <= i < |keys| => RawRowFor(s, keys[i]))
  }

  method UnclassifiedRows(signals: seq<RawSignal>) returns (out: seq<RawRow>)
    ensures out == Top(RawRowLe, AllRawRows(Sort(RawLe, signals)), MAX_UNCLASSIFIED)
  {
    var s := Sort(RawLe, signals);
    var rows: RawTable, order: seq<RawKey> := map[], [];
    for i := 0 to |s|
      invariant DedupedRaw(s[..i], order, rows)
    {
      assert s[..i + 1] == s[..i] + [s[i]];
      var key := KeyOfRaw(s[i]);
      DedupeRawOne(s[..i], s[i], order, rows);
      if key !in rows {
        rows := rows[key := NewRaw(s[i])];
        order := order + [key];
      }
      rows := rows[key := CountRaw(rows[key], s[i])];
    }
    assert s[..|s|] == s;
    var values := seq(|order|, i requires 0 <= i < |order| => rows[order[i]]);
    assert values == AllRawRows(s);
    var ordered := Sort(RawRowLe, values);
    out := if |ordered| <= MAX_UNCLASSIFIED then ordered else ordered[..MAX_UNCLASSIFIED];
  }

  function CountOfRaw(r: RawRow): int { r.count }

  lemma {:induction false} RawCountsAreSizes(s: seq<RawSignal>, n: nat)
    requires n <= |Keys(KeyOfRaw, s)|
    ensures SumOver(AllRawRows(s)[..n], CountOfRaw) == SumOver(Keys(KeyOfRaw, s)[..n], Sizes(KeyOfRaw, s))
  {
    var keys, rows := Keys(KeyOfRaw, s), AllRawRows(s);
    if n > 0 {
      RawCountsAreSizes(s, n - 1);
      assert rows[..n][..n - 1] == rows[..n - 1] && keys[..n][..n - 1] == keys[..n - 1];
      GroupFacts(KeyOfRaw, s);
      RawRowTimes(Members(KeyOfRaw, s, keys[n - 1]));
    }
  }

  /** The same of unclassified signals, which are grouped in time order: each
      row's times are the true first and last sight. */
  lemma UnclassifiedConserved(signals: seq<RawSignal>, out: seq<RawRow>)
    requires out == Top(RawRowLe, AllRawRows(Sort(RawLe, signals)), MAX_UNCLASSIFIED)
    ensures var s := Sort(RawLe, signals);
            var keys := Keys(KeyOfRaw, s);
            && NoDup(keys) && (forall x :: x in signals ==> KeyOfRaw(x) in keys)
            && |out| == (if |keys| <= MAX_UNCLASSIFIED then |keys| else MAX_UNCLASSIFIED)
            && SumOver(AllRawRows(s), CountOfRaw) == |signals|
            && (|keys| <= MAX_UNCLASSIFIED ==> SumOver(out, CountOfRaw) == |signals|)
            && (forall r :: r in out ==> exists k :: k in keys && r == RawRowFor(s, k))
            && (forall k, r :: k in keys && r in out && RawRowFor(s, k) !in out ==> RawRowLe(r, RawRowFor(s, k)))
            && (forall x :: x in signals ==> RawRowFor(s, KeyOfRaw(x)).at <= x.at <= RawRowFor(s, KeyOfRaw(x)).lastSeen)
  {
    hide RawRowOf, Sort, Keys, Members, SumOver;
    SortCorrect(RawLe, signals);
    var s := Sort(RawLe, signals);
    SameElements(s, signals);
    GroupFacts(KeyOfRaw, s);
    GroupConserves(KeyOfRaw, s);
    var keys, all := Keys(KeyOfRaw, s), AllRawRows(s);
    RawCountsAreSizes(s, |keys|);
    assert all[..|keys|] == all && keys[..|keys|] == keys;
    SumSort(RawRowLe, all, CountOfRaw);
    SortedPrefix(RawRowLe, all, MAX_UNCLASSIFIED);
    assert forall i :: 0 <= i < |keys| ==> all[i] == RawRowFor(s, keys[i]);
    forall x | x in signals
      ensures RawRowFor(s, KeyOfRaw(x)).at <= x.at <= RawRowFor(s, KeyOfRaw(x)).lastSeen
    {
      MembersSorted(s, KeyOfRaw(x));
      RawRowExact(Members(KeyOfRaw, s, KeyOfRaw(x)));
    }
  }

  // ------------------------------------------------------------------ told

  /** The role of one name beside others: that of the first of its overrides whose
      name is present, and otherwise its signal's own. */
  ghost predicate HasRole(roles: Roles, n: string, present: set<string>, role: Option<Role>) {
    if n in roles.overrides && exists p :: p in roles.overrides[n] && p.0 in present then
      exists i :: 0 <= i < |roles.overrides[n]| && roles.overrides[n][i].0 in present && role == Some(roles.overrides[n][i].1)
                  && forall j :: 0 <= j < i ==> roles.overrides[n][j].0 !in present
    else role == roles.signalRole(n)
  }

  lemma {:induction false} OverrideExactly(rs: seq<(string, Role)>, present: set<string>)
    ensures match Override(rs, present)
            case None => forall p :: p in rs ==> p.0 !in present
            case Some(role) => exists i :: 0 <= i < |rs| && rs[i].0 in present && role == rs[i].1 && forall j :: 0 <= j < i ==> rs[j].0 !in present
  {
    if rs != [] {
      OverrideExactly(rs[1..], present);
      assert rs == [rs[0]] + rs[1..];
      var o := Override(rs[1..], present);
      if rs[0].0 !in present && o.Some? {
        var i :| 0 <= i < |rs[1..]| && rs[1..][i].0 in present && o.value == rs[1..][i].1 && forall j :: 0 <= j < i ==> rs[1..][j].0 !in present;
        assert rs[i + 1].0 in present && o.value == rs[i + 1].1;
        forall j | 0 <= j < i + 1
          ensures rs[j].0 !in present
        {
          assert j > 0 ==> rs[j] == rs[1..][j - 1];
        }
      }
    }
  }

  lemma RoleOfOneExactly(roles: Roles, n: string, present: set<string>, role: Option<Role>)
    ensures RoleOfOne(roles, n, present) == role <==> HasRole(roles, n, present, role)
  {
    if n in roles.overrides {
      var rs := roles.overrides[n];
      OverrideExactly(rs, present);
      if i :| 0 <= i < |rs| && rs[i].0 in present && role == Some(rs[i].1) && forall j :: 0 <= j < i ==> rs[j].0 !in present {
        assert rs[i] in rs;
      }
      if p :| p in rs && p.0 in present {
        var k :| 0 <= k < |rs| && rs[k] == p;
      }
    }
  }

  /** The names beside each other: a row's signals and their catalog names. */
  predicate IsBeside(roles: Roles, names: set<string>, n: string) { n in names || exists m :: m in names && n == roles.catalogName(m) }

  /** A row is a cause when any of its names is, with what fires beside it; else a
      symptom when any is; else neither. */
  lemma RoleExactly(roles: Roles, names: set<string>, present: set<string>)
    requires forall n :: n in present <==> IsBeside(roles, names, n)
    ensures RoleOf(roles, names) ==
            if exists n :: n in present && HasRole(roles, n, present, Some(Cause)) then Some(Cause)
            else if exists n :: n in present && HasRole(roles, n, present, Some(Symptom)) then Some(Symptom)
            else None
  {
    hide HasRole, RoleOfOne;
    forall n, role
      ensures RoleOfOne(roles, n, present) == role <==> HasRole(roles, n, present, role)
    {
      RoleOfOneExactly(roles, n, present, role);
    }
    var beside := names + set n | n in names :: roles.catalogName(n);
    assert forall n :: n in beside <==> IsBeside(roles, names, n);
    assert present == beside;
  }

  /** Which observations are duplicates: those of one entity with the same labels
      and text whose hits have the same names. */
  lemma DuplicatesExactly(a: HitObs, b: HitObs)
    ensures KeyOfObs(a) == KeyOfObs(b) <==>
            && a.entity == b.entity && a.labels == b.labels && a.text == b.text
            && (forall h :: h in a.hits ==> exists x :: x in b.hits && x.name == h.name)
            && (forall h :: h in b.hits ==> exists x :: x in a.hits && x.name == h.name)
  {
    if KeyOfObs(a) == KeyOfObs(b) {
      forall h | h in a.hits
        ensures exists x :: x in b.hits && x.name == h.name
      {
        assert h.name in NamesOf(b);
      }
      forall h | h in b.hits
        ensures exists x :: x in a.hits && x.name == h.name
      {
        assert h.name in NamesOf(a);
      }
    } else if a.entity == b.entity && a.labels == b.labels && a.text == b.text {
      assert NamesOf(a) != NamesOf(b);
    }
  }

  /** In what order the rows are reported: causes, then rows without a role, then
      symptoms; the more severe first, and then the earlier seen. */
  lemma EvidenceOrder(roles: Roles, os: seq<HitObs>, i: nat, j: nat)
    requires AllHit(os) && i < j < |Top(EvidenceLe, AllRows(roles, os), MAX_EVIDENCE)|
    ensures var a, b := Top(EvidenceLe, AllRows(roles, os), MAX_EVIDENCE)[i], Top(EvidenceLe, AllRows(roles, os), MAX_EVIDENCE)[j];
            || (a.role == Some(Cause) && b.role != Some(Cause)) || (a.role == None && b.role == Some(Symptom))
            || (a.role == b.role && SeverityRank(a.severity) > SeverityRank(b.severity))
            || (a.role == b.role && a.severity == b.severity && a.firstSeen <= b.firstSeen)
  {
    hide AllRows, Sort;
    var all := AllRows(roles, os);
    SortCorrect(EvidenceLe, all);
    assert EvidenceLe(Sort(EvidenceLe, all)[i], Sort(EvidenceLe, all)[j]);
  }

  lemma UnclassifiedOrder(signals: seq<RawSignal>, i: nat, j: nat)
    requires i < j < |Top(RawRowLe, AllRawRows(Sort(RawLe, signals)), MAX_UNCLASSIFIED)|
    ensures var out := Top(RawRowLe, AllRawRows(Sort(RawLe, signals)), MAX_UNCLASSIFIED);
            || SeverityRank(out[i].severity) > SeverityRank(out[j].severity)
            || (out[i].severity == out[j].severity && out[i].at <= out[j].at)
  {
    hide AllRawRows, Sort;
    var all := AllRawRows(Sort(RawLe, signals));
    SortCorrect(RawRowLe, all);
    assert RawRowLe(Sort(RawRowLe, all)[i], Sort(RawRowLe, all)[j]);
  }

  /** A row of unclassified signals is named after its group, whose signals share
      name, entity and text. */
  lemma {:induction false} RawRowIdentity(g: seq<RawSignal>)
    requires g != [] && forall s :: s in g ==> KeyOfRaw(s) == KeyOfRaw(g[0])
    ensures forall s :: s in g ==> s.name == RawRowOf(g).name && s.entity == RawRowOf(g).entity && s.text == g[0].text
  {
    if |g| > 1 {
      var init, last := g[..|g| - 1], g[|g| - 1];
      RawRowStep(g);
      assert init[0] == g[0] && forall s :: s in init ==> s in g;
      assert last in g;
      RawRowIdentity(init);
      assert RawRowOf(g).name == RawRowOf(init).name && g[0] in init;
    } else {
      assert g == [g[0]];
    }
  }
}
