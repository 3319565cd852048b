/** detection/analyze.py: the firing series of one domain, the episodes and onsets
    read off them, and the incident status that follows (incident_status of
    detection/investigate.py). */
module Series {
  import opened Prelude
  import opened Topology
  import opened Contract

  // ---------------------------------------------------------- boolean series

  function Bit(b: bool): nat { if b then 1 else 0 }

  /** Rises at `i`: firing there, and not just before. */
  predicate Rises(s: seq<bool>, i: nat) {
    i < |s| && s[i] && (i == 0 || !s[i - 1])
  }

  function Episodes(s: seq<bool>): nat {
    if s == [] then 0 else Episodes(s[..|s| - 1]) + Bit(Rises(s, |s| - 1))
  }

  function Flips(s: seq<bool>): nat {
    if |s| <= 1 then 0 else Flips(s[..|s| - 1]) + Bit(s[|s| - 2] != s[|s| - 1])
  }

  /** Differs at `i` from just before. */
  predicate FlipsAt(s: seq<bool>, i: nat) { 0 < i < |s| && s[i] != s[i - 1] }

  /** Episodes and flips are counted: the places where the series starts to fire,
      and those where it differs from just before. */
  function RisePlaces(s: seq<bool>): set<nat> { set i: nat | i < |s| && Rises(s, i) }

  function FlipPlaces(s: seq<bool>): set<nat> { set i: nat | i < |s| && FlipsAt(s, i) }

  lemma {:induction false} CountsExactly(s: seq<bool>)
    ensures Episodes(s) == |RisePlaces(s)|
    ensures Flips(s) == |FlipPlaces(s)|
  {
    hide Rises, FlipsAt, Episodes, Flips;
    if s == [] {
      NoPlaces();
    } else {
      var init, n := s[..|s| - 1], |s| - 1;
      CountsExactly(init);
      assert s == init + [s[n]];
      PlacesSnoc(init, s[n]);
      CountStep(s);
      OneMore(RisePlaces(init), RisePlaces(s), n, Rises(s, n));
      OneMore(FlipPlaces(init), FlipPlaces(s), n, FlipsAt(s, n));
    }
  }

  lemma NoPlaces()
    ensures RisePlaces([]) == {} && FlipPlaces([]) == {} && Episodes([]) == 0 && Flips([]) == 0
  {
  }

  lemma OneMore(before: set<nat>, after: set<nat>, n: nat, more: bool)
    requires n !in before && forall i :: i in after <==> i in before || (more && i == n)
    ensures |after| == |before| + if more then 1 else 0
  {
    assert after == if more then before + {n} else before;
  }

  lemma PlacesSnoc(init: seq<bool>, b: bool)
    ensures forall i: nat :: i < |init| ==> (Rises(init + [b], i) <==> Rises(init, i)) && (FlipsAt(init + [b], i) <==> FlipsAt(init, i))
  {
  }

  lemma CountStep(s: seq<bool>)
    requires s != []
    ensures Episodes(s) == Episodes(s[..|s| - 1]) + if Rises(s, |s| - 1) then 1 else 0
    ensures Flips(s) == Flips(s[..|s| - 1]) + if FlipsAt(s, |s| - 1) then 1 else 0
  {
  }

  /** Every episode but an open first or last one flips twice. */
  lemma {:induction false} FlipsExact(s: seq<bool>)
    requires s != []
    ensures Flips(s) == 2 * Episodes(s) - Bit(s[0]) - Bit(s[|s| - 1])
  {
    if |s| > 1 {
      FlipsExact(s[..|s| - 1]);
    } else {
      assert Episodes(s[..0]) == 0;
    }
  }

  lemma {:induction false} EpisodesOnce(s: seq<bool>)
    ensures Episodes(s) >= 1 <==> exists i :: 0 <= i < |s| && s[i]
  {
    if s != [] {
      var init, n := s[..|s| - 1], |s| - 1;
      EpisodesOnce(init);
      if i :| 0 <= i < |s| && s[i] && !Rises(s, n) {
        assert init[if i == n then n - 1 else i];
      }
    }
  }

  /** It fired, cleared and fired again. */
  ghost predicate FiresAgain(s: seq<bool>) {
    exists i, j, k :: 0 <= i < j < k < |s| && s[i] && !s[j] && s[k]
  }

  /** Two or more episodes: exactly when it fired, cleared and fired again. */
  lemma {:induction false} EpisodesTwice(s: seq<bool>)
    ensures Episodes(s) >= 2 <==> FiresAgain(s)
  {
    if s != [] {
      var init, n := s[..|s| - 1], |s| - 1;
      EpisodesTwice(init);
      EpisodesOnce(init);
      if Episodes(s) >= 2 && Episodes(init) < 2 {
        var i :| 0 <= i < |init| && init[i];
        assert s[i] && !s[n - 1] && s[n];
      }
      if i, j, k :| 0 <= i < j < k < |s| && s[i] && !s[j] && s[k] {
        assert init[i] && !init[j];
        if k < n {
          assert init[k];
        } else if s[n - 1] {
          assert j < n - 1 && init[n - 1];
        } else {
          assert Rises(s, n);
        }
      }
      if i, j, k :| 0 <= i < j < k < |init| && init[i] && !init[j] && init[k] {
        assert s[i] && !s[j] && s[k];
      }
    }
  }

  /** The last rising edge. */
  function LastRise(s: seq<bool>): Option<nat> {
    if s == [] then None
    else if Rises(s, |s| - 1) then Some(|s| - 1) else LastRise(s[..|s| - 1])
  }

  /** One firing run from `e` up to `m`, and then only clear samples. */
  ghost predicate RunThenClear(s: seq<bool>, e: nat, m: nat) {
    && e < m <= |s|
    && (forall i :: e <= i < m ==> s[i])
    && (forall i :: m <= i < |s| ==> !s[i])
  }

  /** There is one exactly when the series ever fired; it starts the latest
      episode: from it on the samples are one firing run and then only clear. */
  lemma {:induction false} LastRiseExact(s: seq<bool>)
    ensures LastRise(s).Some? <==> exists i :: 0 <= i < |s| && s[i]
    ensures LastRise(s).Some? ==> Rises(s, LastRise(s).value) && exists m: nat :: RunThenClear(s, LastRise(s).value, m)
  {
    if s != [] {
      var init, n := s[..|s| - 1], |s| - 1;
      LastRiseExact(init);
      if Rises(s, n) {
        assert RunThenClear(s, n, n + 1);
      } else {
        if i :| 0 <= i < |s| && s[i] {
          assert init[if i == n then n - 1 else i];
        }
        if LastRise(init).Some? {
          var e := LastRise(init).value;
          var m: nat :| RunThenClear(init, e, m);
          assert Rises(s, e);
          assert RunThenClear(s, e, if s[n] then n + 1 else m);
        }
      }
    }
  }

  // --------------------------------------------------------- firing per series

  datatype Sample = Sample(at: Time, firing: bool)

  /** (entity, catalog signal name) */
  datatype SeriesKey = SeriesKey(entity: Node, signal: string)

  /** One sample filed under its series; `lasting` marks metric and state signals. */
  datatype Tagged = Tagged(key: SeriesKey, sample: Sample, lasting: bool)

  datatype Seen = Seen(signal: string, lasting: bool)

  /** A signal that hit, under its own name and its catalog name. */
  datatype HitName = HitName(raw: string, cat: string)

  /** An observation: its signals' catalog names, and its hits. */
  datatype Observation = Observation(entity: Node, at: Time, seen: seq<Seen>, hits: seq<HitName>) {
    function HitNames(): set<string> { set h | h in hits :: h.cat }
  }

  /** A signal read after the window, with the evaluation of its rule; None when
      it is unknown, of another domain or has no rule. */
  datatype Later = Later(entity: Node, at: Time, signal: string, lasting: bool, fires: Option<bool>)

  function HitEntities(os: seq<Observation>): set<Node> {
    set o | o in os && o.hits != [] :: o.entity
  }

  function TagSeen(o: Observation, seen: seq<Seen>): seq<Tagged> {
    if seen == [] then [] else
      var x := seen[|seen| - 1];
      TagSeen(o, seen[..|seen| - 1]) + [Tagged(SeriesKey(o.entity, x.signal), Sample(o.at, x.signal in o.HitNames()), x.lasting)]
  }

  function TagObserved(os: seq<Observation>, hit: set<Node>): seq<Tagged> {
    if os == [] then [] else
      var o := os[|os| - 1];
      TagObserved(os[..|os| - 1], hit) + (if o.entity in hit then TagSeen(o, o.seen) else [])
  }

  function TagLater(ls: seq<Later>, hit: set<Node>): seq<Tagged> {
    if ls == [] then [] else
      var l := ls[|ls| - 1];
      TagLater(ls[..|ls| - 1], hit) +
      (if l.entity in hit && l.fires.Some? then [Tagged(SeriesKey(l.entity, l.signal), Sample(l.at, l.fires.value), l.lasting)] else [])
  }

  /** Every sample of a hit entity, in the window and after it. */
  function AllSamples(os: seq<Observation>, later: seq<Later>): seq<Tagged> {
    TagObserved(os, HitEntities(os)) + TagLater(later, HitEntities(os))
  }

  function TagKey(t: Tagged): SeriesKey { t.key }

  function SamplesOf(ts: seq<Tagged>): (r: seq<Sample>)
    ensures |r| == |ts| && forall i :: 0 <= i < |r| ==> r[i] == ts[i].sample
  {
    seq(|ts|, i requires 0 <= i < |ts| => ts[i].sample)
  }

  type Firing = map<SeriesKey, seq<Sample>>

  predicate LastsIn(ts: seq<Tagged>, k: SeriesKey) {
    exists t :: t in ts && t.key == k && t.lasting
  }

  /** The firing table over `ts`: dict keys in order of first sample. */
  ghost predicate Table(ts: seq<Tagged>, order: seq<SeriesKey>, firing: Firing, stateful: set<SeriesKey>) {
    && order == Keys(TagKey, ts)
    && (forall k :: k in firing <==> k in order)
    && (forall k :: k in firing ==> firing[k] == SamplesOf(Members(TagKey, ts, k)))
    && (forall k :: k in stateful <==> LastsIn(ts, k))
  }

  lemma SamplesSnoc(ts: seq<Tagged>, t: Tagged)
    ensures SamplesOf(ts + [t]) == SamplesOf(ts) + [t.sample]
  {
  }

  lemma NoSamples()
    ensures SamplesOf([]) == []
  {
  }

  lemma TableOne(ts: seq<Tagged>, t: Tagged, order: seq<SeriesKey>, firing: Firing, stateful: set<SeriesKey>)
    requires Table(ts, order, firing, stateful)
    ensures Table(ts + [t], if t.key in order then order else order + [t.key],
                  firing[t.key := (if t.key in firing then firing[t.key] else []) + [t.sample]],
                  if t.lasting then stateful + {t.key} else stateful)
  {
    hide Keys, Members, SamplesOf, LastsIn;
    GroupSnoc(TagKey, ts, t);
    GroupFacts(TagKey, ts);
    SamplesSnoc(Members(TagKey, ts, t.key), t);
    if t.key !in order {
      NoSamples();
      assert [] + [t.sample] == [t.sample];
    }
    forall k
      ensures LastsIn(ts + [t], k) <==> LastsIn(ts, k) || (k == t.key && t.lasting)
    {
      LastingSnoc(ts, t, k);
    }
  }

  lemma LastingSnoc(ts: seq<Tagged>, t: Tagged, k: SeriesKey)
    ensures LastsIn(ts + [t], k) <==> LastsIn(ts, k) || (k == t.key && t.lasting)
  {
    assert forall x :: x in ts + [t] <==> x in ts || x == t;
  }

  method File(ghost ts: seq<Tagged>, t: Tagged, order: seq<SeriesKey>, firing: Firing, stateful: set<SeriesKey>)
    returns (order': seq<SeriesKey>, firing': Firing, stateful': set<SeriesKey>)
    requires Table(ts, order, firing, stateful)
    ensures Table(ts + [t], order', firing', stateful')
  {
    TableOne(ts, t, order, firing, stateful);
    assert t.key in firing <==> t.key in order;
    order' := if t.key in firing then order else order + [t.key];
    firing' := firing[t.key := (if t.key in firing then firing[t.key] else []) + [t.sample]];
    stateful' := if t.lasting then stateful + {t.key} else stateful;
  }

  method FiringSeries(os: seq<Observation>, later: seq<Later>)
    returns (order: seq<SeriesKey>, firing: Firing, stateful: set<SeriesKey>)
    ensures Table(AllSamples(os, later), order, firing, stateful)
  {
    order, firing, stateful := [], map[], {};
    var hit := HitEntities(os);
    ghost var ts: seq<Tagged> := [];
    hide Table;
    assert Table([], order, firing, stateful) by {
      EmptyTable();
    }
    for i := 0 to |os|
      invariant ts == TagObserved(os[..i], hit) && Table(ts, order, firing, stateful)
    {
      var o := os[i];
      assert os[..i + 1][..i] == os[..i];
      if o.entity !in hit {
        continue;
      }
      ghost var before := ts;
      for j := 0 to |o.seen|
        invariant ts == before + TagSeen(o, o.seen[..j]) && Table(ts, order, firing, stateful)
      {
        assert o.seen[..j + 1][..j] == o.seen[..j];
        var t := Tagged(SeriesKey(o.entity, o.seen[j].signal), Sample(o.at, o.seen[j].signal in o.HitNames()), o.seen[j].lasting);
        order, firing, stateful := File(ts, t, order, firing, stateful);
        ts := ts + [t];
      }
      assert o.seen[..|o.seen|] == o.seen;
    }
    assert os[..|os|] == os;
    ghost var window := ts;
    for i := 0 to |later|
      invariant ts == window + TagLater(later[..i], hit) && Table(ts, order, firing, stateful)
    {
      var l := later[i];
      assert later[..i + 1][..i] == later[..i];
      if l.entity !in hit || l.fires.None? {
        continue;
      }
      var t := Tagged(SeriesKey(l.entity, l.signal), Sample(l.at, l.fires.value), l.lasting);
      order, firing, stateful := File(ts, t, order, firing, stateful);
      ts := ts + [t];
    }
    assert later[..|later|] == later;
  }

  lemma EmptyTable()
    ensures Table([], [], map[], {})
  {
  }

  // ------------------------------------------------------------ time ordering

  predicate SampleLe(a: Sample, b: Sample) { a.at <= b.at }

  /** sorted(samples, key=timestamp) */
  function InTime(samples: seq<Sample>): (r: seq<Sample>)
    ensures |r| == |samples|
  {
    Sort(SampleLe, samples)
  }

  function States(samples: seq<Sample>): (r: seq<bool>)
    ensures |r| == |samples| && forall i :: 0 <= i < |r| ==> r[i] == samples[i].firing
  {
    seq(|samples|, i requires 0 <= i < |samples| => samples[i].firing)
  }

  /** The time of the series' latest rising edge. */
  function OnsetOf(samples: seq<Sample>): Option<Time> {
    var ordered := InTime(samples);
    LastRiseExact(States(ordered));
    match LastRise(States(ordered))
    case None => None
    case Some(e) => Some(ordered[e].at)
  }

  // ------------------------------------------------------------------- onsets

  /** The catalog names under which a raw signal hit an entity. */
  type CatalogNames = map<(Node, string), set<string>>

  function CatsOf(cats: CatalogNames, entity: Node, name: string): set<string> {
    if (entity, name) in cats then cats[(entity, name)] else {}
  }

  /** The stateful series behind a row. */
  predicate Behind(row: Row, cats: CatalogNames, stateful: set<SeriesKey>, k: SeriesKey) {
    && k.entity == row.entity && k in stateful
    && exists name :: name in row.signals && k.signal in CatsOf(cats, row.entity, name)
  }

  predicate Among(entity: Node, stateful: set<SeriesKey>, names: set<string>, k: SeriesKey) {
    k.entity == entity && k in stateful && k.signal in names
  }

  function Read(firing: Firing, k: SeriesKey): seq<Sample> {
    if k in firing then firing[k] else []
  }

  /** The latest onset of the stateful series behind the row, or its first
      sighting when none of them ever rose. */
  ghost predicate HasOnset(row: Row, cats: CatalogNames, firing: Firing, stateful: set<SeriesKey>, onset: Time) {
    if exists k :: Behind(row, cats, stateful, k) && OnsetOf(Read(firing, k)).Some? then
      && (exists k :: Behind(row, cats, stateful, k) && OnsetOf(Read(firing, k)) == Some(onset))
      && (forall k :: Behind(row, cats, stateful, k) && OnsetOf(Read(firing, k)).Some? ==> OnsetOf(Read(firing, k)).value <= onset)
    else onset == row.firstSeen
  }

  ghost predicate Covers(row: Row, firing: Firing, ks: iset<SeriesKey>, onset: Option<Time>) {
    && (onset.Some? ==> exists k :: k in ks && OnsetOf(Read(firing, k)) == onset)
    && (forall k :: k in ks && OnsetOf(Read(firing, k)).Some? ==> onset.Some? && OnsetOf(Read(firing, k)).value <= onset.value)
  }

  method WithOnset(row: Row, cats: CatalogNames, firing: Firing, stateful: set<SeriesKey>) returns (onset: Time)
    ensures HasOnset(row, cats, firing, stateful, onset)
  {
    var best: Option<Time> := None;
    ghost var done: iset<SeriesKey> := iset{};
    for i := 0 to |row.signals|
      invariant forall k :: k in done <==> Behind(row.(signals := row.signals[..i]), cats, stateful, k)
      invariant Covers(row, firing, done, best)
    {
      var name := row.signals[i];
      assert row.signals[..i + 1] == row.signals[..i] + [name];
      ghost var before := done;
      var rest := CatsOf(cats, row.entity, name);
      while rest != {}
        invariant rest <= CatsOf(cats, row.entity, name)
        invariant forall k :: k in done <==> k in before || Among(row.entity, stateful, CatsOf(cats, row.entity, name) - rest, k)
        invariant Covers(row, firing, done, best)
      {
        var cat :| cat in rest;
        rest := rest - {cat};
        var key := SeriesKey(row.entity, cat);
        if key !in stateful {
          continue;
        }
        done := done + iset{key};
        var candidate := OnsetOf(Read(firing, key));
        if candidate.Some? && (best.None? || best.value < candidate.value) {
          best := candidate;
        }
      }
    }
    assert row.signals[..|row.signals|] == row.signals;
    assert forall k :: k in done <==> Behind(row, cats, stateful, k);
    onset := if best.Some? then best.value else row.firstSeen;
  }

  /** The catalog names of the hits, by entity and raw name. */
  ghost predicate NamesHits(os: seq<Observation>, cats: CatalogNames) {
    forall n, raw, cat :: cat in CatsOf(cats, n, raw) <==> HitAs(os, n, raw, cat)
  }

  method HitCatalogNames(os: seq<Observation>) returns (cats: CatalogNames)
    ensures NamesHits(os, cats)
  {
    cats := map[];
    for i := 0 to |os|
      invariant NamesHits(os[..i], cats)
    {
      var o := os[i];
      ghost var before := cats;
      for j := 0 to |o.hits|
        invariant forall n, raw, cat :: cat in CatsOf(cats, n, raw) <==>
                    cat in CatsOf(before, n, raw) || (n == o.entity && HitName(raw, cat) in o.hits[..j])
      {
        var h := o.hits[j];
        assert o.hits[..j + 1] == o.hits[..j] + [h];
        cats := cats[(o.entity, h.raw) := CatsOf(cats, o.entity, h.raw) + {h.cat}];
      }
      assert o.hits[..|o.hits|] == o.hits;
      NamesNext(os[..i], o, before, cats);
      assert os[..i + 1] == os[..i] + [o];
    }
    assert os[..|os|] == os;
  }

  lemma NamesNext(os: seq<Observation>, o: Observation, before: CatalogNames, after: CatalogNames)
    requires NamesHits(os, before)
    requires forall n, raw, cat :: cat in CatsOf(after, n, raw) <==> cat in CatsOf(before, n, raw) || (n == o.entity && HitName(raw, cat) in o.hits)
    ensures NamesHits(os + [o], after)
  {
    hide CatsOf;
    forall n: Node, raw: string, cat: string
      ensures HitAs(os + [o], n, raw, cat) <==> HitAs(os, n, raw, cat) || (n == o.entity && HitName(raw, cat) in o.hits)
    {
      if p :| p in os && p.entity == n && HitName(raw, cat) in p.hits {
        assert p in os + [o];
      }
      assert o in os + [o];
    }
  }

  /** A lasting series behind a row: one of the row's signals hit its entity under
      the series' catalog name. */
  ghost predicate IsBehind(row: Row, os: seq<Observation>, later: seq<Later>, k: SeriesKey) {
    && k.entity == row.entity && Lasting(os, later, k)
    && exists name :: name in row.signals && HitAs(os, row.entity, name, k.signal)
  }

  predicate HitAs(os: seq<Observation>, entity: Node, raw: string, cat: string) {
    exists o :: o in os && o.entity == entity && HitName(raw, cat) in o.hits
  }

  /** The row's onset told from the samples: the latest onset of the lasting series
      behind it, or its first sighting when none of them ever fired. */
  ghost predicate OnsetFor(row: Row, os: seq<Observation>, later: seq<Later>, onset: Time) {
    if exists k :: IsBehind(row, os, later, k) && OnsetOf(SeriesOf(os, later, k)).Some? then
      && (exists k :: IsBehind(row, os, later, k) && OnsetOf(SeriesOf(os, later, k)) == Some(onset))
      && (forall k :: IsBehind(row, os, later, k) && OnsetOf(SeriesOf(os, later, k)).Some? ==> OnsetOf(SeriesOf(os, later, k)).value <= onset)
    else onset == row.firstSeen
  }

  lemma SameBehind(row: Row, os: seq<Observation>, later: seq<Later>, order: seq<SeriesKey>, firing: Firing, stateful: set<SeriesKey>,
                   cats: CatalogNames, k: SeriesKey)
    requires Table(AllSamples(os, later), order, firing, stateful) && NamesHits(os, cats)
    ensures Behind(row, cats, stateful, k) <==> IsBehind(row, os, later, k)
    ensures Behind(row, cats, stateful, k) ==> Read(firing, k) == SeriesOf(os, later, k)
  {
    hide CatsOf, SeriesOf, AllSamples;
    GroupFacts(TagKey, AllSamples(os, later));
    TableExactly(os, later, order, firing, stateful);
    assert k in stateful <==> Lasting(os, later, k);
    forall name
      ensures k.signal in CatsOf(cats, row.entity, name) <==> HitAs(os, row.entity, name, k.signal)
    {
    }
  }

  lemma OnsetFromTable(row: Row, os: seq<Observation>, later: seq<Later>, order: seq<SeriesKey>, firing: Firing, stateful: set<SeriesKey>,
                       cats: CatalogNames, onset: Time)
    requires Table(AllSamples(os, later), order, firing, stateful) && NamesHits(os, cats)
    requires HasOnset(row, cats, firing, stateful, onset)
    ensures OnsetFor(row, os, later, onset)
  {
    hide Table, NamesHits, Behind, IsBehind, SeriesOf, OnsetOf, Read;
    forall k
      ensures Behind(row, cats, stateful, k) <==> IsBehind(row, os, later, k)
      ensures Behind(row, cats, stateful, k) ==> Read(firing, k) == SeriesOf(os, later, k)
    {
      SameBehind(row, os, later, order, firing, stateful, cats, k);
    }
  }

  /** The evidence rows of a domain, each with its onset. */
  method WithOnsets(rows: seq<Row>, os: seq<Observation>, ghost later: seq<Later>, ghost order: seq<SeriesKey>, firing: Firing,
                    stateful: set<SeriesKey>) returns (out: seq<Row>)
    requires Table(AllSamples(os, later), order, firing, stateful)
    ensures |out| == |rows|
    ensures forall i :: 0 <= i < |rows| ==> out[i].onset.Some? && OnsetFor(rows[i], os, later, out[i].onset.value) &&
                                            out[i] == rows[i].(onset := out[i].onset)
  {
    hide Table, NamesHits, HasOnset, OnsetFor;
    var cats := HitCatalogNames(os);
    out := [];
    for i := 0 to |rows|
      invariant |out| == i
      invariant forall j :: 0 <= j < i ==> out[j].onset.Some? && OnsetFor(rows[j], os, later, out[j].onset.value) &&
                                           out[j] == rows[j].(onset := out[j].onset)
    {
      var onset := WithOnset(rows[i], cats, firing, stateful);
      OnsetFromTable(rows[i], os, later, order, firing, stateful, cats, onset);
      out := out + [rows[i].(onset := Some(onset))];
    }
  }

  /** What a row's onset means: where some lasting series behind it fired, a sample
      that begins the last firing run of one, none of the others' beginning later;
      otherwise the first sighting. */
  lemma RowOnsetExactly(row: Row, os: seq<Observation>, later: seq<Later>, onset: Time)
    requires OnsetFor(row, os, later, onset)
    ensures if exists k, x :: IsBehind(row, os, later, k) && x in SeriesOf(os, later, k) && x.firing then
              && (exists k :: IsBehind(row, os, later, k) && BeginsLastRun(SeriesOf(os, later, k), onset))
              && (forall k, at :: IsBehind(row, os, later, k) && BeginsLastRun(SeriesOf(os, later, k), at) ==> at <= onset)
            else onset == row.firstSeen
  {
    hide IsBehind, SeriesOf, OnsetOf, BeginsLastRun;
    forall k
      ensures OnsetOf(SeriesOf(os, later, k)).Some? <==> exists x :: x in SeriesOf(os, later, k) && x.firing
      ensures forall at :: BeginsLastRun(SeriesOf(os, later, k), at) <==> OnsetOf(SeriesOf(os, later, k)) == Some(at)
    {
      OnsetExact(SeriesOf(os, later, k));
      BeginsExactly(SeriesOf(os, later, k));
    }
  }

  /** In time order, a sample at `at` begins a firing run that only clear samples
      follow. */
  ghost predicate BeginsLastRun(samples: seq<Sample>, at: Time) {
    exists e: nat, m: nat :: RunThenClear(States(InTime(samples)), e, m) && Rises(States(InTime(samples)), e) && InTime(samples)[e].at == at
  }

  lemma BeginsExactly(samples: seq<Sample>)
    ensures forall at :: BeginsLastRun(samples, at) <==> OnsetOf(samples) == Some(at)
  {
    OnsetExact(samples);
    var s := States(InTime(samples));
    forall at | BeginsLastRun(samples, at)
      ensures OnsetOf(samples) == Some(at)
    {
      var e: nat, m: nat :| RunThenClear(s, e, m) && Rises(s, e) && InTime(samples)[e].at == at;
      InTimeMembers(samples, e);
      var d: nat, n: nat :| RunThenClear(s, d, n) && Rises(s, d) && InTime(samples)[d].at == OnsetOf(samples).value;
      NoRiseAfter(s, d, n, e);
      NoRiseAfter(s, e, m, d);
    }
  }

  lemma NoRiseAfter(s: seq<bool>, e: nat, m: nat, i: nat)
    requires RunThenClear(s, e, m)
    ensures Rises(s, i) ==> i <= e
  {
    assert forall j :: e <= j < |s| ==> (s[j] <==> j < m);
  }

  lemma InTimeMembers(samples: seq<Sample>, i: nat)
    requires i < |samples|
    ensures InTime(samples)[i] in samples
  {
    SortCorrect(SampleLe, samples);
    SameElements(InTime(samples), samples);
    assert InTime(samples)[i] in InTime(samples);
  }

  // ------------------------------------------------------------ entity status

  /** A stateful series of the entity: event series cannot flap or recover. */
  predicate Tells(k: SeriesKey, entity: Node, stateful: set<SeriesKey>) {
    k.entity == entity && k in stateful
  }

  function EpisodesIn(samples: seq<Sample>): nat { Episodes(States(InTime(samples))) }

  function FlipsIn(samples: seq<Sample>): nat { Flips(States(InTime(samples))) }

  /** The status of one entity over the table's series, in dict order. */
  function MostEpisodes(order: seq<SeriesKey>, firing: Firing, stateful: set<SeriesKey>, entity: Node): nat {
    if order == [] then 0 else
      var k, rest := order[|order| - 1], MostEpisodes(order[..|order| - 1], firing, stateful, entity);
      if Tells(k, entity, stateful) && EpisodesIn(Read(firing, k)) > rest then EpisodesIn(Read(firing, k)) else rest
  }

  function AllFlips(order: seq<SeriesKey>, firing: Firing, stateful: set<SeriesKey>, entity: Node): nat {
    if order == [] then 0 else
      var k, rest := order[|order| - 1], AllFlips(order[..|order| - 1], firing, stateful, entity);
      if Tells(k, entity, stateful) then rest + FlipsIn(Read(firing, k)) else rest
  }

  /** max(last samples, key=time): the first of the latest ones. */
  function LatestLast(order: seq<SeriesKey>, firing: Firing, stateful: set<SeriesKey>, entity: Node): Option<Sample> {
    if order == [] then None else
      var k, rest := order[|order| - 1], LatestLast(order[..|order| - 1], firing, stateful, entity);
      var samples := Read(firing, k);
      if !Tells(k, entity, stateful) || samples == [] then rest else
        var last := InTime(samples)[|samples| - 1];
        if rest.None? || rest.value.at < last.at then Some(last) else rest
  }

  function StatusOf(order: seq<SeriesKey>, firing: Firing, stateful: set<SeriesKey>, entity: Node): StatusRow {
    var last := LatestLast(order, firing, stateful, entity);
    StatusRow(entity, if last.None? then Unknown else if last.value.firing then State.Firing else Clear,
              MostEpisodes(order, firing, stateful, entity), AllFlips(order, firing, stateful, entity))
  }

  function EntityOf(o: Observation): Node { o.entity }

  method EntityStatus(hits: seq<Observation>, order: seq<SeriesKey>, firing: Firing, stateful: set<SeriesKey>)
    returns (out: seq<StatusRow>)
    requires forall k :: k in order ==> Read(firing, k) != []
    ensures |out| == |Keys(EntityOf, hits)|
    ensures forall i :: 0 <= i < |out| ==> out[i] == StatusOf(order, firing, stateful, Keys(EntityOf, hits)[i])
  {
    out := [];
    var seen := {};
    for i := 0 to |hits|
      invariant forall e :: e in seen <==> e in Keys(EntityOf, hits[..i])
      invariant |out| == |Keys(EntityOf, hits[..i])|
      invariant forall j :: 0 <= j < |out| ==> out[j] == StatusOf(order, firing, stateful, Keys(EntityOf, hits[..i])[j])
    {
      var entity := hits[i].entity;
      assert hits[..i + 1][..i] == hits[..i];
      if entity in seen {
        continue;
      }
      seen := seen + {entity};
      var row := OneStatus(order, firing, stateful, entity);
      out := out + [row];
    }
    assert hits[..|hits|] == hits;
  }

  method OneStatus(order: seq<SeriesKey>, firing: Firing, stateful: set<SeriesKey>, entity: Node) returns (row: StatusRow)
    requires forall k :: k in order ==> Read(firing, k) != []
    ensures row == StatusOf(order, firing, stateful, entity)
  {
    hide Episodes, Flips, States;
    var episodes, transitions: nat, last: Option<Sample> := 0, 0, None;
    for i := 0 to |order|
      invariant episodes == MostEpisodes(order[..i], firing, stateful, entity)
      invariant transitions == AllFlips(order[..i], firing, stateful, entity)
      invariant last == LatestLast(order[..i], firing, stateful, entity)
    {
      var k := order[i];
      assert order[..i + 1][..i] == order[..i];
      if k.entity != entity {
        continue;
      }
      if k !in stateful {
        continue;
      }
      var ordered := InTime(Read(firing, k));
      var states := States(ordered);
      episodes := if Episodes(states) > episodes then Episodes(states) else episodes;
      transitions := transitions + Flips(states);
      var sample := ordered[|ordered| - 1];
      last := if last.None? || last.value.at < sample.at then Some(sample) else last;
    }
    assert order[..|order|] == order;
    row := StatusRow(entity, if last.None? then Unknown else if last.value.firing then State.Firing else Clear, episodes, transitions);
  }

  function HitObservations(os: seq<Observation>): seq<Observation> {
    if os == [] then [] else
      HitObservations(os[..|os| - 1]) + (if os[|os| - 1].hits != [] then [os[|os| - 1]] else [])
  }

  lemma TableReads(ts: seq<Tagged>, order: seq<SeriesKey>, firing: Firing, stateful: set<SeriesKey>)
    requires Table(ts, order, firing, stateful)
    ensures forall k :: k in order ==> Read(firing, k) != []
    ensures SumOver(order, Sizes(TagKey, ts)) == |ts|
  {
    GroupFacts(TagKey, ts);
    GroupConserves(TagKey, ts);
  }

  /** The entity_status part of analyze_domain: every sample of a hit entity is
      filed under one series, and each hit entity gets one status read off them. */
  method DomainStatus(os: seq<Observation>, later: seq<Later>)
    returns (status: seq<StatusRow>, order: seq<SeriesKey>, firing: Firing, stateful: set<SeriesKey>)
    ensures Table(AllSamples(os, later), order, firing, stateful)
    ensures forall k :: k in order ==> Read(firing, k) != []
    ensures var entities := Keys(EntityOf, HitObservations(os));
            |status| == |entities| && forall i :: 0 <= i < |status| ==> status[i] == StatusOf(order, firing, stateful, entities[i])
    ensures StatusFor(os, later, status)
  {
    order, firing, stateful := FiringSeries(os, later);
    TableReads(AllSamples(os, later), order, firing, stateful);
    hide Table;
    status := EntityStatus(HitObservations(os), order, firing, stateful);
    assert RowsFor(os, order, firing, stateful, status);
  }

  /** The samples of one series, in the window and after it. */
  function SeriesOf(os: seq<Observation>, later: seq<Later>, k: SeriesKey): seq<Sample> {
    SamplesOf(Members(TagKey, AllSamples(os, later), k))
  }

  /** A metric or state signal of a hit entity was sampled under `k`. */
  ghost predicate Lasting(os: seq<Observation>, later: seq<Later>, k: SeriesKey) {
    LastsIn(AllSamples(os, later), k)
  }

  function LastSample(samples: seq<Sample>): Option<Sample> {
    if samples == [] then None else Some(InTime(samples)[|samples| - 1])
  }

  predicate EndsFiring(samples: seq<Sample>) { LastSample(samples).Some? && LastSample(samples).value.firing }

  /** Of its entity's lasting series this one has the latest last sample, or is the
      first sampled of those that have. */
  ghost predicate Decides(os: seq<Observation>, later: seq<Later>, k: SeriesKey) {
    && Lasting(os, later, k) && LastSample(SeriesOf(os, later, k)).Some?
    && forall j :: Lasting(os, later, j) && j.entity == k.entity && j != k ==>
         var x, y := LastSample(SeriesOf(os, later, j)), LastSample(SeriesOf(os, later, k)).value;
         x.Some? && (x.value.at < y.at || (x.value.at == y.at && Earlier(Keys(TagKey, AllSamples(os, later)), k, j)))
  }

  ghost predicate RowsFor(os: seq<Observation>, order: seq<SeriesKey>, firing: Firing, stateful: set<SeriesKey>, status: seq<StatusRow>) {
    var entities := Keys(EntityOf, HitObservations(os));
    |status| == |entities| && forall i :: 0 <= i < |status| ==> status[i] == StatusOf(order, firing, stateful, entities[i])
  }

  /** The status rows of the telemetry: one for each hit entity, read off the table
      of all samples. */
  ghost predicate StatusFor(os: seq<Observation>, later: seq<Later>, status: seq<StatusRow>) {
    exists order, firing, stateful :: Table(AllSamples(os, later), order, firing, stateful) && RowsFor(os, order, firing, stateful, status)
  }

  // ----------------------------------------------------------------- theorems

  /** What the table holds, told from the samples. */
  lemma TableExactly(os: seq<Observation>, later: seq<Later>, order: seq<SeriesKey>, firing: Firing, stateful: set<SeriesKey>)
    requires Table(AllSamples(os, later), order, firing, stateful)
    ensures order == Keys(TagKey, AllSamples(os, later)) && NoDup(order)
    ensures forall k :: k in order ==> Read(firing, k) == SeriesOf(os, later, k) != []
    ensures forall k, n :: k in order && Tells(k, n, stateful) ==> Lasting(os, later, k) && k.entity == n
    ensures forall k :: Lasting(os, later, k) ==> k in order && Tells(k, k.entity, stateful)
  {
    GroupFacts(TagKey, AllSamples(os, later));
  }

  /** No series that tells about the entity has a later last sample than `k`, and
      none before `k` one as late. */
  ghost predicate FirstLatest(order: seq<SeriesKey>, firing: Firing, stateful: set<SeriesKey>, entity: Node, k: SeriesKey)
    requires forall j :: j in order ==> Read(firing, j) != []
  {
    && k in order && Tells(k, entity, stateful)
    && forall j :: j in order && Tells(j, entity, stateful) && j != k ==>
         var x, y := LastSample(Read(firing, j)).value, LastSample(Read(firing, k)).value;
         x.at < y.at || (x.at == y.at && Earlier(order, k, j))
  }

  lemma OnlyOne(init: seq<SeriesKey>, firing: Firing, stateful: set<SeriesKey>, entity: Node, z: SeriesKey)
    requires forall k :: k in init + [z] ==> Read(firing, k) != []
    requires Tells(z, entity, stateful) && forall k :: k in init ==> !Tells(k, entity, stateful)
    ensures FirstLatest(init + [z], firing, stateful, entity, z)
  {
  }

  lemma EarlierSnoc<K>(init: seq<K>, k: K, z: K, j: K)
    ensures k in init ==> Earlier(init + [z], k, z)
    ensures Earlier(init, k, j) ==> Earlier(init + [z], k, j)
  {
    var order := init + [z];
    if i :| 0 <= i < |init| && init[i] == k {
      assert order[i] == k && order[|init|] == z;
    }
    if a, b :| 0 <= a < b < |init| && init[a] == k && init[b] == j {
      assert order[a] == k && order[b] == j;
    }
  }

  lemma LatestNext(init: seq<SeriesKey>, firing: Firing, stateful: set<SeriesKey>, entity: Node, k: SeriesKey, z: SeriesKey)
    requires forall j :: j in init + [z] ==> Read(firing, j) != []
    requires forall j :: j in init ==> Read(firing, j) != []
    requires FirstLatest(init, firing, stateful, entity, k)
    ensures var x, y := LastSample(Read(firing, z)).value, LastSample(Read(firing, k)).value;
            if Tells(z, entity, stateful) && y.at < x.at then FirstLatest(init + [z], firing, stateful, entity, z)
            else FirstLatest(init + [z], firing, stateful, entity, k)
  {
    hide LastSample, Earlier;
    assert z in init + [z];
    forall j
      ensures k in init ==> Earlier(init + [z], k, z)
      ensures Earlier(init, k, j) ==> Earlier(init + [z], k, j)
    {
      EarlierSnoc(init, k, z, j);
    }
  }

  /** The last sample LatestLast picks: of the series that tell about the entity, a
      latest one, the first in dict order. */
  lemma {:induction false} LatestExact(order: seq<SeriesKey>, firing: Firing, stateful: set<SeriesKey>, entity: Node)
    requires forall k :: k in order ==> Read(firing, k) != []
    ensures var last := LatestLast(order, firing, stateful, entity);
            && (last.None? <==> forall k :: k in order ==> !Tells(k, entity, stateful))
            && (last.Some? ==> exists k :: last == LastSample(Read(firing, k)) && FirstLatest(order, firing, stateful, entity, k))
  {
    hide InTime, FirstLatest;
    if order != [] {
      var init, z := order[..|order| - 1], order[|order| - 1];
      LatestExact(init, firing, stateful, entity);
      assert order == init + [z];
      var rest, last := LatestLast(init, firing, stateful, entity), LatestLast(order, firing, stateful, entity);
      if rest.Some? {
        var k :| rest == LastSample(Read(firing, k)) && FirstLatest(init, firing, stateful, entity, k);
        LatestNext(init, firing, stateful, entity, k, z);
      } else if last.Some? {
        assert FirstLatest(order, firing, stateful, entity, z) by {
          OnlyOne(init, firing, stateful, entity, z);
        }
      }
    }
  }

  lemma NotBothEarlier<K>(ks: seq<K>, a: K, b: K)
    requires NoDup(ks) && Earlier(ks, a, b)
    ensures !Earlier(ks, b, a)
  {
  }

  lemma DecidesOnce(os: seq<Observation>, later: seq<Later>, j: SeriesKey, k: SeriesKey)
    requires Decides(os, later, j) && Decides(os, later, k) && j.entity == k.entity
    ensures j == k
  {
    hide LastSample, SeriesOf, Lasting;
    GroupFacts(TagKey, AllSamples(os, later));
    if j != k {
      NotBothEarlier(Keys(TagKey, AllSamples(os, later)), k, j);
    }
  }

  lemma DecidesLasts(os: seq<Observation>, later: seq<Later>, k: SeriesKey)
    requires Decides(os, later, k)
    ensures Lasting(os, later, k)
  {
  }

  lemma EpisodesExactly(os: seq<Observation>, later: seq<Later>, order: seq<SeriesKey>, firing: Firing, stateful: set<SeriesKey>, n: Node)
    requires Table(AllSamples(os, later), order, firing, stateful)
    ensures MostEpisodes(order, firing, stateful, n) >= 2 <==>
            exists k: SeriesKey :: k.entity == n && Lasting(os, later, k) && Flapped(SeriesOf(os, later, k))
  {
    hide Table, Lasting, Flapped, SeriesOf, Keys, Tells;
    TableExactly(os, later, order, firing, stateful);
    MostEpisodesExact(order, firing, stateful, n);
    forall k: SeriesKey
      ensures k.entity == n && Lasting(os, later, k) <==> k in order && Tells(k, n, stateful)
    {
    }
  }

  /** An entity's status, told from the samples. */
  lemma EntityExactly(os: seq<Observation>, later: seq<Later>, order: seq<SeriesKey>, firing: Firing, stateful: set<SeriesKey>, n: Node)
    requires Table(AllSamples(os, later), order, firing, stateful)
    ensures var r := StatusOf(order, firing, stateful, n);
            && (r.episodes >= 2 <==> exists k: SeriesKey :: k.entity == n && Lasting(os, later, k) && Flapped(SeriesOf(os, later, k)))
            && (r.current.Firing? <==>
                 exists k: SeriesKey :: k.entity == n && Decides(os, later, k) && EndsFiring(SeriesOf(os, later, k)))
            && (!r.current.Unknown? <==> exists k: SeriesKey :: k.entity == n && Lasting(os, later, k))
  {
    hide Table, Lasting, Flapped, SeriesOf, LastSample, LatestLast, MostEpisodes, AllFlips, Keys, Tells, Earlier;
    EpisodesExactly(os, later, order, firing, stateful, n);
    TableExactly(os, later, order, firing, stateful);
    LatestExact(order, firing, stateful, n);
    var last := LatestLast(order, firing, stateful, n);
    if last.Some? {
      var k :| last == LastSample(Read(firing, k)) && FirstLatest(order, firing, stateful, n, k);
      assert Lasting(os, later, k) && k.entity == n;
      forall j | Lasting(os, later, j) && j.entity == n && j != k
        ensures LastSample(SeriesOf(os, later, j)).Some?
        ensures LastSample(SeriesOf(os, later, j)).value.at < last.value.at ||
                (LastSample(SeriesOf(os, later, j)).value.at == last.value.at && Earlier(order, k, j))
      {
        assert j in order && Tells(j, n, stateful);
        HasLast(Read(firing, j));
      }
      assert Decides(os, later, k);
      forall j | Decides(os, later, j) && j.entity == n
        ensures j == k
      {
        DecidesOnce(os, later, j, k);
      }
    } else {
      assert forall k: SeriesKey :: k.entity == n ==> !Lasting(os, later, k);
    }
  }

  lemma HasLast(samples: seq<Sample>)
    requires samples != []
    ensures LastSample(samples).Some?
  {
  }

  lemma {:induction false} HitsKept(os: seq<Observation>)
    ensures forall o :: o in HitObservations(os) <==> o in os && o.hits != []
  {
    if os != [] {
      HitsKept(os[..|os| - 1]);
      assert os == os[..|os| - 1] + [os[|os| - 1]];
    }
  }

  lemma {:induction false} SeenOnEntity(o: Observation, seen: seq<Seen>)
    ensures forall t :: t in TagSeen(o, seen) ==> t.key.entity == o.entity
  {
    if seen != [] {
      SeenOnEntity(o, seen[..|seen| - 1]);
    }
  }

  lemma {:induction false} ObservedOnHits(os: seq<Observation>, hit: set<Node>)
    ensures forall t :: t in TagObserved(os, hit) ==> t.key.entity in hit
  {
    if os != [] {
      ObservedOnHits(os[..|os| - 1], hit);
      SeenOnEntity(os[|os| - 1], os[|os| - 1].seen);
    }
  }

  lemma {:induction false} LaterOnHits(ls: seq<Later>, hit: set<Node>)
    ensures forall t :: t in TagLater(ls, hit) ==> t.key.entity in hit
  {
    if ls != [] {
      LaterOnHits(ls[..|ls| - 1], hit);
    }
  }

  lemma LastingOnHits(os: seq<Observation>, later: seq<Later>, k: SeriesKey)
    requires Lasting(os, later, k)
    ensures k.entity in Keys(EntityOf, HitObservations(os))
  {
    ObservedOnHits(os, HitEntities(os));
    LaterOnHits(later, HitEntities(os));
    HitsKept(os);
    GroupFacts(EntityOf, HitObservations(os));
    var o :| o in os && o.hits != [] && o.entity == k.entity;
    assert o in HitObservations(os);
    assert EntityOf(o) in Keys(EntityOf, HitObservations(os));
  }

  /** Read in time order, the series fired, cleared and fired again. */
  ghost predicate Flapped(samples: seq<Sample>) { FiresAgain(States(InTime(samples))) }

  lemma {:induction false} MostEpisodesExact(order: seq<SeriesKey>, firing: Firing, stateful: set<SeriesKey>, entity: Node)
    ensures MostEpisodes(order, firing, stateful, entity) >= 2 <==>
            exists k :: k in order && Tells(k, entity, stateful) && Flapped(Read(firing, k))
  {
    if order != [] {
      var init, k := order[..|order| - 1], order[|order| - 1];
      MostEpisodesExact(init, firing, stateful, entity);
      EpisodesTwice(States(InTime(Read(firing, k))));
      assert order == init + [k];
    }
  }

  /** The state is read off the latest sample of the entity's stateful series: no
      sample of any of them is later; and it is unknown exactly when there are
      none. */
  lemma StateExact(order: seq<SeriesKey>, firing: Firing, stateful: set<SeriesKey>, entity: Node)
    requires forall k :: k in order ==> Read(firing, k) != []
    ensures var last := LatestLast(order, firing, stateful, entity);
            && (last.None? <==> forall k :: k in order ==> !Tells(k, entity, stateful))
            && (last.Some? ==> exists k :: k in order && Tells(k, entity, stateful) && last.value in Read(firing, k))
            && (last.Some? ==> forall k, x :: k in order && Tells(k, entity, stateful) && x in Read(firing, k) ==> x.at <= last.value.at)
  {
    hide LatestLast, Tells, Earlier, InTime;
    LatestExact(order, firing, stateful, entity);
    forall k | k in order
      ensures var y := LastSample(Read(firing, k)); y.Some? && y.value in Read(firing, k) && forall x :: x in Read(firing, k) ==> x.at <= y.value.at
    {
      LastInTime(Read(firing, k));
    }
  }

  lemma LastInTime(samples: seq<Sample>)
    requires samples != []
    ensures var last := InTime(samples)[|samples| - 1]; last in samples && forall x :: x in samples ==> x.at <= last.at
  {
    SortCorrect(SampleLe, samples);
    SameElements(InTime(samples), samples);
    var ordered := InTime(samples);
    forall x | x in samples
      ensures x.at <= ordered[|ordered| - 1].at
    {
      var i :| 0 <= i < |ordered| && ordered[i] == x;
      assert i < |ordered| - 1 ==> SampleLe(ordered[i], ordered[|ordered| - 1]);
    }
  }

  /** For a series: the reported flips and episodes, and the onset, agree. */
  lemma OnsetExact(samples: seq<Sample>)
    ensures OnsetOf(samples).Some? <==> exists x :: x in samples && x.firing
    ensures OnsetOf(samples).Some? ==>
              exists e: nat, m: nat :: RunThenClear(States(InTime(samples)), e, m) && Rises(States(InTime(samples)), e) &&
                InTime(samples)[e].at == OnsetOf(samples).value
    ensures samples != [] ==>
              FlipsIn(samples) == 2 * EpisodesIn(samples) - Bit(InTime(samples)[0].firing) - Bit(InTime(samples)[|samples| - 1].firing)
  {
    var s := States(InTime(samples));
    SortCorrect(SampleLe, samples);
    SameElements(InTime(samples), samples);
    LastRiseExact(s);
    if samples != [] {
      FlipsExact(s);
    }
    if x :| x in samples && x.firing {
      assert x in InTime(samples);
      var i :| 0 <= i < |s| && InTime(samples)[i] == x;
      assert s[i];
    }
    if OnsetOf(samples).Some? {
      var i :| 0 <= i < |s| && s[i];
      assert InTime(samples)[i] in InTime(samples);
    }
  }

  // ---------------------------------------------------------- incident status

  datatype IncidentStatus = Flapping | Ongoing | Recovered | Undetermined

  predicate AnyRow(findings: seq<Finding>, test: StatusRow -> bool) {
    exists f :: f in findings && f.anomaly && exists r :: r in f.status && test(r)
  }

  function IncidentStatusOf(findings: seq<Finding>, flapEpisodes: nat): IncidentStatus {
    if AnyRow(findings, (r: StatusRow) => r.episodes >= flapEpisodes) then Flapping
    else if AnyRow(findings, (r: StatusRow) => r.current.Firing?) then Ongoing
    else if AnyRow(findings, (r: StatusRow) => !r.current.Unknown?) then Recovered
    else Undetermined
  }

  /** One domain's telemetry and the finding made of it. */
  datatype Telemetry = Telemetry(finding: Finding, os: seq<Observation>, later: seq<Later>)

  ghost predicate Reports(x: Telemetry) { StatusFor(x.os, x.later, x.finding.status) }

  /** Some lasting series fired, cleared and fired again. */
  ghost predicate Flaps(x: Telemetry) {
    exists k :: Lasting(x.os, x.later, k) && Flapped(SeriesOf(x.os, x.later, k))
  }

  /** The series that decides its entity's state ends firing. */
  ghost predicate FiresNow(x: Telemetry) {
    exists k :: Decides(x.os, x.later, k) && EndsFiring(SeriesOf(x.os, x.later, k))
  }

  ghost predicate HasState(x: Telemetry) { exists k :: Lasting(x.os, x.later, k) }

  /** What a finding's status rows show, told from its samples. */
  lemma StatusShows(x: Telemetry)
    requires Reports(x)
    ensures (exists r :: r in x.finding.status && r.episodes >= 2) <==> Flaps(x)
    ensures (exists r :: r in x.finding.status && r.current.Firing?) <==> FiresNow(x)
    ensures (exists r :: r in x.finding.status && !r.current.Unknown?) <==> HasState(x)
  {
    hide Table, RowsFor, Flaps, FiresNow, HasState, FlapKeys, FiringKeys, LastingKeys, HitObservations, Keys;
    var order, firing, stateful :| Table(AllSamples(x.os, x.later), order, firing, stateful) && RowsFor(x.os, order, firing, stateful, x.finding.status);
    var status, entities := x.finding.status, Keys(EntityOf, HitObservations(x.os));
    RowCount(x, order, firing, stateful);
    forall i | 0 <= i < |status|
      ensures Again(status[i]) <==> exists k :: k in FlapKeys(x) && k.entity == entities[i]
      ensures Fires(status[i]) <==> exists k :: k in FiringKeys(x) && k.entity == entities[i]
      ensures IsKnown(status[i]) <==> exists k :: k in LastingKeys(x) && k.entity == entities[i]
    {
      RowTells(x, order, firing, stateful, i);
    }
    KeysTell(x);
    ShownBy(status, entities, Again, FlapKeys(x));
    ShownBy(status, entities, Fires, FiringKeys(x));
    ShownBy(status, entities, IsKnown, LastingKeys(x));
  }

  predicate Again(r: StatusRow) { r.episodes >= 2 }
  predicate Fires(r: StatusRow) { r.current.Firing? }
  predicate IsKnown(r: StatusRow) { !r.current.Unknown? }

  ghost function FlapKeys(x: Telemetry): iset<SeriesKey> { iset k | Lasting(x.os, x.later, k) && Flapped(SeriesOf(x.os, x.later, k)) }
  ghost function FiringKeys(x: Telemetry): iset<SeriesKey> { iset k | Decides(x.os, x.later, k) && EndsFiring(SeriesOf(x.os, x.later, k)) }
  ghost function LastingKeys(x: Telemetry): iset<SeriesKey> { iset k | Lasting(x.os, x.later, k) }

  lemma RowCount(x: Telemetry, order: seq<SeriesKey>, firing: Firing, stateful: set<SeriesKey>)
    requires RowsFor(x.os, order, firing, stateful, x.finding.status)
    ensures |x.finding.status| == |Keys(EntityOf, HitObservations(x.os))|
  {
  }

  lemma RowTells(x: Telemetry, order: seq<SeriesKey>, firing: Firing, stateful: set<SeriesKey>, i: nat)
    requires Table(AllSamples(x.os, x.later), order, firing, stateful) && RowsFor(x.os, order, firing, stateful, x.finding.status)
    requires i < |x.finding.status|
    ensures |x.finding.status| == |Keys(EntityOf, HitObservations(x.os))|
    ensures var r, n := x.finding.status[i], Keys(EntityOf, HitObservations(x.os))[i];
            && (Again(r) <==> exists k :: k in FlapKeys(x) && k.entity == n)
            && (Fires(r) <==> exists k :: k in FiringKeys(x) && k.entity == n)
            && (IsKnown(r) <==> exists k :: k in LastingKeys(x) && k.entity == n)
  {
    hide Table, StatusOf, Lasting, Decides, SeriesOf, Flapped, HitObservations, EndsFiring, Keys;
    EntityExactly(x.os, x.later, order, firing, stateful, Keys(EntityOf, HitObservations(x.os))[i]);
  }

  lemma KeysTell(x: Telemetry)
    ensures Flaps(x) <==> exists k :: k in FlapKeys(x)
    ensures FiresNow(x) <==> exists k :: k in FiringKeys(x)
    ensures HasState(x) <==> exists k :: k in LastingKeys(x)
    ensures forall k :: k in FlapKeys(x) || k in FiringKeys(x) || k in LastingKeys(x) ==> k.entity in Keys(EntityOf, HitObservations(x.os))
  {
    hide Lasting, Decides, SeriesOf, Flapped, HitObservations, EndsFiring, Keys;
    if k :| Lasting(x.os, x.later, k) && Flapped(SeriesOf(x.os, x.later, k)) {
      assert k in FlapKeys(x);
    }
    if k :| Decides(x.os, x.later, k) && EndsFiring(SeriesOf(x.os, x.later, k)) {
      assert k in FiringKeys(x);
    }
    if k :| Lasting(x.os, x.later, k) {
      assert k in LastingKeys(x);
    }
    forall k | k in FlapKeys(x) || k in FiringKeys(x) || k in LastingKeys(x)
      ensures k.entity in Keys(EntityOf, HitObservations(x.os))
    {
      if k in FiringKeys(x) {
        DecidesLasts(x.os, x.later, k);
      }
      LastingOnHits(x.os, x.later, k);
    }
  }

  lemma ShownBy(status: seq<StatusRow>, entities: seq<Node>, test: StatusRow -> bool, ks: iset<SeriesKey>)
    requires |status| == |entities| && forall k :: k in ks ==> k.entity in entities
    requires forall i :: 0 <= i < |status| ==> (test(status[i]) <==> exists k :: k in ks && k.entity == entities[i])
    ensures (exists r :: r in status && test(r)) <==> exists k :: k in ks
  {
    if k :| k in ks {
      var i :| 0 <= i < |entities| && entities[i] == k.entity;
      assert status[i] in status && test(status[i]);
    }
  }

  /** The status of the incident, told from the samples of its anomalous domains:
      flapping exactly when a lasting series fired, cleared and fired again;
      otherwise ongoing exactly when an entity's deciding series ends firing;
      otherwise recovered exactly when there is a lasting series at all. */
  lemma IncidentExactly(xs: seq<Telemetry>, findings: seq<Finding>)
    requires |xs| == |findings| && forall i :: 0 <= i < |xs| ==> xs[i].finding == findings[i] && Reports(xs[i])
    ensures IncidentStatusOf(findings, 2) ==
            if exists x :: x in xs && x.finding.anomaly && Flaps(x) then Flapping
            else if exists x :: x in xs && x.finding.anomaly && FiresNow(x) then Ongoing
            else if exists x :: x in xs && x.finding.anomaly && HasState(x) then Recovered
            else Undetermined
  {
    hide Reports, Flaps, FiresNow, HasState;
    var flapped, firing, known := (r: StatusRow) => r.episodes >= 2, (r: StatusRow) => r.current.Firing?, (r: StatusRow) => !r.current.Unknown?;
    forall x | x in xs
      ensures (exists r :: r in x.finding.status && flapped(r)) <==> Flaps(x)
      ensures (exists r :: r in x.finding.status && firing(r)) <==> FiresNow(x)
      ensures (exists r :: r in x.finding.status && known(r)) <==> HasState(x)
    {
      StatusShows(x);
    }
    AnyOf(xs, findings, flapped);
    AnyOf(xs, findings, firing);
    AnyOf(xs, findings, known);
  }

  lemma AnyOf(xs: seq<Telemetry>, findings: seq<Finding>, test: StatusRow -> bool)
    requires |xs| == |findings| && forall i :: 0 <= i < |xs| ==> xs[i].finding == findings[i]
    ensures AnyRow(findings, test) <==> exists x :: x in xs && x.finding.anomaly && exists r :: r in x.finding.status && test(r)
  {
    if f :| f in findings && f.anomaly && exists r :: r in f.status && test(r) {
      var i :| 0 <= i < |findings| && findings[i] == f;
      assert xs[i] in xs;
    }
    if x :| x in xs && x.finding.anomaly && exists r :: r in x.finding.status && test(r) {
      var i :| 0 <= i < |xs| && xs[i] == x;
      assert findings[i] in findings;
    }
  }

  function FlipsOf(firing: Firing, stateful: set<SeriesKey>, entity: Node): SeriesKey -> int {
    (k: SeriesKey) => if k.entity == entity && k in stateful then FlipsIn(Read(firing, k)) else 0
  }

  /** A status row counts the most episodes of any lasting series of its entity, and
      all of their flips. */
  lemma {:induction false} StatusCounts(order: seq<SeriesKey>, firing: Firing, stateful: set<SeriesKey>, entity: Node)
    ensures var r := StatusOf(order, firing, stateful, entity);
            && (forall k :: k in order && k.entity == entity && k in stateful ==> EpisodesIn(Read(firing, k)) <= r.episodes)
            && (r.episodes == 0 || exists k :: k in order && k.entity == entity && k in stateful && EpisodesIn(Read(firing, k)) == r.episodes)
            && r.transitions == SumOver(order, FlipsOf(firing, stateful, entity))
  {
    hide LatestLast, EpisodesIn, FlipsIn;
    if order != [] {
      StatusCounts(order[..|order| - 1], firing, stateful, entity);
      assert order == order[..|order| - 1] + [order[|order| - 1]];
    }
  }
}
