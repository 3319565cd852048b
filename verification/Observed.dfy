/** The firing series and incident status of detection/analyze.py told from the
    observations themselves: which readings there are, and what they show. */
module Observed {
  import opened Prelude
  import opened Topology
  import opened Contract
  import opened Series

  /** Where a reading stands: signal `s` of observation `o` of the window, or signal
      `l` of those read after it. */
  datatype Place = InWindow(o: nat, s: nat) | After(l: nat)

  predicate Comes(p: Place, q: Place) {
    match (p, q)
    case (InWindow(o, s), InWindow(u, t)) => o < u || (o == u && s < t)
    case (InWindow(_, _), After(_)) => true
    case (After(_), InWindow(_, _)) => false
    case (After(l), After(m)) => l < m
  }

  /** Some observation hit on this entity. */
  predicate IsHit(os: seq<Observation>, entity: Node) {
    exists o :: o in os && o.entity == entity && o.hits != []
  }

  /** What is read at a place: the sample of a signal of a hit entity, firing in the
      window exactly when a hit has its catalog name, and after it as its rule says. */
  function ReadAt(os: seq<Observation>, later: seq<Later>): Place -> Option<Tagged> {
    (p: Place) =>
      match p
      case InWindow(i, j) =>
        if i < |os| && j < |os[i].seen| && IsHit(os, os[i].entity) then
          var o, x := os[i], os[i].seen[j];
          Some(Tagged(SeriesKey(o.entity, x.signal), Sample(o.at, exists h :: h in o.hits && h.cat == x.signal), x.lasting))
        else None
      case After(l) =>
        if l < |later| && IsHit(os, later[l].entity) && later[l].fires.Some? then
          Some(Tagged(SeriesKey(later[l].entity, later[l].signal), Sample(later[l].at, later[l].fires.value), later[l].lasting))
        else None
  }

  function SignalPlaces(i: nat, n: nat): seq<Place> { seq(n, j requires 0 <= j < n => InWindow(i, j)) }

  function WindowPlaces(os: seq<Observation>): seq<Place> {
    if os == [] then [] else WindowPlaces(os[..|os| - 1]) + SignalPlaces(|os| - 1, |os[|os| - 1].seen|)
  }

  function AfterPlaces(n: nat): seq<Place> { seq(n, l requires 0 <= l < n => After(l)) }

  /** All places, in order. */
  function Places(os: seq<Observation>, later: seq<Later>): seq<Place> {
    WindowPlaces(os) + AfterPlaces(|later|)
  }

  ghost predicate InOrder(ps: seq<Place>) { forall i, j :: 0 <= i < j < |ps| ==> Comes(ps[i], ps[j]) }

  lemma {:induction false} WindowInOrder(os: seq<Observation>)
    ensures InOrder(WindowPlaces(os))
    ensures forall p :: p in WindowPlaces(os) <==> p.InWindow? && p.o < |os| && p.s < |os[p.o].seen|
  {
    if os != [] {
      var init, n := os[..|os| - 1], |os| - 1;
      WindowInOrder(init);
      var before, now := WindowPlaces(init), SignalPlaces(n, |os[n].seen|);
      forall p
        ensures p in now <==> p.InWindow? && p.o == n && p.s < |os[n].seen|
      {
        if p.InWindow? && p.o == n && p.s < |os[n].seen| {
          assert now[p.s] == p;
        }
      }
      JoinOrder(before, now);
      assert forall i :: 0 <= i < n ==> init[i] == os[i];
    }
  }

  lemma JoinOrder(a: seq<Place>, b: seq<Place>)
    requires InOrder(a) && InOrder(b) && forall p, q :: p in a && q in b ==> Comes(p, q)
    ensures InOrder(a + b)
  {
    forall i, j | 0 <= i < j < |a + b|
      ensures Comes((a + b)[i], (a + b)[j])
    {
      assert (a + b)[i] in a || (a + b)[i] in b;
      if i < |a| <= j {
        assert a[i] in a && b[j - |a|] in b;
      }
    }
  }

  lemma PlacesInOrder(os: seq<Observation>, later: seq<Later>)
    ensures InOrder(Places(os, later))
    ensures forall p :: ReadAt(os, later)(p).Some? ==> p in Places(os, later)
  {
    WindowInOrder(os);
    var after := AfterPlaces(|later|);
    JoinOrder(WindowPlaces(os), after);
    forall p | ReadAt(os, later)(p).Some?
      ensures p in Places(os, later)
    {
      if p.After? {
        assert after[p.l] == p;
      }
    }
  }

  /** The samples of a domain are exactly the readings, each once, those of the
      window first and all in order. */
  lemma SamplesExactly(os: seq<Observation>, later: seq<Later>)
    ensures AllSamples(os, later) == Picked(Places(os, later), ReadAt(os, later))
  {
    forall n
      ensures n in HitEntities(os) <==> IsHit(os, n)
    {
    }
    WindowRead(os, later, |os|);
    AfterRead(os, later, |later|);
    assert os[..|os|] == os && later[..|later|] == later;
    PickedConcat(WindowPlaces(os), AfterPlaces(|later|), ReadAt(os, later));
  }

  lemma {:induction false} WindowRead(os: seq<Observation>, later: seq<Later>, n: nat)
    requires n <= |os| && forall e :: e in HitEntities(os) <==> IsHit(os, e)
    ensures TagObserved(os[..n], HitEntities(os)) == Picked(WindowPlaces(os[..n]), ReadAt(os, later))
  {
    hide HitEntities, IsHit;
    if n > 0 {
      WindowRead(os, later, n - 1);
      assert os[..n][..n - 1] == os[..n - 1];
      SignalsRead(os, later, n - 1, |os[n - 1].seen|);
      assert os[n - 1].seen[..|os[n - 1].seen|] == os[n - 1].seen;
      PickedConcat(WindowPlaces(os[..n - 1]), SignalPlaces(n - 1, |os[n - 1].seen|), ReadAt(os, later));
    }
  }

  lemma {:induction false} SignalsRead(os: seq<Observation>, later: seq<Later>, i: nat, m: nat)
    requires i < |os| && m <= |os[i].seen| && forall e :: e in HitEntities(os) <==> IsHit(os, e)
    ensures Picked(SignalPlaces(i, m), ReadAt(os, later)) == if os[i].entity in HitEntities(os) then TagSeen(os[i], os[i].seen[..m]) else []
  {
    hide HitEntities, IsHit, ReadAt;
    if m > 0 {
      SignalsRead(os, later, i, m - 1);
      assert os[i].seen[..m][..m - 1] == os[i].seen[..m - 1];
      SignalSnoc(i, m - 1);
      PickedSnoc(SignalPlaces(i, m - 1), ReadAt(os, later), InWindow(i, m - 1));
      ReadSignal(os, later, i, m - 1);
    }
  }

  lemma AfterSnoc(n: nat)
    ensures AfterPlaces(n + 1) == AfterPlaces(n) + [After(n)]
  {
  }

  lemma SignalSnoc(i: nat, m: nat)
    ensures SignalPlaces(i, m + 1) == SignalPlaces(i, m) + [InWindow(i, m)]
  {
  }

  lemma ReadSignal(os: seq<Observation>, later: seq<Later>, i: nat, m: nat)
    requires i < |os| && m < |os[i].seen|
    ensures ReadAt(os, later)(InWindow(i, m)) ==
            if IsHit(os, os[i].entity)
            then Some(Tagged(SeriesKey(os[i].entity, os[i].seen[m].signal), Sample(os[i].at, os[i].seen[m].signal in os[i].HitNames()),
                             os[i].seen[m].lasting))
            else None
  {
    assert os[i].seen[m].signal in os[i].HitNames() <==> exists h :: h in os[i].hits && h.cat == os[i].seen[m].signal;
  }

  lemma {:induction false} AfterRead(os: seq<Observation>, later: seq<Later>, n: nat)
    requires n <= |later| && forall e :: e in HitEntities(os) <==> IsHit(os, e)
    ensures TagLater(later[..n], HitEntities(os)) == Picked(AfterPlaces(n), ReadAt(os, later))
  {
    hide HitEntities, IsHit;
    if n > 0 {
      AfterRead(os, later, n - 1);
      assert later[..n][..n - 1] == later[..n - 1];
      AfterSnoc(n - 1);
      PickedSnoc(AfterPlaces(n - 1), ReadAt(os, later), After(n - 1));
    }
  }

  // ------------------------------------------------------------------ series

  /** At this place the series is read, and this is the sample. */
  predicate Reads(os: seq<Observation>, later: seq<Later>, p: Place, k: SeriesKey, x: Sample) {
    var t := ReadAt(os, later)(p);
    t.Some? && t.value.key == k && t.value.sample == x
  }

  /** What is read of one series. */
  function ReadOf(os: seq<Observation>, later: seq<Later>, k: SeriesKey): Place -> Option<Tagged> {
    (p: Place) =>
      var t := ReadAt(os, later)(p);
      if t.Some? && t.value.key == k then t else None
  }

  /** Where the samples of a series stand. */
  ghost predicate StandAt(os: seq<Observation>, later: seq<Later>, k: SeriesKey, at: seq<Place>) {
    && |at| == |SeriesOf(os, later, k)| && InOrder(at)
    && (forall i :: 0 <= i < |at| ==> Reads(os, later, at[i], k, SeriesOf(os, later, k)[i]))
    && (forall p, x :: Reads(os, later, p, k, x) ==> p in at)
  }

  lemma SeriesPlaces(os: seq<Observation>, later: seq<Later>, k: SeriesKey) returns (at: seq<Place>)
    ensures StandAt(os, later, k, at)
  {
    hide AllSamples, Members, ReadAt, Places, NonePassed;
    var all, pick := Places(os, later), ReadOf(os, later, k);
    SamplesExactly(os, later);
    PickedMembersOf(all, ReadAt(os, later), pick, TagKey, k);
    PlacesInOrder(os, later);
    var places := PickedPlaces(all, pick);
    at := seq(|places|, i requires 0 <= i < |places| => all[places[i]]);
    forall p, x | Reads(os, later, p, k, x)
      ensures p in at
    {
      assert pick(p).Some? && p in all;
      var n := PickedSomewhere(all, pick, Picked(all, pick), places, p);
      assert at[n] == p;
    }
  }

  lemma PickedSomewhere(all: seq<Place>, pick: Place -> Option<Tagged>, ys: seq<Tagged>, places: seq<nat>, p: Place) returns (n: nat)
    requires PicksAt(all, pick, ys, places) && p in all && pick(p).Some?
    ensures n < |places| && all[places[n]] == p
  {
    var i: nat :| i < |all| && all[i] == p;
    assert i in places;
    n :| 0 <= n < |places| && places[n] == i;
  }

  /** One reading before another: by time, and at one time by place. */
  predicate Sooner(p: Place, x: Sample, q: Place, y: Sample) { x.at < y.at || (x.at == y.at && Comes(p, q)) }

  /** The series fired, cleared and fired again. */
  ghost predicate FiredTwice(os: seq<Observation>, later: seq<Later>, k: SeriesKey) {
    exists p, x, q, y, r, z ::
      && Reads(os, later, p, k, x) && Reads(os, later, q, k, y) && Reads(os, later, r, k, z)
      && Sooner(p, x, q, y) && Sooner(q, y, r, z) && x.firing && !y.firing && z.firing
  }

  /** A metric or state signal is read under `k`. */
  ghost predicate IsLasting(os: seq<Observation>, later: seq<Later>, k: SeriesKey) {
    exists p :: ReadAt(os, later)(p).Some? && ReadAt(os, later)(p).value.key == k && ReadAt(os, later)(p).value.lasting
  }

  lemma LastingTold(os: seq<Observation>, later: seq<Later>, k: SeriesKey)
    ensures Lasting(os, later, k) <==> IsLasting(os, later, k)
  {
    hide AllSamples, ReadAt, Places;
    SamplesExactly(os, later);
    PlacesInOrder(os, later);
    PickedMembers(Places(os, later), ReadAt(os, later));
  }

  /** `x` stands before `y` in time order. */
  predicate TimeBefore(samples: seq<Sample>, i: nat, j: nat) {
    i < |samples| && j < |samples| && (samples[i].at < samples[j].at || (samples[i].at == samples[j].at && i < j))
  }

  predicate Thrice(samples: seq<Sample>, i: nat, j: nat, l: nat) {
    TimeBefore(samples, i, j) && TimeBefore(samples, j, l) && samples[i].firing && !samples[j].firing && samples[l].firing
  }

  lemma FlappedTold(samples: seq<Sample>)
    ensures Flapped(samples) <==> exists i: nat, j: nat, l: nat :: Thrice(samples, i, j, l)
  {
    hide InTime, Thrice;
    var sorted := InTime(samples);
    var places := TimePlaces(samples);
    if Flapped(samples) {
      var a, b, c :| 0 <= a < b < c < |sorted| && States(sorted)[a] && !States(sorted)[b] && States(sorted)[c];
      ThriceSorted(samples, sorted, places, a, b, c);
    }
    if i: nat, j: nat, l: nat :| Thrice(samples, i, j, l) {
      ThricePlaced(samples, sorted, places, i, j, l);
    }
  }

  lemma TimePlaces(samples: seq<Sample>) returns (places: seq<nat>)
    ensures IsPlacing(SampleLe, samples, InTime(samples), places)
  {
    places := SortPlaces(SampleLe, samples);
  }

  lemma ThriceSorted(samples: seq<Sample>, sorted: seq<Sample>, places: seq<nat>, a: nat, b: nat, c: nat)
    requires IsPlacing(SampleLe, samples, sorted, places)
    requires a < b < c < |sorted| && sorted[a].firing && !sorted[b].firing && sorted[c].firing
    ensures Thrice(samples, places[a], places[b], places[c])
  {
    assert StablyBefore(SampleLe, samples, places[a], places[b]) && StablyBefore(SampleLe, samples, places[b], places[c]);
  }

  lemma ThricePlaced(samples: seq<Sample>, sorted: seq<Sample>, places: seq<nat>, i: nat, j: nat, l: nat)
    requires IsPlacing(SampleLe, samples, sorted, places) && Thrice(samples, i, j, l)
    ensures FiresAgain(States(sorted))
  {
    var a, b := PlacedBefore(samples, sorted, places, i, j);
    var b', c := PlacedBefore(samples, sorted, places, j, l);
    PlacedOnce(samples, sorted, places, b, b');
    hide TimeBefore;
    assert States(sorted)[a] && !States(sorted)[b] && States(sorted)[c];
  }

  lemma PlacedOnce(samples: seq<Sample>, sorted: seq<Sample>, places: seq<nat>, a: nat, b: nat)
    requires IsPlacing(SampleLe, samples, sorted, places) && a < |places| && b < |places| && places[a] == places[b]
    ensures a == b
  {
    assert a < b ==> StablyBefore(SampleLe, samples, places[a], places[b]);
    assert b < a ==> StablyBefore(SampleLe, samples, places[b], places[a]);
  }

  lemma PlacedBefore(samples: seq<Sample>, sorted: seq<Sample>, places: seq<nat>, i: nat, j: nat) returns (a: nat, b: nat)
    requires IsPlacing(SampleLe, samples, sorted, places) && TimeBefore(samples, i, j)
    ensures a < b < |places| && places[a] == i && places[b] == j
  {
    assert i in places && j in places;
    a :| 0 <= a < |places| && places[a] == i;
    b :| 0 <= b < |places| && places[b] == j;
    assert b < a ==> StablyBefore(SampleLe, samples, places[b], places[a]);
  }

  /** Episodes on the readings: a series flapped exactly when it was read firing,
      later clear, and later firing again. */
  lemma FlapsTold(os: seq<Observation>, later: seq<Later>, k: SeriesKey)
    ensures Flapped(SeriesOf(os, later, k)) <==> FiredTwice(os, later, k)
  {
    hide SeriesOf, Reads, Flapped;
    var at := SeriesPlaces(os, later, k);
    var samples := SeriesOf(os, later, k);
    FlappedTold(samples);
    if i: nat, j: nat, l: nat :| Thrice(samples, i, j, l) {
      SoonerTold(samples, at, i, j);
      SoonerTold(samples, at, j, l);
      assert Reads(os, later, at[i], k, samples[i]) && Reads(os, later, at[j], k, samples[j]) && Reads(os, later, at[l], k, samples[l]);
    }
    if p, x, q, y, r, z :|
      && Reads(os, later, p, k, x) && Reads(os, later, q, k, y) && Reads(os, later, r, k, z)
      && Sooner(p, x, q, y) && Sooner(q, y, r, z) && x.firing && !y.firing && z.firing {
      var i := ReadingAt(os, later, k, at, p, x);
      var j := ReadingAt(os, later, k, at, q, y);
      var l := ReadingAt(os, later, k, at, r, z);
      SoonerTold(samples, at, i, j);
      SoonerTold(samples, at, j, l);
      assert Thrice(samples, i, j, l);
    }
  }

  lemma ReadingAt(os: seq<Observation>, later: seq<Later>, k: SeriesKey, at: seq<Place>, p: Place, x: Sample) returns (i: nat)
    requires StandAt(os, later, k, at) && Reads(os, later, p, k, x)
    ensures i < |at| && at[i] == p && SeriesOf(os, later, k)[i] == x
  {
    hide SeriesOf, ReadAt;
    assert p in at;
    i :| 0 <= i < |at| && at[i] == p;
  }

  lemma SoonerTold(samples: seq<Sample>, at: seq<Place>, i: nat, j: nat)
    requires |at| == |samples| && InOrder(at) && i < |at| && j < |at|
    ensures Sooner(at[i], samples[i], at[j], samples[j]) <==> TimeBefore(samples, i, j)
  {
    assert i < j ==> Comes(at[i], at[j]);
    assert j < i ==> Comes(at[j], at[i]);
    NotBoth(at[i], at[j]);
  }

  lemma NotBoth(p: Place, q: Place)
    ensures !(Comes(p, q) && Comes(q, p))
  {
  }

  // ------------------------------------------------------------------- state

  /** The last reading of the series. */
  ghost predicate LastReading(os: seq<Observation>, later: seq<Later>, k: SeriesKey, p: Place, x: Sample) {
    && Reads(os, later, p, k, x)
    && forall q, y :: Reads(os, later, q, k, y) && q != p ==> Sooner(q, y, p, x)
  }

  lemma LastTold(samples: seq<Sample>)
    ensures LastSample(samples).Some? <==> samples != []
    ensures LastSample(samples).Some? ==>
              exists i: nat :: i < |samples| && samples[i] == LastSample(samples).value &&
                forall j: nat :: j < |samples| && j != i ==> TimeBefore(samples, j, i)
  {
    if samples != [] {
      var sorted := InTime(samples);
      var places := SortPlaces(SampleLe, samples);
      hide InTime, Sort;
      var n := |sorted| - 1;
      var i := places[n];
      forall j: nat | j < |samples| && j != i
        ensures TimeBefore(samples, j, i)
      {
        assert j in places;
        var a :| 0 <= a < |places| && places[a] == j;
        assert StablyBefore(SampleLe, samples, places[a], places[n]);
      }
      assert samples[i] == LastSample(samples).value;
    }
  }

  lemma LastReadingTold(os: seq<Observation>, later: seq<Later>, k: SeriesKey)
    ensures LastSample(SeriesOf(os, later, k)).Some? <==> exists p, x :: Reads(os, later, p, k, x)
    ensures forall p, x :: LastReading(os, later, k, p, x) ==> LastSample(SeriesOf(os, later, k)) == Some(x)
    ensures LastSample(SeriesOf(os, later, k)).Some? ==> exists p :: LastReading(os, later, k, p, LastSample(SeriesOf(os, later, k)).value)
  {
    hide SeriesOf, Reads, LastSample;
    var at := SeriesPlaces(os, later, k);
    var samples := SeriesOf(os, later, k);
    LastTold(samples);
    if samples != [] {
      assert Reads(os, later, at[0], k, samples[0]);
      var i: nat :| i < |samples| && samples[i] == LastSample(samples).value && forall j: nat :: j < |samples| && j != i ==> TimeBefore(samples, j, i);
      forall q, y | Reads(os, later, q, k, y) && q != at[i]
        ensures Sooner(q, y, at[i], samples[i])
      {
        var j := ReadingAt(os, later, k, at, q, y);
        SoonerTold(samples, at, j, i);
      }
      assert LastReading(os, later, k, at[i], samples[i]);
      forall p, x | LastReading(os, later, k, p, x)
        ensures x == samples[i]
      {
        var j := ReadingAt(os, later, k, at, p, x);
        SoonerTold(samples, at, i, j);
        SoonerTold(samples, at, j, i);
      }
    }
    if p, x :| Reads(os, later, p, k, x) {
      var i := ReadingAt(os, later, k, at, p, x);
    }
  }

  /** The series was read before the other ever was. */
  ghost predicate ReadFirst(os: seq<Observation>, later: seq<Later>, k: SeriesKey, j: SeriesKey) {
    exists p, x :: Reads(os, later, p, k, x) && forall q, y :: Reads(os, later, q, j, y) ==> Comes(p, q)
  }

  lemma ReadFirstTold(os: seq<Observation>, later: seq<Later>, k: SeriesKey, j: SeriesKey)
    requires k != j && j in Keys(TagKey, AllSamples(os, later))
    ensures Earlier(Keys(TagKey, AllSamples(os, later)), k, j) <==> ReadFirst(os, later, k, j)
  {
    hide AllSamples, ReadAt, Places, Keys, Earlier, ReadFirst, Reads;
    var all, ts := Places(os, later), AllSamples(os, later);
    SamplesExactly(os, later);
    PlacesInOrder(os, later);
    KeysByFirst(TagKey, ts, k, j);
    var places := PickedPlaces(all, ReadAt(os, later));
    if i :| 0 <= i < |ts| && TagKey(ts[i]) == k && forall m :: 0 <= m < i ==> TagKey(ts[m]) != j {
      FirstReads(os, later, k, j, all, places, i);
    }
    if ReadFirst(os, later, k, j) {
      ReadsFirst(os, later, k, j, all, places);
    }
  }

  lemma FirstReads(os: seq<Observation>, later: seq<Later>, k: SeriesKey, j: SeriesKey, all: seq<Place>, places: seq<nat>, i: nat)
    requires k != j && all == Places(os, later) && PicksAt(all, ReadAt(os, later), AllSamples(os, later), places)
    requires InOrder(all)
    requires i < |AllSamples(os, later)| && AllSamples(os, later)[i].key == k
    requires forall m :: 0 <= m < i ==> TagKey(AllSamples(os, later)[m]) != j
    ensures ReadFirst(os, later, k, j)
  {
    hide AllSamples, ReadAt, Places, NonePassed;
    var ts := AllSamples(os, later);
    var p := all[places[i]];
    forall q, y | Reads(os, later, q, j, y)
      ensures Comes(p, q)
    {
      var m := PlaceOf(os, later, all, places, q);
      assert TagKey(ts[m]) == j && i < m;
    }
    assert Reads(os, later, p, k, ts[i].sample);
  }

  lemma ReadsFirst(os: seq<Observation>, later: seq<Later>, k: SeriesKey, j: SeriesKey, all: seq<Place>, places: seq<nat>)
    requires k != j && all == Places(os, later) && PicksAt(all, ReadAt(os, later), AllSamples(os, later), places)
    requires InOrder(all) && ReadFirst(os, later, k, j)
    ensures exists i :: 0 <= i < |AllSamples(os, later)| && TagKey(AllSamples(os, later)[i]) == k &&
                        forall m :: 0 <= m < i ==> TagKey(AllSamples(os, later)[m]) != j
  {
    hide AllSamples, ReadAt, Places, NonePassed;
    var ts := AllSamples(os, later);
    var p, x :| Reads(os, later, p, k, x) && forall q, y :: Reads(os, later, q, j, y) ==> Comes(p, q);
    var i := PlaceOf(os, later, all, places, p);
    forall m | 0 <= m < i
      ensures TagKey(ts[m]) != j
    {
      var q := all[places[m]];
      assert places[m] < places[i] && Comes(q, p);
      NotBoth(p, q);
      assert TagKey(ts[m]) == j ==> Reads(os, later, q, j, ts[m].sample);
    }
    assert TagKey(ts[i]) == k;
  }

  lemma PlaceOf(os: seq<Observation>, later: seq<Later>, all: seq<Place>, places: seq<nat>, p: Place) returns (i: nat)
    requires all == Places(os, later) && PicksAt(all, ReadAt(os, later), AllSamples(os, later), places)
    requires ReadAt(os, later)(p).Some?
    ensures i < |places| && all[places[i]] == p && ReadAt(os, later)(p) == Some(AllSamples(os, later)[i])
  {
    hide AllSamples, ReadAt, Places;
    PlacesInOrder(os, later);
    var n: nat :| n < |all| && all[n] == p;
    assert NonePassed(all, ReadAt(os, later), places);
    assert n in places;
    i :| 0 <= i < |places| && places[i] == n;
  }

  /** The reading that shows an entity's state: the last of a lasting series, with no
      lasting series of the entity read later, nor one as late that was read before. */
  ghost predicate ShowsState(os: seq<Observation>, later: seq<Later>, k: SeriesKey, p: Place, x: Sample) {
    && IsLasting(os, later, k) && LastReading(os, later, k, p, x)
    && forall j, q, y :: IsLasting(os, later, j) && j.entity == k.entity && j != k && LastReading(os, later, j, q, y) ==>
         y.at < x.at || (y.at == x.at && ReadFirst(os, later, k, j))
  }

  lemma DecidesTold(os: seq<Observation>, later: seq<Later>, k: SeriesKey)
    ensures Decides(os, later, k) <==> exists p, x :: ShowsState(os, later, k, p, x)
    ensures forall p, x :: ShowsState(os, later, k, p, x) ==> LastSample(SeriesOf(os, later, k)) == Some(x)
  {
    hide SeriesOf, LastSample, LastReading, ReadFirst, Lasting, IsLasting, AllSamples, Keys, Earlier;
    SeriesTold(os, later, k);
    forall j
      ensures LastsAs(os, later, j)
      ensures Lasting(os, later, j) && j != k ==> (Earlier(Keys(TagKey, AllSamples(os, later)), k, j) <==> ReadFirst(os, later, k, j))
    {
      SeriesTold(os, later, j);
      if Lasting(os, later, j) && j != k {
        ReadFirstTold(os, later, k, j);
      }
    }
    if Decides(os, later, k) {
      var x := LastSample(SeriesOf(os, later, k)).value;
      var p :| LastReading(os, later, k, p, x);
      forall j, q, y | IsLasting(os, later, j) && j.entity == k.entity && j != k && LastReading(os, later, j, q, y)
        ensures y.at < x.at || (y.at == x.at && ReadFirst(os, later, k, j))
      {
        assert LastsAs(os, later, j);
      }
      assert ShowsState(os, later, k, p, x);
    }
    if p, x :| ShowsState(os, later, k, p, x) {
      forall j | Lasting(os, later, j) && j.entity == k.entity && j != k
        ensures LastSample(SeriesOf(os, later, j)).Some?
        ensures var y := LastSample(SeriesOf(os, later, j)).value;
                y.at < x.at || (y.at == x.at && Earlier(Keys(TagKey, AllSamples(os, later)), k, j))
      {
        assert LastsAs(os, later, j);
        var y := LastSample(SeriesOf(os, later, j)).value;
        var q :| LastReading(os, later, j, q, y);
      }
    }
  }

  /** The series' last sample is its last reading. */
  ghost predicate LastsAs(os: seq<Observation>, later: seq<Later>, k: SeriesKey) {
    && (Lasting(os, later, k) <==> IsLasting(os, later, k))
    && (Lasting(os, later, k) ==> LastSample(SeriesOf(os, later, k)).Some?)
    && (Lasting(os, later, k) ==> exists q :: LastReading(os, later, k, q, LastSample(SeriesOf(os, later, k)).value))
    && (forall q, y :: LastReading(os, later, k, q, y) ==> LastSample(SeriesOf(os, later, k)) == Some(y))
  }

  lemma SeriesTold(os: seq<Observation>, later: seq<Later>, k: SeriesKey)
    ensures LastsAs(os, later, k)
    ensures Lasting(os, later, k) ==> k in Keys(TagKey, AllSamples(os, later))
  {
    hide SeriesOf, LastSample, LastReading, Reads, Lasting, IsLasting, AllSamples, Keys;
    LastingTold(os, later, k);
    LastReadingTold(os, later, k);
    if Lasting(os, later, k) {
      LastingRead(os, later, k);
    }
  }

  lemma LastingRead(os: seq<Observation>, later: seq<Later>, k: SeriesKey)
    requires Lasting(os, later, k)
    ensures k in Keys(TagKey, AllSamples(os, later)) && LastSample(SeriesOf(os, later, k)).Some?
  {
    hide AllSamples;
    GroupFacts(TagKey, AllSamples(os, later));
    var t :| t in AllSamples(os, later) && t.key == k && t.lasting;
    assert TagKey(t) == k;
  }

  // ---------------------------------------------------------------- incident

  ghost predicate Flapping(x: Telemetry) {
    exists k :: IsLasting(x.os, x.later, k) && FiredTwice(x.os, x.later, k)
  }

  ghost predicate Firing(x: Telemetry) {
    exists k, p, r :: ShowsState(x.os, x.later, k, p, r) && r.firing
  }

  ghost predicate Stateful(x: Telemetry) { exists k :: IsLasting(x.os, x.later, k) }

  lemma TelemetryTold(x: Telemetry)
    ensures Flaps(x) <==> Flapping(x)
    ensures FiresNow(x) <==> Firing(x)
    ensures HasState(x) <==> Stateful(x)
  {
    hide Lasting, IsLasting, Flapped, FiredTwice, Decides, ShowsState, SeriesOf, LastSample;
    forall k
      ensures Lasting(x.os, x.later, k) <==> IsLasting(x.os, x.later, k)
      ensures Flapped(SeriesOf(x.os, x.later, k)) <==> FiredTwice(x.os, x.later, k)
    {
      LastingTold(x.os, x.later, k);
      FlapsTold(x.os, x.later, k);
    }
    if FiresNow(x) {
      var k :| Decides(x.os, x.later, k) && EndsFiring(SeriesOf(x.os, x.later, k));
      DecidesTold(x.os, x.later, k);
      var p, r :| ShowsState(x.os, x.later, k, p, r);
    }
    if k, p, r :| ShowsState(x.os, x.later, k, p, r) && r.firing {
      DecidesTold(x.os, x.later, k);
    }
  }

  /** The status of the incident on the observations of its anomalous domains:
      flapping when a metric or state of a hit entity was read firing, then clear,
      then firing; otherwise ongoing when the reading that shows an entity's state
      fires; otherwise recovered when there is such a reading; otherwise unknown. */
  lemma IncidentTold(xs: seq<Telemetry>, findings: seq<Finding>)
    requires |xs| == |findings| && forall i :: 0 <= i < |xs| ==> xs[i].finding == findings[i] && Reports(xs[i])
    ensures IncidentStatusOf(findings, 2) ==
            if exists x :: x in xs && x.finding.anomaly && Flapping(x) then IncidentStatus.Flapping
            else if exists x :: x in xs && x.finding.anomaly && Firing(x) then Ongoing
            else if exists x :: x in xs && x.finding.anomaly && Stateful(x) then Recovered
            else Undetermined
  {
    hide Reports, Flaps, FiresNow, HasState, Flapping, Firing, Stateful, IncidentStatusOf;
    IncidentExactly(xs, findings);
    forall x
      ensures Flaps(x) <==> Flapping(x)
      ensures FiresNow(x) <==> Firing(x)
      ensures HasState(x) <==> Stateful(x)
    {
      TelemetryTold(x);
    }
  }
}
