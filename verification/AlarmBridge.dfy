/** ingestion/sqs_alarm_bridge.py: alarms are buffered from a queue, posted as one
    incident per burst, and deleted from the queue. */
module AlarmBridge {
  import opened Prelude

  const RETRY_SECONDS := 30

  datatype Event = Event(id: Option<string>)

  /** What a queue message holds: an alarm going off, or anything else (no JSON,
      another event, an alarm that clears). */
  datatype Body = Alarm(event: Event) | Other

  /** One delivery of the queue message `queued`, under a receipt; `at` is the
      clock when it is handled. */
  datatype Message = Message(body: Body, receipt: string, at: int, queued: nat)

  /** What the outside world sees, in order. */
  datatype Effect =
    | DropIgnored(batch: seq<string>)   // messages that were not taken into the buffer
    | Post(events: seq<Event>, receipts: seq<string>)
    | DropPosted(batch: seq<string>)

  datatype State = State(events: seq<Event>, receipts: seq<string>, seen: set<Option<string>>, first: int, last: int, retryAt: int)

  datatype Settings = Settings(quiet: int, maxGroup: int)

  // ----------------------------------------------------------------- batches

  /** delete_message_batch calls of at most ten receipts. */
  function Batches(receipts: seq<string>): seq<seq<string>> {
    if |receipts| == 0 then []
    else if |receipts| <= 10 then [receipts]
    else [receipts[..10]] + Batches(receipts[10..])
  }

  function Flat(bs: seq<seq<string>>): seq<string> {
    if bs == [] then [] else bs[0] + Flat(bs[1..])
  }

  /** Each receipt is in exactly one batch, in order, and no batch is empty or
      over ten. */
  lemma {:induction false} BatchesExact(receipts: seq<string>)
    ensures Flat(Batches(receipts)) == receipts
    ensures forall b :: b in Batches(receipts) ==> 1 <= |b| <= 10
  {
    if |receipts| > 10 {
      BatchesExact(receipts[10..]);
      assert Batches(receipts)[1..] == Batches(receipts[10..]);
      assert receipts == receipts[..10] + receipts[10..];
    } else if receipts != [] {
      assert Flat([receipts]) == receipts + Flat([]);
    }
  }

  /** Every batch is full but the last: batch `i` holds the receipts from the
      (10 * i)-th on. */
  lemma {:induction false} BatchAt(rs: seq<string>, i: nat)
    ensures |Batches(rs)| == (|rs| + 9) / 10
    ensures i < |Batches(rs)| ==> 10 * i < |rs| && Batches(rs)[i] == Take(rs[10 * i..], 10)
  {
    if |rs| > 10 {
      BatchAt(rs[10..], if i > 0 then i - 1 else 0);
      if 0 < i < |Batches(rs)| {
        assert rs[10..][10 * (i - 1)..] == rs[10 * i..];
      }
    }
  }

  lemma {:induction false} FirstBatches(rs: seq<string>, n: nat)
    requires n <= |Batches(rs)|
    ensures Flat(Batches(rs)[..n]) == Take(rs, 10 * n)
  {
    if n > 0 {
      var bs := Batches(rs);
      assert bs[..n][0] == bs[0] && bs[..n][1..] == bs[1..][..n - 1];
      if |rs| > 10 {
        FirstBatches(rs[10..], n - 1);
        assert Take(rs, 10 * n) == rs[..10] + Take(rs[10..], 10 * n - 10);
      }
    }
  }

  function Dropped(posted: bool, bs: seq<seq<string>>): (r: seq<Effect>)
    ensures |r| == |bs| && forall i :: 0 <= i < |r| ==> r[i] == if posted then DropPosted(bs[i]) else DropIgnored(bs[i])
  {
    seq(|bs|, i requires 0 <= i < |bs| => if posted then DropPosted(bs[i]) else DropIgnored(bs[i]))
  }

  lemma NextBatch(rs: seq<string>, i: nat, all: seq<seq<string>>, n: nat, posted: bool)
    requires i < |rs| && n <= |all| && Batches(rs[i..]) == all[n..]
    ensures n < |all| && all[n] == (if |rs| - i <= 10 then rs[i..] else rs[i..i + 10])
    ensures Batches(rs[if |rs| - i <= 10 then |rs| else i + 10..]) == all[n + 1..]
    ensures Dropped(posted, all[..n + 1]) == Dropped(posted, all[..n]) + [if posted then DropPosted(all[n]) else DropIgnored(all[n])]
  {
    var rest := rs[i..];
    assert all[n..][0] == all[n] && all[n..][1..] == all[n + 1..];
    if |rest| <= 10 {
      assert rs[|rs|..] == [];
    } else {
      assert rest[10..] == rs[i + 10..] && rest[..10] == rs[i..i + 10];
    }
  }

  // ------------------------------------------------------------ specification

  predicate Taken(seen: set<Option<string>>, m: Message) {
    m.body.Alarm? && m.body.event.id !in seen
  }

  function Buffered(s: State, m: Message): State {
    if Taken(s.seen, m) then
      State(s.events + [m.body.event], s.receipts + [m.receipt], s.seen + {m.body.event.id},
            if s.events == [] then m.at else s.first, m.at, s.retryAt)
    else s
  }

  function AllBuffered(s: State, ms: seq<Message>): State {
    if ms == [] then s else Buffered(AllBuffered(s, ms[..|ms| - 1]), ms[|ms| - 1])
  }

  function Ignored(s: State, ms: seq<Message>): seq<string> {
    if ms == [] then [] else
      var rest := Ignored(s, ms[..|ms| - 1]);
      if Taken(AllBuffered(s, ms[..|ms| - 1]).seen, ms[|ms| - 1]) then rest else rest + [ms[|ms| - 1].receipt]
  }

  function TakenFrom(s: State, ms: seq<Message>): seq<Message> {
    if ms == [] then [] else
      var rest := TakenFrom(s, ms[..|ms| - 1]);
      if Taken(AllBuffered(s, ms[..|ms| - 1]).seen, ms[|ms| - 1]) then rest + [ms[|ms| - 1]] else rest
  }

  lemma NothingHandled(s: State)
    ensures AllBuffered(s, []) == s && Ignored(s, []) == [] && TakenFrom(s, []) == []
    ensures Batches([]) == [] && Dropped(false, []) == []
  {
  }

  lemma PollNext(s: State, ms: seq<Message>, i: nat)
    requires i < |ms|
    ensures var taken := Taken(AllBuffered(s, ms[..i]).seen, ms[i]);
            && AllBuffered(s, ms[..i + 1]) == Buffered(AllBuffered(s, ms[..i]), ms[i])
            && Ignored(s, ms[..i + 1]) == Ignored(s, ms[..i]) + (if taken then [] else [ms[i].receipt])
            && TakenFrom(s, ms[..i + 1]) == TakenFrom(s, ms[..i]) + (if taken then [ms[i]] else [])
  {
    assert ms[..i + 1][..i] == ms[..i];
  }

  predicate Due(cfg: Settings, s: State, now: int) {
    s.events != [] && now >= s.retryAt && (now - s.last >= cfg.quiet || now - s.first >= cfg.maxGroup)
  }

  /** How a POST ends. Stopped: accepted, but saving the record or deleting raised,
      after some batches, which ends the bridge's loop. */
  datatype Outcome = Failed(now: int) | Accepted | Stopped(batches: nat)

  /** How a poll ends: receiving, or deleting after some batches, may raise, which
      ends the bridge's loop too. */
  datatype PollEnd = Completed | NotReceived | DeleteRaised(batches: nat)

  predicate PollStops(s: State, ms: seq<Message>, e: PollEnd) {
    e.NotReceived? || (e.DeleteRaised? && e.batches < |Batches(Ignored(s, ms))|)
  }

  function AfterPoll(s: State, ms: seq<Message>, e: PollEnd): State {
    if e.NotReceived? then s else AllBuffered(s, ms)
  }

  function PollEffects(s: State, ms: seq<Message>, e: PollEnd): seq<Effect> {
    var bs := Batches(Ignored(s, ms));
    if e.NotReceived? then [] else Dropped(false, if PollStops(s, ms, e) then bs[..e.batches] else bs)
  }

  function TakenBy(s: State, ms: seq<Message>, e: PollEnd): seq<Message> {
    if e.NotReceived? then [] else TakenFrom(s, ms)
  }

  /** Whether the loop still runs, or what ended it. */
  datatype Life = Alive | DiedPolling | DiedPosted

  // -------------------------------------------------------------------- class

  class SqsAlarmBridge {
    const cfg: Settings
    var events: seq<Event>
    var receipts: seq<string>
    var seen: set<Option<string>>
    var first: int
    var last: int
    var retryAt: int
    var log: seq<Effect>
    var life: Life

    function View(): State
      reads this
    {
      State(events, receipts, seen, first, last, retryAt)
    }

    constructor (cfg: Settings)
      ensures this.cfg == cfg && View() == State([], [], {}, 0, 0, 0) && log == [] && life == Alive
    {
      this.cfg := cfg;
      events, receipts, seen, first, last, retryAt := [], [], {}, 0, 0, 0;
      log, life := [], Alive;
    }

    /** `_delete`, up to the batch where the queue client gives up, if it does. */
    method Delete(rs: seq<string>, posted: bool, limit: Option<nat>) returns (done: bool)
      modifies this`log
      ensures var bs := Batches(rs);
              var n := if limit.Some? && limit.value < |bs| then limit.value else |bs|;
              done == (n == |bs|) && log == old(log) + Dropped(posted, bs[..n])
    {
      ghost var all := Batches(rs);
      var i, n := 0, 0;
      assert Dropped(posted, all[..0]) == [];
      while i < |rs|
        invariant 0 <= i <= |rs| && n <= |all| && Batches(rs[i..]) == all[n..]
        invariant limit.Some? ==> n <= limit.value
        invariant log == old(log) + Dropped(posted, all[..n])
      {
        NextBatch(rs, i, all, n, posted);
        if limit.Some? && n == limit.value {
          return false;
        }
        var batch := if |rs| - i <= 10 then rs[i..] else rs[i..i + 10];
        log := log + [if posted then DropPosted(batch) else DropIgnored(batch)];
        i := if |rs| - i <= 10 then |rs| else i + 10;
        n := n + 1;
      }
      assert rs[i..] == [] && all[n..] == [];
      assert all[..n] == all;
      done := true;
    }

    method PollOnce(ms: seq<Message>, e: PollEnd) returns (added: nat)
      modifies this`events, this`receipts, this`seen, this`first, this`last, this`log, this`life
      ensures View() == AfterPoll(old(View()), ms, e)
      ensures added == |TakenBy(old(View()), ms, e)|
      ensures log == old(log) + PollEffects(old(View()), ms, e)
      ensures life == if PollStops(old(View()), ms, e) then DiedPolling else old(life)
    {
      hide AllBuffered, Ignored, TakenFrom, Batches, Dropped;
      NothingHandled(View());
      if e.NotReceived? {
        life := DiedPolling;
        return 0;
      }
      var ignored: seq<string> := [];
      added := 0;
      for i := 0 to |ms|
        invariant View() == AllBuffered(old(View()), ms[..i]) && log == old(log) && life == old(life)
        invariant ignored == Ignored(old(View()), ms[..i]) && added == |TakenFrom(old(View()), ms[..i])|
      {
        var m := ms[i];
        PollNext(old(View()), ms, i);
        if m.body.Other? || m.body.event.id in seen {
          ignored := ignored + [m.receipt];
          continue;
        }
        seen := seen + {m.body.event.id};
        if events == [] {
          first := m.at;
        }
        last := m.at;
        events := events + [m.body.event];
        receipts := receipts + [m.receipt];
        added := added + 1;
      }
      assert ms[..|ms|] == ms;
      ghost var bs := Batches(ignored);
      assert bs[..|bs|] == bs;
      if ignored != [] {
        var done := Delete(ignored, false, if e.DeleteRaised? then Some(e.batches) else None);
        if !done {
          life := DiedPolling;
        }
      }
    }

    predicate IsDue(now: int)
      reads this
    {
      Due(cfg, View(), now)
    }

    /** Post the buffered burst; an empty one is an error of the caller. */
    method Flush(outcome: Outcome) returns (posted: bool)
      requires events != []
      modifies this
      ensures log == old(log) + FlushEffects(old(View()), outcome)
      ensures View() == AfterFlush(old(View()), outcome)
      ensures life == if StopsBridge(old(View()), outcome) then DiedPosted else old(life)
      ensures posted <==> !outcome.Failed?
    {
      hide Batches, Dropped, FlushEffects;
      FlushLog(log, View(), outcome);
      if outcome.Failed? {
        retryAt := outcome.now + RETRY_SECONDS;
        return false;
      }
      log := log + [Post(events, receipts)];
      var done := Delete(receipts, true, if outcome.Stopped? then Some(outcome.batches) else None);
      ghost var bs := Batches(receipts);
      assert bs[..|bs|] == bs;
      if !done {
        life := DiedPosted;
        return true;
      }
      events, receipts := [], [];
      retryAt := 0;
      posted := true;
    }
  }

  /** One turn of the bridge's loop: a batch and how polling it ends, the clock
      after it, and how a POST would end. */
  datatype Turn = Turn(ms: seq<Message>, end: PollEnd, now: int, outcome: Outcome)

  function ActionsOf(turns: seq<Turn>): seq<Action> {
    if turns == [] then [] else
      var t := turns[|turns| - 1];
      ActionsOf(turns[..|turns| - 1]) + [Poll(t.ms, t.end)] + [FlushIfDue(t.now, t.outcome)]
  }

  lemma TwoActions(cfg: Settings, actions: seq<Action>, a: Action, b: Action)
    ensures Run(cfg, actions + [a] + [b]) == Step(cfg, Step(cfg, Run(cfg, actions), a), b)
  {
    assert (actions + [a] + [b])[..|actions| + 1] == actions + [a];
    assert (actions + [a])[..|actions|] == actions;
  }

  /** `run`, for as many turns as are given: the class carries out the state
      machine the theorems below are about. */
  method Serve(bridge: SqsAlarmBridge, turns: seq<Turn>)
    requires bridge.View() == Started.st && bridge.log == Started.log && bridge.life == Alive
    modifies bridge
    ensures var s := Run(bridge.cfg, ActionsOf(turns)); bridge.View() == s.st && bridge.log == s.log && bridge.life == s.life
  {
    for i := 0 to |turns|
      invariant var s := Run(bridge.cfg, ActionsOf(turns[..i]));
                bridge.View() == s.st && bridge.log == s.log && bridge.life == s.life
    {
      var t := turns[i];
      assert turns[..i + 1][..i] == turns[..i];
      ghost var before := Run(bridge.cfg, ActionsOf(turns[..i]));
      TwoActions(bridge.cfg, ActionsOf(turns[..i]), Poll(t.ms, t.end), FlushIfDue(t.now, t.outcome));
      hide Run, AfterPoll, PollEffects, PollStops, TakenBy, Batches, Dropped;
      if bridge.life == Alive {
        var _ := bridge.PollOnce(t.ms, t.end);
        ghost var polled := Step(bridge.cfg, before, Poll(t.ms, t.end));
        assert bridge.View() == polled.st && bridge.log == polled.log && bridge.life == polled.life;
        if bridge.life == Alive && bridge.IsDue(t.now) {
          var _ := bridge.Flush(t.outcome);
        }
      }
    }
    assert turns[..|turns|] == turns;
  }

  predicate StopsBridge(s: State, o: Outcome) { o.Stopped? && o.batches < |Batches(s.receipts)| }

  function AfterFlush(s: State, o: Outcome): State {
    if o.Failed? then s.(retryAt := o.now + RETRY_SECONDS)
    else if StopsBridge(s, o) then s
    else s.(events := [], receipts := [], retryAt := 0)
  }

  function FlushEffects(s: State, o: Outcome): seq<Effect> {
    var bs := Batches(s.receipts);
    if o.Failed? then []
    else [Post(s.events, s.receipts)] + Dropped(true, if StopsBridge(s, o) then bs[..o.batches] else bs)
  }

  lemma FlushLog(log: seq<Effect>, s: State, o: Outcome)
    ensures o.Failed? ==> log + FlushEffects(s, o) == log
    ensures !o.Failed? ==>
              var bs := Batches(s.receipts);
              log + FlushEffects(s, o) == (log + [Post(s.events, s.receipts)]) + Dropped(true, if StopsBridge(s, o) then bs[..o.batches] else bs)
  {
    hide Batches, Dropped;
    assert log + [] == log;
  }

  // ---------------------------------------------------------------- whole run

  datatype Action = Poll(ms: seq<Message>, end: PollEnd) | FlushIfDue(now: int, outcome: Outcome)

  /** The bridge, its log, whether its loop still runs, and every message it has
      ever taken. */
  datatype Sys = Sys(st: State, log: seq<Effect>, life: Life, taken: seq<Message>)

  const Started := Sys(State([], [], {}, 0, 0, 0), [], Alive, [])

  function Step(cfg: Settings, s: Sys, a: Action): Sys {
    if s.life != Alive then s else
      match a
      case Poll(ms, e) =>
        Sys(AfterPoll(s.st, ms, e), s.log + PollEffects(s.st, ms, e), if PollStops(s.st, ms, e) then DiedPolling else Alive,
            s.taken + TakenBy(s.st, ms, e))
      case FlushIfDue(now, o) =>
        if !Due(cfg, s.st, now) then s
        else Sys(AfterFlush(s.st, o), s.log + FlushEffects(s.st, o), if StopsBridge(s.st, o) then DiedPosted else Alive, s.taken)
  }

  function Run(cfg: Settings, actions: seq<Action>): Sys {
    if actions == [] then Started else Step(cfg, Run(cfg, actions[..|actions| - 1]), actions[|actions| - 1])
  }

  function EventsOf(ms: seq<Message>): seq<Event> {
    if ms == [] then [] else
      var m := ms[|ms| - 1];
      EventsOf(ms[..|ms| - 1]) + (if m.body.Alarm? then [m.body.event] else [])
  }

  function ReceiptsOf(ms: seq<Message>): seq<string> {
    if ms == [] then [] else ReceiptsOf(ms[..|ms| - 1]) + [ms[|ms| - 1].receipt]
  }

  function PostedEvents(log: seq<Effect>): seq<Event> {
    if log == [] then [] else PostedEvents(log[..|log| - 1]) + (if log[|log| - 1].Post? then log[|log| - 1].events else [])
  }

  function PostedReceipts(log: seq<Effect>): seq<string> {
    if log == [] then [] else PostedReceipts(log[..|log| - 1]) + (if log[|log| - 1].Post? then log[|log| - 1].receipts else [])
  }

  function DroppedReceipts(log: seq<Effect>): seq<string> {
    if log == [] then [] else DroppedReceipts(log[..|log| - 1]) + (if log[|log| - 1].DropPosted? then log[|log| - 1].batch else [])
  }

  function Ids(es: seq<Event>): seq<Option<string>> {
    if es == [] then [] else Ids(es[..|es| - 1]) + [es[|es| - 1].id]
  }

  /** At every point of the log, what was deleted as posted had been posted. */
  ghost predicate PostFirst(log: seq<Effect>) {
    forall n :: 0 <= n <= |log| ==> DroppedReceipts(log[..n]) <= PostedReceipts(log[..n])
  }

  /** `taken` is what the bridge remembers: receipts keep step with events, each
      id was taken once, and the seen ids are the taken ones. */
  ghost predicate Known(s: State, taken: seq<Message>) {
    && |s.events| == |s.receipts|
    && NoDup(Ids(EventsOf(taken))) && (forall id :: id in s.seen <==> id in Ids(EventsOf(taken)))
    && (forall m :: m in taken ==> m.body.Alarm?)
  }

  ghost predicate Inv(s: Sys) {
    && Known(s.st, s.taken)
    && PostFirst(s.log)
    && (s.life != DiedPosted ==>
         && PostedEvents(s.log) + s.st.events == EventsOf(s.taken)
         && PostedReceipts(s.log) + s.st.receipts == ReceiptsOf(s.taken)
         && DroppedReceipts(s.log) == PostedReceipts(s.log))
    && (s.life == DiedPosted ==> PostedEvents(s.log) == EventsOf(s.taken) && PostedReceipts(s.log) == ReceiptsOf(s.taken))
  }

  // Lists grow at their end.

  lemma IdsSnoc(es: seq<Event>, e: Event)
    ensures Ids(es + [e]) == Ids(es) + [e.id]
  {
    assert (es + [e])[..|es|] == es;
  }

  lemma TakenSnoc(ms: seq<Message>, m: Message)
    ensures EventsOf(ms + [m]) == EventsOf(ms) + (if m.body.Alarm? then [m.body.event] else [])
    ensures ReceiptsOf(ms + [m]) == ReceiptsOf(ms) + [m.receipt]
  {
    assert (ms + [m])[..|ms|] == ms;
  }

  lemma LogSnoc(log: seq<Effect>, e: Effect)
    ensures PostedEvents(log + [e]) == PostedEvents(log) + (if e.Post? then e.events else [])
    ensures PostedReceipts(log + [e]) == PostedReceipts(log) + (if e.Post? then e.receipts else [])
    ensures DroppedReceipts(log + [e]) == DroppedReceipts(log) + (if e.DropPosted? then e.batch else [])
  {
    assert (log + [e])[..|log|] == log;
  }

  lemma PostFirstSnoc(log: seq<Effect>, e: Effect)
    requires PostFirst(log) && DroppedReceipts(log + [e]) <= PostedReceipts(log + [e])
    ensures PostFirst(log + [e])
  {
    forall n | 0 <= n <= |log + [e]|
      ensures DroppedReceipts((log + [e])[..n]) <= PostedReceipts((log + [e])[..n])
    {
      if n <= |log| {
        assert (log + [e])[..n] == log[..n];
      } else {
        assert (log + [e])[..n] == log + [e];
      }
    }
  }

  /** Logging batch deletions: none adds a post, and all of the posted ones
      together are their receipts. */
  lemma {:induction false} LogDrops(log: seq<Effect>, posted: bool, bs: seq<seq<string>>)
    requires PostFirst(log) && (posted ==> DroppedReceipts(log) + Flat(bs) <= PostedReceipts(log))
    requires !posted ==> DroppedReceipts(log) <= PostedReceipts(log)
    ensures var log' := log + Dropped(posted, bs);
            && PostFirst(log') && PostedEvents(log') == PostedEvents(log) && PostedReceipts(log') == PostedReceipts(log)
            && DroppedReceipts(log') == DroppedReceipts(log) + (if posted then Flat(bs) else [])
    decreases |bs|
  {
    hide PostFirst, DroppedReceipts, PostedReceipts, PostedEvents;
    if bs == [] {
      assert log + Dropped(posted, bs) == log;
      assert DroppedReceipts(log) + [] == DroppedReceipts(log);
    } else {
      var e := if posted then DropPosted(bs[0]) else DropIgnored(bs[0]);
      LogSnoc(log, e);
      assert posted ==> DroppedReceipts(log) + Flat(bs) == (DroppedReceipts(log) + bs[0]) + Flat(bs[1..]);
      assert posted ==> DroppedReceipts(log + [e]) <= DroppedReceipts(log + [e]) + Flat(bs[1..]);
      assert !posted ==> DroppedReceipts(log + [e]) == DroppedReceipts(log);
      PostFirstSnoc(log, e);
      LogDrops(log + [e], posted, bs[1..]);
      assert log + Dropped(posted, bs) == (log + [e]) + Dropped(posted, bs[1..]);
    }
  }

  lemma {:induction false} FlatPrefix(bs: seq<seq<string>>, n: nat)
    requires n <= |bs|
    ensures Flat(bs[..n]) <= Flat(bs)
  {
    if n > 0 {
      assert bs[..n][1..] == bs[1..][..n - 1];
      FlatPrefix(bs[1..], n - 1);
    }
  }

  /** Buffer and receipts grew by exactly what was taken. */
  ghost predicate Grown(s: State, taken: seq<Message>, s': State, taken': seq<Message>) {
    exists es, rs ::
      && s'.events == s.events + es && EventsOf(taken') == EventsOf(taken) + es
      && s'.receipts == s.receipts + rs && ReceiptsOf(taken') == ReceiptsOf(taken) + rs
  }

  lemma NoDupSnoc<T>(s: seq<T>, x: T)
    requires NoDup(s) && x !in s
    ensures NoDup(s + [x]) && forall y :: y in s + [x] <==> y in s || y == x
  {
  }

  lemma TakeKnown(s: State, taken: seq<Message>, m: Message)
    requires Known(s, taken) && Taken(s.seen, m)
    ensures Known(Buffered(s, m), taken + [m])
  {
    hide Ids, EventsOf, ReceiptsOf;
    TakenSnoc(taken, m);
    IdsSnoc(EventsOf(taken), m.body.event);
    NoDupSnoc(Ids(EventsOf(taken)), m.body.event.id);
  }

  lemma TakeGrown(s: State, taken: seq<Message>, mid: State, sofar: seq<Message>, m: Message)
    requires Grown(s, taken, mid, sofar) && Taken(mid.seen, m)
    ensures Grown(s, taken, Buffered(mid, m), sofar + [m])
  {
    hide EventsOf, ReceiptsOf;
    TakenSnoc(sofar, m);
    var es, rs :|
      && mid.events == s.events + es && EventsOf(sofar) == EventsOf(taken) + es
      && mid.receipts == s.receipts + rs && ReceiptsOf(sofar) == ReceiptsOf(taken) + rs;
    var es', rs' := es + [m.body.event], rs + [m.receipt];
    assert Buffered(mid, m).events == s.events + es' && EventsOf(sofar + [m]) == EventsOf(taken) + es';
    assert Buffered(mid, m).receipts == s.receipts + rs' && ReceiptsOf(sofar + [m]) == ReceiptsOf(taken) + rs';
  }

  lemma GrownNot(s: State, taken: seq<Message>)
    ensures Grown(s, taken, s, taken)
  {
    assert s.events == s.events + [] && EventsOf(taken) == EventsOf(taken) + [];
    assert s.receipts == s.receipts + [] && ReceiptsOf(taken) == ReceiptsOf(taken) + [];
  }

  /** Polling extends buffer, receipts and history in step. */
  lemma {:induction false} PollKeeps(s: State, ms: seq<Message>, taken: seq<Message>)
    requires Known(s, taken)
    ensures Known(AllBuffered(s, ms), taken + TakenFrom(s, ms))
    ensures Grown(s, taken, AllBuffered(s, ms), taken + TakenFrom(s, ms))
  {
    hide Known, Grown, EventsOf, ReceiptsOf, Ids;
    if ms == [] {
      assert taken + [] == taken;
      GrownNot(s, taken);
    } else {
      var init, m := ms[..|ms| - 1], ms[|ms| - 1];
      PollKeeps(s, init, taken);
      var mid, sofar := AllBuffered(s, init), taken + TakenFrom(s, init);
      if Taken(mid.seen, m) {
        TakeKnown(mid, sofar, m);
        TakeGrown(s, taken, mid, sofar, m);
        assert taken + TakenFrom(s, ms) == sofar + [m];
      }
    }
  }

  lemma StepKeeps(cfg: Settings, s: Sys, a: Action)
    requires Inv(s)
    ensures Inv(Step(cfg, s, a))
  {
    if s.life == Alive {
      match a
      case Poll(ms, e) =>
        assert s.log + [] == s.log && s.taken + [] == s.taken;
        if !e.NotReceived? {
          PollStep(s, ms, e);
        }
      case FlushIfDue(now, o) =>
        if Due(cfg, s.st, now) && !o.Failed? {
          FlushStep(s, o);
        } else {
          assert s.log + [] == s.log;
        }
    }
  }

  lemma PollStep(s: Sys, ms: seq<Message>, e: PollEnd)
    requires Inv(s) && s.life == Alive && !e.NotReceived?
    ensures Inv(Sys(AllBuffered(s.st, ms), s.log + PollEffects(s.st, ms, e), if PollStops(s.st, ms, e) then DiedPolling else Alive,
                    s.taken + TakenFrom(s.st, ms)))
  {
    hide Known, PostFirst, Dropped, Batches, EventsOf, ReceiptsOf, PostedEvents, PostedReceipts, DroppedReceipts, AllBuffered,
      TakenFrom, Ignored;
    PollKeeps(s.st, ms, s.taken);
    var bs := Batches(Ignored(s.st, ms));
    LogDrops(s.log, false, if PollStops(s.st, ms, e) then bs[..e.batches] else bs);
    var s', taken' := AllBuffered(s.st, ms), s.taken + TakenFrom(s.st, ms);
    var es, rs :|
      && s'.events == s.st.events + es && EventsOf(taken') == EventsOf(s.taken) + es
      && s'.receipts == s.st.receipts + rs && ReceiptsOf(taken') == ReceiptsOf(s.taken) + rs;
    assert PostedEvents(s.log) + (s.st.events + es) == (PostedEvents(s.log) + s.st.events) + es;
    assert PostedReceipts(s.log) + (s.st.receipts + rs) == (PostedReceipts(s.log) + s.st.receipts) + rs;
  }

  lemma FlushStep(s: Sys, o: Outcome)
    requires Inv(s) && s.life == Alive && !o.Failed?
    ensures Inv(Sys(AfterFlush(s.st, o), s.log + FlushEffects(s.st, o), if StopsBridge(s.st, o) then DiedPosted else Alive, s.taken))
  {
    hide PostFirst, Dropped, Batches, EventsOf, ReceiptsOf, PostedEvents, PostedReceipts, DroppedReceipts, Flat, FlushEffects;
    var bs := Batches(s.st.receipts);
    var sent := if StopsBridge(s.st, o) then bs[..o.batches] else bs;
    var post := Post(s.st.events, s.st.receipts);
    BatchesExact(s.st.receipts);
    if StopsBridge(s.st, o) {
      FlatPrefix(bs, o.batches);
    }
    LogSnoc(s.log, post);
    var posted := s.log + [post];
    assert DroppedReceipts(posted) + Flat(sent) <= PostedReceipts(posted);
    PostFirstSnoc(s.log, post);
    LogDrops(posted, true, sent);
    FlushLog(s.log, s.st, o);
    FlushCounts(s, o, posted + Dropped(true, sent));
  }

  lemma FlushCounts(s: Sys, o: Outcome, log: seq<Effect>)
    requires Inv(s) && s.life == Alive && !o.Failed? && PostFirst(log)
    requires PostedEvents(log) == PostedEvents(s.log) + s.st.events
    requires PostedReceipts(log) == PostedReceipts(s.log) + s.st.receipts
    requires !StopsBridge(s.st, o) ==> DroppedReceipts(log) == DroppedReceipts(s.log) + s.st.receipts
    ensures Inv(Sys(AfterFlush(s.st, o), log, if StopsBridge(s.st, o) then DiedPosted else Alive, s.taken))
  {
    hide PostFirst, EventsOf, ReceiptsOf, PostedEvents, PostedReceipts, DroppedReceipts, Ids;
    assert PostedEvents(log) + [] == PostedEvents(log) && PostedReceipts(log) + [] == PostedReceipts(log);
  }

  /** Alarm conservation over any run, with any messages, redeliveries, failed
      polls and posts, and clock. While the bridge runs, or has stopped polling, the
      accepted events, each id once, are the posted ones followed by the buffered
      ones; receipts keep step with them; and exactly the posted receipts have been
      deleted after a post, never one before its own. */
  lemma {:induction false} AlarmsConserved(cfg: Settings, actions: seq<Action>)
    ensures Inv(Run(cfg, actions))
  {
    if actions != [] {
      AlarmsConserved(cfg, actions[..|actions| - 1]);
      StepKeeps(cfg, Run(cfg, actions[..|actions| - 1]), actions[|actions| - 1]);
    } else {
      assert PostedEvents([]) + [] == [];
    }
  }

  /** Every accepted event is in exactly one place: one posted incident or the
      buffer. */
  lemma InExactlyOnePlace(cfg: Settings, actions: seq<Action>, e: Event)
    requires Run(cfg, actions).life != DiedPosted
    ensures var s := Run(cfg, actions);
            && (e in EventsOf(s.taken) <==> e in PostedEvents(s.log) || e in s.st.events)
            && !(e in PostedEvents(s.log) && e in s.st.events)
            && NoDup(PostedEvents(s.log)) && NoDup(s.st.events)
  {
    hide EventsOf, PostedEvents, Run;
    AlarmsConserved(cfg, actions);
    var s := Run(cfg, actions);
    var all := EventsOf(s.taken);
    IdsAt(all);
    hide Ids;
    assert NoDup(all);
    NoDupParts(PostedEvents(s.log), s.st.events);
  }

  ghost predicate Apart<T>(p: seq<T>, q: seq<T>) { forall x :: x in p ==> x !in q }

  lemma NoDupParts<T>(p: seq<T>, q: seq<T>)
    requires NoDup(p + q)
    ensures NoDup(p) && NoDup(q) && Apart(p, q)
  {
    assert forall i :: 0 <= i < |p| ==> (p + q)[i] == p[i];
    assert forall i :: 0 <= i < |q| ==> (p + q)[|p| + i] == q[i];
  }

  lemma {:induction false} IdsAt(es: seq<Event>)
    ensures |Ids(es)| == |es| && forall i :: 0 <= i < |es| ==> Ids(es)[i] == es[i].id
  {
    if es != [] {
      IdsAt(es[..|es| - 1]);
    }
  }

  /** A failed post changes nothing but the retry time. */
  lemma FailedPost(cfg: Settings, s: Sys, now: int, at: int)
    ensures var s' := Step(cfg, s, FlushIfDue(now, Failed(at)));
            s' == s || (s' == s.(st := s.st.(retryAt := at + RETRY_SECONDS)) && !Due(cfg, s'.st, at))
  {
  }

  /** What polling deletes: exactly the messages that are no alarm or whose id was
      taken before, in an earlier poll or earlier in this one. */
  lemma {:induction false} PollDeletesExactly(s: State, ms: seq<Message>, r: string)
    ensures r in Ignored(s, ms) <==>
            exists i :: 0 <= i < |ms| && ms[i].receipt == r && !Taken(AllBuffered(s, ms[..i]).seen, ms[i])
  {
    if ms != [] {
      var init, n := ms[..|ms| - 1], |ms| - 1;
      PollDeletesExactly(s, init, r);
      assert forall i :: 0 <= i <= n ==> ms[..i] == init[..i];
      if i :| 0 <= i < |init| && init[i].receipt == r && !Taken(AllBuffered(s, init[..i]).seen, init[i]) {
        assert ms[i].receipt == r && !Taken(AllBuffered(s, ms[..i]).seen, ms[i]);
      }
      if i :| 0 <= i < |ms| && ms[i].receipt == r && !Taken(AllBuffered(s, ms[..i]).seen, ms[i]) {
        assert i < n ==> init[i].receipt == r && !Taken(AllBuffered(s, init[..i]).seen, init[i]);
      }
    }
  }

  // ---------------------------------------------------------------- deletions

  /** Every receipt deleted, with or without a post. */
  function Deleted(log: seq<Effect>): seq<string> {
    if log == [] then [] else
      var e := log[|log| - 1];
      Deleted(log[..|log| - 1]) + (if e.Post? then [] else e.batch)
  }

  /** Those deleted while polling. */
  function DeletedPolling(log: seq<Effect>): seq<string> {
    if log == [] then [] else
      DeletedPolling(log[..|log| - 1]) + (if log[|log| - 1].DropIgnored? then log[|log| - 1].batch else [])
  }

  /** The messages received over the run. */
  function Received(actions: seq<Action>): seq<Message> {
    if actions == [] then [] else
      var a := actions[|actions| - 1];
      Received(actions[..|actions| - 1]) + (if a.Poll? && !a.end.NotReceived? then a.ms else [])
  }

  lemma {:induction false} DeletedEither(log: seq<Effect>, n: nat, r: string)
    requires n <= |log|
    ensures r in Deleted(log[..n]) ==> r in DroppedReceipts(log[..n]) || r in DeletedPolling(log)
  {
    if n > 0 {
      assert log[..n][..n - 1] == log[..n - 1];
      DeletedEither(log, n - 1, r);
      PollingGrows(log, n);
    }
  }

  lemma {:induction false} PollingGrows(log: seq<Effect>, n: nat)
    requires 0 < n <= |log|
    ensures log[n - 1].DropIgnored? ==> forall r :: r in log[n - 1].batch ==> r in DeletedPolling(log)
    decreases |log|
  {
    if n < |log| {
      PollingGrows(log[..|log| - 1], n);
    }
  }

  lemma DeletedSnoc(log: seq<Effect>, e: Effect)
    ensures Deleted(log + [e]) == Deleted(log) + (if e.Post? then [] else e.batch)
    ensures DeletedPolling(log + [e]) == DeletedPolling(log) + (if e.DropIgnored? then e.batch else [])
  {
    assert (log + [e])[..|log|] == log;
  }

  lemma FlatHead(bs: seq<seq<string>>)
    ensures Flat(bs) == if bs == [] then [] else bs[0] + Flat(bs[1..])
  {
  }

  lemma {:induction false} DeletedDrops(log: seq<Effect>, posted: bool, bs: seq<seq<string>>)
    ensures DeletedPolling(log + Dropped(posted, bs)) == DeletedPolling(log) + (if posted then [] else Flat(bs))
    ensures Deleted(log + Dropped(posted, bs)) == Deleted(log) + Flat(bs)
    decreases |bs|
  {
    hide Deleted, DeletedPolling, Flat;
    FlatHead(bs);
    if bs == [] {
      assert log + Dropped(posted, bs) == log;
    } else {
      var e := if posted then DropPosted(bs[0]) else DropIgnored(bs[0]);
      DeletedSnoc(log, e);
      DeletedDrops(log + [e], posted, bs[1..]);
      assert log + Dropped(posted, bs) == (log + [e]) + Dropped(posted, bs[1..]);
    }
  }

  lemma {:induction false} ReceiptsConcat(a: seq<Message>, b: seq<Message>)
    ensures ReceiptsOf(a + b) == ReceiptsOf(a) + ReceiptsOf(b)
  {
    if b == [] {
      assert a + b == a;
    } else {
      ReceiptsConcat(a, b[..|b| - 1]);
      assert (a + b)[..|a + b| - 1] == a + b[..|b| - 1];
    }
  }

  /** A batch with distinct receipts is split into what is taken and what is not. */
  lemma {:induction false} SplitApart(s: State, ms: seq<Message>)
    ensures forall r :: r in Ignored(s, ms) || r in ReceiptsOf(TakenFrom(s, ms)) ==> r in ReceiptsOf(ms)
    ensures NoDup(ReceiptsOf(ms)) ==> Apart(Ignored(s, ms), ReceiptsOf(TakenFrom(s, ms)))
  {
    if ms != [] {
      var init, m := ms[..|ms| - 1], ms[|ms| - 1];
      SplitApart(s, init);
      if NoDup(ReceiptsOf(ms)) {
        NoDupParts(ReceiptsOf(init), [m.receipt]);
      }
      ReceiptsConcat(TakenFrom(s, init), [m]);
      assert ReceiptsOf([m]) == [m.receipt] by {
        assert [m][..0] == [];
      }
    }
  }

  /** With distinct receipts, what is deleted while polling was never taken. */
  lemma {:induction false} PollingDeletesOthers(cfg: Settings, actions: seq<Action>)
    requires NoDup(ReceiptsOf(Received(actions)))
    ensures var s := Run(cfg, actions);
            && (forall r :: r in DeletedPolling(s.log) || r in ReceiptsOf(s.taken) ==> r in ReceiptsOf(Received(actions)))
            && Apart(DeletedPolling(s.log), ReceiptsOf(s.taken))
  {
    hide DeletedPolling, ReceiptsOf;
    if actions == [] {
      NothingYet();
    } else {
      var init, a := actions[..|actions| - 1], actions[|actions| - 1];
      var ms := if a.Poll? && !a.end.NotReceived? then a.ms else [];
      var before := ReceiptsOf(Received(init));
      ReceiptsConcat(Received(init), ms);
      NoDupParts(before, ReceiptsOf(ms));
      PollingDeletesOthers(cfg, init);
      StepDeletesOthers(cfg, Run(cfg, init), a, before);
    }
  }

  lemma NothingYet()
    ensures DeletedPolling([]) == [] && ReceiptsOf([]) == []
  {
  }

  lemma StepDeletesOthers(cfg: Settings, s: Sys, a: Action, before: seq<string>)
    requires forall r :: r in DeletedPolling(s.log) || r in ReceiptsOf(s.taken) ==> r in before
    requires Apart(DeletedPolling(s.log), ReceiptsOf(s.taken))
    requires var ms := if a.Poll? && !a.end.NotReceived? then a.ms else [];
             NoDup(ReceiptsOf(ms)) && Apart(before, ReceiptsOf(ms))
    ensures var s', ms := Step(cfg, s, a), if a.Poll? && !a.end.NotReceived? then a.ms else [];
            && (forall r :: r in DeletedPolling(s'.log) || r in ReceiptsOf(s'.taken) ==> r in before || r in ReceiptsOf(ms))
            && Apart(DeletedPolling(s'.log), ReceiptsOf(s'.taken))
  {
    hide DeletedPolling, ReceiptsOf, PollEffects, FlushEffects, TakenFrom, AllBuffered, PollStops, StopsBridge, AfterFlush;
    if s.life == Alive && a.Poll? && !a.end.NotReceived? {
      PollDeletes(s, a.ms, a.end);
      SplitApart(s.st, a.ms);
      ReceiptsConcat(s.taken, TakenFrom(s.st, a.ms));
    } else if s.life == Alive && a.FlushIfDue? {
      FlushDeletes(s, a.outcome);
    } else {
      assert a.Poll? && a.end.NotReceived? ==> PollEffects(s.st, a.ms, a.end) == [] by {
        NothingPolled(s.st, a);
      }
      assert s.log + [] == s.log && s.taken + [] == s.taken;
    }
  }

  lemma NothingPolled(s: State, a: Action)
    ensures a.Poll? && a.end.NotReceived? ==> PollEffects(s, a.ms, a.end) == []
  {
  }

  lemma PollDeletes(s: Sys, ms: seq<Message>, e: PollEnd)
    requires !e.NotReceived?
    ensures exists more :: more <= Ignored(s.st, ms) && DeletedPolling(s.log + PollEffects(s.st, ms, e)) == DeletedPolling(s.log) + more
  {
    var bs := Batches(Ignored(s.st, ms));
    var n := if PollStops(s.st, ms, e) then e.batches else |bs|;
    assert bs[..|bs|] == bs;
    hide DeletedPolling, Ignored, Batches, Dropped, Flat;
    DeletedDrops(s.log, false, bs[..n]);
    BatchesExact(Ignored(s.st, ms));
    FlatPrefix(bs, n);
  }

  lemma FlushDeletes(s: Sys, o: Outcome)
    ensures DeletedPolling(s.log + FlushEffects(s.st, o)) == DeletedPolling(s.log)
  {
    hide Deleted, DeletedPolling, Batches, Dropped, Flat;
    if o.Failed? {
      assert s.log + [] == s.log;
    } else {
      var bs := Batches(s.st.receipts);
      var sent := if StopsBridge(s.st, o) then bs[..o.batches] else bs;
      var post := Post(s.st.events, s.st.receipts);
      DeletedSnoc(s.log, post);
      DeletedDrops(s.log + [post], true, sent);
      assert s.log + FlushEffects(s.st, o) == (s.log + [post]) + Dropped(true, sent);
    }
  }

  /** "Deleted only after a successful POST", of the receipts in the buffer and of
      every deletion, polling or posting: where the queue gives each delivery its
      own receipt, the receipt of a taken delivery is at no time deleted before it
      was posted. */
  lemma DeletedOnlyAfterPost(cfg: Settings, actions: seq<Action>, n: nat, r: string)
    requires NoDup(ReceiptsOf(Received(actions)))
    requires n <= |Run(cfg, actions).log| && r in ReceiptsOf(Run(cfg, actions).taken)
    requires r in Deleted(Run(cfg, actions).log[..n])
    ensures r in PostedReceipts(Run(cfg, actions).log[..n])
  {
    hide Run, ReceiptsOf, Deleted, DeletedPolling, DroppedReceipts, PostedReceipts, Known;
    var s := Run(cfg, actions);
    AlarmsConserved(cfg, actions);
    PollingDeletesOthers(cfg, actions);
    DeletedEither(s.log, n, r);
    assert DroppedReceipts(s.log[..n]) <= PostedReceipts(s.log[..n]);
  }

  lemma {:induction false} SeenExactly(s: State, ms: seq<Message>, id: Option<string>)
    ensures id in AllBuffered(s, ms).seen <==>
            id in s.seen || exists j :: 0 <= j < |ms| && ms[j].body.Alarm? && ms[j].body.event.id == id
  {
    if ms != [] {
      var init := ms[..|ms| - 1];
      SeenExactly(s, init, id);
      assert forall j :: 0 <= j < |init| ==> init[j] == ms[j];
    }
  }

  lemma {:induction false} IdsConcat(a: seq<Event>, b: seq<Event>)
    ensures Ids(a + b) == Ids(a) + Ids(b)
  {
    if b == [] {
      assert a + b == a;
    } else {
      IdsConcat(a, b[..|b| - 1]);
      assert (a + b)[..|a + b| - 1] == a + b[..|b| - 1];
    }
  }

  /** What the bridge has seen is what it posted and what it holds, never both. */
  lemma SeenIsPostedOrHeld(cfg: Settings, actions: seq<Action>, id: Option<string>)
    requires Run(cfg, actions).life == Alive
    ensures var s := Run(cfg, actions);
            && (id in s.st.seen <==> id in Ids(PostedEvents(s.log)) || id in Ids(s.st.events))
            && !(id in Ids(PostedEvents(s.log)) && id in Ids(s.st.events))
  {
    hide Run, Ids, PostedEvents, EventsOf;
    AlarmsConserved(cfg, actions);
    var s := Run(cfg, actions);
    IdsConcat(PostedEvents(s.log), s.st.events);
    NoDupParts(Ids(PostedEvents(s.log)), Ids(s.st.events));
  }

  lemma {:induction false} ReceiptAt(ms: seq<Message>)
    ensures |ReceiptsOf(ms)| == |ms| && forall i :: 0 <= i < |ms| ==> ReceiptsOf(ms)[i] == ms[i].receipt
  {
    if ms != [] {
      ReceiptAt(ms[..|ms| - 1]);
    }
  }

  /** The message is no alarm, or its id was seen before: in an earlier poll or
      earlier in this one. */
  predicate GivenUp(seen: set<Option<string>>, ms: seq<Message>, i: nat)
    requires i < |ms|
  {
    !ms[i].body.Alarm? || ms[i].body.event.id in seen ||
    exists j :: 0 <= j < i && ms[j].body.Alarm? && ms[j].body.event.id == ms[i].body.event.id
  }

  ghost predicate Increasing(places: seq<nat>, n: nat) {
    && (forall k, l :: 0 <= k < l < |places| ==> places[k] < places[l])
    && forall k :: 0 <= k < |places| ==> places[k] < n
  }

  lemma PollSortsLast(s: State, ms: seq<Message>)
    requires ms != []
    ensures var init, m := ms[..|ms| - 1], ms[|ms| - 1];
            if GivenUp(s.seen, ms, |ms| - 1) then Ignored(s, ms) == Ignored(s, init) + [m.receipt] && TakenFrom(s, ms) == TakenFrom(s, init)
            else Ignored(s, ms) == Ignored(s, init) && TakenFrom(s, ms) == TakenFrom(s, init) + [m]
  {
    hide AllBuffered;
    var init, m := ms[..|ms| - 1], ms[|ms| - 1];
    if m.body.Alarm? {
      SeenExactly(s, init, m.body.event.id);
    }
  }

  /** A poll sorts its messages into those given up and those taken, each once and
      in order. */
  lemma {:induction false} PollSorts(s: State, ms: seq<Message>) returns (ignored: seq<nat>, taken: seq<nat>)
    ensures Increasing(ignored, |ms|) && Increasing(taken, |ms|)
    ensures forall i :: 0 <= i < |ms| ==> (i in ignored <==> GivenUp(s.seen, ms, i)) && (i in taken <==> !GivenUp(s.seen, ms, i))
    ensures |Ignored(s, ms)| == |ignored| && forall k :: 0 <= k < |ignored| ==> Ignored(s, ms)[k] == ms[ignored[k]].receipt
    ensures |TakenFrom(s, ms)| == |taken| && forall k :: 0 <= k < |taken| ==> TakenFrom(s, ms)[k] == ms[taken[k]]
  {
    ignored, taken := [], [];
    if ms != [] {
      var n := |ms| - 1;
      ignored, taken := PollSorts(s, ms[..n]);
      forall i | 0 <= i < n
        ensures GivenUp(s.seen, ms[..n], i) == GivenUp(s.seen, ms, i)
      {
      }
      PollSortsLast(s, ms);
      hide Ignored, TakenFrom, GivenUp;
      OneMorePlace(ignored, n);
      OneMorePlace(taken, n);
      hide Increasing;
      if GivenUp(s.seen, ms, n) {
        ignored := ignored + [n];
      } else {
        taken := taken + [n];
      }
    }
  }

  lemma OneMorePlace(places: seq<nat>, n: nat)
    requires Increasing(places, n)
    ensures Increasing(places, n + 1) && Increasing(places + [n], n + 1)
    ensures forall i :: i in places + [n] <==> i in places || i == n
    ensures n !in places && forall k :: 0 <= k < |places| ==> places[k] < n
  {
  }

  /** Where the promise fails: polling deletes an alarm of which no event is posted
      exactly when its id is one of those held in the buffer, or is new and comes
      a second time in the same batch. */
  lemma UnpostedDeletedExactly(cfg: Settings, actions: seq<Action>, ms: seq<Message>, i: nat)
    requires Run(cfg, actions).life == Alive && i < |ms| && ms[i].body.Alarm? && NoDup(ReceiptsOf(ms))
    ensures var s, id := Run(cfg, actions), ms[i].body.event.id;
            var s' := Step(cfg, s, Poll(ms, Completed));
            ms[i].receipt in Deleted(s'.log[|s.log|..]) && id !in Ids(PostedEvents(s'.log)) <==>
            id in Ids(s.st.events) ||
            (id !in Ids(PostedEvents(s.log)) && exists j :: 0 <= j < i && ms[j].body.Alarm? && ms[j].body.event.id == id)
  {
    hide Run, Deleted, DeletedPolling, PostedEvents, PostedReceipts, DroppedReceipts, Ids, ReceiptsOf, AllBuffered, TakenFrom, Ignored, Batches,
      Flat, Known, EventsOf, Dropped;
    var s, id := Run(cfg, actions), ms[i].body.event.id;
    var s' := Step(cfg, s, Poll(ms, Completed));
    var bs := Batches(Ignored(s.st, ms));
    assert s'.log[|s.log|..] == Dropped(false, bs);
    OnlyDrops(bs);
    BatchesExact(Ignored(s.st, ms));
    AlarmsConserved(cfg, actions);
    LogDrops(s.log, false, bs);
    SeenIsPostedOrHeld(cfg, actions, id);
    SeenExactly(s.st, ms[..i], id);
    IgnoredAt(s.st, ms, i);
    assert forall j :: 0 <= j < i ==> ms[..i][j] == ms[j];
  }

  lemma OnlyDrops(bs: seq<seq<string>>)
    ensures Deleted(Dropped(false, bs)) == Flat(bs)
  {
    DeletedDrops([], false, bs);
    assert [] + Dropped(false, bs) == Dropped(false, bs);
  }

  /** With distinct receipts in the batch a message's receipt is deleted exactly
      when the message itself is not taken. */
  lemma IgnoredAt(s: State, ms: seq<Message>, i: nat)
    requires i < |ms| && NoDup(ReceiptsOf(ms))
    ensures ms[i].receipt in Ignored(s, ms) <==> !Taken(AllBuffered(s, ms[..i]).seen, ms[i])
  {
    PollDeletesExactly(s, ms, ms[i].receipt);
    ReceiptAt(ms);
    assert forall k :: 0 <= k < |ms| && ms[k].receipt == ms[i].receipt ==> k == i;
  }

  // ----------------------------------------------------------- queue messages

  /** How the queue delivers: each delivery under its own receipt, and every
      delivery of a message with the same body. */
  ghost predicate Delivers(ms: seq<Message>) {
    NoDup(ReceiptsOf(ms)) && forall m, n :: m in ms && n in ms && m.queued == n.queued ==> m.body == n.body
  }

  /** A message leaves the queue when any of its deliveries is deleted. */
  ghost predicate Removed(log: seq<Effect>, received: seq<Message>, queued: nat) {
    exists n :: n in received && n.queued == queued && n.receipt in Deleted(log)
  }

  lemma OneDelivery(ms: seq<Message>)
    requires NoDup(ReceiptsOf(ms))
    ensures forall m, n :: m in ms && n in ms && m.receipt == n.receipt ==> m == n
  {
    ReceiptAt(ms);
    forall m, n | m in ms && n in ms && m.receipt == n.receipt
      ensures m == n
    {
      var i :| 0 <= i < |ms| && ms[i] == m;
      var j :| 0 <= j < |ms| && ms[j] == n;
      assert ReceiptsOf(ms)[i] == ReceiptsOf(ms)[j];
    }
  }

  lemma {:induction false} TakenOrIgnored(s: State, ms: seq<Message>)
    ensures forall m :: m in ms ==> m in TakenFrom(s, ms) || m.receipt in Ignored(s, ms)
    ensures forall m :: m in TakenFrom(s, ms) ==> m in ms
  {
    if ms != [] {
      TakenOrIgnored(s, ms[..|ms| - 1]);
      assert ms == ms[..|ms| - 1] + [ms[|ms| - 1]];
    }
  }

  /** While the bridge runs, every delivery received was taken, or deleted in the
      poll that brought it. */
  lemma {:induction false} ReceivedSplits(cfg: Settings, actions: seq<Action>)
    ensures var s := Run(cfg, actions);
            && (forall m :: m in s.taken ==> m in Received(actions))
            && (s.life == Alive ==> forall m :: m in Received(actions) ==> m in s.taken || m.receipt in DeletedPolling(s.log))
  {
    if actions != [] {
      var init, a := actions[..|actions| - 1], actions[|actions| - 1];
      ReceivedSplits(cfg, init);
      StepSplits(cfg, Run(cfg, init), a);
    }
  }

  lemma StepSplits(cfg: Settings, s: Sys, a: Action)
    ensures var s', ms := Step(cfg, s, a), if a.Poll? && !a.end.NotReceived? then a.ms else [];
            && (forall m :: m in s'.taken ==> m in s.taken || m in ms)
            && (forall m :: m in s.taken ==> m in s'.taken)
            && (s'.life == Alive ==> s.life == Alive)
            && (s'.life == Alive ==> forall m :: m in ms ==> m in s'.taken || m.receipt in DeletedPolling(s'.log))
            && (forall r :: r in DeletedPolling(s.log) ==> r in DeletedPolling(s'.log))
  {
    hide DeletedPolling, PollEffects, FlushEffects, TakenFrom, AllBuffered, AfterFlush, Ignored, Due, StopsBridge;
    if s.life == Alive && a.Poll? && !a.end.NotReceived? {
      PollDeletesAll(s, a.ms, a.end);
      TakenOrIgnored(s.st, a.ms);
    } else if s.life == Alive && a.FlushIfDue? {
      FlushDeletes(s, a.outcome);
    } else {
      NothingPolled(s.st, a);
      assert s.log + [] == s.log && s.taken + [] == s.taken;
    }
  }

  lemma PollDeletesAll(s: Sys, ms: seq<Message>, e: PollEnd)
    requires !e.NotReceived?
    ensures forall r :: r in DeletedPolling(s.log) ==> r in DeletedPolling(s.log + PollEffects(s.st, ms, e))
    ensures !PollStops(s.st, ms, e) ==> forall r :: r in Ignored(s.st, ms) ==> r in DeletedPolling(s.log + PollEffects(s.st, ms, e))
  {
    hide DeletedPolling, Ignored, Batches, Dropped, Flat;
    var bs := Batches(Ignored(s.st, ms));
    DeletedDrops(s.log, false, if PollStops(s.st, ms, e) then bs[..e.batches] else bs);
    BatchesExact(Ignored(s.st, ms));
  }

  lemma {:induction false} PollingIsDeleted(log: seq<Effect>)
    ensures forall r :: r in DeletedPolling(log) ==> r in Deleted(log)
  {
    if log != [] {
      PollingIsDeleted(log[..|log| - 1]);
    }
  }

  lemma {:induction false} EventAt(ms: seq<Message>)
    requires forall m :: m in ms ==> m.body.Alarm?
    ensures |EventsOf(ms)| == |ms| && forall i :: 0 <= i < |ms| ==> EventsOf(ms)[i] == ms[i].body.event
  {
    if ms != [] {
      assert ms == ms[..|ms| - 1] + [ms[|ms| - 1]];
      EventAt(ms[..|ms| - 1]);
    }
  }

  /** Two deliveries taken of one event are the same delivery. */
  lemma TakenOnce(taken: seq<Message>, m: Message, n: Message)
    requires NoDup(Ids(EventsOf(taken))) && forall x :: x in taken ==> x.body.Alarm?
    requires m in taken && n in taken && m.body == n.body
    ensures m == n
  {
    hide EventsOf, Ids;
    EventAt(taken);
    IdsAt(EventsOf(taken));
    var i :| 0 <= i < |taken| && taken[i] == m;
    var j :| 0 <= j < |taken| && taken[j] == n;
    assert Ids(EventsOf(taken))[i] == Ids(EventsOf(taken))[j];
  }

  /** The receipt of a held event was not posted, nor was the event. */
  lemma HeldReceipt(s: Sys, m: Message)
    requires Inv(s) && s.life != DiedPosted && m in s.taken && m.body.Alarm? && m.body.event in s.st.events
    requires forall x, y :: x in s.taken && y in s.taken && x.receipt == y.receipt ==> x == y
    ensures m.receipt !in PostedReceipts(s.log) && m.body.event !in PostedEvents(s.log)
  {
    hide PostedReceipts, PostedEvents, EventsOf, ReceiptsOf, Ids, PostFirst;
    var posted, all := PostedEvents(s.log), EventsOf(s.taken);
    EventAt(s.taken);
    ReceiptAt(s.taken);
    IdsAt(all);
    assert |PostedReceipts(s.log)| == |posted|;
    var q :| 0 <= q < |s.st.events| && s.st.events[q] == m.body.event;
    assert all[|posted| + q] == m.body.event;
    forall p | 0 <= p < |posted|
      ensures posted[p] != m.body.event && PostedReceipts(s.log)[p] != m.receipt
    {
      assert all[p] == posted[p] && ReceiptsOf(s.taken)[p] == PostedReceipts(s.log)[p];
      assert Ids(all)[p] != Ids(all)[|posted| + q];
      assert s.taken[p] in s.taken;
    }
  }

  /** The promise for messages, where it fails exactly: while the event of a taken
      delivery is held, and so not posted, its message is removed from the queue if
      and only if another delivery of that message has been received. */
  lemma RemovedWhileHeldExactly(cfg: Settings, actions: seq<Action>, m: Message)
    requires Delivers(Received(actions)) && Run(cfg, actions).life == Alive
    requires m in Run(cfg, actions).taken && m.body.Alarm? && m.body.event in Run(cfg, actions).st.events
    ensures var s := Run(cfg, actions);
            && m.body.event !in PostedEvents(s.log)
            && (Removed(s.log, Received(actions), m.queued) <==>
                exists n :: n in Received(actions) && n.queued == m.queued && n.receipt != m.receipt)
  {
    hide Run, Received, ReceiptsOf, EventsOf, Ids, Deleted, DeletedPolling, PostedEvents, PostedReceipts, DroppedReceipts, PostFirst;
    var s, received := Run(cfg, actions), Received(actions);
    AlarmsConserved(cfg, actions);
    ReceivedSplits(cfg, actions);
    OneDelivery(received);
    HeldReceipt(s, m);
    PollingIsDeleted(s.log);
    if m.receipt in Deleted(s.log) {
      ReceiptAt(s.taken);
      assert m.receipt in ReceiptsOf(s.taken) by {
        var i :| 0 <= i < |s.taken| && s.taken[i] == m;
        assert ReceiptsOf(s.taken)[i] == m.receipt;
      }
      assert s.log[..|s.log|] == s.log;
      DeletedOnlyAfterPost(cfg, actions, |s.log|, m.receipt);
      assert false;
    }
    if n :| n in received && n.queued == m.queued && n.receipt != m.receipt {
      if n in s.taken {
        TakenOnce(s.taken, m, n);
        assert false;
      }
      assert n.receipt in Deleted(s.log);
    }
  }

  /** For instance: a redelivery of a buffered alarm is deleted at poll time with
      nothing posted yet, and takes the message with it, also under a receipt of its
      own; after this the alarm is in the buffer only. */
  lemma RedeliveryDeletedBeforePost(cfg: Settings, id: string, first: string, again: string)
    ensures var m, n := Message(Alarm(Event(Some(id))), first, 0, 1), Message(Alarm(Event(Some(id))), again, 0, 1);
            var actions := [Poll([m], Completed), Poll([n], Completed)];
            var s := Run(cfg, actions);
            && s.life == Alive && s.st.events == [Event(Some(id))] && s.st.receipts == [first] && s.log == [DropIgnored([again])]
            && Removed(s.log, Received(actions), 1) && (first != again ==> Delivers(Received(actions)))
  {
    hide Run, Received, Delivers, Removed;
    var m, n := Message(Alarm(Event(Some(id))), first, 0, 1), Message(Alarm(Event(Some(id))), again, 0, 1);
    TwoPolls(cfg, m, n);
    TwoDeliveries(m, n);
  }

  lemma TwoDeliveries(m: Message, n: Message)
    requires n.body == m.body && n.queued == m.queued
    ensures Removed([DropIgnored([n.receipt])], [m, n], m.queued)
    ensures m.receipt != n.receipt ==> Delivers([m, n])
  {
    hide Deleted, DeletedPolling, ReceiptsOf;
    ReceiptAt([m, n]);
    DeletedSnoc([], DropIgnored([n.receipt]));
    assert [] + [DropIgnored([n.receipt])] == [DropIgnored([n.receipt])];
    assert n.receipt in Deleted([DropIgnored([n.receipt])]) && n in [m, n];
  }

  lemma TwoPolls(cfg: Settings, m: Message, n: Message)
    requires m.body.Alarm? && n.body == m.body
    ensures var actions := [Poll([m], Completed), Poll([n], Completed)];
            var s := Run(cfg, actions);
            && s.life == Alive && s.st.events == [m.body.event] && s.st.receipts == [m.receipt] && s.log == [DropIgnored([n.receipt])]
            && Received(actions) == [m, n]
  {
    var a, b := Poll([m], Completed), Poll([n], Completed);
    assert [a, b][..1] == [a] && [a][..0] == [];
    assert Run(cfg, []) == Started && Received([]) == [];
    PollOne(cfg, Started, m);
    PollOne(cfg, Step(cfg, Started, a), n);
    hide Step;
    assert Run(cfg, [a]) == Step(cfg, Started, a);
    assert Run(cfg, [a, b]) == Step(cfg, Step(cfg, Started, a), b);
    assert Received([a]) == [m];
  }

  lemma PollOne(cfg: Settings, s: Sys, m: Message)
    requires s.life == Alive
    ensures var s' := Step(cfg, s, Poll([m], Completed));
            && s'.life == Alive && s'.st == Buffered(s.st, m)
            && s'.log == s.log + (if Taken(s.st.seen, m) then [] else [DropIgnored([m.receipt])])
  {
    assert [m][..0] == [];
    assert AllBuffered(s.st, []) == s.st && Ignored(s.st, []) == [];
    assert Ignored(s.st, [m]) == if Taken(s.st.seen, m) then [] else [m.receipt];
    assert Dropped(false, Batches([])) == [];
    assert Dropped(false, Batches([m.receipt])) == [DropIgnored([m.receipt])];
  }

  // ------------------------------------------------------------------- bursts

  /** The bridge's clock of a burst: the times of the first and the last of the
      deliveries it holds. */
  ghost predicate BurstTimes(s: State, taken: seq<Message>) {
    s.events != [] ==>
      && |s.events| <= |taken|
      && s.first == taken[|taken| - |s.events|].at && s.last == taken[|taken| - 1].at
  }

  lemma {:induction false} PollTimes(s: State, ms: seq<Message>, taken: seq<Message>)
    requires BurstTimes(s, taken)
    ensures BurstTimes(AllBuffered(s, ms), taken + TakenFrom(s, ms))
  {
    if ms == [] {
      assert taken + [] == taken;
    } else {
      var init, m := ms[..|ms| - 1], ms[|ms| - 1];
      PollTimes(s, init, taken);
      assert taken + (TakenFrom(s, init) + [m]) == (taken + TakenFrom(s, init)) + [m];
    }
  }

  lemma {:induction false} TimesExactly(cfg: Settings, actions: seq<Action>)
    ensures BurstTimes(Run(cfg, actions).st, Run(cfg, actions).taken)
  {
    hide BurstTimes, AllBuffered, TakenFrom, PollEffects, FlushEffects, PollStops, StopsBridge, Due;
    if actions == [] {
      NoBurst(Started.st, []);
    } else {
      var s, a := Run(cfg, actions[..|actions| - 1]), actions[|actions| - 1];
      TimesExactly(cfg, actions[..|actions| - 1]);
      match a
      case Poll(ms, e) =>
        assert s.taken + [] == s.taken;
        PollTimes(s.st, ms, s.taken);
      case FlushIfDue(now, o) => FlushTimes(s.st, o, s.taken);
    }
  }

  lemma NoBurst(s: State, taken: seq<Message>)
    requires s.events == []
    ensures BurstTimes(s, taken)
  {
  }

  lemma FlushTimes(s: State, o: Outcome, taken: seq<Message>)
    requires BurstTimes(s, taken)
    ensures BurstTimes(AfterFlush(s, o), taken)
  {
  }

  /** The deliveries taken and not yet posted. */
  function Held(s: Sys): (held: seq<Message>)
    ensures |held| <= |s.taken|
  {
    var n := |PostedEvents(s.log)|;
    if n <= |s.taken| then s.taken[n..] else []
  }

  /** When an incident is posted: exactly when the bridge holds alarms, the last of
      them came `quiet` ago or the first `maxGroup` ago, no retry is awaited, and the
      POST is accepted; and it is the held alarms that are posted, in order. */
  lemma PostsExactly(cfg: Settings, actions: seq<Action>, now: int, o: Outcome)
    requires Run(cfg, actions).life == Alive
    ensures var s, s' := Run(cfg, actions), Step(cfg, Run(cfg, actions), FlushIfDue(now, o));
            var held := Held(s);
            && s.taken[|s.taken| - |held|..] == held && |PostedEvents(s.log)| + |held| == |s.taken| && EventsOf(held) == s.st.events
            && (held != [] && now >= s.st.retryAt && !o.Failed? &&
                 (now - held[|held| - 1].at >= cfg.quiet || now - held[0].at >= cfg.maxGroup)
                <==> s'.log != s.log)
            && (s'.log != s.log ==> s'.log[|s.log|] == Post(EventsOf(held), ReceiptsOf(held)))
  {
    hide Run, PostedEvents, PostedReceipts, DroppedReceipts, EventsOf, ReceiptsOf, Ids, PostFirst, Batches, Dropped;
    var s := Run(cfg, actions);
    AlarmsConserved(cfg, actions);
    TimesExactly(cfg, actions);
    HeldAre(s);
    var held := Held(s);
    assert held != [] ==> held[0] == s.taken[|s.taken| - |s.st.events|] && held[|held| - 1] == s.taken[|s.taken| - 1];
    assert s.log + [] == s.log;
  }

  lemma HeldAre(s: Sys)
    requires Inv(s) && s.life == Alive
    ensures |PostedEvents(s.log)| + |s.st.events| == |s.taken|
    ensures EventsOf(Held(s)) == s.st.events && ReceiptsOf(Held(s)) == s.st.receipts
  {
    hide PostedEvents, PostedReceipts, DroppedReceipts, EventsOf, ReceiptsOf, Ids, PostFirst;
    EventAt(s.taken);
    ReceiptAt(s.taken);
    var n := |PostedEvents(s.log)|;
    assert |EventsOf(s.taken)| == n + |s.st.events|;
    assert |PostedReceipts(s.log)| == n;
    TailEvents(s.taken, n, PostedEvents(s.log), s.st.events);
    TailReceipts(s.taken, n, PostedReceipts(s.log), s.st.receipts);
  }

  lemma TailEvents(taken: seq<Message>, n: nat, before: seq<Event>, after: seq<Event>)
    requires n <= |taken| && |before| == n && EventsOf(taken) == before + after && forall m :: m in taken ==> m.body.Alarm?
    ensures EventsOf(taken[n..]) == after
  {
    hide EventsOf;
    EventAt(taken);
    EventAt(taken[n..]);
    assert forall i :: 0 <= i < |after| ==> (before + after)[n + i] == after[i];
  }

  lemma TailReceipts(taken: seq<Message>, n: nat, before: seq<string>, after: seq<string>)
    requires n <= |taken| && |before| == n && ReceiptsOf(taken) == before + after
    ensures ReceiptsOf(taken[n..]) == after
  {
    hide ReceiptsOf;
    ReceiptAt(taken);
    ReceiptAt(taken[n..]);
    assert forall i :: 0 <= i < |after| ==> (before + after)[n + i] == after[i];
  }

  /** What awaiting a retry means: a due POST that failed puts the next one off for
      thirty seconds, one that was accepted and cleaned up after ends the wait, and
      nothing else changes it. */
  lemma RetryTold(cfg: Settings, s: Sys, a: Action)
    ensures var s' := Step(cfg, s, a);
            && (s'.st.retryAt != s.st.retryAt ==> s.life == Alive && a.FlushIfDue? && Due(cfg, s.st, a.now))
            && (s.life == Alive && a.FlushIfDue? && Due(cfg, s.st, a.now) ==>
                 && (a.outcome.Failed? ==> s'.st.retryAt == a.outcome.now + 30)
                 && (a.outcome.Accepted? ==> s'.st.retryAt == 0 && s'.st.events == []))
  {
    if s.life == Alive && a.Poll? && !a.end.NotReceived? {
      PollRetry(s.st, a.ms);
    }
  }

  lemma {:induction false} PollRetry(s: State, ms: seq<Message>)
    ensures AllBuffered(s, ms).retryAt == s.retryAt
  {
    if ms != [] {
      PollRetry(s, ms[..|ms| - 1]);
    }
  }

  // --------------------------------------------------------------------- ends

  /** What a step deletes: polling what it ignored, a flush what it posted, in
      batches of ten up to the one the queue refuses. */
  function Deletes(cfg: Settings, s: State, a: Action): seq<string> {
    match a
    case Poll(_, NotReceived) => []
    case Poll(ms, Completed) => Ignored(s, ms)
    case Poll(ms, DeleteRaised(n)) => Take(Ignored(s, ms), 10 * n)
    case FlushIfDue(now, o) =>
      if !Due(cfg, s, now) || o.Failed? then [] else if o.Accepted? then s.receipts else Take(s.receipts, 10 * o.batches)
  }

  /** The loop ends exactly when receiving raised, or deleting did with something
      left to delete; what was deleted up to then stays deleted, and what a refused
      flush had posted stays in the buffer. */
  lemma EndsExactly(cfg: Settings, s: Sys, a: Action)
    requires s.life == Alive
    ensures var s' := Step(cfg, s, a);
            && Deleted(s'.log) == Deleted(s.log) + Deletes(cfg, s.st, a)
            && (s'.life == DiedPolling <==>
                 a.Poll? && (a.end.NotReceived? || (a.end.DeleteRaised? && 10 * a.end.batches < |Ignored(s.st, a.ms)|)))
            && (s'.life == DiedPosted <==>
                 a.FlushIfDue? && Due(cfg, s.st, a.now) && a.outcome.Stopped? && 10 * a.outcome.batches < |s.st.receipts|)
            && (s'.life == DiedPosted ==> s'.st == s.st)
  {
    hide Deleted, Batches, Flat, Ignored, AllBuffered, TakenFrom, Due, Take, Dropped;
    assert Deleted(s.log) + [] == Deleted(s.log) && s.log + [] == s.log;
    match a
    case Poll(ms, e) => DropsDeleted(s.log, false, Ignored(s.st, ms), if e.DeleteRaised? then e.batches else 0);
    case FlushIfDue(now, o) =>
      if Due(cfg, s.st, now) && !o.Failed? {
        DeletedSnoc(s.log, Post(s.st.events, s.st.receipts));
        FlushLog(s.log, s.st, o);
        DropsDeleted(s.log + [Post(s.st.events, s.st.receipts)], true, s.st.receipts, if o.Stopped? then o.batches else 0);
      }
  }

  lemma DropsDeleted(log: seq<Effect>, posted: bool, rs: seq<string>, n: nat)
    ensures Deleted(log + Dropped(posted, Batches(rs))) == Deleted(log) + rs
    ensures n < |Batches(rs)| <==> 10 * n < |rs|
    ensures Deleted(log + Dropped(posted, if n < |Batches(rs)| then Batches(rs)[..n] else Batches(rs))) == Deleted(log) + Take(rs, 10 * n)
  {
    hide Deleted, Dropped, Flat, Batches;
    BatchesExact(rs);
    BatchAt(rs, 0);
    DeletedDrops(log, posted, Batches(rs));
    if n < |Batches(rs)| {
      FirstBatches(rs, n);
      DeletedDrops(log, posted, Batches(rs)[..n]);
    }
  }
}
