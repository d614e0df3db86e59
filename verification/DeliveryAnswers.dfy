/**
 What the webhook operations come to, told by the fields of the subscriptions and the answers of the
 transport alone (src/subscriptions/subscription.service.ts, src/webhook/webhook.service.ts).
 */
module DeliveryAnswers {
  import opened Common
  import opened OrderedMap
  import opened Delivery
  import opened DeliveryTheorems

  /* ---------- Who gets an event ---------- */

  predicate AtLeast(severity: Severity, minimum: Severity) {
    match minimum
    case Low => true
    case Medium => severity != Low
    case High => severity == High || severity == Critical
    case Critical => severity == Critical
  }

  // The subscription is active and asks for the event.
  predicate Asks(sub: Subscription, event: Event) {
    && sub.active
    && (exists i :: 0 <= i < |sub.filter.kinds| && sub.filter.kinds[i] == event.kind)
    && (sub.filter.minSeverity.Some? ==> AtLeast(event.severity, sub.filter.minSeverity.value))
    && (forall i :: 0 <= i < |sub.filter.predicates| ==>
          var (key, value) := sub.filter.predicates[i];
          key in event.metadata && event.metadata[key] == value)
  }

  lemma AsksExact(sub: Subscription, event: Event)
    ensures sub.active && Wanted(sub.filter, event) <==> Asks(sub, event)
  {
    if sub.active && Wanted(sub.filter, event) {
      forall i | 0 <= i < |sub.filter.predicates|
        ensures sub.filter.predicates[i].0 in event.metadata
        ensures event.metadata[sub.filter.predicates[i].0] == sub.filter.predicates[i].1
      {
        assert Satisfies(event, sub.filter.predicates[i]);
      }
    }
  }

  // The record of a first attempt: without a callback nothing can fail.
  function FirstTry(sub: Subscription, id: string, eventId: string, ok: bool, now: int): Record {
    if sub.callbackUrl == "" || ok then Record(id, eventId, Delivered, now, now, 1, None)
    else Record(id, eventId, Retrying, now, now, 1, Some(now + 1000))
  }

  // What is answered, in the order of the subscriptions.
  function Told(subs: map<string, Subscription>, ids: seq<string>, event: Event, ok: string -> bool, now: int)
    : seq<Record>
    requires forall id :: id in ids ==> id in subs
  {
    if ids == [] then []
    else
      var n := |ids| - 1;
      Told(subs, ids[..n], event, ok, now) +
      if Asks(subs[ids[n]], event) then [FirstTry(subs[ids[n]], ids[n], event.id, ok(ids[n]), now)] else []
  }

  // The pair was tried once if its subscription asks for the event, else never.
  predicate TriedOnceIfAsked(b: Book, id: string, event: Event, ok: bool, now: int)
    requires id in b.subscriptions.data
  {
    var sub, key := b.subscriptions.data[id], Key(id, event.id);
    if Asks(sub, event) then
      && key in b.records.data && b.records.data[key] == FirstTry(sub, id, event.id, ok, now)
      && key in b.attempts && b.attempts[key] == [now]
    else key !in b.records.data && key !in b.attempts
  }

  // Nothing is known about the event yet.
  predicate Unheard(b: Book, ids: seq<string>, eventId: string) {
    forall i :: 0 <= i < |ids| ==> Key(ids[i], eventId) !in b.attempts && Key(ids[i], eventId) !in b.records.data
  }

  ghost predicate SameElsewhere(b: Book, c: Book, ids: seq<string>, eventId: string) {
    forall key :: (forall i :: 0 <= i < |ids| ==> key != Key(ids[i], eventId)) ==> SameAt(b, c, key)
  }

  lemma DifferentKeys(a: string, b: string, eventId: string)
    requires a != b && ':' !in a && ':' !in b
    ensures Key(a, eventId) != Key(b, eventId)
  {
    KeyParts(a, eventId);
    KeyParts(b, eventId);
  }

  lemma {:induction false} FirstAttempt(p: Progress, id: string, event: Event, ok: bool, now: int)
    requires id in p.state.book.subscriptions.data && Asks(p.state.book.subscriptions.data[id], event)
    requires Key(id, event.id) !in p.state.book.attempts && Key(id, event.id) !in p.state.book.records.data
    ensures
      var q := Deliver(p, id, event, ok, false, now);
      var first := FirstTry(p.state.book.subscriptions.data[id], id, event.id, ok, now);
      && q.results == p.results + [first] && q.threw == p.threw
      && q.state.events == p.state.events && q.state.book.subscriptions == p.state.book.subscriptions
      && TriedOnceIfAsked(q.state.book, id, event, ok, now)
      && forall key :: key != Key(id, event.id) ==> SameAt(p.state.book, q.state.book, key)
  {
    hide Asks, Key;
    assert Pow2(0) == 1;
  }

  function DeliverNext(q: Progress, id: string, event: Event, ok: bool, now: int): Progress
    requires id in q.state.book.subscriptions.data
  {
    if Asks(q.state.book.subscriptions.data[id], event) then Deliver(q, id, event, ok, false, now) else q
  }

  // One more subscription: its own pair is settled and no other pair changes.
  lemma {:induction false} NextExact(q: Progress, id: string, event: Event, ok: bool, now: int)
    requires id in q.state.book.subscriptions.data
    requires Key(id, event.id) !in q.state.book.attempts && Key(id, event.id) !in q.state.book.records.data
    ensures
      var r := DeliverNext(q, id, event, ok, now);
      && r.results == q.results +
         (if Asks(q.state.book.subscriptions.data[id], event)
          then [FirstTry(q.state.book.subscriptions.data[id], id, event.id, ok, now)] else [])
      && r.threw == q.threw && r.state.events == q.state.events
      && r.state.book.subscriptions == q.state.book.subscriptions
      && TriedOnceIfAsked(r.state.book, id, event, ok, now)
      && forall key :: key != Key(id, event.id) ==> SameAt(q.state.book, r.state.book, key)
  {
    hide Asks, Deliver, FirstTry;
    if Asks(q.state.book.subscriptions.data[id], event) {
      FirstAttempt(q, id, event, ok, now);
    }
  }

  lemma TriedIsSame(b: Book, c: Book, id: string, event: Event, ok: bool, now: int)
    requires b.subscriptions == c.subscriptions && id in b.subscriptions.data
    requires SameAt(b, c, Key(id, event.id)) && TriedOnceIfAsked(b, id, event, ok, now)
    ensures TriedOnceIfAsked(c, id, event, ok, now)
  {
    hide Asks, Key;
  }

  lemma {:induction false} DeliveredExact(p: Progress, ids: seq<string>, event: Event, ok: string -> bool, now: int)
    requires Distinct(ids) && forall id :: id in ids ==> id in p.state.book.subscriptions.data && ':' !in id
    requires Unheard(p.state.book, ids, event.id)
    ensures
      var q := DeliverTo(p, ids, event, ok, now);
      && q.results == p.results + Told(p.state.book.subscriptions.data, ids, event, ok, now)
      && q.threw == p.threw && q.state.events == p.state.events
      && (forall i :: 0 <= i < |ids| ==> TriedOnceIfAsked(q.state.book, ids[i], event, ok(ids[i]), now))
      && SameElsewhere(p.state.book, q.state.book, ids, event.id)
  {
    if ids != [] {
      var n := |ids| - 1;
      var id := ids[n];
      assert id in ids;
      DeliveredExact(p, ids[..n], event, ok, now);
      var q := DeliverTo(p, ids[..n], event, ok, now);
      hide Asks, TriedOnceIfAsked, Deliver, FirstTry;
      forall i | 0 <= i < n
        ensures Key(ids[i], event.id) != Key(id, event.id)
      {
        DifferentKeys(ids[i], id, event.id);
      }
      hide Key;
      assert SameAt(p.state.book, q.state.book, Key(id, event.id));
      AsksExact(q.state.book.subscriptions.data[id], event);
      NextExact(q, id, event, ok(id), now);
      var r := DeliverNext(q, id, event, ok(id), now);
      assert r == DeliverTo(p, ids, event, ok, now);
      hide DeliverTo, Told;
      forall i | 0 <= i < |ids|
        ensures TriedOnceIfAsked(r.state.book, ids[i], event, ok(ids[i]), now)
      {
        if i < n {
          assert ids[..n][i] == ids[i];
          TriedIsSame(q.state.book, r.state.book, ids[i], event, ok(ids[i]), now);
        }
      }
      forall key | forall i :: 0 <= i < |ids| ==> key != Key(ids[i], event.id)
        ensures SameAt(p.state.book, r.state.book, key)
      {
        assert forall i :: 0 <= i < n ==> ids[..n][i] == ids[i];
        assert SameAt(p.state.book, q.state.book, key) && SameAt(q.state.book, r.state.book, key);
      }
    }
  }

  lemma {:induction false} FreshIsUnheard(s: State, used: set<string>, ids: seq<string>, eventId: string)
    requires Inv(s, used) && !Known(s.events, eventId) && forall id :: id in ids ==> id in used
    ensures Unheard(s.book, ids, eventId)
  {
    forall i | 0 <= i < |ids|
      ensures Key(ids[i], eventId) !in s.book.attempts && Key(ids[i], eventId) !in s.book.records.data
    {
      KeyParts(ids[i], eventId);
      assert RecordOk(s, Key(ids[i], eventId)) && AttemptsOk(s, used, Key(ids[i], eventId));
    }
  }

  /**
   A new event is tried, once and at once, with exactly the active subscriptions that list its kind, whose
   least severity it reaches and whose predicates its metadata satisfies; the answer names them in their
   order, and no other pair changes.
   */
  lemma {:induction false} PublishedExact(ops: seq<Op>, event: Event, ok: string -> bool, now: int)
    requires Run(ops).Some? && !Known(Run(ops).value.state.events, event.id)
    ensures Run(ops).value.state.book.subscriptions.Valid()
    ensures
      var s := Run(ops).value.state;
      var p := PublishStep(s, event, ok, now);
      var subs := s.book.subscriptions;
      && !p.threw && p.state.events == [event] + s.events && p.state.book.subscriptions == subs
      && p.results == Told(subs.data, subs.keys, event, ok, now)
      && (forall id :: id in subs.data ==> TriedOnceIfAsked(p.state.book, id, event, ok(id), now))
      && SameElsewhere(s.book, p.state.book, subs.keys, event.id)
  {
    RunKeeps(ops);
    var r := Run(ops).value;
    PublishedExactly(r.state, r.used, event, ok, now);
  }

  lemma {:induction false} PublishedExactly(s: State, used: set<string>, event: Event, ok: string -> bool, now: int)
    requires Inv(s, used) && !Known(s.events, event.id)
    ensures
      var p := PublishStep(s, event, ok, now);
      var subs := s.book.subscriptions;
      && !p.threw && p.state.events == [event] + s.events && p.state.book.subscriptions == subs
      && p.results == Told(subs.data, subs.keys, event, ok, now)
      && (forall id :: id in subs.data ==> TriedOnceIfAsked(p.state.book, id, event, ok(id), now))
      && SameElsewhere(s.book, p.state.book, subs.keys, event.id)
  {
    var ids := s.book.subscriptions.keys;
    FreshIsUnheard(s, used, ids, event.id);
    DeliveredExact(Progress(Publish(s, event), [], false), ids, event, ok, now);
    var c := PublishStep(s, event, ok, now).state.book;
    hide Inv, Asks, TriedOnceIfAsked, Told, SameElsewhere, DeliverTo, Unheard, Known;
    forall id | id in s.book.subscriptions.data
      ensures TriedOnceIfAsked(c, id, event, ok(id), now)
    {
      assert id in ids;
      var i :| 0 <= i < |ids| && ids[i] == id;
    }
  }

  /** A more severe event is tried with every subscription that the less severe one was tried with. */
  lemma {:induction false} SeverityNeverLoses(ops: seq<Op>, event: Event, severity: Severity, ok: string -> bool,
                                              now: int, id: string)
    requires Run(ops).Some? && !Known(Run(ops).value.state.events, event.id) && AtLeast(severity, event.severity)
    requires id in Run(ops).value.state.book.subscriptions.data
    ensures Run(ops).value.state.book.subscriptions.Valid()
    ensures
      var s := Run(ops).value.state;
      var key := Key(id, event.id);
      key in PublishStep(s, event, ok, now).state.book.attempts ==>
        key in PublishStep(s, event.(severity := severity), ok, now).state.book.attempts
  {
    PublishedExact(ops, event, ok, now);
    PublishedExact(ops, event.(severity := severity), ok, now);
    hide Run, Told, SameElsewhere, PublishStep, Known, Key;
    var s := Run(ops).value.state;
    assert TriedOnceIfAsked(PublishStep(s, event, ok, now).state.book, id, event, ok(id), now);
  }

  /** A simulated delivery succeeds whatever the callback, unless there is no such subscription. */
  lemma {:induction false} SimulatedExact(ops: seq<Op>, id: string, event: Event, now: int)
    requires Run(ops).Some? && !Known(Run(ops).value.state.events, event.id)
    ensures
      var s := Run(ops).value.state;
      var p := SimulateStep(s, id, event, now);
      var b, c, key := s.book, p.state.book, Key(id, event.id);
      && p.state.events == [event] + s.events && c.subscriptions == b.subscriptions
      && (p.threw <==> id !in b.subscriptions.data)
      && (p.threw ==> c == b && p.results == [])
      && (!p.threw ==>
            var record := Record(id, event.id, Delivered, now, now, 1, None);
            && p.results == [record] && key in c.records.data && c.records.data[key] == record
            && key in c.attempts && c.attempts[key] == [now]
            && forall k :: k != key ==> SameAt(b, c, k))
  {
    RunKeeps(ops);
    var r := Run(ops).value;
    if id in r.state.book.subscriptions.data {
      FreshIsUnheard(r.state, r.used, [id], event.id);
      assert [id][0] == id;
      hide Inv, Key, Run;
    }
  }

  /* ---------- What a sweep answers ---------- */

  // When the next retry is made after that many attempts.
  function NextDelay(attempts: nat): int
    requires 1 <= attempts <= 5
  {
    [1000, 2000, 4000, 8000, 16000][attempts - 1]
  }

  // The record after a further attempt: five retries are made, one second after the first attempt and then
  // each after twice the time.
  function Retried(sub: Subscription, r: Record, ok: bool, now: int): Record {
    if sub.callbackUrl == "" || ok then
      Record(r.subscriptionId, r.eventId, Delivered, r.firstAttemptAt, now, r.attemptCount + 1, None)
    else if r.attemptCount < 5 then
      Record(r.subscriptionId, r.eventId, Retrying, r.firstAttemptAt, now, r.attemptCount + 1,
             Some(now + NextDelay(r.attemptCount + 1)))
    else Record(r.subscriptionId, r.eventId, Failed, r.firstAttemptAt, now, r.attemptCount + 1, None)
  }

  predicate IsDue(r: Record, cutoff: int) {
    r.outcome == Retrying && r.nextRetryAt.Some? && r.nextRetryAt.value <= cutoff
  }

  lemma {:induction false} SweptIsRetried(s: State, r: Record, cutoff: int, ok: string -> bool, now: int)
    requires r.subscriptionId in s.book.subscriptions.data && r.subscriptionId != ""
    ensures
      Swept(s, r, cutoff, ok, now) ==
      if IsDue(r, cutoff)
      then Retried(s.book.subscriptions.data[r.subscriptionId], r, ok(Key(r.subscriptionId, r.eventId)), now)
      else r
  {
    hide Key;
    assert Pow2(0) == 1 && Pow2(1) == 2 && Pow2(2) == 4 && Pow2(3) == 8 && Pow2(4) == 16;
  }

  predicate SubscribersOf(subs: map<string, Subscription>, rs: seq<Record>) {
    forall i :: 0 <= i < |rs| ==> rs[i].subscriptionId in subs
  }

  // What a sweep over some records answers: the due ones, in the order of the records.
  function ToldAgain(subs: map<string, Subscription>, rs: seq<Record>, cutoff: int, ok: string -> bool, now: int)
    : seq<Record>
    requires SubscribersOf(subs, rs)
  {
    if rs == [] then []
    else
      var n := |rs| - 1;
      ToldAgain(subs, rs[..n], cutoff, ok, now) +
      if IsDue(rs[n], cutoff)
      then [Retried(subs[rs[n].subscriptionId], rs[n], ok(Key(rs[n].subscriptionId, rs[n].eventId)), now)]
      else []
  }

  /**
   A sweep after any run attempts each due record once more and leaves the others: with a callback that
   fails the next retry comes after 1, 2, 4, 8 and 16 seconds, and then the record has failed.
   */
  lemma {:induction false} SweptExact(ops: seq<Op>, cutoff: int, ok: string -> bool, now: int, key: string)
    requires Run(ops).Some? && cutoff <= now && key in Run(ops).value.state.book.records.data
    ensures Run(ops).value.state.book.records.Valid()
    ensures
      var s := Run(ops).value.state;
      var p := SweepStep(s, cutoff, ok, now);
      var r := s.book.records.data[key];
      && !p.threw && p.state.events == s.events && p.state.book.subscriptions == s.book.subscriptions
      && p.state.book.records.keys == s.book.records.keys && r.subscriptionId in s.book.subscriptions.data
      && key in p.state.book.records.data
      && p.state.book.records.data[key] ==
         (if IsDue(r, cutoff) then Retried(s.book.subscriptions.data[r.subscriptionId], r, ok(key), now) else r)
      && TimesOf(p.state.book.attempts, key) ==
         TimesOf(s.book.attempts, key) + if IsDue(r, cutoff) then [now] else []
  {
    RunKeeps(ops);
    var Reached(s, used) := Run(ops).value;
    assert RecordOk(s, key);
    SweepExact(s, used, cutoff, ok, now);
    var t := SweepStep(s, cutoff, ok, now).state;
    assert SweptAt(s, t, key, cutoff, ok, now);
    assert s.book.records.data[key].subscriptionId in used;
    SweptIsRetried(s, s.book.records.data[key], cutoff, ok, now);
    hide Run, Inv, SweepStep, Swept, Retried, Key;
  }

  ghost predicate RecordsOk(s: State) {
    forall key :: key in s.book.records.data ==>
      && s.book.records.data[key].subscriptionId in s.book.subscriptions.data
      && s.book.records.data[key].subscriptionId != ""
      && key == Key(s.book.records.data[key].subscriptionId, s.book.records.data[key].eventId)
      && Known(s.events, s.book.records.data[key].eventId)
  }

  lemma {:induction false} ReachedRecordsOk(s: State, used: set<string>)
    requires Inv(s, used)
    ensures RecordsOk(s)
  {
    forall key | key in s.book.records.data
      ensures
        && s.book.records.data[key].subscriptionId in s.book.subscriptions.data
        && s.book.records.data[key].subscriptionId != ""
        && key == Key(s.book.records.data[key].subscriptionId, s.book.records.data[key].eventId)
        && Known(s.events, s.book.records.data[key].eventId)
    {
      assert RecordOk(s, key);
      hide Key, Known, SubOf, EventOf, Shape;
    }
  }

  lemma {:induction false} SweepTells(s: State, p: Progress, key: string, cutoff: int, ok: string -> bool, now: int)
    requires RecordsOk(s) && key in s.book.records.data && SameAt(s.book, p.state.book, key) && !p.threw
    requires p.state.book.subscriptions == s.book.subscriptions && p.state.events == s.events
    ensures
      var r := s.book.records.data[key];
      SweepOne(p, r, cutoff, ok, now).results == p.results +
        if IsDue(r, cutoff)
        then [Retried(s.book.subscriptions.data[r.subscriptionId], r, ok(Key(r.subscriptionId, r.eventId)), now)]
        else []
  {
    var r := s.book.records.data[key];
    KnownIsFound(s.events, r.eventId);
    SweptIsRetried(s, r, cutoff, ok, now);
    hide Known, FindEvent, Attempted, Retried, OutcomeOf, Key, RecordsOk;
  }

  lemma {:induction false} ListedSubscribers(s: State, used: set<string>)
    requires Inv(s, used)
    ensures SubscribersOf(s.book.subscriptions.data, Listed(s.book.records))
  {
    ReachedRecordsOk(s, used);
    var keys := s.book.records.keys;
    assert forall i :: 0 <= i < |keys| ==> keys[i] in s.book.records.data;
    hide Inv;
  }

  lemma {:induction false} SweepsTell(s: State, used: set<string>, n: nat, cutoff: int, ok: string -> bool, now: int)
    requires Inv(s, used) && cutoff <= now && n <= |s.book.records.keys|
    requires SubscribersOf(s.book.subscriptions.data, Listed(s.book.records))
    ensures
      SweepAll(Progress(s, [], false), Listed(s.book.records)[..n], cutoff, ok, now).results ==
      ToldAgain(s.book.subscriptions.data, Listed(s.book.records)[..n], cutoff, ok, now)
  {
    var rs := Listed(s.book.records);
    if n > 0 {
      hide RecordsOk, SameAt, SweepOne, Retried, IsDue, Key;
      assert rs[..n][..n - 1] == rs[..n - 1];
      SweepsTell(s, used, n - 1, cutoff, ok, now);
      SweepNotYetThere(s, used, n - 1, cutoff, ok, now);
      ReachedRecordsOk(s, used);
      var p := SweepAll(Progress(s, [], false), rs[..n - 1], cutoff, ok, now);
      assert s.book.records.keys[n - 1] in s.book.records.data;
      hide Inv, Listed;
      SweepTells(s, p, s.book.records.keys[n - 1], cutoff, ok, now);
    }
  }

  // A sweep that has dealt with the first n records has not changed the next one.
  lemma {:induction false} SweepNotYetThere(s: State, used: set<string>, n: nat, cutoff: int, ok: string -> bool,
                                            now: int)
    requires Inv(s, used) && cutoff <= now && n < |s.book.records.keys|
    ensures
      var p := SweepAll(Progress(s, [], false), Listed(s.book.records)[..n], cutoff, ok, now);
      && !p.threw && SameAt(s.book, p.state.book, s.book.records.keys[n])
      && p.state.book.subscriptions == s.book.subscriptions && p.state.events == s.events
  {
    hide Inv, SameAt, SweptAt, Listed;
    SweepKeeps(s, used, n, cutoff, ok, now);
  }

  /** A sweep answers with the records it attempted, in the order of the records. */
  lemma {:induction false} SweepToldExact(ops: seq<Op>, cutoff: int, ok: string -> bool, now: int)
    requires Run(ops).Some? && cutoff <= now
    ensures Run(ops).value.state.book.records.Valid()
    ensures
      var b := Run(ops).value.state.book;
      && SubscribersOf(b.subscriptions.data, Listed(b.records))
      && SweepStep(Run(ops).value.state, cutoff, ok, now).results ==
         ToldAgain(b.subscriptions.data, Listed(b.records), cutoff, ok, now)
  {
    RunKeeps(ops);
    var Reached(s, used) := Run(ops).value;
    var n := |s.book.records.keys|;
    ListedSubscribers(s, used);
    SweepsTell(s, used, n, cutoff, ok, now);
    assert Listed(s.book.records)[..n] == Listed(s.book.records);
  }

  /* ---------- Updates ---------- */

  /** An update changes the named fields of the owner's own subscription and nothing else. */
  lemma UpdatedExact(b: Book, userId: string, id: string, c: Change)
    requires b.subscriptions.Valid()
    ensures
      var d := UpdateStep(b, userId, id, c);
      var owned := id in b.subscriptions.data && b.subscriptions.data[id].userId == userId;
      && d.records == b.records && d.attempts == b.attempts && d.subscriptions.keys == b.subscriptions.keys
      && (forall k :: k in d.subscriptions.data <==> k in b.subscriptions.data)
      && (forall k :: k in b.subscriptions.data && !(owned && k == id) ==>
            d.subscriptions.data[k] == b.subscriptions.data[k])
      && (owned ==>
            var before, after := b.subscriptions.data[id], d.subscriptions.data[id];
            && after.userId == before.userId
            && (match c.filter case Some(f) => after.filter == f case None => after.filter == before.filter)
            && (match c.callbackUrl
                case Some(url) => after.callbackUrl == url
                case None => after.callbackUrl == before.callbackUrl)
            && (match c.active case Some(a) => after.active == a case None => after.active == before.active))
  {
  }

  /** A deletion by the owner takes the subscription and all its records, and nothing else. */
  lemma DeletedExact(b: Book, userId: string, id: string, key: string)
    requires b.subscriptions.Valid() && b.records.Valid()
    ensures
      var d := DeleteStep(b, userId, id);
      var owned := id in b.subscriptions.data && b.subscriptions.data[id].userId == userId;
      && d.attempts == b.attempts
      && (key in d.subscriptions.data <==> key in b.subscriptions.data && !(owned && key == id))
      && (key in d.subscriptions.data ==> d.subscriptions.data[key] == b.subscriptions.data[key])
      && (key in d.records.data <==>
            key in b.records.data && !(owned && b.records.data[key].subscriptionId == id))
      && (key in d.records.data ==> d.records.data[key] == b.records.data[key])
  {
  }

  /** An acknowledgement by the owner closes the records of the events named, and changes nothing else. */
  lemma {:induction false} AcknowledgedExact(b: Book, userId: string, id: string, eventIds: seq<string>, key: string)
    ensures
      var d := AcknowledgeStep(b, userId, id, eventIds);
      var owned := id in b.subscriptions.data && b.subscriptions.data[id].userId == userId;
      var named := exists i :: 0 <= i < |eventIds| && Key(id, eventIds[i]) == key;
      && d.subscriptions == b.subscriptions && d.attempts == b.attempts
      && (key in d.records.data <==> key in b.records.data)
      && (key in b.records.data ==>
            var r := b.records.data[key];
            d.records.data[key] ==
            if owned && named && r.outcome != Acknowledged then
              Record(r.subscriptionId, r.eventId, Acknowledged, r.firstAttemptAt, r.lastAttemptAt, r.attemptCount,
                     None)
            else r)
  {
    if Owns(b, userId, id) {
      AcknowledgedAll(b, id, eventIds, key);
    }
  }

  lemma {:induction false} AcknowledgedAll(b: Book, id: string, eventIds: seq<string>, key: string)
    ensures
      var d := AcknowledgeAll(b, id, eventIds);
      var named := exists i :: 0 <= i < |eventIds| && Key(id, eventIds[i]) == key;
      && d.subscriptions == b.subscriptions && d.attempts == b.attempts
      && (key in d.records.data <==> key in b.records.data)
      && (key in b.records.data ==>
            var r := b.records.data[key];
            d.records.data[key] ==
            if named && r.outcome != Acknowledged then
              Record(r.subscriptionId, r.eventId, Acknowledged, r.firstAttemptAt, r.lastAttemptAt, r.attemptCount,
                     None)
            else r)
  {
    hide Key;
    if eventIds != [] {
      var n := |eventIds| - 1;
      AcknowledgedAll(b, id, eventIds[..n], key);
      assert forall i :: 0 <= i < n ==> eventIds[..n][i] == eventIds[i];
    }
  }

  /** A subscription that its owner has switched off gets no event until it is switched on again. */
  lemma {:induction false} SwitchedOffGetsNothing(ops: seq<Op>, userId: string, id: string, c: Change, event: Event,
                                                  ok: string -> bool, now: int)
    requires Run(ops).Some? && !Known(Run(ops).value.state.events, event.id) && c.active == Some(false)
    requires id in Run(ops).value.state.book.subscriptions.data
    requires Run(ops).value.state.book.subscriptions.data[id].userId == userId
    ensures Run(ops + [Update(userId, id, c)]).Some?
    ensures
      var s := Run(ops + [Update(userId, id, c)]).value.state;
      && s.book.subscriptions.Valid()
      && var d := PublishStep(s, event, ok, now).state.book;
         Key(id, event.id) !in d.attempts && Key(id, event.id) !in d.records.data
  {
    var all := ops + [Update(userId, id, c)];
    RunKeeps(ops);
    assert all[..|ops|] == ops;
    var r := Run(ops).value;
    assert Run(all) == Next(r, Update(userId, id, c));
    var s := Run(all).value.state;
    assert s.events == r.state.events;
    UpdatedExact(r.state.book, userId, id, c);
    PublishedExact(all, event, ok, now);
    hide Run, Inv, UpdateStep, PublishStep, Told, SameElsewhere, Known, Key;
    assert TriedOnceIfAsked(PublishStep(s, event, ok, now).state.book, id, event, ok(id), now);
  }
}
