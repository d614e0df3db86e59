/**
 Webhook subscriptions and the delivery of events to them (src/subscriptions/subscription.service.ts,
 src/webhook/webhook.service.ts). Identifiers, the clock and the answers of the transport are parameters.
 */
module Delivery {
  import opened Common
  import opened OrderedMap

  const BASE_RETRY_DELAY_MS := 1000
  const MAX_RETRY_ATTEMPTS := 5

  datatype Severity = Low | Medium | High | Critical
  {
    function Rank(): nat {
      match this
      case Low => 0
      case Medium => 1
      case High => 2
      case Critical => 3
    }
  }

  datatype Event = Event(id: string, kind: string, severity: Severity, metadata: map<string, string>)

  datatype EventFilter = EventFilter(
    kinds: seq<string>, minSeverity: Option<Severity>, predicates: seq<(string, string)>)

  datatype Outcome = Pending | Delivered | Acknowledged | Failed | Retrying

  datatype Subscription = Subscription(userId: string, filter: EventFilter, callbackUrl: string, active: bool)

  datatype Record = Record(
    subscriptionId: string, eventId: string, outcome: Outcome,
    firstAttemptAt: int, lastAttemptAt: int, attemptCount: nat, nextRetryAt: Option<int>)

  // What the subscription service keeps. `attempts` remembers when each pair was attempted.
  datatype Book = Book(subscriptions: Map<Subscription>, records: Map<Record>, attempts: map<string, seq<int>>)

  datatype State = State(book: Book, events: seq<Event>)

  function Pow2(n: nat): nat {
    if n == 0 then 1 else 2 * Pow2(n - 1)
  }

  function Key(subscriptionId: string, eventId: string): string {
    subscriptionId + ":" + eventId
  }

  /* ---------- Filters ---------- */

  predicate Satisfies(event: Event, p: (string, string)) {
    p.0 in event.metadata && event.metadata[p.0] == p.1
  }

  predicate Wanted(f: EventFilter, event: Event) {
    && event.kind in f.kinds
    && (f.minSeverity.Some? ==> event.severity.Rank() >= f.minSeverity.value.Rank())
    && forall i :: 0 <= i < |f.predicates| ==> Satisfies(event, f.predicates[i])
  }

  method MatchesFilter(f: EventFilter, event: Event) returns (r: bool)
    ensures r <==> Wanted(f, event)
  {
    if event.kind !in f.kinds {
      return false;
    }
    if f.minSeverity.Some? && event.severity.Rank() < f.minSeverity.value.Rank() {
      return false;
    }
    for i := 0 to |f.predicates|
      invariant forall j :: 0 <= j < i ==> Satisfies(event, f.predicates[j])
    {
      var (key, value) := f.predicates[i];
      if key !in event.metadata || event.metadata[key] != value {
        return false;
      }
    }
    return true;
  }

  /* ---------- What the operations do to the state ---------- */

  // The next retry of a record whose last attempt is just made; after the last one it has failed.
  function Settled(r: Record, outcome: Outcome, now: int): Record {
    if outcome != Retrying then r.(nextRetryAt := None)
    else if r.attemptCount <= MAX_RETRY_ATTEMPTS then
      r.(nextRetryAt := Some(now + BASE_RETRY_DELAY_MS * Pow2(Max(r.attemptCount - 1, 0))))
    else r.(nextRetryAt := None, outcome := Failed)
  }

  // The record after one more attempt.
  function Attempted(before: Option<Record>, sub: string, event: string, outcome: Outcome, now: int): Record {
    match before
    case None => Settled(Record(sub, event, outcome, now, now, 1, None), outcome, now)
    case Some(r) =>
      Settled(r.(attemptCount := r.attemptCount + 1, lastAttemptAt := now, outcome := outcome), outcome, now)
  }

  function TimesOf(attempts: map<string, seq<int>>, key: string): seq<int> {
    if key in attempts then attempts[key] else []
  }

  function RecordAttempt(b: Book, sub: string, event: string, outcome: Outcome, now: int): Book {
    var key := Key(sub, event);
    b.(records := Put(b.records, key, Attempted(b.records.Get(key), sub, event, outcome, now)),
       attempts := b.attempts[key := TimesOf(b.attempts, key) + [now]])
  }

  function OutcomeOf(sub: Subscription, ok: bool, simulated: bool): Outcome {
    if !simulated && sub.callbackUrl != "" && !ok then Retrying else Delivered
  }

  datatype Progress = Progress(state: State, results: seq<Record>, threw: bool)

  function Deliver(p: Progress, id: string, event: Event, ok: bool, simulated: bool, now: int): Progress
    requires id in p.state.book.subscriptions.data
  {
    var outcome := OutcomeOf(p.state.book.subscriptions.data[id], ok, simulated);
    var b := RecordAttempt(p.state.book, id, event.id, outcome, now);
    p.(state := p.state.(book := b), results := p.results + [b.records.data[Key(id, event.id)]])
  }

  lemma DeliverAppends(p: Progress, id: string, event: Event, ok: bool, now: int)
    requires id in p.state.book.subscriptions.data
    ensures
      var q := Deliver(p.(results := []), id, event, ok, false, now);
      Deliver(p, id, event, ok, false, now) == q.(results := p.results + q.results)
  {
  }

  // The event delivered to the subscriptions listed; `ok` is the transport's answer for each.
  function DeliverTo(p: Progress, ids: seq<string>, event: Event, ok: string -> bool, now: int): (q: Progress)
    requires forall id :: id in ids ==> id in p.state.book.subscriptions.data
    ensures q.state.book.subscriptions == p.state.book.subscriptions
  {
    if ids == [] then p
    else
      var n := |ids| - 1;
      var q := DeliverTo(p, ids[..n], event, ok, now);
      var sub := q.state.book.subscriptions.data[ids[n]];
      if sub.active && Wanted(sub.filter, event) then Deliver(q, ids[n], event, ok(ids[n]), false, now) else q
  }

  function Publish(s: State, event: Event): State {
    s.(events := [event] + s.events)
  }

  function PublishStep(s: State, event: Event, ok: string -> bool, now: int): Progress
    requires s.book.subscriptions.Valid()
  {
    DeliverTo(Progress(Publish(s, event), [], false), s.book.subscriptions.keys, event, ok, now)
  }

  // The event is published even when the subscription does not exist.
  function SimulateStep(s: State, id: string, event: Event, now: int): Progress {
    var p := Progress(Publish(s, event), [], false);
    if id in s.book.subscriptions.data then Deliver(p, id, event, true, true, now) else p.(threw := true)
  }

  function FindEvent(events: seq<Event>, id: string): (r: Option<Event>)
    ensures r.Some? <==> exists e :: e in events && e.id == id
    ensures r.Some? ==> r.value in events && r.value.id == id
  {
    if events == [] then None
    else if events[0].id == id then Some(events[0])
    else FindEvent(events[1..], id)
  }

  predicate Due(r: Record, cutoff: int) {
    r.outcome == Retrying && r.nextRetryAt.Some? && r.nextRetryAt.value <= cutoff && r.subscriptionId != ""
  }

  // One record of a sweep. Without its event it is passed over, without its subscription the sweep throws.
  function SweepOne(p: Progress, r: Record, cutoff: int, ok: string -> bool, now: int): Progress {
    if p.threw || !Due(r, cutoff) then p
    else match FindEvent(p.state.events, r.eventId)
      case None => p
      case Some(event) =>
        if r.subscriptionId in p.state.book.subscriptions.data then
          Deliver(p, r.subscriptionId, event, ok(Key(r.subscriptionId, r.eventId)), false, now)
        else p.(threw := true)
  }

  function SweepAll(p: Progress, rs: seq<Record>, cutoff: int, ok: string -> bool, now: int): Progress {
    if rs == [] then p
    else SweepOne(SweepAll(p, rs[..|rs| - 1], cutoff, ok, now), rs[|rs| - 1], cutoff, ok, now)
  }

  // The records as they are when the sweep starts, in the order of the map.
  function Listed(records: Map<Record>): (rs: seq<Record>)
    requires records.Valid()
    ensures |rs| == |records.keys|
    ensures forall i :: 0 <= i < |rs| ==> rs[i] == records.data[records.keys[i]]
  {
    seq(|records.keys|, i requires 0 <= i < |records.keys| => records.data[records.keys[i]])
  }

  function SweepStep(s: State, cutoff: int, ok: string -> bool, now: int): Progress
    requires s.book.records.Valid()
  {
    SweepAll(Progress(s, [], false), Listed(s.book.records), cutoff, ok, now)
  }

  predicate Owns(b: Book, userId: string, id: string) {
    id in b.subscriptions.data && b.subscriptions.data[id].userId == userId
  }

  function CreateStep(b: Book, id: string, userId: string, filter: EventFilter, callbackUrl: string): Book {
    b.(subscriptions := Put(b.subscriptions, id, Subscription(userId, filter, callbackUrl, true)))
  }

  // What an update names; None leaves the field as it is.
  datatype Change = Change(filter: Option<EventFilter>, callbackUrl: Option<string>, active: Option<bool>)

  function Updated(sub: Subscription, c: Change): Subscription {
    Subscription(
      sub.userId,
      if c.filter.Some? then c.filter.value else sub.filter,
      if c.callbackUrl.Some? then c.callbackUrl.value else sub.callbackUrl,
      if c.active.Some? then c.active.value else sub.active)
  }

  function UpdateStep(b: Book, userId: string, id: string, c: Change): Book {
    if Owns(b, userId, id)
    then b.(subscriptions := Put(b.subscriptions, id, Updated(b.subscriptions.data[id], c)))
    else b
  }

  // The keys of the records of other subscriptions.
  function KeysOfOthers(records: Map<Record>, id: string): set<string> {
    set k | k in records.data && records.data[k].subscriptionId != id
  }

  // A subscription goes together with its delivery records.
  function DeleteStep(b: Book, userId: string, id: string): Book {
    if Owns(b, userId, id) then
      b.(subscriptions := b.subscriptions.Remove(id),
         records := b.records.Keep(KeysOfOthers(b.records, id)))
    else b
  }

  function Acknowledge(r: Record): Record {
    r.(outcome := Acknowledged, nextRetryAt := None)
  }

  function AcknowledgeOne(b: Book, id: string, eventId: string): Book {
    var key := Key(id, eventId);
    if key in b.records.data && b.records.data[key].outcome != Acknowledged
    then b.(records := Put(b.records, key, Acknowledge(b.records.data[key])))
    else b
  }

  function AcknowledgeAll(b: Book, id: string, eventIds: seq<string>): Book {
    if eventIds == [] then b
    else AcknowledgeOne(AcknowledgeAll(b, id, eventIds[..|eventIds| - 1]), id, eventIds[|eventIds| - 1])
  }

  function AcknowledgeStep(b: Book, userId: string, id: string, eventIds: seq<string>): Book {
    if Owns(b, userId, id) then AcknowledgeAll(b, id, eventIds) else b
  }

  // A name is passed over without a record, when it is acknowledged already, and when it comes again.
  predicate Skips(b: Book, id: string, eventIds: seq<string>, i: nat)
    requires i < |eventIds|
  {
    var key := Key(id, eventIds[i]);
    key !in b.records.data || b.records.data[key].outcome == Acknowledged || eventIds[i] in eventIds[..i]
  }

  function Skipped(b: Book, id: string, eventIds: seq<string>): seq<string> {
    if eventIds == [] then []
    else
      var n := |eventIds| - 1;
      Skipped(b, id, eventIds[..n]) + if Skips(b, id, eventIds, n) then [eventIds[n]] else []
  }

  lemma KeyInjective(id: string, a: string, b: string)
    ensures Key(id, a) == Key(id, b) <==> a == b
  {
    if Key(id, a) == Key(id, b) {
      assert a == Key(id, a)[|id| + 1..] && b == Key(id, b)[|id| + 1..];
    }
  }

  lemma {:induction false} AcknowledgeAllAt(b: Book, id: string, eventIds: seq<string>, eventId: string)
    ensures
      var key, c := Key(id, eventId), AcknowledgeAll(b, id, eventIds);
      && (key in c.records.data <==> key in b.records.data)
      && (key in b.records.data ==>
            (c.records.data[key].outcome == Acknowledged <==>
               b.records.data[key].outcome == Acknowledged || eventId in eventIds))
  {
    if eventIds != [] {
      var n := |eventIds| - 1;
      AcknowledgeAllAt(b, id, eventIds[..n], eventId);
      KeyInjective(id, eventIds[n], eventId);
      assert eventId in eventIds <==> eventId in eventIds[..n] || eventId == eventIds[n];
      hide Key;
    }
  }

  // The loop sees what is skipped in the book as it has become by then.
  lemma {:induction false} SkippedNext(b: Book, id: string, eventIds: seq<string>, i: nat)
    requires i < |eventIds|
    ensures
      var c, key := AcknowledgeAll(b, id, eventIds[..i]), Key(id, eventIds[i]);
      Skipped(b, id, eventIds[..i + 1]) == Skipped(b, id, eventIds[..i]) +
        if key !in c.records.data || c.records.data[key].outcome == Acknowledged then [eventIds[i]] else []
  {
    AcknowledgeAllAt(b, id, eventIds[..i], eventIds[i]);
    assert eventIds[..i + 1][..i] == eventIds[..i];
    hide AcknowledgeAll, Key;
  }

  /* ---------- The services ---------- */

  class SubscriptionService {
    var subscriptions: Map<Subscription>
    var deliveryRecords: Map<Record>
    ghost var attempts: map<string, seq<int>>

    ghost predicate Valid()
      reads this
    {
      subscriptions.Valid() && deliveryRecords.Valid()
    }

    ghost function Contents(): Book
      reads this
    {
      Book(subscriptions, deliveryRecords, attempts)
    }

    constructor ()
      ensures Valid() && Contents() == Book(Map([], map[]), Map([], map[]), map[])
    {
      subscriptions, deliveryRecords, attempts := Map([], map[]), Map([], map[]), map[];
    }

    method CreateSubscription(id: string, userId: string, filter: EventFilter, callbackUrl: string)
      requires Valid() && id !in subscriptions.data
      modifies this
      ensures Valid() && Contents() == CreateStep(old(Contents()), id, userId, filter, callbackUrl)
    {
      var entity := Subscription(userId, filter, callbackUrl, true);
      PutValid(subscriptions, id, entity);
      subscriptions := Put(subscriptions, id, entity);
    }

    method UpdateSubscription(userId: string, id: string, c: Change) returns (found: bool)
      requires Valid()
      modifies this
      ensures Valid() && found == Owns(old(Contents()), userId, id)
      ensures Contents() == UpdateStep(old(Contents()), userId, id, c)
    {
      if id !in subscriptions.data || subscriptions.data[id].userId != userId {
        return false;
      }
      var entity := subscriptions.data[id];
      if c.filter.Some? {
        entity := entity.(filter := c.filter.value);
      }
      if c.callbackUrl.Some? {
        entity := entity.(callbackUrl := c.callbackUrl.value);
      }
      if c.active.Some? {
        entity := entity.(active := c.active.value);
      }
      PutValid(subscriptions, id, entity);
      subscriptions := Put(subscriptions, id, entity);
      return true;
    }

    method DeleteSubscription(userId: string, id: string) returns (found: bool)
      requires Valid()
      modifies this
      ensures Valid() && found == Owns(old(Contents()), userId, id)
      ensures Contents() == DeleteStep(old(Contents()), userId, id)
    {
      if id !in subscriptions.data || subscriptions.data[id].userId != userId {
        return false;
      }
      RemoveValid(subscriptions, id);
      subscriptions := subscriptions.Remove(id);
      DeleteRecordsOf(id);
      return true;
    }

    // The loop deletes from the map that it walks over.
    method DeleteRecordsOf(id: string)
      requires Valid()
      modifies this`deliveryRecords
      ensures Valid() && deliveryRecords == old(deliveryRecords).Keep(KeysOfOthers(old(deliveryRecords), id))
    {
      var all := deliveryRecords;
      ghost var keep := KeysOfOthers(all, id);
      KeepAll(all, keep + KeySet(all.keys[0..]));
      for i := 0 to |all.keys|
        invariant deliveryRecords == all.Keep(keep + KeySet(all.keys[i..]))
      {
        var key := all.keys[i];
        NextToKeep(all.keys, keep, i);
        KeepRemove(all, keep + KeySet(all.keys[i..]), key);
        if all.data[key].subscriptionId == id {
          deliveryRecords := deliveryRecords.Remove(key);
        }
      }
      assert keep + KeySet(all.keys[|all.keys|..]) == keep;
      KeepValid(all, keep);
    }

    /** One attempt to deliver: the record is made or changed, and the next retry is set. */
    method RecordDeliveryAttempt(sub: string, event: string, outcome: Outcome, now: int) returns (record: Record)
      requires Valid()
      modifies this`deliveryRecords, this`attempts
      ensures Valid() && Contents() == RecordAttempt(old(Contents()), sub, event, outcome, now)
      ensures Key(sub, event) in deliveryRecords.data && record == deliveryRecords.data[Key(sub, event)]
    {
      var key := Key(sub, event);
      if key !in deliveryRecords.data {
        record := Record(sub, event, outcome, now, now, 1, None);
      } else {
        record := deliveryRecords.data[key];
        record := record.(attemptCount := record.attemptCount + 1, lastAttemptAt := now, outcome := outcome);
      }
      if outcome == Retrying && record.attemptCount <= MAX_RETRY_ATTEMPTS {
        var delayMs := BASE_RETRY_DELAY_MS * Pow2(Max(record.attemptCount - 1, 0));
        record := record.(nextRetryAt := Some(now + delayMs));
      } else {
        record := record.(nextRetryAt := None);
      }
      if outcome == Retrying && record.attemptCount > MAX_RETRY_ATTEMPTS {
        record := record.(outcome := Failed);
      }
      PutValid(deliveryRecords, key, record);
      deliveryRecords := Put(deliveryRecords, key, record);
      attempts := attempts[key := TimesOf(attempts, key) + [now]];
    }

    method AcknowledgeEvents(userId: string, id: string, eventIds: seq<string>)
      returns (found: bool, count: nat, skipped: seq<string>)
      requires Valid()
      modifies this`deliveryRecords
      ensures Valid() && found == Owns(old(Contents()), userId, id)
      ensures Contents() == AcknowledgeStep(old(Contents()), userId, id, eventIds)
      ensures found ==> skipped == Skipped(old(Contents()), id, eventIds) && count == |eventIds| - |skipped|
    {
      count, skipped := 0, [];
      if id !in subscriptions.data || subscriptions.data[id].userId != userId {
        return false, 0, [];
      }
      for i := 0 to |eventIds|
        invariant Valid() && count + |skipped| == i
        invariant Contents() == AcknowledgeAll(old(Contents()), id, eventIds[..i])
        invariant skipped == Skipped(old(Contents()), id, eventIds[..i])
      {
        SkippedNext(old(Contents()), id, eventIds, i);
        assert eventIds[..i + 1][..i] == eventIds[..i];
        var key := Key(id, eventIds[i]);
        if key !in deliveryRecords.data || deliveryRecords.data[key].outcome == Acknowledged {
          skipped := skipped + [eventIds[i]];
          continue;
        }
        var record := deliveryRecords.data[key].(outcome := Acknowledged, nextRetryAt := None);
        PutValid(deliveryRecords, key, record);
        deliveryRecords := Put(deliveryRecords, key, record);
        count := count + 1;
      }
      assert eventIds[..|eventIds|] == eventIds;
      return true, count, skipped;
    }

    method ListDeliveryRecords() returns (rs: seq<Record>)
      requires Valid()
      ensures rs == Listed(deliveryRecords)
    {
      rs := [];
      for i := 0 to |deliveryRecords.keys|
        invariant |rs| == i
        invariant forall j :: 0 <= j < i ==> rs[j] == deliveryRecords.data[deliveryRecords.keys[j]]
      {
        rs := rs + [deliveryRecords.data[deliveryRecords.keys[i]]];
      }
    }
  }

  class WebhookService {
    const subscriptionService: SubscriptionService
    var eventHistory: seq<Event>

    ghost predicate Valid()
      reads this, subscriptionService
    {
      subscriptionService.Valid()
    }

    ghost function Contents(): State
      reads this, subscriptionService
    {
      State(subscriptionService.Contents(), eventHistory)
    }

    constructor (service: SubscriptionService)
      requires service.Valid()
      ensures Valid() && subscriptionService == service && eventHistory == []
    {
      subscriptionService, eventHistory := service, [];
    }

    method PublishEvent(event: Event)
      modifies this
      ensures Contents() == Publish(old(Contents()), event)
    {
      eventHistory := [event] + eventHistory;
    }

    method DeliverToSubscription(id: string, event: Event, ok: bool, simulated: bool, now: int) returns (r: Record)
      requires Valid() && id in subscriptionService.subscriptions.data
      modifies subscriptionService`deliveryRecords, subscriptionService`attempts
      ensures Valid()
      ensures (
        var p := Deliver(Progress(old(Contents()), [], false), id, event, ok, simulated, now);
        Contents() == p.state && [r] == p.results)
    {
      var outcome := Delivered;
      if !simulated && subscriptionService.subscriptions.data[id].callbackUrl != "" {
        outcome := if ok then Delivered else Retrying;
      }
      r := subscriptionService.RecordDeliveryAttempt(id, event.id, outcome, now);
    }

    method PublishAndDeliver(event: Event, ok: string -> bool, now: int) returns (deliveries: seq<Record>)
      requires Valid()
      modifies this, subscriptionService`deliveryRecords, subscriptionService`attempts
      ensures Valid() && Progress(Contents(), deliveries, false) == PublishStep(old(Contents()), event, ok, now)
    {
      PublishEvent(event);
      deliveries := [];
      var ids := subscriptionService.subscriptions.keys;
      ghost var start := Progress(Contents(), [], false);
      for i := 0 to |ids|
        invariant Valid() && eventHistory == [event] + old(eventHistory)
        invariant Progress(Contents(), deliveries, false) == DeliverTo(start, ids[..i], event, ok, now)
      {
        assert ids[..i + 1][..i] == ids[..i];
        var sub := subscriptionService.subscriptions.data[ids[i]];
        if sub.active {
          var matches := MatchesFilter(sub.filter, event);
          if matches {
            var r := DeliverToSubscription(ids[i], event, ok(ids[i]), false, now);
            deliveries := deliveries + [r];
          }
        }
      }
      assert ids[..|ids|] == ids;
    }

    method SimulateDelivery(id: string, event: Event, now: int) returns (results: seq<Record>, threw: bool)
      requires Valid()
      modifies this, subscriptionService`deliveryRecords, subscriptionService`attempts
      ensures Valid() && Progress(Contents(), results, threw) == SimulateStep(old(Contents()), id, event, now)
    {
      PublishEvent(event);
      if id !in subscriptionService.subscriptions.data {
        return [], true;
      }
      var r := DeliverToSubscription(id, event, true, true, now);
      return [r], false;
    }

    method RetryDueDeliveries(cutoff: int, ok: string -> bool, now: int) returns (results: seq<Record>, threw: bool)
      requires Valid()
      modifies subscriptionService`deliveryRecords, subscriptionService`attempts
      ensures Valid() && Progress(Contents(), results, threw) == SweepStep(old(Contents()), cutoff, ok, now)
    {
      hide RecordAttempt, OutcomeOf;
      results, threw := [], false;
      var rs := subscriptionService.ListDeliveryRecords();
      ghost var start := Progress(Contents(), [], false);
      for i := 0 to |rs|
        invariant Valid() && !threw && eventHistory == old(eventHistory)
        invariant Progress(Contents(), results, false) == SweepAll(start, rs[..i], cutoff, ok, now)
      {
        assert rs[..i + 1][..i] == rs[..i];
        var record := rs[i];
        if record.outcome != Retrying || record.nextRetryAt.None? || record.nextRetryAt.value > cutoff
           || record.subscriptionId == "" {
          continue;
        }
        var event := FindEvent(eventHistory, record.eventId);
        if event.None? {
          continue;
        }
        if record.subscriptionId !in subscriptionService.subscriptions.data {
          StopsThere(start, rs, i + 1, cutoff, ok, now);
          return results, true;
        }
        var answer := ok(Key(record.subscriptionId, record.eventId));
        ghost var p := Progress(Contents(), results, false);
        DeliverAppends(p, record.subscriptionId, event.value, answer, now);
        hide Deliver, Key;
        var r := DeliverToSubscription(record.subscriptionId, event.value, answer, false, now);
        results := results + [r];
      }
      assert rs[..|rs|] == rs;
    }
  }

  // Once a sweep has thrown, the rest of the records is not looked at.
  lemma {:induction false} StopsThere(p: Progress, rs: seq<Record>, i: nat, cutoff: int, ok: string -> bool, now: int)
    requires i <= |rs| && SweepAll(p, rs[..i], cutoff, ok, now).threw
    ensures SweepAll(p, rs, cutoff, ok, now) == SweepAll(p, rs[..i], cutoff, ok, now)
  {
    if i < |rs| {
      assert rs[..|rs| - 1][..i] == rs[..i];
      StopsThere(p, rs[..|rs| - 1], i, cutoff, ok, now);
    } else {
      assert rs[..i] == rs;
    }
  }
}
