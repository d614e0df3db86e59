/** What every run of the subscription and webhook services keeps, when their operations are atomic. */
module DeliveryTheorems {
  import opened Common
  import opened OrderedMap
  import opened Delivery

  /* ---------- Keys ---------- */

  function SubOf(key: string): string {
    if key == [] || key[0] == ':' then [] else [key[0]] + SubOf(key[1..])
  }

  function EventOf(key: string): string {
    if key == [] then [] else if key[0] == ':' then key[1..] else EventOf(key[1..])
  }

  /** A key names one pair, as identifiers of subscriptions hold no colon. */
  lemma {:induction false} KeyParts(sub: string, event: string)
    requires ':' !in sub
    ensures SubOf(Key(sub, event)) == sub && EventOf(Key(sub, event)) == event
  {
    var key := Key(sub, event);
    if sub == [] {
      assert key == [':'] + event;
    } else {
      assert key[1..] == Key(sub[1..], event);
      KeyParts(sub[1..], event);
    }
  }

  /* ---------- Operations and runs ---------- */

  datatype Op =
    | Create(id: string, userId: string, filter: EventFilter, callbackUrl: string)
    | Update(userId: string, id: string, change: Change)
    | Delete(userId: string, id: string)
    | PublishAndDeliver(event: Event, ok: string -> bool, now: int)
    | Simulate(id: string, event: Event, now: int)
    | Sweep(cutoff: int, ok: string -> bool, now: int)
    | AcknowledgeEvents(userId: string, id: string, eventIds: seq<string>)

  function Step(s: State, op: Op): State
    requires s.book.subscriptions.Valid() && s.book.records.Valid()
  {
    match op
    case Create(id, userId, filter, url) => s.(book := CreateStep(s.book, id, userId, filter, url))
    case Update(userId, id, change) => s.(book := UpdateStep(s.book, userId, id, change))
    case Delete(userId, id) => s.(book := DeleteStep(s.book, userId, id))
    case PublishAndDeliver(event, ok, now) => PublishStep(s, event, ok, now).state
    case Simulate(id, event, now) => SimulateStep(s, id, event, now).state
    case Sweep(cutoff, ok, now) => SweepStep(s, cutoff, ok, now).state
    case AcknowledgeEvents(userId, id, eventIds) => s.(book := AcknowledgeStep(s.book, userId, id, eventIds))
  }

  ghost predicate Known(events: seq<Event>, id: string) {
    exists i :: 0 <= i < |events| && events[i].id == id
  }

  // Identifiers are fresh, and a sweep is not ahead of the clock.
  ghost predicate ValidOp(s: State, used: set<string>, op: Op) {
    match op
    case Create(id, _, _, _) => id !in used && id != "" && ':' !in id
    case PublishAndDeliver(event, _, _) => !Known(s.events, event.id)
    case Simulate(_, event, _) => !Known(s.events, event.id)
    case Sweep(cutoff, _, now) => cutoff <= now
    case _ => true
  }

  // The identifiers that subscriptions were ever given.
  function Used(used: set<string>, op: Op): set<string> {
    if op.Create? then used + {op.id} else used
  }

  datatype Reached = Reached(state: State, used: set<string>)

  const START := Reached(State(Book(Map([], map[]), Map([], map[]), map[]), []), {})

  // What a run leads to, if it is one.
  ghost function Run(ops: seq<Op>): Option<Reached> {
    if ops == [] then Some(START)
    else
      var before := Run(ops[..|ops| - 1]);
      if before.None? then None else Next(before.value, ops[|ops| - 1])
  }

  ghost function Next(r: Reached, op: Op): Option<Reached> {
    if r.state.book.subscriptions.Valid() && r.state.book.records.Valid() && ValidOp(r.state, r.used, op)
    then Some(Reached(Step(r.state, op), Used(r.used, op)))
    else None
  }

  /* ---------- The invariant ---------- */

  // A record is retrying exactly when its next retry is set, and then it has a retry left.
  predicate Shape(r: Record) {
    && 1 <= r.attemptCount <= MAX_RETRY_ATTEMPTS + 1
    && r.outcome != Pending
    && (r.outcome == Retrying <==> r.nextRetryAt.Some?)
    && (r.outcome == Retrying ==>
          && r.attemptCount <= MAX_RETRY_ATTEMPTS
          && r.nextRetryAt == Some(r.lastAttemptAt + BASE_RETRY_DELAY_MS * Pow2(r.attemptCount - 1)))
    && (r.outcome == Failed ==> r.attemptCount == MAX_RETRY_ATTEMPTS + 1)
  }

  ghost predicate RecordOk(s: State, key: string) {
    key in s.book.records.data ==>
      var r := s.book.records.data[key];
      && Shape(r) && key == Key(r.subscriptionId, r.eventId)
      && r.subscriptionId == SubOf(key) && r.eventId == EventOf(key)
      && r.subscriptionId in s.book.subscriptions.data && Known(s.events, r.eventId)
      && var times := TimesOf(s.book.attempts, key);
         |times| == r.attemptCount && times[|times| - 1] == r.lastAttemptAt && times[0] == r.firstAttemptAt
  }

  // Between attempts j and j + 1 lies the delay of attempt j.
  predicate Spaced(times: seq<int>) {
    && |times| <= MAX_RETRY_ATTEMPTS + 1
    && forall j :: 0 <= j < |times| - 1 ==> times[j + 1] >= times[j] + BASE_RETRY_DELAY_MS * Pow2(j)
  }

  ghost predicate AttemptsOk(s: State, used: set<string>, key: string) {
    key in s.book.attempts ==>
      && Spaced(s.book.attempts[key]) && SubOf(key) in used && Known(s.events, EventOf(key))
      && (SubOf(key) in s.book.subscriptions.data ==> key in s.book.records.data)
  }

  ghost predicate Inv(s: State, used: set<string>) {
    && s.book.subscriptions.Valid() && s.book.records.Valid()
    && (forall id :: id in s.book.subscriptions.data ==> id in used)
    && (forall id :: id in used ==> id != "" && ':' !in id)
    && (forall key :: RecordOk(s, key))
    && (forall key :: AttemptsOk(s, used, key))
  }

  /* ---------- One attempt ---------- */

  // A pair may be attempted that never was, or whose retry is due.
  predicate MayAttempt(s: State, key: string, now: int) {
    || key !in s.book.attempts
    || (&& key in s.book.records.data && s.book.records.data[key].outcome == Retrying
        && s.book.records.data[key].nextRetryAt.Some? && s.book.records.data[key].nextRetryAt.value <= now)
  }

  lemma AttemptedShape(before: Option<Record>, sub: string, event: string, outcome: Outcome, now: int)
    requires outcome == Delivered || outcome == Retrying
    requires before.Some? ==> Shape(before.value) && before.value.outcome == Retrying
    ensures Shape(Attempted(before, sub, event, outcome, now))
  {
  }

  lemma {:induction false} SpacedSnoc(times: seq<int>, now: int)
    requires Spaced(times) && |times| <= MAX_RETRY_ATTEMPTS
    requires times != [] ==> now >= times[|times| - 1] + BASE_RETRY_DELAY_MS * Pow2(|times| - 1)
    ensures Spaced(times + [now])
  {
  }

  lemma {:induction false} AttemptAtKey(s: State, used: set<string>, sub: string, event: string, outcome: Outcome,
                                        now: int)
    requires Inv(s, used) && sub in s.book.subscriptions.data && Known(s.events, event)
    requires MayAttempt(s, Key(sub, event), now) && (outcome == Delivered || outcome == Retrying)
    ensures
      var t := s.(book := RecordAttempt(s.book, sub, event, outcome, now));
      RecordOk(t, Key(sub, event)) && AttemptsOk(t, used, Key(sub, event))
  {
    var key := Key(sub, event);
    var before := s.book.records.Get(key);
    KeyParts(sub, event);
    assert RecordOk(s, key) && AttemptsOk(s, used, key);
    AttemptedShape(before, sub, event, outcome, now);
    SpacedSnoc(TimesOf(s.book.attempts, key), now);
    hide Inv, Known, Key, Spaced, Pow2;
  }

  lemma {:induction false} AttemptKeeps(s: State, used: set<string>, sub: string, event: string, outcome: Outcome,
                                        now: int)
    requires Inv(s, used) && sub in s.book.subscriptions.data && Known(s.events, event)
    requires MayAttempt(s, Key(sub, event), now) && (outcome == Delivered || outcome == Retrying)
    ensures Inv(s.(book := RecordAttempt(s.book, sub, event, outcome, now)), used)
  {
    var key := Key(sub, event);
    var t := s.(book := RecordAttempt(s.book, sub, event, outcome, now));
    AttemptAtKey(s, used, sub, event, outcome, now);
    PutValid(s.book.records, key, Attempted(s.book.records.Get(key), sub, event, outcome, now));
    assert t.book.subscriptions == s.book.subscriptions && t.book.records.Valid();
    forall k
      ensures RecordOk(t, k) && AttemptsOk(t, used, k)
    {
      hide RecordOk, AttemptsOk, Key, Known, MayAttempt, Attempted;
      if k != key {
        AttemptElsewhere(s, used, sub, event, outcome, now, k);
      }
    }
    hide RecordAttempt, RecordOk, AttemptsOk, Key, Known, MayAttempt, Attempted;
  }

  lemma AttemptElsewhere(s: State, used: set<string>, sub: string, event: string, outcome: Outcome, now: int,
                         key: string)
    requires RecordOk(s, key) && AttemptsOk(s, used, key) && key != Key(sub, event)
    ensures
      var t := s.(book := RecordAttempt(s.book, sub, event, outcome, now));
      RecordOk(t, key) && AttemptsOk(t, used, key)
  {
    hide RecordOk, AttemptsOk, Key, Attempted;
    var t := s.(book := RecordAttempt(s.book, sub, event, outcome, now));
    assert SameAt(s.book, t.book, key);
    SameIsOk(s, t, used, key);
  }

  lemma SameIsOk(s: State, t: State, used: set<string>, key: string)
    requires SameAt(s.book, t.book, key) && s.events == t.events && s.book.subscriptions == t.book.subscriptions
    requires RecordOk(s, key) && AttemptsOk(s, used, key)
    ensures RecordOk(t, key) && AttemptsOk(t, used, key)
  {
    hide Shape, Spaced, Key, Known, SubOf, EventOf;
  }

  lemma {:induction false} DeliverKeeps(p: Progress, used: set<string>, id: string, event: Event, ok: bool,
                                        simulated: bool, now: int)
    requires Inv(p.state, used) && id in p.state.book.subscriptions.data && Known(p.state.events, event.id)
    requires MayAttempt(p.state, Key(id, event.id), now)
    ensures Inv(Deliver(p, id, event, ok, simulated, now).state, used)
  {
    var outcome := OutcomeOf(p.state.book.subscriptions.data[id], ok, simulated);
    AttemptKeeps(p.state, used, id, event.id, outcome, now);
  }

  /* ---------- Publishing ---------- */

  lemma PublishKeeps(s: State, used: set<string>, event: Event)
    requires Inv(s, used)
    ensures Inv(Publish(s, event), used) && Known(Publish(s, event).events, event.id)
  {
    var t := Publish(s, event);
    assert t.events[0].id == event.id;
    forall id | Known(s.events, id)
      ensures Known(t.events, id)
    {
      var i :| 0 <= i < |s.events| && s.events[i].id == id;
      assert t.events[i + 1].id == id;
    }
    forall k
      ensures RecordOk(t, k) && AttemptsOk(t, used, k)
    {
      assert RecordOk(s, k) && AttemptsOk(s, used, k);
    }
  }

  // Nothing about the event is known to the books.
  ghost predicate Untouched(b: Book, ids: seq<string>, eventId: string) {
    forall i :: 0 <= i < |ids| ==> Key(ids[i], eventId) !in b.attempts
  }

  lemma {:induction false} DeliverToKeeps(p: Progress, used: set<string>, ids: seq<string>, event: Event,
                                          ok: string -> bool, now: int)
    requires Inv(p.state, used) && Known(p.state.events, event.id) && Distinct(ids)
    requires forall id :: id in ids ==> id in p.state.book.subscriptions.data
    requires Untouched(p.state.book, ids, event.id)
    ensures
      var q := DeliverTo(p, ids, event, ok, now);
      && Inv(q.state, used) && q.state.events == p.state.events
      && forall key :: EventOf(key) != event.id || SubOf(key) !in ids ==> SameAt(p.state.book, q.state.book, key)
  {
    if ids != [] {
      var n := |ids| - 1;
      var id := ids[n];
      assert id in ids;
      DeliverToKeeps(p, used, ids[..n], event, ok, now);
      var q := DeliverTo(p, ids[..n], event, ok, now);
      var key := Key(id, event.id);
      assert id in used;
      KeyParts(id, event.id);
      assert id !in ids[..n];
      assert SameAt(p.state.book, q.state.book, key);
      assert key !in q.state.book.attempts;
      hide Inv, Known, Key, SubOf, EventOf;
      DeliverKeeps(q, used, id, event, ok(id), false, now);
    }
  }

  // The two books hold the same about a pair.
  predicate SameAt(a: Book, b: Book, key: string) {
    && (key in a.records.data <==> key in b.records.data)
    && (key in a.records.data ==> a.records.data[key] == b.records.data[key])
    && TimesOf(a.attempts, key) == TimesOf(b.attempts, key)
    && (key in a.attempts <==> key in b.attempts)
  }

  lemma {:induction false} FreshIsUntouched(s: State, used: set<string>, ids: seq<string>, eventId: string)
    requires Inv(s, used) && !Known(s.events, eventId) && forall id :: id in ids ==> id in used
    ensures Untouched(s.book, ids, eventId)
  {
    forall i | 0 <= i < |ids|
      ensures Key(ids[i], eventId) !in s.book.attempts
    {
      KeyParts(ids[i], eventId);
      assert AttemptsOk(s, used, Key(ids[i], eventId));
    }
  }

  lemma {:induction false} PublishStepKeeps(s: State, used: set<string>, event: Event, ok: string -> bool, now: int)
    requires Inv(s, used) && !Known(s.events, event.id)
    ensures
      var t := PublishStep(s, event, ok, now).state;
      && Inv(t, used)
      && forall key :: EventOf(key) != event.id ==> SameAt(s.book, t.book, key)
  {
    var ids := s.book.subscriptions.keys;
    PublishKeeps(s, used, event);
    FreshIsUntouched(s, used, ids, event.id);
    DeliverToKeeps(Progress(Publish(s, event), [], false), used, ids, event, ok, now);
  }

  lemma {:induction false} SimulateStepKeeps(s: State, used: set<string>, id: string, event: Event, now: int)
    requires Inv(s, used) && !Known(s.events, event.id)
    ensures
      var t := SimulateStep(s, id, event, now).state;
      && Inv(t, used)
      && forall key :: EventOf(key) != event.id ==> SameAt(s.book, t.book, key)
  {
    PublishKeeps(s, used, event);
    if id in s.book.subscriptions.data {
      FreshIsUntouched(s, used, [id], event.id);
      assert Key([id][0], event.id) !in s.book.attempts;
      KeyParts(id, event.id);
      DeliverKeeps(Progress(Publish(s, event), [], false), used, id, event, true, true, now);
    }
  }

  /* ---------- Sweeps ---------- */

  // What a sweep makes of a record.
  function Swept(s: State, r: Record, cutoff: int, ok: string -> bool, now: int): Record
    requires r.subscriptionId in s.book.subscriptions.data
  {
    if Due(r, cutoff) then
      var sub := s.book.subscriptions.data[r.subscriptionId];
      var outcome := OutcomeOf(sub, ok(Key(r.subscriptionId, r.eventId)), false);
      Attempted(Some(r), r.subscriptionId, r.eventId, outcome, now)
    else r
  }

  // The state `t` of a sweep that has dealt with the first n records.
  ghost predicate SweptUpTo(s: State, t: State, n: nat, cutoff: int, ok: string -> bool, now: int)
    requires n <= |s.book.records.keys|
  {
    && t.book.subscriptions == s.book.subscriptions && t.events == s.events
    && t.book.records.keys == s.book.records.keys
    && (forall j :: 0 <= j < n ==> SweptAt(s, t, s.book.records.keys[j], cutoff, ok, now))
    && (forall j :: n <= j < |s.book.records.keys| ==> SameAt(s.book, t.book, s.book.records.keys[j]))
    && (forall key :: key !in s.book.records.data ==> SameAt(s.book, t.book, key))
  }

  ghost predicate SweptAt(s: State, t: State, key: string, cutoff: int, ok: string -> bool, now: int) {
    && key in s.book.records.data && key in t.book.records.data
    && s.book.records.data[key].subscriptionId in s.book.subscriptions.data
    && t.book.records.data[key] == Swept(s, s.book.records.data[key], cutoff, ok, now)
    && TimesOf(t.book.attempts, key) ==
       TimesOf(s.book.attempts, key) + if Due(s.book.records.data[key], cutoff) then [now] else []
  }

  lemma KnownIsFound(events: seq<Event>, id: string)
    requires Known(events, id)
    ensures FindEvent(events, id).Some? && FindEvent(events, id).value.id == id
  {
    var i :| 0 <= i < |events| && events[i].id == id;
    assert events[i] in events;
  }

  // One more record of a sweep, seen from the state before the sweep.
  lemma {:induction false} SweepNext(s: State, used: set<string>, p: Progress, n: nat, cutoff: int,
                                     ok: string -> bool, now: int)
    requires Inv(s, used) && Inv(p.state, used) && cutoff <= now && !p.threw
    requires n < |s.book.records.keys| && SweptUpTo(s, p.state, n, cutoff, ok, now)
    ensures
      var q := SweepOne(p, s.book.records.data[s.book.records.keys[n]], cutoff, ok, now);
      !q.threw && Inv(q.state, used) && SweptUpTo(s, q.state, n + 1, cutoff, ok, now)
  {
    var keys := s.book.records.keys;
    var key := keys[n];
    var r := s.book.records.data[key];
    assert RecordOk(s, key) && SameAt(s.book, p.state.book, key);
    if Due(r, cutoff) {
      KnownIsFound(p.state.events, r.eventId);
      var event := FindEvent(p.state.events, r.eventId).value;
      DeliverKeeps(p, used, r.subscriptionId, event, ok(key), false, now);
    }
    SweepNextAt(s, p, n, cutoff, ok, now);
  }

  lemma {:induction false} SweepNextAt(s: State, p: Progress, n: nat, cutoff: int, ok: string -> bool, now: int)
    requires !p.threw && s.book.records.Valid()
    requires n < |s.book.records.keys| && SweptUpTo(s, p.state, n, cutoff, ok, now)
    requires RecordOk(s, s.book.records.keys[n])
    ensures
      var q := SweepOne(p, s.book.records.data[s.book.records.keys[n]], cutoff, ok, now);
      !q.threw && SweptUpTo(s, q.state, n + 1, cutoff, ok, now)
  {
    var keys := s.book.records.keys;
    var key := keys[n];
    var r := s.book.records.data[key];
    assert SameAt(s.book, p.state.book, key);
    KnownIsFound(p.state.events, r.eventId);
    hide Known, FindEvent, Shape;
    var q := SweepOne(p, r, cutoff, ok, now);
    assert SweptAt(s, q.state, key, cutoff, ok, now);
    hide Attempted, OutcomeOf, Key, RecordOk;
    forall k | k != key
      ensures SameAt(p.state.book, q.state.book, k)
    {
    }
    SweptFurther(s, p.state, q.state, n, cutoff, ok, now);
  }

  lemma {:induction false} SweptFurther(s: State, t: State, u: State, n: nat, cutoff: int, ok: string -> bool, now: int)
    requires s.book.records.Valid() && n < |s.book.records.keys| && SweptUpTo(s, t, n, cutoff, ok, now)
    requires t.book.subscriptions == u.book.subscriptions && t.events == u.events
    requires t.book.records.keys == u.book.records.keys
    requires SweptAt(s, u, s.book.records.keys[n], cutoff, ok, now)
    requires forall k :: k != s.book.records.keys[n] ==> SameAt(t.book, u.book, k)
    ensures SweptUpTo(s, u, n + 1, cutoff, ok, now)
  {
    hide Swept, Due, TimesOf;
    var keys := s.book.records.keys;
    forall j | 0 <= j < n
      ensures SweptAt(s, u, keys[j], cutoff, ok, now)
    {
      assert SweptAt(s, t, keys[j], cutoff, ok, now) && SameAt(t.book, u.book, keys[j]);
    }
    forall j | n + 1 <= j < |keys|
      ensures SameAt(s.book, u.book, keys[j])
    {
      assert SameAt(s.book, t.book, keys[j]) && SameAt(t.book, u.book, keys[j]);
    }
    forall k | k !in s.book.records.data
      ensures SameAt(s.book, u.book, k)
    {
      assert SameAt(s.book, t.book, k) && SameAt(t.book, u.book, k);
    }
  }

  lemma {:induction false} SweepKeeps(s: State, used: set<string>, n: nat, cutoff: int, ok: string -> bool, now: int)
    requires Inv(s, used) && cutoff <= now && n <= |s.book.records.keys|
    ensures
      var p := SweepAll(Progress(s, [], false), Listed(s.book.records)[..n], cutoff, ok, now);
      !p.threw && Inv(p.state, used) && SweptUpTo(s, p.state, n, cutoff, ok, now)
  {
    var rs := Listed(s.book.records);
    if n > 0 {
      assert rs[..n][..n - 1] == rs[..n - 1];
      hide Inv, SweptUpTo, SweepOne, Listed;
      SweepKeeps(s, used, n - 1, cutoff, ok, now);
      SweepNext(s, used, SweepAll(Progress(s, [], false), rs[..n - 1], cutoff, ok, now), n - 1, cutoff, ok, now);
    } else {
      assert rs[..0] == [];
    }
  }

  /**
   A sweep is total: it never throws, attempts every due record once, and leaves every other record and
   everything else as it was.
   */
  lemma {:induction false} SweepExact(s: State, used: set<string>, cutoff: int, ok: string -> bool, now: int)
    requires Inv(s, used) && cutoff <= now
    ensures
      var p := SweepStep(s, cutoff, ok, now);
      && !p.threw && Inv(p.state, used)
      && p.state.book.subscriptions == s.book.subscriptions && p.state.events == s.events
      && p.state.book.records.keys == s.book.records.keys
      && (forall key :: key in s.book.records.data ==> SweptAt(s, p.state, key, cutoff, ok, now))
      && (forall key :: key !in s.book.records.data ==> SameAt(s.book, p.state.book, key))
  {
    var keys := s.book.records.keys;
    var rs := Listed(s.book.records);
    SweepKeeps(s, used, |keys|, cutoff, ok, now);
    assert rs[..|keys|] == rs;
    var t := SweepStep(s, cutoff, ok, now).state;
    forall key | key in s.book.records.data
      ensures SweptAt(s, t, key, cutoff, ok, now)
    {
      assert key in keys;
      var j :| 0 <= j < |keys| && keys[j] == key;
    }
  }

  /* ---------- The other operations ---------- */

  lemma {:induction false} CreateKeeps(s: State, used: set<string>, id: string, userId: string, filter: EventFilter,
                                       url: string)
    requires Inv(s, used) && id !in used && id != "" && ':' !in id
    ensures Inv(s.(book := CreateStep(s.book, id, userId, filter, url)), used + {id})
  {
    var t := s.(book := CreateStep(s.book, id, userId, filter, url));
    PutValid(s.book.subscriptions, id, Subscription(userId, filter, url, true));
    hide Shape, Spaced, Key, Known, SubOf, EventOf;
    forall k
      ensures RecordOk(t, k) && AttemptsOk(t, used + {id}, k)
    {
      assert RecordOk(s, k) && AttemptsOk(s, used, k);
    }
  }

  lemma {:induction false} UpdateKeeps(s: State, used: set<string>, userId: string, id: string, c: Change)
    requires Inv(s, used)
    ensures Inv(s.(book := UpdateStep(s.book, userId, id, c)), used)
  {
    var t := s.(book := UpdateStep(s.book, userId, id, c));
    if Owns(s.book, userId, id) {
      PutValid(s.book.subscriptions, id, Updated(s.book.subscriptions.data[id], c));
    }
    hide Shape, Spaced, Key, Known, SubOf, EventOf;
    forall k
      ensures RecordOk(t, k) && AttemptsOk(t, used, k)
    {
      assert RecordOk(s, k) && AttemptsOk(s, used, k);
    }
  }

  lemma {:induction false} DeleteKeeps(s: State, used: set<string>, userId: string, id: string)
    requires Inv(s, used)
    ensures Inv(s.(book := DeleteStep(s.book, userId, id)), used)
  {
    var t := s.(book := DeleteStep(s.book, userId, id));
    RemoveValid(s.book.subscriptions, id);
    KeepValid(s.book.records, KeysOfOthers(s.book.records, id));
    hide Shape, Spaced, Key, Known, SubOf, EventOf;
    forall k
      ensures RecordOk(t, k) && AttemptsOk(t, used, k)
    {
      assert RecordOk(s, k) && AttemptsOk(s, used, k);
    }
  }

  lemma {:induction false} AcknowledgeOneKeeps(s: State, used: set<string>, id: string, eventId: string)
    requires Inv(s, used)
    ensures
      var t := s.(book := AcknowledgeOne(s.book, id, eventId));
      Inv(t, used) && t.book.attempts == s.book.attempts && t.book.records.data.Keys == s.book.records.data.Keys
    ensures
      var t := AcknowledgeOne(s.book, id, eventId);
      forall k :: k in s.book.records.data ==>
        t.records.data[k] == s.book.records.data[k] || t.records.data[k].outcome == Acknowledged
  {
    var t := s.(book := AcknowledgeOne(s.book, id, eventId));
    var key := Key(id, eventId);
    assert RecordOk(s, key);
    if key in s.book.records.data {
      PutValid(s.book.records, key, Acknowledge(s.book.records.data[key]));
      assert Shape(Acknowledge(s.book.records.data[key]));
    }
    hide Shape, Spaced, Key, Known, SubOf, EventOf;
    forall k
      ensures RecordOk(t, k) && AttemptsOk(t, used, k)
    {
      assert RecordOk(s, k) && AttemptsOk(s, used, k);
    }
  }

  lemma {:induction false} AcknowledgeAllKeeps(s: State, used: set<string>, id: string, eventIds: seq<string>)
    requires Inv(s, used)
    ensures
      var t := s.(book := AcknowledgeAll(s.book, id, eventIds));
      Inv(t, used) && t.book.attempts == s.book.attempts && t.book.records.data.Keys == s.book.records.data.Keys
    ensures
      var t := AcknowledgeAll(s.book, id, eventIds);
      forall k :: k in s.book.records.data ==>
        t.records.data[k] == s.book.records.data[k] || t.records.data[k].outcome == Acknowledged
  {
    if eventIds != [] {
      var n := |eventIds| - 1;
      AcknowledgeAllKeeps(s, used, id, eventIds[..n]);
      hide Inv;
      AcknowledgeOneKeeps(s.(book := AcknowledgeAll(s.book, id, eventIds[..n])), used, id, eventIds[n]);
    }
  }

  /* ---------- Every step and every run ---------- */

  // The pair is not to be attempted any more: its subscription is gone or its record is not retrying.
  predicate Final(b: Book, key: string) {
    key in b.attempts && (key in b.records.data ==> b.records.data[key].outcome != Retrying)
  }

  // What a step may do to a pair that is final.
  predicate StaysFinal(b: Book, c: Book, key: string) {
    && key in b.attempts && Final(c, key) && c.attempts[key] == b.attempts[key]
    && (key in b.records.data && key in c.records.data ==>
          c.records.data[key] == b.records.data[key] || c.records.data[key].outcome == Acknowledged)
  }

  lemma {:induction false} StepKeeps(s: State, used: set<string>, op: Op)
    requires Inv(s, used) && ValidOp(s, used, op)
    ensures Inv(Step(s, op), Used(used, op))
  {
    match op
    case Create(id, userId, filter, url) => CreateKeeps(s, used, id, userId, filter, url);
    case Update(userId, id, change) => UpdateKeeps(s, used, userId, id, change);
    case Delete(userId, id) => DeleteKeeps(s, used, userId, id);
    case PublishAndDeliver(event, ok, now) => PublishStepKeeps(s, used, event, ok, now);
    case Simulate(id, event, now) => SimulateStepKeeps(s, used, id, event, now);
    case Sweep(cutoff, ok, now) => SweepExact(s, used, cutoff, ok, now);
    case AcknowledgeEvents(userId, id, eventIds) => AcknowledgeAllKeeps(s, used, id, eventIds);
  }

  /** A delivered, failed or acknowledged pair is never attempted again, nor one whose subscription is gone. */
  lemma {:induction false} FinalStays(s: State, used: set<string>, op: Op, key: string)
    requires Inv(s, used) && ValidOp(s, used, op) && Final(s.book, key)
    ensures StaysFinal(s.book, Step(s, op).book, key)
  {
    assert RecordOk(s, key) && AttemptsOk(s, used, key);
    match op
    case PublishAndDeliver(event, ok, now) =>
      PublishStepKeeps(s, used, event, ok, now);
      assert SameAt(s.book, Step(s, op).book, key);
    case Simulate(id, event, now) =>
      SimulateStepKeeps(s, used, id, event, now);
      assert SameAt(s.book, Step(s, op).book, key);
    case Sweep(cutoff, ok, now) =>
      SweepExact(s, used, cutoff, ok, now);
      if key in s.book.records.data {
        assert SweptAt(s, Step(s, op), key, cutoff, ok, now);
      } else {
        assert SameAt(s.book, Step(s, op).book, key);
      }
    case AcknowledgeEvents(userId, id, eventIds) => AcknowledgeAllKeeps(s, used, id, eventIds);
    case _ =>
  }

  lemma {:induction false} RunKeeps(ops: seq<Op>)
    ensures Run(ops).Some? ==> Inv(Run(ops).value.state, Run(ops).value.used)
  {
    if ops == [] {
      assert Inv(START.state, START.used);
    } else {
      var n := |ops| - 1;
      RunKeeps(ops[..n]);
      if Run(ops).Some? {
        hide Inv;
        StepKeeps(Run(ops[..n]).value.state, Run(ops[..n]).value.used, ops[n]);
      }
    }
  }

  lemma {:induction false} SpacedFromFirst(times: seq<int>, j: nat)
    requires Spaced(times) && j < |times|
    ensures times[j] >= times[0] + BASE_RETRY_DELAY_MS * (Pow2(j) - 1)
  {
    if j > 0 {
      SpacedFromFirst(times, j - 1);
    }
  }

  /**
   In every run each pair is attempted at most 6 times, attempt k at least 1000 * (2^(k-1) - 1) ms after
   the first.
   */
  lemma AttemptsBounded(ops: seq<Op>, key: string)
    requires Run(ops).Some? && key in Run(ops).value.state.book.attempts
    ensures
      var times := Run(ops).value.state.book.attempts[key];
      |times| <= 6 && forall j :: 0 <= j < |times| ==> times[j] >= times[0] + 1000 * (Pow2(j) - 1)
  {
    RunKeeps(ops);
    var r := Run(ops).value;
    assert AttemptsOk(r.state, r.used, key);
    var times := r.state.book.attempts[key];
    forall j | 0 <= j < |times|
      ensures times[j] >= times[0] + 1000 * (Pow2(j) - 1)
    {
      SpacedFromFirst(times, j);
    }
  }

  /**
   In every run each record belongs to a subscription that exists and an event that was published, is
   found under the key of that pair, counts its attempts, and is retrying if and only if its next retry
   is set, and then at most 5 attempts were made.
   */
  lemma RecordsInOrder(ops: seq<Op>, key: string)
    requires Run(ops).Some? && key in Run(ops).value.state.book.records.data
    ensures
      var s := Run(ops).value.state;
      var r := s.book.records.data[key];
      && r.subscriptionId in s.book.subscriptions.data && Known(s.events, r.eventId)
      && key == Key(r.subscriptionId, r.eventId) && |TimesOf(s.book.attempts, key)| == r.attemptCount
      && (r.outcome == Retrying <==> r.nextRetryAt.Some?) && (r.outcome == Retrying ==> r.attemptCount <= 5)
      && (r.outcome == Failed ==> r.attemptCount == 6)
  {
    RunKeeps(ops);
    assert RecordOk(Run(ops).value.state, key);
  }

  /** A pair that is final at some point of a run has the same attempts at the end. */
  lemma {:induction false} FinalForever(ops: seq<Op>, m: nat, key: string)
    requires m <= |ops| && Run(ops).Some?
    ensures Run(ops[..m]).Some?
    ensures
      var b, c := Run(ops[..m]).value.state.book, Run(ops).value.state.book;
      Final(b, key) ==> Final(c, key) && c.attempts[key] == b.attempts[key]
  {
    var n := |ops| - 1;
    if m < |ops| {
      FinalForever(ops[..n], m, key);
      assert ops[..n][..m] == ops[..m];
      RunKeeps(ops[..n]);
      var r := Run(ops[..n]).value;
      hide Inv;
      if Final(r.state.book, key) {
        FinalStays(r.state, r.used, ops[n], key);
      }
    } else {
      assert ops[..m] == ops;
    }
  }

  /** An acknowledged record stays acknowledged for as long as it exists. */
  lemma AcknowledgedStays(s: State, used: set<string>, op: Op, key: string)
    requires Inv(s, used) && ValidOp(s, used, op)
    requires key in s.book.records.data && s.book.records.data[key].outcome == Acknowledged
    ensures
      var c := Step(s, op).book;
      key in c.records.data ==> c.records.data[key].outcome == Acknowledged
  {
    assert RecordOk(s, key);
    FinalStays(s, used, op, key);
  }

  /* ---------- Sweeps drain the retries ---------- */

  datatype Tick = Tick(cutoff: int, ok: string -> bool, now: int)

  predicate AllDue(b: Book, cutoff: int) {
    forall key :: key in b.records.data && b.records.data[key].outcome == Retrying ==>
      b.records.data[key].nextRetryAt.Some? && b.records.data[key].nextRetryAt.value <= cutoff
  }

  // Sweeps one after the other, each when every retry is due.
  ghost function Sweeps(s: State, ticks: seq<Tick>): Option<State> {
    if ticks == [] then Some(s)
    else
      var n := |ticks| - 1;
      match Sweeps(s, ticks[..n])
      case None => None
      case Some(t) =>
        if t.book.records.Valid() && AllDue(t.book, ticks[n].cutoff) && ticks[n].cutoff <= ticks[n].now
        then Some(SweepStep(t, ticks[n].cutoff, ticks[n].ok, ticks[n].now).state)
        else None
  }

  predicate AttemptedMoreThan(b: Book, n: nat) {
    forall key :: key in b.records.data && b.records.data[key].outcome == Retrying ==>
      b.records.data[key].attemptCount > n
  }

  lemma {:induction false} SweepsKeep(s: State, used: set<string>, ticks: seq<Tick>)
    requires Inv(s, used) && Sweeps(s, ticks).Some?
    ensures Inv(Sweeps(s, ticks).value, used)
    ensures AttemptedMoreThan(Sweeps(s, ticks).value.book, |ticks|)
  {
    if ticks == [] {
      forall key | key in s.book.records.data
        ensures s.book.records.data[key].attemptCount > 0
      {
        assert RecordOk(s, key);
      }
    } else {
      var n := |ticks| - 1;
      SweepsKeep(s, used, ticks[..n]);
      OneSweepMore(Sweeps(s, ticks[..n]).value, used, n, ticks[n]);
    }
  }

  lemma {:induction false} OneSweepMore(s: State, used: set<string>, n: nat, tick: Tick)
    requires Inv(s, used) && AllDue(s.book, tick.cutoff) && tick.cutoff <= tick.now
    requires AttemptedMoreThan(s.book, n)
    ensures
      var t := SweepStep(s, tick.cutoff, tick.ok, tick.now).state;
      Inv(t, used) && AttemptedMoreThan(t.book, n + 1)
  {
    SweepExact(s, used, tick.cutoff, tick.ok, tick.now);
    var t := SweepStep(s, tick.cutoff, tick.ok, tick.now).state;
    forall key | key in t.book.records.data && t.book.records.data[key].outcome == Retrying
      ensures t.book.records.data[key].attemptCount > n + 1
    {
      assert RecordOk(s, key);
      assert key !in s.book.records.data ==> SameAt(s.book, t.book, key);
      assert SweptAt(s, t, key, tick.cutoff, tick.ok, tick.now);
    }
  }

  /**
   After any run, five sweeps with every retry due leave no retrying record, whatever the transport
   answers.
   */
  lemma FiveSweepsDrain(ops: seq<Op>, ticks: seq<Tick>, key: string)
    requires Run(ops).Some? && Sweeps(Run(ops).value.state, ticks).Some? && |ticks| >= 5
    ensures
      var b := Sweeps(Run(ops).value.state, ticks).value.book;
      key in b.records.data ==> b.records.data[key].outcome != Retrying
  {
    RunKeeps(ops);
    var r := Run(ops).value;
    SweepsKeep(r.state, r.used, ticks);
    assert RecordOk(Sweeps(r.state, ticks).value, key);
  }

  /* ---------- When sweeps throw ---------- */

  // A due record whose event is known and whose subscription is gone.
  ghost predicate Orphan(s: State, r: Record, cutoff: int) {
    Due(r, cutoff) && Known(s.events, r.eventId) && r.subscriptionId !in s.book.subscriptions.data
  }

  lemma {:induction false} SweepAllThrowsIff(p: Progress, rs: seq<Record>, cutoff: int, ok: string -> bool, now: int)
    requires !p.threw
    ensures
      var q := SweepAll(p, rs, cutoff, ok, now);
      && q.state.events == p.state.events && q.state.book.subscriptions == p.state.book.subscriptions
      && (q.threw <==> exists i :: 0 <= i < |rs| && Orphan(p.state, rs[i], cutoff))
  {
    if rs != [] {
      var n := |rs| - 1;
      SweepAllThrowsIff(p, rs[..n], cutoff, ok, now);
      assert forall i :: 0 <= i < n ==> rs[..n][i] == rs[i];
      KnownIffFound(p.state.events, rs[n].eventId);
    }
  }

  lemma KnownIffFound(events: seq<Event>, id: string)
    ensures Known(events, id) <==> FindEvent(events, id).Some?
  {
    if e :| e in events && e.id == id {
      var i :| 0 <= i < |events| && events[i] == e;
      assert events[i].id == id;
    }
    if Known(events, id) {
      KnownIsFound(events, id);
    }
  }

  /** A sweep throws if and only if it finds a due record whose subscription is gone. */
  lemma SweepThrowsIff(s: State, cutoff: int, ok: string -> bool, now: int)
    requires s.book.records.Valid()
    ensures
      SweepStep(s, cutoff, ok, now).threw <==>
        exists key :: key in s.book.records.data && Orphan(s, s.book.records.data[key], cutoff)
  {
    var rs, keys := Listed(s.book.records), s.book.records.keys;
    SweepAllThrowsIff(Progress(s, [], false), rs, cutoff, ok, now);
    if i :| 0 <= i < |rs| && Orphan(s, rs[i], cutoff) {
      assert keys[i] in s.book.records.data;
    }
    if key :| key in s.book.records.data && Orphan(s, s.book.records.data[key], cutoff) {
      assert key in keys;
      var i :| 0 <= i < |keys| && keys[i] == key;
      assert rs[i] == s.book.records.data[key];
    }
  }
}
