/**
 Delivery split at every `await` of src/webhook/webhook.service.ts. A publication or a sweep takes turns
 with everything else: one turn ends when a callback is sent or a record is written, the next begins when
 the transport has answered. Between two turns any other operation may come.
 */
module SplitDelivery {
  import opened Common
  import opened OrderedMap
  import opened Delivery
  import opened DeliveryTheorems

  /* ---------- Publications and sweeps as lists of things to do ---------- */

  // A subscription as it was when the publication started, or a record as it was when the sweep started.
  datatype Item =
    | Announce(event: Event, id: string, sub: Subscription)
    | Retry(cutoff: int, record: Record)

  datatype Verdict = Pass | Stop | Attempt(pair: Pair, called: bool)

  datatype Pair = Pair(sub: string, eventId: string)
  {
    function Name(): string {
      Key(sub, eventId)
    }
  }

  function PairOf(item: Item): Pair {
    match item
    case Announce(event, id, _) => Pair(id, event.id)
    case Retry(_, r) => Pair(r.subscriptionId, r.eventId)
  }

  // What becomes of an item in the state in which its turn comes. A missing subscription ends a sweep.
  function Judge(s: State, item: Item): Verdict {
    match item
    case Announce(event, _, sub) =>
      if sub.active && Wanted(sub.filter, event) then Attempt(PairOf(item), sub.callbackUrl != "") else Pass
    case Retry(cutoff, r) =>
      if !Due(r, cutoff) || FindEvent(s.events, r.eventId).None? then Pass
      else if r.subscriptionId !in s.book.subscriptions.data then Stop
      else Attempt(PairOf(item), s.book.subscriptions.data[r.subscriptionId].callbackUrl != "")
  }

  // A publication or sweep between two turns: the pair whose callback is being tried, and what is left.
  datatype Flight = Flight(sent: Option<Pair>, rest: seq<Item>)

  // What a turn leads to: the state, what is left to do, the pair written, whether it ended with an error.
  datatype Turn = Turn(state: State, flight: Option<Flight>, written: Option<string>, threw: bool)

  function Listing(written: Option<string>): seq<string> {
    if written.Some? then [written.value] else []
  }

  function Written(s: State, pair: Pair, outcome: Outcome, now: int): State {
    s.(book := RecordAttempt(s.book, pair.sub, pair.eventId, outcome, now))
  }

  // On to the next item that is attempted: its callback is sent, or its record is written if it has none.
  function TakeNext(s: State, items: seq<Item>, now: int): Turn
    decreases |items|
  {
    if items == [] then Turn(s, None, None, false)
    else match Judge(s, items[0])
      case Pass => TakeNext(s, items[1..], now)
      case Stop => Turn(s, None, None, true)
      case Attempt(pair, called) =>
        if called then Turn(s, Some(Flight(Some(pair), items[1..])), None, false)
        else Turn(Written(s, pair, Delivered, now), Some(Flight(None, items[1..])), Some(pair.Name()), false)
  }

  // The next turn; `ok` is the transport's answer when a callback was sent.
  function Resumed(s: State, f: Flight, ok: bool, now: int): Turn {
    match f.sent
    case None => TakeNext(s, f.rest, now)
    case Some(pair) =>
      var outcome := if ok then Delivered else Retrying;
      Turn(Written(s, pair, outcome, now), Some(Flight(None, f.rest)), Some(pair.Name()), false)
  }

  // The pairs that a list still comes to, as things are.
  function Holds(s: State, items: seq<Item>): seq<string>
    decreases |items|
  {
    if items == [] then []
    else match Judge(s, items[0])
      case Pass => Holds(s, items[1..])
      case Stop => []
      case Attempt(pair, _) => [pair.Name()] + Holds(s, items[1..])
  }

  function HeldBy(s: State, f: Flight): seq<string> {
    (if f.sent.Some? then [f.sent.value.Name()] else []) + Holds(s, f.rest)
  }

  // All pairs that are being tried or whose turn is still to come.
  function AllHeld(s: State, flights: seq<Flight>): seq<string> {
    if flights == [] then [] else HeldBy(s, flights[0]) + AllHeld(s, flights[1..])
  }

  /* ---------- Operations and runs ---------- */

  datatype SplitOp =
    | Calm(op: Op)
    | StartPublish(event: Event, now: int)
    | StartSweep(cutoff: int, now: int)
    | Resume(i: nat, ok: bool, now: int)

  datatype World = World(state: State, flights: seq<Flight>, used: set<string>, clock: int)
  {
    ghost predicate Valid() {
      state.book.subscriptions.Valid() && state.book.records.Valid()
    }

    // How often a pair is held.
    ghost function Times(key: string): nat {
      multiset(AllHeld(state, flights))[key]
    }

    ghost predicate Holding(key: string) {
      key in AllHeld(state, flights)
    }
  }

  function Announcements(s: State, event: Event): (items: seq<Item>)
    requires s.book.subscriptions.Valid()
    ensures |items| == |s.book.subscriptions.keys|
    ensures forall i :: 0 <= i < |items| ==>
      var id := s.book.subscriptions.keys[i];
      items[i] == Announce(event, id, s.book.subscriptions.data[id])
  {
    var m := s.book.subscriptions;
    seq(|m.keys|, i requires 0 <= i < |m.keys| => Announce(event, m.keys[i], m.data[m.keys[i]]))
  }

  function Retries(s: State, cutoff: int): (items: seq<Item>)
    requires s.book.records.Valid()
    ensures |items| == |s.book.records.keys|
    ensures forall i :: 0 <= i < |items| ==> items[i] == Retry(cutoff, s.book.records.data[s.book.records.keys[i]])
  {
    var m := s.book.records;
    seq(|m.keys|, i requires 0 <= i < |m.keys| => Retry(cutoff, m.data[m.keys[i]]))
  }

  // Publishing and sweeping are not calm: they are split.
  predicate IsCalm(op: Op) {
    !op.PublishAndDeliver? && !op.Sweep?
  }

  function TimeOf(w: World, op: SplitOp): int {
    match op
    case Calm(o) => if o.Simulate? then o.now else w.clock
    case StartPublish(_, now) => now
    case StartSweep(_, now) => now
    case Resume(_, _, now) => now
  }

  // Identifiers are fresh, the clock does not step back, and a sweep is not ahead of it.
  ghost predicate Possible(w: World, op: SplitOp) {
    && w.Valid() && TimeOf(w, op) >= w.clock
    && match op
       case Calm(o) => IsCalm(o) && ValidOp(w.state, w.used, o)
       case StartPublish(event, _) => !Known(w.state.events, event.id)
       case StartSweep(cutoff, now) => cutoff <= now
       case Resume(i, _, _) => i < |w.flights|
  }

  // The list of a publication or sweep that starts is laid out; the other operations lay out nothing.
  function Laid(w: World, op: SplitOp): World
    requires w.state.book.subscriptions.Valid() && w.state.book.records.Valid()
  {
    match op
    case StartPublish(event, _) =>
      var s := Publish(w.state, event);
      w.(state := s, flights := w.flights + [Flight(None, Announcements(s, event))])
    case StartSweep(cutoff, _) => w.(flights := w.flights + [Flight(None, Retries(w.state, cutoff))])
    case _ => w
  }

  // Whose turn it is.
  function Index(w: World, op: SplitOp): nat {
    if op.Resume? then op.i else |w.flights|
  }

  function TurnOf(w: World, op: SplitOp): Turn
    requires w.state.book.subscriptions.Valid() && w.state.book.records.Valid() && !op.Calm?
    requires Index(w, op) < |Laid(w, op).flights|
  {
    var l := Laid(w, op);
    Resumed(l.state, l.flights[Index(w, op)], op.Resume? && op.ok, op.now)
  }

  function Placing(f: Option<Flight>): seq<Flight> {
    if f.Some? then [f.value] else []
  }

  function Placed(flights: seq<Flight>, i: nat, f: Option<Flight>): seq<Flight>
    requires i < |flights|
  {
    flights[..i] + Placing(f) + flights[i + 1..]
  }

  // The pair whose record an operation writes. A simulated delivery never waits.
  ghost function WrittenAt(w: World, op: SplitOp): Option<string>
    requires Possible(w, op)
  {
    match op
    case Calm(o) =>
      if o.Simulate? && o.id in w.state.book.subscriptions.data then Some(Key(o.id, o.event.id)) else None
    case _ => TurnOf(w, op).written
  }

  ghost function After(w: World, op: SplitOp): World
    requires Possible(w, op)
  {
    match op
    case Calm(o) => World(Step(w.state, o), w.flights, Used(w.used, o), TimeOf(w, op))
    case _ =>
      var t := TurnOf(w, op);
      World(t.state, Placed(Laid(w, op).flights, Index(w, op), t.flight), w.used, TimeOf(w, op))
  }

  // What a run of interleaved operations leads to, if it is one.
  ghost function RunFrom(w: World, ops: seq<SplitOp>): Option<World> {
    if ops == [] then Some(w)
    else
      var n := |ops| - 1;
      var before := RunFrom(w, ops[..n]);
      if before.Some? && Possible(before.value, ops[n]) then Some(After(before.value, ops[n])) else None
  }

  function Beginning(clock: int): World {
    World(START.state, [], {}, clock)
  }

  lemma {:induction false} RunOnward(w: World, first: seq<SplitOp>, more: seq<SplitOp>)
    requires RunFrom(w, first).Some?
    ensures RunFrom(w, first + more) == RunFrom(RunFrom(w, first).value, more)
  {
    hide Possible, After;
    if more == [] {
      assert first + more == first;
    } else {
      var n := |more| - 1;
      RunOnward(w, first, more[..n]);
      RunLast(w, first + more);
      RunLast(RunFrom(w, first).value, more);
      hide RunFrom;
      assert (first + more)[..|first| + n] == first + more[..n];
    }
  }

  lemma RunLast(w: World, ops: seq<SplitOp>)
    requires ops != []
    ensures
      var n := |ops| - 1;
      var before := RunFrom(w, ops[..n]);
      RunFrom(w, ops) ==
      if before.Some? && Possible(before.value, ops[n]) then Some(After(before.value, ops[n])) else None
  {
  }

  lemma RunOfOne(w: World, op: SplitOp)
    requires Possible(w, op)
    ensures RunFrom(w, [op]) == Some(After(w, op))
  {
    assert [op][..0] == [];
    assert RunFrom(w, [op][..0]) == Some(w);
  }

  /* ---------- What every interleaving keeps ---------- */

  // Retrying exactly when the next retry is set, with a retry left.
  predicate Scheduled(r: Record) {
    && r.attemptCount >= 1 && r.outcome != Pending
    && (r.outcome == Retrying <==> r.nextRetryAt.Some?)
    && (r.outcome == Retrying ==>
          && r.attemptCount <= MAX_RETRY_ATTEMPTS
          && r.nextRetryAt == Some(r.lastAttemptAt + BASE_RETRY_DELAY_MS * Pow2(r.attemptCount - 1)))
  }

  ghost predicate RecordFits(s: State, used: set<string>, key: string) {
    key in s.book.records.data ==>
      var r := s.book.records.data[key];
      && Scheduled(r) && key == Key(r.subscriptionId, r.eventId)
      && r.subscriptionId == SubOf(key) && r.eventId == EventOf(key)
      && r.subscriptionId in used && Known(s.events, r.eventId) && key in s.book.attempts
  }

  ghost predicate AttemptsFit(s: State, used: set<string>, key: string) {
    key in s.book.attempts ==>
      SubOf(key) in used && Known(s.events, EventOf(key)) && s.book.attempts[key] != []
  }

  ghost predicate BookFits(s: State, used: set<string>) {
    && s.book.subscriptions.Valid() && s.book.records.Valid()
    && (forall id :: id in s.book.subscriptions.data ==> id in used)
    && (forall id :: id in used ==> id != "" && ':' !in id)
    && (forall key :: RecordFits(s, used, key))
    && (forall key :: AttemptsFit(s, used, key))
  }

  ghost predicate PairFits(s: State, used: set<string>, pair: Pair) {
    pair.sub in used && Known(s.events, pair.eventId)
  }

  ghost predicate ItemsFit(s: State, used: set<string>, items: seq<Item>) {
    forall i :: 0 <= i < |items| ==> PairFits(s, used, PairOf(items[i]))
  }

  ghost predicate FlightFits(s: State, used: set<string>, f: Flight) {
    (f.sent.Some? ==> PairFits(s, used, f.sent.value)) && ItemsFit(s, used, f.rest)
  }

  ghost predicate FlightsFit(s: State, used: set<string>, flights: seq<Flight>) {
    forall i :: 0 <= i < |flights| ==> FlightFits(s, used, flights[i])
  }

  ghost predicate Fits(w: World) {
    BookFits(w.state, w.used) && FlightsFit(w.state, w.used, w.flights)
  }

  // The books differ at one pair at most, where an attempt was added that left no acknowledgement.
  ghost predicate OnlyWritten(a: Book, b: Book, written: Option<string>, now: int) {
    && b.subscriptions == a.subscriptions
    && (forall key :: written != Some(key) ==> SameAt(a, b, key))
    && (written.Some? ==> AttemptAdded(a, b, written.value, now))
  }

  predicate AttemptAdded(a: Book, b: Book, key: string, now: int) {
    && key in b.records.data && key in b.attempts && b.attempts[key] == TimesOf(a.attempts, key) + [now]
    && b.records.data[key].outcome != Acknowledged && b.records.data[key].lastAttemptAt == now
    && b.records.data[key].attemptCount == 1 + (if key in a.records.data then a.records.data[key].attemptCount else 0)
  }

  lemma WriteScheduled(before: Option<Record>, pair: Pair, outcome: Outcome, now: int)
    requires outcome == Delivered || outcome == Retrying
    ensures
      var r := Attempted(before, pair.sub, pair.eventId, outcome, now);
      && Scheduled(r) && r.outcome != Acknowledged && r.lastAttemptAt == now
      && r.attemptCount == 1 + (if before.Some? then before.value.attemptCount else 0)
      && (before.Some? ==> r.subscriptionId == before.value.subscriptionId && r.eventId == before.value.eventId)
      && (before.None? ==> r.subscriptionId == pair.sub && r.eventId == pair.eventId)
  {
  }

  // A record may be written at any moment, for any pair that exists or existed.
  lemma {:induction false} WriteFits(s: State, used: set<string>, pair: Pair, outcome: Outcome, now: int)
    requires BookFits(s, used) && PairFits(s, used, pair)
    requires outcome == Delivered || outcome == Retrying
    ensures BookFits(Written(s, pair, outcome, now), used)
  {
    var key := pair.Name();
    var t := Written(s, pair, outcome, now);
    var r := Attempted(s.book.records.Get(key), pair.sub, pair.eventId, outcome, now);
    KeyParts(pair.sub, pair.eventId);
    assert RecordFits(s, used, key) && AttemptsFit(s, used, key);
    WriteScheduled(s.book.records.Get(key), pair, outcome, now);
    PutValid(s.book.records, key, r);
    hide Scheduled, Key, Known, Attempted, SubOf, EventOf;
    forall k
      ensures RecordFits(t, used, k) && AttemptsFit(t, used, k)
    {
      assert RecordFits(s, used, k) && AttemptsFit(s, used, k);
    }
  }

  lemma WriteAdds(s: State, pair: Pair, outcome: Outcome, now: int)
    requires outcome == Delivered || outcome == Retrying
    ensures
      var t := Written(s, pair, outcome, now);
      && t.events == s.events && t.book.subscriptions == s.book.subscriptions
      && OnlyWritten(s.book, t.book, Some(pair.Name()), now)
  {
    WriteScheduled(s.book.records.Get(pair.Name()), pair, outcome, now);
    hide Scheduled, Key, Attempted;
  }

  /* ---------- One turn ---------- */

  // Writing records changes neither what an item comes to nor what a list holds.
  lemma {:induction false} HoldsStay(s: State, t: State, items: seq<Item>)
    requires t.events == s.events && t.book.subscriptions == s.book.subscriptions
    ensures Holds(s, items) == Holds(t, items)
    decreases |items|
  {
    if items != [] {
      HoldsStay(s, t, items[1..]);
    }
  }

  // A turn writes the first pair held if it writes one, and the rest is held as before.
  ghost predicate TurnFits(s: State, used: set<string>, held: seq<string>, t: Turn, now: int) {
    && BookFits(t.state, used) && t.state.events == s.events && OnlyWritten(s.book, t.state.book, t.written, now)
    && (t.flight.Some? ==> FlightFits(t.state, used, t.flight.value))
    && held == Listing(t.written) + (if t.flight.Some? then HeldBy(t.state, t.flight.value) else [])
  }

  lemma {:induction false} TakeNextFits(s: State, used: set<string>, items: seq<Item>, now: int)
    requires BookFits(s, used) && ItemsFit(s, used, items)
    ensures TurnFits(s, used, Holds(s, items), TakeNext(s, items, now), now)
    decreases |items|
  {
    assert OnlyWritten(s.book, s.book, None, now);
    hide BookFits, Known, OnlyWritten, RecordAttempt;
    if items != [] {
      var rest := items[1..];
      assert PairFits(s, used, PairOf(items[0]));
      assert forall i :: 0 <= i < |rest| ==> rest[i] == items[i + 1];
      match Judge(s, items[0])
      case Pass => TakeNextFits(s, used, rest, now);
      case Stop =>
      case Attempt(pair, called) =>
        if !called {
          WriteFits(s, used, pair, Delivered, now);
          WriteAdds(s, pair, Delivered, now);
          HoldsStay(s, Written(s, pair, Delivered, now), rest);
        }
    }
  }

  lemma {:induction false} ResumedFits(s: State, used: set<string>, f: Flight, ok: bool, now: int)
    requires BookFits(s, used) && FlightFits(s, used, f)
    ensures TurnFits(s, used, HeldBy(s, f), Resumed(s, f, ok, now), now)
  {
    hide BookFits, Known, OnlyWritten, RecordAttempt;
    match f.sent
    case None => TakeNextFits(s, used, f.rest, now);
    case Some(pair) =>
      var outcome := if ok then Delivered else Retrying;
      WriteFits(s, used, pair, outcome, now);
      WriteAdds(s, pair, outcome, now);
      HoldsStay(s, Written(s, pair, outcome, now), f.rest);
  }

  lemma {:induction false} HeldInParts(s: State, a: seq<Flight>, b: seq<Flight>)
    ensures AllHeld(s, a + b) == AllHeld(s, a) + AllHeld(s, b)
  {
    if a == [] {
      assert a + b == b;
    } else {
      assert (a + b)[1..] == a[1..] + b;
      HeldInParts(s, a[1..], b);
    }
  }

  lemma HeldByOne(s: State, f: Flight)
    ensures AllHeld(s, [f]) == HeldBy(s, f)
  {
    assert AllHeld(s, [f][1..]) == [];
  }

  lemma {:induction false} AllHeldStay(s: State, t: State, flights: seq<Flight>)
    requires t.events == s.events && t.book.subscriptions == s.book.subscriptions
    ensures AllHeld(s, flights) == AllHeld(t, flights)
  {
    if flights != [] {
      HoldsStay(s, t, flights[0].rest);
      AllHeldStay(s, t, flights[1..]);
    }
  }

  lemma {:induction false} HeldInThree(s: State, a: seq<Flight>, f: Option<Flight>, b: seq<Flight>)
    ensures
      AllHeld(s, a + Placing(f) + b) ==
      AllHeld(s, a) + (if f.Some? then HeldBy(s, f.value) else []) + AllHeld(s, b)
  {
    HeldInParts(s, a, Placing(f));
    HeldInParts(s, a + Placing(f), b);
    if f.Some? {
      HeldByOne(s, f.value);
    }
  }

  // Seen from all that is held, a turn takes the written pair out.
  lemma {:induction false} TurnTakesOut(s: State, t: Turn, flights: seq<Flight>, i: nat)
    requires i < |flights| && t.state.events == s.events && t.state.book.subscriptions == s.book.subscriptions
    requires HeldBy(s, flights[i]) ==
             Listing(t.written) + (if t.flight.Some? then HeldBy(t.state, t.flight.value) else [])
    ensures multiset(AllHeld(s, flights)) ==
            multiset(AllHeld(t.state, Placed(flights, i, t.flight))) + multiset(Listing(t.written))
  {
    var a, b := flights[..i], flights[i + 1..];
    assert flights == a + Placing(Some(flights[i])) + b;
    HeldInThree(s, a, Some(flights[i]), b);
    HeldInThree(t.state, a, t.flight, b);
    AllHeldStay(s, t.state, a);
    AllHeldStay(s, t.state, b);
    assert Placed(flights, i, t.flight) == a + Placing(t.flight) + b;
    hide AllHeld, HeldBy, Listing, Placed, Placing;
    SplitsOff(AllHeld(s, a), Listing(t.written), if t.flight.Some? then HeldBy(t.state, t.flight.value) else [],
              AllHeld(s, b));
  }

  lemma SplitsOff(a: seq<string>, first: seq<string>, rest: seq<string>, b: seq<string>)
    ensures multiset(a + (first + rest) + b) == multiset(a + rest + b) + multiset(first)
  {
  }

  lemma {:induction false} FlightsPlaced(s: State, used: set<string>, flights: seq<Flight>, i: nat, f: Option<Flight>)
    requires FlightsFit(s, used, flights) && i < |flights|
    requires f.Some? ==> FlightFits(s, used, f.value)
    ensures FlightsFit(s, used, Placed(flights, i, f))
  {
    hide FlightFits;
    var placed := Placed(flights, i, f);
    forall j | 0 <= j < |placed|
      ensures FlightFits(s, used, placed[j])
    {
      if j != i || f.None? {
        assert placed[j] == flights[if j < i || f.Some? then j else j + 1];
      }
    }
  }

  // An operation other than the calm ones takes a turn, once its list is laid out.
  lemma {:induction false} TurnKeeps(w: World, op: SplitOp)
    requires Possible(w, op) && !op.Calm? && Fits(Laid(w, op))
    ensures
      var u := After(w, op);
      && Fits(u) && OnlyWritten(w.state.book, u.state.book, WrittenAt(w, op), op.now)
      && u.state.events == Laid(w, op).state.events
      && multiset(AllHeld(Laid(w, op).state, Laid(w, op).flights)) ==
         multiset(AllHeld(u.state, u.flights)) + multiset(Listing(WrittenAt(w, op)))
  {
    var l, i, t := Laid(w, op), Index(w, op), TurnOf(w, op);
    assert FlightFits(l.state, l.used, l.flights[i]);
    ResumedFits(l.state, l.used, l.flights[i], op.Resume? && op.ok, op.now);
    TurnTakesOut(l.state, t, l.flights, i);
    hide BookFits, FlightFits, HeldBy, AllHeld, Resumed, Known, AttemptAdded;
    FlightsStillFit(l.state, t.state, l.used, l.used, l.flights);
    FlightsPlaced(t.state, l.used, l.flights, i, t.flight);
    hide FlightsFit;
  }

  lemma FlightsStillFit(s: State, t: State, used: set<string>, more: set<string>, flights: seq<Flight>)
    requires used <= more && FlightsFit(s, used, flights)
    requires forall id :: Known(s.events, id) ==> Known(t.events, id)
    ensures FlightsFit(t, more, flights)
  {
    hide Known;
    forall i | 0 <= i < |flights|
      ensures FlightFits(t, more, flights[i])
    {
      assert FlightFits(s, used, flights[i]);
    }
  }

  /* ---------- Laying out ---------- */

  // No event is forgotten and no identifier is used again.
  ghost predicate Later(s: State, t: State, used: set<string>) {
    && (forall id :: Known(s.events, id) ==> Known(t.events, id))
    && (forall id :: id in used && id in t.book.subscriptions.data ==> id in s.book.subscriptions.data)
  }

  lemma {:induction false} HoldsShrink(s: State, t: State, used: set<string>, items: seq<Item>, key: string)
    requires ItemsFit(s, used, items) && Later(s, t, used)
    ensures multiset(Holds(t, items))[key] <= multiset(Holds(s, items))[key]
    decreases |items|
  {
    if items != [] {
      var rest := items[1..];
      assert PairFits(s, used, PairOf(items[0]));
      assert forall i :: 0 <= i < |rest| ==> rest[i] == items[i + 1];
      HoldsShrink(s, t, used, rest, key);
      KnownIsFound(s.events, PairOf(items[0]).eventId);
      KnownIsFound(t.events, PairOf(items[0]).eventId);
    }
  }

  lemma {:induction false} AllHeldShrink(s: State, t: State, used: set<string>, flights: seq<Flight>, key: string)
    requires FlightsFit(s, used, flights) && Later(s, t, used)
    ensures multiset(AllHeld(t, flights))[key] <= multiset(AllHeld(s, flights))[key]
  {
    if flights != [] {
      var rest := flights[1..];
      assert FlightFits(s, used, flights[0]);
      assert forall i :: 0 <= i < |rest| ==> rest[i] == flights[i + 1];
      HoldsShrink(s, t, used, flights[0].rest, key);
      AllHeldShrink(s, t, used, rest, key);
    }
  }

  // What is held belongs to the items, and only once where the items are of different pairs.
  ghost predicate Apart(items: seq<Item>) {
    forall i, j :: 0 <= i < j < |items| ==> PairOf(items[i]).Name() != PairOf(items[j]).Name()
  }

  lemma {:induction false} HeldIsListed(s: State, items: seq<Item>, key: string)
    requires key in Holds(s, items)
    ensures exists i :: 0 <= i < |items| && PairOf(items[i]).Name() == key && Judge(s, items[i]).Attempt?
    decreases |items|
  {
    if PairOf(items[0]).Name() != key || !Judge(s, items[0]).Attempt? {
      HeldIsListed(s, items[1..], key);
      var i :| 0 <= i < |items| - 1 && PairOf(items[1..][i]).Name() == key && Judge(s, items[1..][i]).Attempt?;
      assert items[1..][i] == items[i + 1];
    }
  }

  lemma {:induction false} HeldOnce(s: State, items: seq<Item>, key: string)
    requires Apart(items)
    ensures multiset(Holds(s, items))[key] <= 1
    decreases |items|
  {
    if items != [] {
      var rest := items[1..];
      assert forall i :: 0 <= i < |rest| ==> rest[i] == items[i + 1];
      HeldOnce(s, rest, key);
      if key in Holds(s, rest) {
        HeldIsListed(s, rest, key);
      }
    }
  }

  lemma {:induction false} AnnouncementsFit(s: State, used: set<string>, event: Event)
    requires BookFits(s, used) && Known(s.events, event.id)
    ensures ItemsFit(s, used, Announcements(s, event)) && Apart(Announcements(s, event))
  {
    var ids, items := s.book.subscriptions.keys, Announcements(s, event);
    forall i, j | 0 <= i < j < |items|
      ensures PairOf(items[i]).Name() != PairOf(items[j]).Name()
    {
      assert ids[i] in ids && ids[j] in ids;
      KeyParts(ids[i], event.id);
      KeyParts(ids[j], event.id);
    }
    forall i | 0 <= i < |items|
      ensures PairFits(s, used, PairOf(items[i]))
    {
      assert ids[i] in ids;
    }
  }

  lemma {:induction false} RetriesFit(s: State, used: set<string>, cutoff: int)
    requires BookFits(s, used)
    ensures ItemsFit(s, used, Retries(s, cutoff)) && Apart(Retries(s, cutoff))
    ensures forall i :: 0 <= i < |s.book.records.keys| ==>
      PairOf(Retries(s, cutoff)[i]).Name() == s.book.records.keys[i]
  {
    var keys, items := s.book.records.keys, Retries(s, cutoff);
    forall i | 0 <= i < |items|
      ensures PairOf(items[i]).Name() == keys[i] && PairFits(s, used, PairOf(items[i]))
    {
      assert keys[i] in keys;
      assert RecordFits(s, used, keys[i]);
    }
  }

  // What an operation lays out.
  function LaidOut(w: World, op: SplitOp): seq<Item>
    requires w.state.book.subscriptions.Valid() && w.state.book.records.Valid()
  {
    match op
    case StartPublish(event, _) => Announcements(Publish(w.state, event), event)
    case StartSweep(cutoff, _) => Retries(w.state, cutoff)
    case _ => []
  }

  lemma {:induction false} PublishFits(s: State, used: set<string>, event: Event)
    requires BookFits(s, used)
    ensures
      var t := Publish(s, event);
      BookFits(t, used) && Known(t.events, event.id) && Later(s, t, used)
  {
    var t := Publish(s, event);
    assert t.events[0].id == event.id;
    forall id | Known(s.events, id)
      ensures Known(t.events, id)
    {
      var i :| 0 <= i < |s.events| && s.events[i].id == id;
      assert t.events[i + 1].id == id;
    }
    hide Known, Scheduled, Key, SubOf, EventOf;
    forall k
      ensures RecordFits(t, used, k) && AttemptsFit(t, used, k)
    {
      assert RecordFits(s, used, k) && AttemptsFit(s, used, k);
    }
  }

  lemma {:induction false} LaidKeeps(w: World, op: SplitOp, key: string)
    requires Fits(w) && Possible(w, op)
    ensures
      var l := Laid(w, op);
      && Fits(l) && l.used == w.used && Later(w.state, l.state, w.used) && l.state.book == w.state.book
      && l.Times(key) <= w.Times(key) + multiset(Holds(l.state, LaidOut(w, op)))[key]
      && Apart(LaidOut(w, op))
  {
    var l := Laid(w, op);
    match op
    case StartPublish(event, _) =>
      PublishFits(w.state, w.used, event);
      AnnouncementsFit(l.state, w.used, event);
      LaidOnTop(w, l.state, LaidOut(w, op), key);
    case StartSweep(cutoff, _) =>
      RetriesFit(w.state, w.used, cutoff);
      LaidOnTop(w, l.state, LaidOut(w, op), key);
    case _ =>
  }

  lemma {:induction false} LaidOnTop(w: World, s: State, items: seq<Item>, key: string)
    requires FlightsFit(w.state, w.used, w.flights) && Later(w.state, s, w.used) && ItemsFit(s, w.used, items)
    ensures
      var flights := w.flights + [Flight(None, items)];
      && FlightsFit(s, w.used, flights)
      && multiset(AllHeld(s, flights))[key] <= w.Times(key) + multiset(Holds(s, items))[key]
  {
    var f := Flight(None, items);
    FlightsStillFit(w.state, s, w.used, w.used, w.flights);
    AllHeldShrink(w.state, s, w.used, w.flights, key);
    HeldInParts(s, w.flights, [f]);
    HeldByOne(s, f);
    assert HeldBy(s, f) == Holds(s, items);
    assert FlightFits(s, w.used, f);
    hide FlightFits, ItemsFit, Holds, HeldBy, AllHeld, Later;
  }

  /* ---------- Calm operations ---------- */

  // Attempts stay; a record stays, is acknowledged, or goes together with its subscription.
  predicate Eased(a: Book, b: Book, key: string) {
    && TimesOf(a.attempts, key) == TimesOf(b.attempts, key) && (key in a.attempts <==> key in b.attempts)
    && (key in b.records.data ==> key in a.records.data)
    && (key in a.records.data ==>
          var r := a.records.data[key];
          if key in b.records.data then
            && (r.subscriptionId in a.subscriptions.data <==> r.subscriptionId in b.subscriptions.data)
            && (b.records.data[key] == r || (r.outcome != Acknowledged && b.records.data[key] == Acknowledge(r)))
          else r.subscriptionId in a.subscriptions.data && r.subscriptionId !in b.subscriptions.data)
  }

  lemma {:induction false} AcknowledgeEases(b: Book, id: string, eventIds: seq<string>, key: string)
    requires b.records.Valid()
    ensures
      var c := AcknowledgeAll(b, id, eventIds);
      Eased(b, c, key) && c.subscriptions == b.subscriptions && c.records.Valid()
  {
    if eventIds != [] {
      var n := |eventIds| - 1;
      AcknowledgeEases(b, id, eventIds[..n], key);
      var c := AcknowledgeAll(b, id, eventIds[..n]);
      var k := Key(id, eventIds[n]);
      if k in c.records.data {
        PutValid(c.records, k, Acknowledge(c.records.data[k]));
      }
      hide Key;
    }
  }

  lemma {:induction false} DeleteEases(b: Book, userId: string, id: string, key: string)
    requires b.subscriptions.Valid() && b.records.Valid()
    ensures
      var c := DeleteStep(b, userId, id);
      && Eased(b, c, key) && c.subscriptions.Valid() && c.records.Valid()
      && forall i :: i in c.subscriptions.data ==> i in b.subscriptions.data
  {
    RemoveValid(b.subscriptions, id);
    KeepValid(b.records, KeysOfOthers(b.records, id));
  }

  lemma {:induction false} CalmEases(s: State, used: set<string>, op: Op, key: string)
    requires BookFits(s, used) && ValidOp(s, used, op) && IsCalm(op) && !op.Simulate?
    ensures
      var t := Step(s, op);
      && Eased(s.book, t.book, key) && t.events == s.events && Later(s, t, used)
      && t.book.subscriptions.Valid() && t.book.records.Valid()
      && forall id :: id in t.book.subscriptions.data ==> id in Used(used, op)
  {
    assert RecordFits(s, used, key);
    hide Scheduled, Key, SubOf, EventOf, Known, DeleteStep;
    match op
    case Create(id, userId, filter, url) =>
      PutValid(s.book.subscriptions, id, Subscription(userId, filter, url, true));
    case Update(userId, id, change) =>
      if Owns(s.book, userId, id) {
        PutValid(s.book.subscriptions, id, Updated(s.book.subscriptions.data[id], change));
      }
    case Delete(userId, id) => DeleteEases(s.book, userId, id, key);
    case AcknowledgeEvents(_, id, eventIds) => AcknowledgeEases(s.book, id, eventIds, key);
  }

  lemma {:induction false} CalmFits(s: State, used: set<string>, op: Op)
    requires BookFits(s, used) && ValidOp(s, used, op) && IsCalm(op) && !op.Simulate?
    ensures BookFits(Step(s, op), Used(used, op))
  {
    var t := Step(s, op);
    CalmEases(s, used, op, "");
    forall k
      ensures RecordFits(t, Used(used, op), k) && AttemptsFit(t, Used(used, op), k)
    {
      CalmEases(s, used, op, k);
      assert RecordFits(s, used, k) && AttemptsFit(s, used, k);
      hide Step, Key, SubOf, EventOf, Known;
    }
    hide Step, RecordFits, AttemptsFit, Known;
  }

  lemma {:induction false} SimulateFits(s: State, used: set<string>, id: string, event: Event, now: int)
    requires BookFits(s, used)
    ensures
      var t := SimulateStep(s, id, event, now).state;
      var written := if id in s.book.subscriptions.data then Some(Key(id, event.id)) else None;
      BookFits(t, used) && Later(s, t, used) && OnlyWritten(s.book, t.book, written, now)
  {
    var t, pair := Publish(s, event), Pair(id, event.id);
    PublishFits(s, used, event);
    if id in s.book.subscriptions.data {
      WriteFits(t, used, pair, Delivered, now);
      WriteAdds(t, pair, Delivered, now);
      assert SimulateStep(s, id, event, now).state == Written(t, pair, Delivered, now);
    }
    hide BookFits, Known, AttemptAdded, RecordAttempt;
  }

  /* ---------- One step of a run ---------- */

  // What a step does to a pair.
  predicate Effect(a: Book, b: Book, key: string, written: bool, now: int) {
    if written then AttemptAdded(a, b, key, now) && a.subscriptions == b.subscriptions else Eased(a, b, key)
  }

  // A subscription that is gone does not come back.
  ghost predicate NoneReturns(w: World, u: World) {
    forall id :: id in w.used && id in u.state.book.subscriptions.data ==> id in w.state.book.subscriptions.data
  }

  lemma OnlyWrittenEffect(a: Book, b: Book, written: Option<string>, key: string, now: int)
    requires OnlyWritten(a, b, written, now)
    ensures Effect(a, b, key, written == Some(key), now)
  {
    assert written != Some(key) ==> SameAt(a, b, key);
  }

  lemma {:induction false} CalmKeeps(w: World, op: SplitOp, key: string)
    requires Fits(w) && Possible(w, op) && op.Calm?
    ensures
      var u := After(w, op);
      && Fits(u) && u.Times(key) <= w.Times(key)
      && Effect(w.state.book, u.state.book, key, WrittenAt(w, op) == Some(key), u.clock) && NoneReturns(w, u)
  {
    var o, u := op.op, After(w, op);
    if o.Simulate? {
      SimulateFits(w.state, w.used, o.id, o.event, o.now);
      OnlyWrittenEffect(w.state.book, u.state.book, WrittenAt(w, op), key, o.now);
    } else {
      CalmEases(w.state, w.used, o, key);
      CalmFits(w.state, w.used, o);
    }
    hide BookFits, FlightsFit, Known, Effect, Step;
    assert Later(w.state, u.state, w.used);
    AllHeldShrink(w.state, u.state, w.used, w.flights, key);
    FlightsStillFit(w.state, u.state, w.used, u.used, w.flights);
  }

  // How often a pair is on the list that an operation lays out.
  ghost function LaidTimes(w: World, op: SplitOp, key: string): nat
    requires Possible(w, op)
  {
    multiset(Holds(Laid(w, op).state, LaidOut(w, op)))[key]
  }

  lemma {:induction false} StepFits(w: World, op: SplitOp, key: string)
    requires Fits(w) && Possible(w, op)
    ensures
      var u, now := After(w, op), WrittenAt(w, op) == Some(key);
      && Fits(u) && u.Times(key) + (if now && !op.Calm? then 1 else 0) <= w.Times(key) + LaidTimes(w, op, key)
      && Effect(w.state.book, u.state.book, key, now, u.clock) && NoneReturns(w, u)
  {
    if op.Calm? {
      CalmKeeps(w, op, key);
    } else {
      LaidKeeps(w, op, key);
      TurnKeeps(w, op);
      OnlyWrittenEffect(w.state.book, After(w, op).state.book, WrittenAt(w, op), key, op.now);
      hide Fits, Effect, OnlyWritten, AllHeld, Holds, LaidOut, Laid, TurnOf;
    }
  }

  lemma {:induction false} OnwardFits(w: World, ops: seq<SplitOp>)
    requires Fits(w) && RunFrom(w, ops).Some?
    ensures Fits(RunFrom(w, ops).value)
  {
    if ops != [] {
      OnwardFits(w, ops[..|ops| - 1]);
      StepFits(RunFrom(w, ops[..|ops| - 1]).value, ops[|ops| - 1], "");
    }
  }

  lemma {:induction false} RunFits(since: int, ops: seq<SplitOp>)
    requires RunFrom(Beginning(since), ops).Some?
    ensures Fits(RunFrom(Beginning(since), ops).value)
  {
    assert BookFits(START.state, {});
    OnwardFits(Beginning(since), ops);
  }

  /** In every interleaving a record is retrying exactly when its next retry is set, 5 attempts at most being made. */
  lemma {:induction false} RecordsAreScheduled(since: int, ops: seq<SplitOp>, key: string)
    requires RunFrom(Beginning(since), ops).Some?
    requires key in RunFrom(Beginning(since), ops).value.state.book.records.data
    ensures
      var s := RunFrom(Beginning(since), ops).value.state;
      var r := s.book.records.data[key];
      && key == Key(r.subscriptionId, r.eventId) && Known(s.events, r.eventId) && r.attemptCount >= 1
      && (r.outcome == Retrying <==> r.nextRetryAt.Some?)
      && (r.outcome == Retrying ==>
            r.attemptCount <= 5 && r.nextRetryAt == Some(r.lastAttemptAt + 1000 * Pow2(r.attemptCount - 1)))
  {
    hide *;
    RunFits(since, ops);
    var w := RunFrom(Beginning(since), ops).value;
    FitsAt(w, key);
    ScheduledRecord(w.state, w.used, key);
  }

  lemma FitsAt(w: World, key: string)
    requires Fits(w)
    ensures RecordFits(w.state, w.used, key) && AttemptsFit(w.state, w.used, key)
  {
  }

  lemma {:induction false} ScheduledRecord(s: State, used: set<string>, key: string)
    requires RecordFits(s, used, key) && key in s.book.records.data
    ensures
      var r := s.book.records.data[key];
      && key == Key(r.subscriptionId, r.eventId) && Known(s.events, r.eventId) && r.attemptCount >= 1
      && (r.outcome == Retrying <==> r.nextRetryAt.Some?)
      && (r.outcome == Retrying ==>
            r.attemptCount <= 5 && r.nextRetryAt == Some(r.lastAttemptAt + 1000 * Pow2(r.attemptCount - 1)))
  {
    hide Key, Known, SubOf, EventOf, Pow2;
  }

  /* ---------- Acknowledged and final pairs ---------- */

  /** An acknowledged record changes at a step if and only if the step writes the record of its pair. */
  lemma {:induction false} AcknowledgedChangesIff(since: int, ops: seq<SplitOp>, op: SplitOp, key: string)
    requires RunFrom(Beginning(since), ops).Some?
    requires Possible(RunFrom(Beginning(since), ops).value, op)
    requires
      var w := RunFrom(Beginning(since), ops).value;
      var a, b := w.state.book.records.data, After(w, op).state.book.records.data;
      key in a && a[key].outcome == Acknowledged && key in b
    ensures
      var w := RunFrom(Beginning(since), ops).value;
      var a, b := w.state.book.records.data, After(w, op).state.book.records.data;
      && (b[key] != a[key] <==> WrittenAt(w, op) == Some(key))
      && (b[key].outcome != Acknowledged <==> WrittenAt(w, op) == Some(key))
  {
    RunFits(since, ops);
    StepFits(RunFrom(Beginning(since), ops).value, op, key);
    hide Possible, Fits;
  }

  lemma {:induction false} HeldIsKnown(w: World, key: string)
    requires Fits(w) && w.Holding(key)
    ensures Known(w.state.events, EventOf(key)) && SubOf(key) in w.used
    decreases |w.flights|
  {
    var f, rest := w.flights[0], w.flights[1..];
    assert FlightFits(w.state, w.used, f);
    assert forall i :: 0 <= i < |rest| ==> rest[i] == w.flights[i + 1];
    if key in AllHeld(w.state, rest) {
      HeldIsKnown(w.(flights := rest), key);
    } else if key in Holds(w.state, f.rest) {
      HeldIsListed(w.state, f.rest, key);
      var i :| 0 <= i < |f.rest| && PairOf(f.rest[i]).Name() == key;
      KeyParts(PairOf(f.rest[i]).sub, PairOf(f.rest[i]).eventId);
    } else {
      KeyParts(f.sent.value.sub, f.sent.value.eventId);
    }
  }

  lemma {:induction false} AnnouncedIsNew(w: World, event: Event, i: nat)
    requires Fits(w) && !Known(w.state.events, event.id) && i < |w.state.book.subscriptions.keys|
    ensures
      var key := Key(w.state.book.subscriptions.keys[i], event.id);
      SubOf(key) in w.state.book.subscriptions.data && key !in w.state.book.attempts && !w.Holding(key)
  {
    var id := w.state.book.subscriptions.keys[i];
    var key := Key(id, event.id);
    assert id in w.state.book.subscriptions.keys;
    KeyParts(id, event.id);
    assert AttemptsFit(w.state, w.used, key);
    if w.Holding(key) {
      HeldIsKnown(w, key);
    }
  }

  lemma {:induction false} RetriedIsDue(w: World, cutoff: int, i: nat)
    requires Fits(w) && i < |w.state.book.records.keys|
    ensures
      var key := w.state.book.records.keys[i];
      && key in w.state.book.records.data && PairOf(Retries(w.state, cutoff)[i]).Name() == key
      && (Judge(w.state, Retries(w.state, cutoff)[i]).Attempt? ==>
            Due(w.state.book.records.data[key], cutoff) && SubOf(key) in w.state.book.subscriptions.data)
  {
    var key := w.state.book.records.keys[i];
    RetriesFit(w.state, w.used, cutoff);
    assert key in w.state.book.records.keys;
    assert RecordFits(w.state, w.used, key);
    hide Key, SubOf, EventOf, Known, Scheduled;
  }

  // A pair laid out was never attempted, or its record is due.
  lemma {:induction false} LaidIsNew(w: World, op: SplitOp, key: string)
    requires Fits(w) && Possible(w, op) && LaidTimes(w, op, key) > 0
    ensures LaidTimes(w, op, key) == 1
    ensures SubOf(key) in w.state.book.subscriptions.data
    ensures op.StartPublish? ==> key !in w.state.book.attempts && !w.Holding(key)
    ensures op.StartSweep? ==>
      key in w.state.book.records.data && Due(w.state.book.records.data[key], op.cutoff)
  {
    var s, items := Laid(w, op).state, LaidOut(w, op);
    LaidKeeps(w, op, key);
    HeldOnce(s, items, key);
    assert key in Holds(s, items);
    HeldIsListed(s, items, key);
    var i :| 0 <= i < |items| && PairOf(items[i]).Name() == key && Judge(s, items[i]).Attempt?;
    hide Fits, Holds, AllHeld, Judge, SubOf, Key, Due, Known, LaidTimes;
    match op
    case StartPublish(event, _) => AnnouncedIsNew(w, event, i);
    case StartSweep(cutoff, _) => RetriedIsDue(w, cutoff, i);
  }

  // A simulated delivery writes only what was never attempted.
  lemma {:induction false} CalmWritesNew(w: World, op: SplitOp, key: string)
    requires Fits(w) && Possible(w, op) && op.Calm? && WrittenAt(w, op) == Some(key)
    ensures key !in w.state.book.attempts && !w.Holding(key) && SubOf(key) in w.state.book.subscriptions.data
  {
    KeyParts(op.op.id, op.op.event.id);
    assert AttemptsFit(w.state, w.used, key);
    if w.Holding(key) {
      HeldIsKnown(w, key);
    }
  }

  lemma {:induction false} ClosedUnwritten(w: World, op: SplitOp, key: string)
    requires Fits(w) && Possible(w, op) && Final(w.state.book, key) && !w.Holding(key)
    ensures WrittenAt(w, op) != Some(key) && !After(w, op).Holding(key)
  {
    StepFits(w, op, key);
    if LaidTimes(w, op, key) > 0 {
      LaidIsNew(w, op, key);
    }
    if op.Calm? && WrittenAt(w, op) == Some(key) {
      CalmWritesNew(w, op, key);
    }
    hide Fits, Possible, LaidTimes, After, WrittenAt, AllHeld, Effect, NoneReturns;
  }

  // A final pair that nothing holds: no step attempts it or comes to hold it.
  lemma {:induction false} ClosedStays(w: World, op: SplitOp, key: string)
    requires Fits(w) && Possible(w, op) && Final(w.state.book, key) && !w.Holding(key)
    ensures
      var u := After(w, op);
      Fits(u) && StaysFinal(w.state.book, u.state.book, key) && !u.Holding(key)
  {
    ClosedUnwritten(w, op, key);
    StepFits(w, op, key);
    hide Fits, Possible, LaidTimes, After, WrittenAt, AllHeld, AttemptAdded, NoneReturns;
  }

  lemma {:induction false} ClosedForever(w: World, more: seq<SplitOp>, key: string)
    requires Fits(w) && Final(w.state.book, key) && !w.Holding(key) && RunFrom(w, more).Some?
    ensures
      var u := RunFrom(w, more).value;
      Fits(u) && StaysFinal(w.state.book, u.state.book, key) && !u.Holding(key)
      && (key in u.state.book.records.data ==> key in w.state.book.records.data)
  {
    if more != [] {
      var n := |more| - 1;
      ClosedForever(w, more[..n], key);
      var v := RunFrom(w, more[..n]).value;
      ClosedStays(v, more[n], key);
      StepFits(v, more[n], key);
    }
  }

  predicate OnlyResumes(ops: seq<SplitOp>) {
    forall i :: 0 <= i < |ops| ==> ops[i].Resume?
  }

  lemma {:induction false} HeldBySome(s: State, flights: seq<Flight>, key: string) returns (i: nat)
    requires key in AllHeld(s, flights)
    ensures i < |flights| && key in HeldBy(s, flights[i])
  {
    if key in HeldBy(s, flights[0]) {
      i := 0;
    } else {
      var j := HeldBySome(s, flights[1..], key);
      i := j + 1;
    }
  }

  lemma {:induction false} TakeNextShorter(s: State, items: seq<Item>, now: int)
    ensures var t := TakeNext(s, items, now); t.flight.Some? ==> |t.flight.value.rest| < |items|
    decreases |items|
  {
    if items != [] {
      TakeNextShorter(s, items[1..], now);
    }
  }

  lemma {:induction false} TurnThenRun(w: World, op: SplitOp, next: seq<SplitOp>)
    requires Possible(w, op) && op.Resume? && OnlyResumes(next)
    ensures OnlyResumes([op] + next) && RunFrom(w, [op] + next) == RunFrom(After(w, op), next)
  {
    RunOfOne(w, op);
    RunOnward(w, [op], next);
  }

  // The pair was attempted once more at the moment of `w`, and only flight `i` moved.
  ghost predicate CameUp(w: World, u: World, i: nat, key: string) {
    && AttemptAdded(w.state.book, u.state.book, key, w.clock) && u.clock == w.clock
    && u.state.events == w.state.events && u.state.book.subscriptions == w.state.book.subscriptions
    && |u.flights| == |w.flights| && forall j :: 0 <= j < |u.flights| && j != i ==> u.flights[j] == w.flights[j]
  }

  // A turn that a held pair's flight takes.
  ghost predicate TurnedAt(w: World, u: World, i: nat, key: string, written: bool) {
    && u.clock == w.clock && |u.flights| == |w.flights| && i < |w.flights|
    && u.state.events == w.state.events && u.state.book.subscriptions == w.state.book.subscriptions
    && (forall j :: 0 <= j < |u.flights| && j != i ==> u.flights[j] == w.flights[j])
    && (|u.flights[i].rest| < |w.flights[i].rest|
        || (u.flights[i].rest == w.flights[i].rest && w.flights[i].sent.Some? && u.flights[i].sent.None?))
    && (!written ==> key in HeldBy(u.state, u.flights[i]))
  }

  lemma {:induction false} TurnOfHolder(w: World, i: nat, key: string)
    requires Fits(w) && i < |w.flights| && key in HeldBy(w.state, w.flights[i])
    ensures
      var t := Resumed(w.state, w.flights[i], true, w.clock);
      && TurnFits(w.state, w.used, HeldBy(w.state, w.flights[i]), t, w.clock) && t.flight.Some?
      && (t.written != Some(key) ==> key in HeldBy(t.state, t.flight.value))
      && (|t.flight.value.rest| < |w.flights[i].rest|
          || (t.flight.value.rest == w.flights[i].rest && w.flights[i].sent.Some? && t.flight.value.sent.None?))
  {
    var f := w.flights[i];
    assert FlightFits(w.state, w.used, f);
    ResumedFits(w.state, w.used, f, true, w.clock);
    TakeNextShorter(w.state, f.rest, w.clock);
    hide BookFits, FlightFits, OnlyWritten;
    var t := Resumed(w.state, f, true, w.clock);
    if f.sent.None? && t.flight.None? {
      WritesStay(w.state, f.rest, w.clock);
    }
  }

  lemma {:induction false} WritesStay(s: State, items: seq<Item>, now: int)
    ensures TakeNext(s, items, now).written.Some? ==> TakeNext(s, items, now).flight.Some?
    decreases |items|
  {
    if items != [] {
      WritesStay(s, items[1..], now);
    }
  }

  lemma {:induction false} ResumeTurns(w: World, op: SplitOp)
    requires Possible(w, op) && op.Resume?
    ensures
      var t := Resumed(w.state, w.flights[op.i], op.ok, op.now);
      && WrittenAt(w, op) == t.written
      && After(w, op) == World(t.state, Placed(w.flights, op.i, t.flight), w.used, op.now)
  {
    hide Resumed;
  }

  lemma {:induction false} TurnedBy(w: World, t: Turn, i: nat, key: string)
    requires i < |w.flights| && t.flight.Some? && t.state.events == w.state.events
    requires t.state.book.subscriptions == w.state.book.subscriptions
    requires t.written != Some(key) ==> key in HeldBy(t.state, t.flight.value)
    requires
      || |t.flight.value.rest| < |w.flights[i].rest|
      || (t.flight.value.rest == w.flights[i].rest && w.flights[i].sent.Some? && t.flight.value.sent.None?)
    ensures
      var u := World(t.state, Placed(w.flights, i, t.flight), w.used, w.clock);
      TurnedAt(w, u, i, key, t.written == Some(key))
  {
    hide HeldBy;
  }

  lemma {:induction false} TurnBefore(w: World, i: nat, key: string)
    requires Fits(w) && i < |w.flights| && key in HeldBy(w.state, w.flights[i])
    ensures
      var op := Resume(i, true, w.clock);
      && Possible(w, op) && Fits(After(w, op))
      && TurnedAt(w, After(w, op), i, key, WrittenAt(w, op) == Some(key))
      && if WrittenAt(w, op) == Some(key) then AttemptAdded(w.state.book, After(w, op).state.book, key, w.clock)
         else SameAt(w.state.book, After(w, op).state.book, key)
  {
    var op := Resume(i, true, w.clock);
    var t := Resumed(w.state, w.flights[i], true, w.clock);
    TurnOfHolder(w, i, key);
    TurnedBy(w, t, i, key);
    assert Possible(w, op) && Laid(w, op) == w;
    ResumeTurns(w, op);
    hide Fits, BookFits, FlightFits, HeldBy, Resumed, WrittenAt, After, Laid, TurnedAt, Placed, TurnFits;
    TurnKeeps(w, op);
    OnlyWrittenEffect(w.state.book, After(w, op).state.book, WrittenAt(w, op), key, w.clock);
    hide AllHeld;
  }

  /** Whatever a flight holds comes up, if the flight is given turns. */
  lemma {:induction false} HeldComesUp(w: World, i: nat, key: string) returns (more: seq<SplitOp>)
    requires Fits(w) && i < |w.flights| && key in HeldBy(w.state, w.flights[i])
    ensures OnlyResumes(more) && RunFrom(w, more).Some? && CameUp(w, RunFrom(w, more).value, i, key)
    decreases |w.flights[i].rest|, w.flights[i].sent.Some?
  {
    var op := Resume(i, true, w.clock);
    TurnBefore(w, i, key);
    var u := After(w, op);
    hide Possible, Fits, After, WrittenAt, HeldBy;
    var next := [];
    if WrittenAt(w, op) != Some(key) {
      next := HeldComesUp(u, i, key);
    }
    TurnThenRun(w, op, next);
    more := [op] + next;
  }

  ghost predicate StaysAcknowledged(w: World, more: seq<SplitOp>, key: string) {
    RunFrom(w, more).Some? ==>
      var b := RunFrom(w, more).value.state.book;
      key in b.records.data ==> b.records.data[key].outcome == Acknowledged
  }

  ghost predicate StaysUnattempted(w: World, more: seq<SplitOp>, key: string) {
    RunFrom(w, more).Some? ==>
      TimesOf(RunFrom(w, more).value.state.book.attempts, key) == TimesOf(w.state.book.attempts, key)
  }

  /** A final pair is never attempted again if and only if no publication or sweep holds it. */
  lemma {:induction false} FinalHoldsIff(since: int, ops: seq<SplitOp>, key: string)
    requires RunFrom(Beginning(since), ops).Some?
    requires Final(RunFrom(Beginning(since), ops).value.state.book, key)
    ensures
      var w := RunFrom(Beginning(since), ops).value;
      (forall more :: StaysUnattempted(w, more, key)) <==> !w.Holding(key)
  {
    var w := RunFrom(Beginning(since), ops).value;
    RunFits(since, ops);
    if w.Holding(key) {
      var i := HeldBySome(w.state, w.flights, key);
      var more := HeldComesUp(w, i, key);
      assert !StaysUnattempted(w, more, key);
    } else {
      forall more
        ensures StaysUnattempted(w, more, key)
      {
        if RunFrom(w, more).Some? {
          ClosedForever(w, more, key);
        }
      }
    }
  }

  /** An acknowledgement holds for good if and only if no publication or sweep holds the pair. */
  lemma {:induction false} AcknowledgementHoldsIff(since: int, ops: seq<SplitOp>, key: string)
    requires RunFrom(Beginning(since), ops).Some?
    requires
      var b := RunFrom(Beginning(since), ops).value.state.book;
      key in b.records.data && b.records.data[key].outcome == Acknowledged
    ensures
      var w := RunFrom(Beginning(since), ops).value;
      (forall more :: StaysAcknowledged(w, more, key)) <==> !w.Holding(key)
  {
    var w := RunFrom(Beginning(since), ops).value;
    RunFits(since, ops);
    if w.Holding(key) {
      var i := HeldBySome(w.state, w.flights, key);
      var more := HeldComesUp(w, i, key);
      assert !StaysAcknowledged(w, more, key);
    } else {
      assert RecordFits(w.state, w.used, key);
      forall more
        ensures StaysAcknowledged(w, more, key)
      {
        if RunFrom(w, more).Some? {
          ClosedForever(w, more, key);
        }
      }
    }
  }

  /* ---------- Records without their subscription ---------- */

  ghost predicate Orphaned(s: State, key: string) {
    key in s.book.records.data && s.book.records.data[key].subscriptionId !in s.book.subscriptions.data
  }

  // Step m of a run writes the record of a pair whose subscription is gone.
  ghost predicate WrittenLate(since: int, ops: seq<SplitOp>, m: nat, key: string)
    requires m < |ops|
  {
    && RunFrom(Beginning(since), ops[..m]).Some?
    && var w := RunFrom(Beginning(since), ops[..m]).value;
       Possible(w, ops[m]) && WrittenAt(w, ops[m]) == Some(key) && SubOf(key) !in w.state.book.subscriptions.data
  }

  ghost predicate SomeWrittenLate(since: int, ops: seq<SplitOp>, key: string) {
    exists m :: 0 <= m < |ops| && WrittenLate(since, ops, m, key)
  }

  lemma {:induction false} OrphanStep(w: World, op: SplitOp, key: string)
    requires Fits(w) && Possible(w, op)
    ensures
      Orphaned(After(w, op).state, key) <==>
        Orphaned(w.state, key) || (WrittenAt(w, op) == Some(key) && SubOf(key) !in w.state.book.subscriptions.data)
  {
    StepFits(w, op, key);
    assert RecordFits(w.state, w.used, key);
    assert RecordFits(After(w, op).state, After(w, op).used, key);
    hide Possible, Fits, Scheduled, Key, Known, SubOf, EventOf, After, WrittenAt;
  }

  /** A record lacks its subscription if and only if it was written after the subscription was deleted. */
  lemma {:induction false} OrphanIff(since: int, ops: seq<SplitOp>, key: string)
    requires RunFrom(Beginning(since), ops).Some?
    ensures
      Orphaned(RunFrom(Beginning(since), ops).value.state, key) <==> SomeWrittenLate(since, ops, key)
  {
    if ops != [] {
      var n := |ops| - 1;
      OrphanIff(since, ops[..n], key);
      RunFits(since, ops[..n]);
      OrphanStep(RunFrom(Beginning(since), ops[..n]).value, ops[n], key);
      LateInPrefix(since, ops, key);
    }
  }

  lemma {:induction false} LateInPrefix(since: int, ops: seq<SplitOp>, key: string)
    requires ops != []
    ensures
      SomeWrittenLate(since, ops, key) <==>
        SomeWrittenLate(since, ops[..|ops| - 1], key) || WrittenLate(since, ops, |ops| - 1, key)
  {
    var n := |ops| - 1;
    forall m | 0 <= m < n
      ensures WrittenLate(since, ops, m, key) <==> WrittenLate(since, ops[..n], m, key)
    {
      assert ops[..n][..m] == ops[..m] && ops[..n][m] == ops[m];
      hide RunFrom, Possible, WrittenAt, SubOf;
    }
    hide WrittenLate;
  }

  // The subscription is gone, there is no record of the pair, and nothing holds it.
  ghost predicate Gone(w: World, key: string) {
    && SubOf(key) in w.used && SubOf(key) !in w.state.book.subscriptions.data
    && key !in w.state.book.records.data && !w.Holding(key)
  }

  lemma {:induction false} GoneStays(w: World, op: SplitOp, key: string)
    requires Fits(w) && Possible(w, op) && Gone(w, key)
    ensures Gone(After(w, op), key)
  {
    StepFits(w, op, key);
    if LaidTimes(w, op, key) > 0 {
      LaidIsNew(w, op, key);
    }
    if op.Calm? && WrittenAt(w, op) == Some(key) {
      CalmWritesNew(w, op, key);
    }
    assert w.used <= After(w, op).used;
    hide Fits, Possible, LaidTimes, After, WrittenAt, AllHeld;
  }

  lemma {:induction false} GoneForever(w: World, more: seq<SplitOp>, key: string)
    requires Fits(w) && Gone(w, key) && RunFrom(w, more).Some?
    ensures Gone(RunFrom(w, more).value, key)
  {
    if more != [] {
      var n := |more| - 1;
      GoneForever(w, more[..n], key);
      OnwardFits(w, more[..n]);
      GoneStays(RunFrom(w, more[..n]).value, more[n], key);
    }
  }

  ghost predicate StaysUnrecorded(w: World, more: seq<SplitOp>, key: string) {
    RunFrom(w, more).Some? ==> key !in RunFrom(w, more).value.state.book.records.data
  }

  lemma {:induction false} DeletionClears(w: World, op: SplitOp, key: string)
    requires Fits(w) && Possible(w, op) && op.Calm? && op.op.Delete?
    requires Owns(w.state.book, op.op.userId, op.op.id) && SubOf(key) == op.op.id
    ensures
      var u := After(w, op);
      && Fits(u) && key !in u.state.book.records.data
      && SubOf(key) in u.used && SubOf(key) !in u.state.book.subscriptions.data
  {
    StepFits(w, op, key);
    assert RecordFits(w.state, w.used, key);
    hide Fits, Scheduled, Key, Known, SubOf, EventOf;
  }

  /**
   A deletion holds, pair by pair: once a subscription is deleted, no continuation ever holds a record of
   one of its pairs again if and only if no publication or sweep still holds the pair.
   */
  lemma {:induction false} DeletionHoldsIff(since: int, ops: seq<SplitOp>, userId: string, id: string, key: string)
    requires RunFrom(Beginning(since), ops).Some? && SubOf(key) == id
    requires
      var w := RunFrom(Beginning(since), ops).value;
      Possible(w, Calm(Delete(userId, id))) && Owns(w.state.book, userId, id)
    ensures
      var u := After(RunFrom(Beginning(since), ops).value, Calm(Delete(userId, id)));
      (forall more :: StaysUnrecorded(u, more, key)) <==> !u.Holding(key)
  {
    var w, op := RunFrom(Beginning(since), ops).value, Calm(Delete(userId, id));
    RunFits(since, ops);
    DeletionClears(w, op, key);
    var u := After(w, op);
    hide After, Fits, Possible, AllHeld;
    if u.Holding(key) {
      var i := HeldBySome(u.state, u.flights, key);
      var more := HeldComesUp(u, i, key);
      assert !StaysUnrecorded(u, more, key);
    } else {
      forall more
        ensures StaysUnrecorded(u, more, key)
      {
        if RunFrom(u, more).Some? {
          GoneForever(u, more, key);
        }
      }
    }
  }

  /* ---------- The bound on attempts ---------- */

  // A sweep starts while a pair that it comes to is still held by an earlier publication or sweep.
  ghost predicate Overlaps(w: World, op: SplitOp)
    requires w.Valid()
  {
    op.StartSweep? && exists key :: key in Holds(w.state, Retries(w.state, op.cutoff)) && w.Holding(key)
  }

  ghost predicate OverlapAt(since: int, ops: seq<SplitOp>, m: nat)
    requires m < |ops|
  {
    && RunFrom(Beginning(since), ops[..m]).Some?
    && var w := RunFrom(Beginning(since), ops[..m]).value;
       w.Valid() && Overlaps(w, ops[m])
  }

  ghost predicate Separate(since: int, ops: seq<SplitOp>) {
    forall m :: 0 <= m < |ops| ==> !OverlapAt(since, ops, m)
  }

  // One more attempt may be made.
  ghost predicate Ready(times: seq<int>, clock: int) {
    && |times| <= MAX_RETRY_ATTEMPTS
    && (times != [] ==> clock >= times[|times| - 1] + BASE_RETRY_DELAY_MS * Pow2(|times| - 1))
  }

  // The record counts the attempts for as long as the subscription exists.
  predicate Counted(b: Book, key: string) {
    var times := TimesOf(b.attempts, key);
    SubOf(key) in b.subscriptions.data ==>
      && (times != [] ==> key in b.records.data)
      && (key in b.records.data ==>
            && times != [] && |times| == b.records.data[key].attemptCount
            && times[|times| - 1] == b.records.data[key].lastAttemptAt)
  }

  // A pair is held once at most, and only when it may be attempted.
  ghost predicate Orderly(w: World, key: string) {
    var times := TimesOf(w.state.book.attempts, key);
    Spaced(times) && Counted(w.state.book, key) && w.Times(key) <= 1 && (w.Holding(key) ==> Ready(times, w.clock))
  }

  lemma {:induction false} DueIsReady(b: Book, key: string, cutoff: int)
    requires Counted(b, key) && SubOf(key) in b.subscriptions.data && key in b.records.data
    requires Scheduled(b.records.data[key]) && Due(b.records.data[key], cutoff)
    ensures Ready(TimesOf(b.attempts, key), cutoff)
  {
    hide Pow2;
  }

  lemma {:induction false} LaidIsFree(w: World, op: SplitOp, key: string)
    requires Fits(w) && Possible(w, op) && !Overlaps(w, op) && LaidTimes(w, op, key) > 0
    ensures LaidTimes(w, op, key) == 1 && w.Times(key) == 0
  {
    LaidIsNew(w, op, key);
    hide Fits, Holds, AllHeld, Announcements, Retries;
    if op.StartSweep? {
      assert key in Holds(w.state, Retries(w.state, op.cutoff));
    } else {
      assert op.StartPublish?;
    }
  }

  lemma {:induction false} LaidIsReady(w: World, op: SplitOp, key: string)
    requires Fits(w) && Orderly(w, key) && Possible(w, op) && !Overlaps(w, op)
    ensures w.Times(key) + LaidTimes(w, op, key) <= 1
    ensures
      w.Times(key) + LaidTimes(w, op, key) > 0 ==> Ready(TimesOf(w.state.book.attempts, key), TimeOf(w, op))
  {
    if LaidTimes(w, op, key) > 0 {
      LaidIsNew(w, op, key);
      LaidIsFree(w, op, key);
      assert RecordFits(w.state, w.used, key);
      hide LaidTimes, Holds, AllHeld, Overlaps, BookFits, FlightsFit, Counted, Spaced, Scheduled, Due;
      if op.StartSweep? {
        DueIsReady(w.state.book, key, op.cutoff);
      } else {
        assert TimesOf(w.state.book.attempts, key) == [];
      }
    } else {
      hide LaidTimes, Overlaps, Fits, Possible, Counted, Spaced;
    }
  }

  lemma {:induction false} WrittenIsReady(w: World, op: SplitOp, key: string)
    requires Fits(w) && Orderly(w, key) && Possible(w, op) && !Overlaps(w, op) && WrittenAt(w, op) == Some(key)
    ensures After(w, op).Times(key) == 0 && Ready(TimesOf(w.state.book.attempts, key), TimeOf(w, op))
  {
    StepFits(w, op, key);
    LaidIsReady(w, op, key);
    if op.Calm? {
      CalmWritesNew(w, op, key);
    }
    hide Fits, Orderly, Effect, WrittenAt, LaidTimes, Overlaps, AllHeld, NoneReturns;
  }

  lemma {:induction false} CountedStays(a: Book, b: Book, key: string)
    requires Counted(a, key) && Eased(a, b, key)
    requires TimesOf(a.attempts, key) != [] && SubOf(key) in b.subscriptions.data ==> SubOf(key) in a.subscriptions.data
    requires key in a.records.data ==> a.records.data[key].subscriptionId == SubOf(key)
    ensures Counted(b, key)
  {
    hide SubOf;
  }

  lemma {:induction false} CountedGrows(a: Book, b: Book, key: string, now: int)
    requires Counted(a, key) && AttemptAdded(a, b, key, now) && a.subscriptions == b.subscriptions
    ensures Counted(b, key)
  {
    hide SubOf;
  }

  lemma {:induction false} WrittenStaysOrderly(w: World, op: SplitOp, key: string)
    requires Fits(w) && Orderly(w, key) && Possible(w, op) && !Overlaps(w, op) && WrittenAt(w, op) == Some(key)
    ensures Orderly(After(w, op), key)
  {
    var u := After(w, op);
    StepFits(w, op, key);
    WrittenIsReady(w, op, key);
    CountedGrows(w.state.book, u.state.book, key, u.clock);
    SpacedSnoc(TimesOf(w.state.book.attempts, key), u.clock);
    hide Fits, Counted, Spaced, Possible, Overlaps, AllHeld, Pow2, After, WrittenAt, LaidTimes, NoneReturns;
  }

  lemma {:induction false} OthersStayOrderly(w: World, op: SplitOp, key: string)
    requires Fits(w) && Orderly(w, key) && Possible(w, op) && !Overlaps(w, op) && WrittenAt(w, op) != Some(key)
    ensures Orderly(After(w, op), key)
  {
    var u := After(w, op);
    StepFits(w, op, key);
    assert RecordFits(w.state, w.used, key) && AttemptsFit(w.state, w.used, key);
    LaidIsReady(w, op, key);
    hide Fits, Counted, Spaced, Possible, Overlaps, AllHeld, Ready, WrittenAt, LaidTimes, Scheduled, Known;
    CountedStays(w.state.book, u.state.book, key);
    hide After;
  }

  lemma {:induction false} StepIsOrderly(w: World, op: SplitOp, key: string)
    requires Fits(w) && Orderly(w, key) && Possible(w, op) && !Overlaps(w, op)
    ensures Orderly(After(w, op), key)
  {
    hide *;
    if WrittenAt(w, op) == Some(key) {
      WrittenStaysOrderly(w, op, key);
    } else {
      OthersStayOrderly(w, op, key);
    }
  }

  lemma {:induction false} RunIsOrderly(since: int, ops: seq<SplitOp>, key: string)
    requires RunFrom(Beginning(since), ops).Some? && Separate(since, ops)
    ensures Orderly(RunFrom(Beginning(since), ops).value, key)
  {
    if ops != [] {
      var n := |ops| - 1;
      assert forall m :: 0 <= m < n ==> ops[..n][..m] == ops[..m] && ops[..n][m] == ops[m];
      assert forall m :: 0 <= m < n ==> !OverlapAt(since, ops, m) ==> !OverlapAt(since, ops[..n], m);
      RunIsOrderly(since, ops[..n], key);
      RunFits(since, ops[..n]);
      assert !OverlapAt(since, ops, n);
      StepIsOrderly(RunFrom(Beginning(since), ops[..n]).value, ops[n], key);
    }
  }

  /**
   While no sweep starts over a pair that is still held, each pair is attempted at most 6 times, attempt k
   at least 1000 * (2^(k-1) - 1) ms after the first, whatever is interleaved.
   */
  lemma {:induction false} SeparateRunsAreBounded(since: int, ops: seq<SplitOp>, key: string)
    requires RunFrom(Beginning(since), ops).Some? && Separate(since, ops)
    ensures
      var times := TimesOf(RunFrom(Beginning(since), ops).value.state.book.attempts, key);
      |times| <= 6 && forall j :: 0 <= j < |times| ==> times[j] >= times[0] + 1000 * (Pow2(j) - 1)
  {
    RunIsOrderly(since, ops, key);
    var times := TimesOf(RunFrom(Beginning(since), ops).value.state.book.attempts, key);
    forall j | 0 <= j < |times|
      ensures times[j] >= times[0] + 1000 * (Pow2(j) - 1)
    {
      SpacedFromFirst(times, j);
    }
  }

  // The attempts of a pair keep their distance when only turns already due follow.
  ghost predicate SpacedAfter(w: World, more: seq<SplitOp>, key: string) {
    OnlyResumes(more) && RunFrom(w, more).Some? ==>
      Spaced(TimesOf(RunFrom(w, more).value.state.book.attempts, key))
  }

  lemma {:induction false} ResumesStayOrderly(w: World, more: seq<SplitOp>, key: string)
    requires Fits(w) && Orderly(w, key) && OnlyResumes(more) && RunFrom(w, more).Some?
    ensures Orderly(RunFrom(w, more).value, key)
  {
    if more != [] {
      var n := |more| - 1;
      ResumesStayOrderly(w, more[..n], key);
      OnwardFits(w, more[..n]);
      StepIsOrderly(RunFrom(w, more[..n]).value, more[n], key);
    }
  }

  lemma TwiceAtOnceIsTooSoon(times: seq<int>, now: int)
    ensures !Spaced(times + [now] + [now])
  {
    var all := times + [now] + [now];
    assert all[|times|] == now && all[|times| + 1] == now;
    Pow2Positive(|times|);
  }

  lemma Pow2Positive(n: nat)
    ensures Pow2(n) >= 1
  {
  }

  // Two flights that hold a pair both come to attempt it, at the same moment if nothing else intervenes.
  lemma {:induction false} BothComeUp(w: World, i: nat, j: nat, key: string) returns (more: seq<SplitOp>)
    requires Fits(w) && i < |w.flights| && j < |w.flights| && i != j
    requires key in HeldBy(w.state, w.flights[i]) && key in HeldBy(w.state, w.flights[j])
    ensures !SpacedAfter(w, more, key)
  {
    var first := HeldComesUp(w, i, key);
    var v := RunFrom(w, first).value;
    OnwardFits(w, first);
    HoldsStay(w.state, v.state, w.flights[j].rest);
    var second := HeldComesUp(v, j, key);
    RunOnward(w, first, second);
    more := first + second;
    TwiceAtOnceIsTooSoon(TimesOf(w.state.book.attempts, key), w.clock);
    hide Fits, Spaced, HeldBy;
  }

  // A publication or sweep that starts becomes the last flight.
  lemma {:induction false} StartTurns(w: World, op: SplitOp)
    requires Possible(w, op) && (op.StartPublish? || op.StartSweep?)
    ensures
      var t := TakeNext(Laid(w, op).state, LaidOut(w, op), op.now);
      && WrittenAt(w, op) == t.written
      && After(w, op) == World(t.state, w.flights + Placing(t.flight), w.used, op.now)
  {
    var all := Laid(w, op).flights;
    assert all == w.flights + [Flight(None, LaidOut(w, op))];
    assert all[..|w.flights|] == w.flights && all[|w.flights| + 1..] == [];
    hide TakeNext, LaidOut, Laid;
  }

  // The sweep holds the pair or has just written it, and the earlier flight still holds it.
  lemma {:induction false} SweepTakesUp(w: World, op: SplitOp, i: nat, key: string)
    requires Fits(w) && Possible(w, op) && op.StartSweep?
    requires i < |w.flights| && key in HeldBy(w.state, w.flights[i])
    requires key in Holds(w.state, Retries(w.state, op.cutoff))
    ensures
      var u, n := After(w, op), |w.flights|;
      && Fits(u) && u.clock == op.now && n <= |u.flights| && key in HeldBy(u.state, u.flights[i])
      && if WrittenAt(w, op) == Some(key) then AttemptAdded(w.state.book, u.state.book, key, op.now)
         else n < |u.flights| && key in HeldBy(u.state, u.flights[n]) && SameAt(w.state.book, u.state.book, key)
  {
    var t := TakeNext(w.state, Retries(w.state, op.cutoff), op.now);
    StartTurns(w, op);
    RetriesFit(w.state, w.used, op.cutoff);
    TakeNextFits(w.state, w.used, Retries(w.state, op.cutoff), op.now);
    HoldsStay(w.state, t.state, w.flights[i].rest);
    StepFits(w, op, key);
    hide Fits, BookFits, FlightFits, AttemptAdded, AllHeld, Known, Possible, Holds, TakeNext, Retries, After, WrittenAt;
  }

  lemma {:induction false} OverlapBreaks(w: World, op: SplitOp) returns (more: seq<SplitOp>, key: string)
    requires Fits(w) && Possible(w, op) && Overlaps(w, op)
    ensures !SpacedAfter(After(w, op), more, key)
  {
    key :| key in Holds(w.state, Retries(w.state, op.cutoff)) && w.Holding(key);
    var i := HeldBySome(w.state, w.flights, key);
    var u := After(w, op);
    SweepTakesUp(w, op, i, key);
    hide Fits, Possible, After, HeldBy, Holds, AllHeld, Overlaps;
    if WrittenAt(w, op) == Some(key) {
      more := HeldComesUp(u, i, key);
      TwiceAtOnceIsTooSoon(TimesOf(w.state.book.attempts, key), u.clock);
    } else {
      more := BothComeUp(u, i, |w.flights|, key);
    }
  }

  /**
   Where the bound ends: once a sweep starts, the attempts of all pairs keep their distance in every order
   of the turns still due if and only if the sweep came to no pair that was still held.
   */
  lemma {:induction false} OverlapBreaksIff(since: int, ops: seq<SplitOp>, op: SplitOp)
    requires RunFrom(Beginning(since), ops).Some? && Separate(since, ops)
    requires Possible(RunFrom(Beginning(since), ops).value, op)
    ensures
      var w := RunFrom(Beginning(since), ops).value;
      (forall more, key :: SpacedAfter(After(w, op), more, key)) <==> !Overlaps(w, op)
  {
    var w := RunFrom(Beginning(since), ops).value;
    RunFits(since, ops);
    if Overlaps(w, op) {
      var more, key := OverlapBreaks(w, op);
    } else {
      forall more, key
        ensures SpacedAfter(After(w, op), more, key)
      {
        RunIsOrderly(since, ops, key);
        StepIsOrderly(w, op, key);
        StepFits(w, op, key);
        if OnlyResumes(more) && RunFrom(After(w, op), more).Some? {
          ResumesStayOrderly(After(w, op), more, key);
        }
      }
    }
  }

  /* ---------- With nothing in between ---------- */

  // What is returned on the way: the records written, in order, and whether a sweep ended with an error.
  datatype Report = Report(results: seq<Record>, threw: bool)

  const NO_REPORT := Report([], false)

  function Joined(a: Report, b: Report): Report {
    Report(a.results + b.results, a.threw || b.threw)
  }

  function RecordAt(s: State, written: Option<string>): seq<Record> {
    if written.Some? && written.value in s.book.records.data then [s.book.records.data[written.value]] else []
  }

  function ReportOf(t: Turn): Report {
    Report(RecordAt(t.state, t.written), t.threw)
  }

  ghost function StepReport(w: World, op: SplitOp): Report
    requires Possible(w, op)
  {
    if op.Calm? then NO_REPORT else ReportOf(TurnOf(w, op))
  }

  // What the turns of a run return.
  ghost function Reported(w: World, ops: seq<SplitOp>): Report {
    if ops == [] then NO_REPORT
    else
      var n := |ops| - 1;
      var before := RunFrom(w, ops[..n]);
      Joined(
        Reported(w, ops[..n]),
        if before.Some? && Possible(before.value, ops[n]) then StepReport(before.value, ops[n]) else NO_REPORT)
  }

  lemma {:induction false} ReportedOnward(w: World, first: seq<SplitOp>, more: seq<SplitOp>)
    requires RunFrom(w, first).Some?
    ensures Reported(w, first + more) == Joined(Reported(w, first), Reported(RunFrom(w, first).value, more))
  {
    hide Possible, After, StepReport, RunFrom;
    if more == [] {
      assert first + more == first;
    } else {
      var n := |more| - 1;
      ReportedOnward(w, first, more[..n]);
      RunOnward(w, first, more[..n]);
      assert (first + more)[..|first| + n] == first + more[..n];
    }
  }

  lemma ReportedOfOne(w: World, op: SplitOp)
    requires Possible(w, op)
    ensures Reported(w, [op]) == StepReport(w, op)
  {
    assert [op][..0] == [] && RunFrom(w, [op][..0]) == Some(w) && Reported(w, [op][..0]) == NO_REPORT;
    hide StepReport;
    assert Joined(NO_REPORT, StepReport(w, op)) == StepReport(w, op);
  }

  lemma {:induction false} ReportThenRun(w: World, op: SplitOp, next: seq<SplitOp>)
    requires Possible(w, op)
    ensures Reported(w, [op] + next) == Joined(StepReport(w, op), Reported(After(w, op), next))
    ensures RunFrom(w, [op] + next) == RunFrom(After(w, op), next)
  {
    RunOfOne(w, op);
    ReportedOfOne(w, op);
    ReportedOnward(w, [op], next);
    RunOnward(w, [op], next);
  }

  // One item after the other, with `answers` from the transport.
  function WorkOne(p: Progress, item: Item, answers: Pair -> bool, now: int): Progress {
    if p.threw then p
    else match Judge(p.state, item)
      case Pass => p
      case Stop => p.(threw := true)
      case Attempt(pair, called) =>
        var t := Written(p.state, pair, if called && !answers(pair) then Retrying else Delivered, now);
        p.(state := t, results := p.results + RecordAt(t, Some(pair.Name())))
  }

  function Work(p: Progress, items: seq<Item>, answers: Pair -> bool, now: int): Progress
    decreases |items|
  {
    if items == [] then p else Work(WorkOne(p, items[0], answers, now), items[1..], answers, now)
  }

  // What a whole flight comes to.
  function WorkFlight(s: State, f: Flight, answers: Pair -> bool, now: int): Progress {
    match f.sent
    case None => Work(Progress(s, [], false), f.rest, answers, now)
    case Some(pair) =>
      var t := Written(s, pair, if answers(pair) then Delivered else Retrying, now);
      Work(Progress(t, RecordAt(t, Some(pair.Name())), false), f.rest, answers, now)
  }

  lemma {:induction false} WorkThrown(p: Progress, items: seq<Item>, answers: Pair -> bool, now: int)
    requires p.threw
    ensures Work(p, items, answers, now) == p
    decreases |items|
  {
    if items != [] {
      WorkThrown(p, items[1..], answers, now);
    }
  }

  lemma {:induction false} WorkLast(p: Progress, items: seq<Item>, answers: Pair -> bool, now: int)
    requires items != []
    ensures
      var n := |items| - 1;
      Work(p, items, answers, now) == WorkOne(Work(p, items[..n], answers, now), items[n], answers, now)
    decreases |items|
  {
    hide WorkOne;
    var n := |items| - 1;
    var p1 := WorkOne(p, items[0], answers, now);
    if n == 0 {
      assert items[..0] == [] && items[1..] == [];
    } else {
      var rest := items[1..];
      WorkLast(p1, rest, answers, now);
      assert Work(p, items[..n], answers, now) == Work(p1, items[..n][1..], answers, now);
      assert Work(p, items, answers, now) == Work(p1, rest, answers, now);
      hide Work;
      assert rest[..n - 1] == items[..n][1..] && rest[n - 1] == items[n];
    }
  }

  // What was returned before does not matter to what follows.
  lemma {:induction false} WorkAppends(p: Progress, items: seq<Item>, answers: Pair -> bool, now: int)
    ensures
      var q := Work(p.(results := []), items, answers, now);
      Work(p, items, answers, now) == q.(results := p.results + q.results)
    decreases |items|
  {
    if items != [] {
      var first := p.(results := []);
      var p1, q1 := WorkOne(p, items[0], answers, now), WorkOne(first, items[0], answers, now);
      assert p1 == q1.(results := p.results + q1.results);
      hide WorkOne;
      WorkAppends(p1, items[1..], answers, now);
      WorkAppends(q1, items[1..], answers, now);
    } else {
      assert p.results + [] == p.results;
    }
  }

  // A turn, and then what is left of its flight.
  function WorkTurn(t: Turn, answers: Pair -> bool, now: int): Progress {
    var p := Progress(t.state, RecordAt(t.state, t.written), t.threw);
    if t.flight.None? then p
    else
      var q := WorkFlight(t.state, t.flight.value, answers, now);
      q.(results := p.results + q.results, threw := p.threw || q.threw)
  }

  // The next turn does not change what the whole flight comes to.
  lemma {:induction false} WorkFromNext(s: State, items: seq<Item>, answers: Pair -> bool, now: int)
    ensures Work(Progress(s, [], false), items, answers, now) == WorkTurn(TakeNext(s, items, now), answers, now)
    decreases |items|
  {
    hide RecordAttempt;
    if items != [] {
      match Judge(s, items[0])
      case Pass => WorkFromNext(s, items[1..], answers, now);
      case Stop =>
        WorkThrown(Progress(s, [], true), items[1..], answers, now);
        assert RecordAt(s, None) == [];
      case Attempt(pair, called) => AttemptFromNext(s, items, pair, called, answers, now);
    } else {
      assert RecordAt(s, None) == [];
    }
  }

  lemma {:induction false} AttemptFromNext(s: State, items: seq<Item>, pair: Pair, called: bool,
                                           answers: Pair -> bool, now: int)
    requires items != [] && Judge(s, items[0]) == Attempt(pair, called)
    ensures Work(Progress(s, [], false), items, answers, now) == WorkTurn(TakeNext(s, items, now), answers, now)
  {
    var t := Written(s, pair, if called && !answers(pair) then Retrying else Delivered, now);
    var r := RecordAt(t, Some(pair.Name()));
    hide RecordAttempt, Written;
    assert RecordAt(s, None) == [] && [] + r == r;
    hide RecordAt, Judge;
    WorkAppends(Progress(t, r, false), items[1..], answers, now);
    assert WorkOne(Progress(s, [], false), items[0], answers, now) == Progress(t, r, false);
    hide WorkOne;
    if called {
      var q := WorkFlight(s, Flight(Some(pair), items[1..]), answers, now);
      assert [] + q.results == q.results;
    }
  }

  lemma {:induction false} LastFlightTurns(w: World, f: Flight, others: seq<Flight>, ok: bool)
    requires w.Valid() && w.flights == others + [f]
    ensures
      var op, t := Resume(|others|, ok, w.clock), Resumed(w.state, f, ok, w.clock);
      && Possible(w, op) && After(w, op) == World(t.state, others + Placing(t.flight), w.used, w.clock)
      && StepReport(w, op) == ReportOf(t)
  {
    var n := |others|;
    assert w.flights[n] == f && w.flights[..n] == others && w.flights[n + 1..] == [];
    hide Resumed, ReportOf;
  }

  lemma {:induction false} WorkFromTurn(s: State, f: Flight, answers: Pair -> bool, now: int)
    ensures
      var t := Resumed(s, f, f.sent.Some? && answers(f.sent.value), now);
      && WorkFlight(s, f, answers, now) == WorkTurn(t, answers, now)
      && (t.flight.Some? ==>
            || |t.flight.value.rest| < |f.rest|
            || (t.flight.value.rest == f.rest && f.sent.Some? && t.flight.value.sent.None?))
  {
    hide Written, Work, TakeNext, RecordAt;
    match f.sent
    case None =>
      WorkFromNext(s, f.rest, answers, now);
      TakeNextShorter(s, f.rest, now);
    case Some(pair) =>
      var t := Written(s, pair, if answers(pair) then Delivered else Retrying, now);
      WorkAppends(Progress(t, RecordAt(t, Some(pair.Name())), false), f.rest, answers, now);
  }

  // Turns of one flight at one moment.
  predicate TurnsOf(more: seq<SplitOp>, i: nat, now: int) {
    forall j :: 0 <= j < |more| ==> more[j].Resume? && more[j].i == i && more[j].now == now
  }

  // The turns lead to the state, return the results and end with an error as the progress says.
  ghost predicate Amounts(w: World, more: seq<SplitOp>, p: Progress, flights: seq<Flight>, now: int) {
    && RunFrom(w, more) == Some(World(p.state, flights, w.used, now))
    && Reported(w, more) == Report(p.results, p.threw)
  }

  // One turn, and then the turns of what is left.
  lemma {:induction false} TurnAmounts(w: World, op: SplitOp, t: Turn, next: seq<SplitOp>, others: seq<Flight>,
                                       answers: Pair -> bool, now: int)
    requires Possible(w, op) && StepReport(w, op) == ReportOf(t)
    requires After(w, op) == World(t.state, others + Placing(t.flight), w.used, now)
    requires
      if t.flight.None? then next == []
      else Amounts(After(w, op), next, WorkFlight(t.state, t.flight.value, answers, now), others, now)
    ensures Amounts(w, [op] + next, WorkTurn(t, answers, now), others, now)
  {
    ReportThenRun(w, op, next);
    hide Possible, After, StepReport, WorkFlight, RecordAt;
    if t.flight.None? {
      assert others + Placing(t.flight) == others;
      assert RecordAt(t.state, t.written) + [] == RecordAt(t.state, t.written);
    }
  }

  lemma TurnsOfNext(op: SplitOp, next: seq<SplitOp>, i: nat, now: int)
    requires TurnsOf(next, i, now) && op.Resume? && op.i == i && op.now == now
    ensures TurnsOf([op] + next, i, now)
  {
  }

  // The turn of the last flight, and what it leaves.
  lemma {:induction false} FlightTurns(w: World, f: Flight, others: seq<Flight>, answers: Pair -> bool)
    requires Fits(w) && w.flights == others + [f]
    ensures
      var ok := f.sent.Some? && answers(f.sent.value);
      var op, t := Resume(|others|, ok, w.clock), Resumed(w.state, f, ok, w.clock);
      && Possible(w, op) && StepReport(w, op) == ReportOf(t) && Fits(After(w, op))
      && After(w, op) == World(t.state, others + Placing(t.flight), w.used, w.clock)
      && WorkFlight(w.state, f, answers, w.clock) == WorkTurn(t, answers, w.clock)
      && (t.flight.Some? ==>
            || |t.flight.value.rest| < |f.rest|
            || (t.flight.value.rest == f.rest && f.sent.Some? && t.flight.value.sent.None?))
  {
    var ok := f.sent.Some? && answers(f.sent.value);
    LastFlightTurns(w, f, others, ok);
    WorkFromTurn(w.state, f, answers, w.clock);
    hide Possible, After, WrittenAt, Resumed, WorkFlight, WorkTurn, StepReport, ReportOf, LaidTimes, AllHeld;
    StepFits(w, Resume(|others|, ok, w.clock), "");
    hide Fits, Effect, NoneReturns;
  }

  // A flight that is given one turn after the other.
  lemma {:induction false} FlightRunsOut(w: World, f: Flight, others: seq<Flight>, answers: Pair -> bool)
    returns (more: seq<SplitOp>)
    requires Fits(w) && w.flights == others + [f]
    ensures TurnsOf(more, |others|, w.clock)
    ensures Amounts(w, more, WorkFlight(w.state, f, answers, w.clock), others, w.clock)
    decreases |f.rest|, f.sent.Some?
  {
    var ok := f.sent.Some? && answers(f.sent.value);
    var op, t := Resume(|others|, ok, w.clock), Resumed(w.state, f, ok, w.clock);
    FlightTurns(w, f, others, answers);
    hide Fits, Possible, After, Resumed, WorkFlight, WorkTurn, StepReport, ReportOf, Amounts;
    var next := [];
    if t.flight.Some? {
      next := FlightRunsOut(After(w, op), t.flight.value, others, answers);
    }
    TurnAmounts(w, op, t, next, others, answers, w.clock);
    TurnsOfNext(op, next, |others|, w.clock);
    hide TurnsOf;
    more := [op] + next;
  }

  lemma {:induction false} WorkIsPublish(s: State, ids: seq<string>, items: seq<Item>, event: Event,
                                         ok: string -> bool, answers: Pair -> bool, now: int)
    requires |ids| == |items| && forall i :: 0 <= i < |ids| ==>
      ids[i] in s.book.subscriptions.data && items[i] == Announce(event, ids[i], s.book.subscriptions.data[ids[i]])
    requires forall pair: Pair :: answers(pair) == ok(pair.sub)
    ensures
      var p := Progress(s, [], false);
      Work(p, items, answers, now) == DeliverTo(p, ids, event, ok, now) && !DeliverTo(p, ids, event, ok, now).threw
  {
    if ids != [] {
      hide Attempted, Key;
      var n := |ids| - 1;
      WorkIsPublish(s, ids[..n], items[..n], event, ok, answers, now);
      WorkLast(Progress(s, [], false), items, answers, now);
      hide Wanted, Work;
    }
  }

  lemma {:induction false} WorkIsSweep(s: State, rs: seq<Record>, items: seq<Item>, cutoff: int,
                                       ok: string -> bool, answers: Pair -> bool, now: int)
    requires |rs| == |items| && forall i :: 0 <= i < |rs| ==> items[i] == Retry(cutoff, rs[i])
    requires forall pair: Pair :: answers(pair) == ok(pair.Name())
    ensures
      var p := Progress(s, [], false);
      Work(p, items, answers, now) == SweepAll(p, rs, cutoff, ok, now)
  {
    if rs != [] {
      var n := |rs| - 1;
      WorkIsSweep(s, rs[..n], items[..n], cutoff, ok, answers, now);
      WorkLast(Progress(s, [], false), items, answers, now);
      hide Attempted, Key, Due;
    }
  }

  lemma {:induction false} StartReports(w: World, op: SplitOp)
    requires Possible(w, op) && (op.StartPublish? || op.StartSweep?)
    ensures StepReport(w, op) == ReportOf(TakeNext(Laid(w, op).state, LaidOut(w, op), op.now))
  {
    assert Laid(w, op).flights == w.flights + [Flight(None, LaidOut(w, op))];
    hide TakeNext, LaidOut, Laid, ReportOf;
  }

  // A publication or sweep that starts and is given all its turns.
  ghost predicate ComesTo(w: World, op: SplitOp, more: seq<SplitOp>, p: Progress) {
    && TurnsOf(more, |w.flights|, TimeOf(w, op))
    && Amounts(w, [op] + more, p, w.flights, TimeOf(w, op))
  }

  lemma {:induction false} StartRunsOut(w: World, op: SplitOp, answers: Pair -> bool) returns (more: seq<SplitOp>)
    requires Fits(w) && Possible(w, op) && (op.StartPublish? || op.StartSweep?)
    ensures ComesTo(w, op, more, Work(Progress(Laid(w, op).state, [], false), LaidOut(w, op), answers, op.now))
  {
    var t := TakeNext(Laid(w, op).state, LaidOut(w, op), op.now);
    StartTurns(w, op);
    StartReports(w, op);
    StepFits(w, op, "");
    WorkFromNext(Laid(w, op).state, LaidOut(w, op), answers, op.now);
    hide Fits, TakeNext, Work, WorkFlight, Possible, After, Laid, LaidOut, Effect, NoneReturns, LaidTimes, StepReport;
    hide ReportOf, WorkTurn, Amounts;
    more := [];
    if t.flight.Some? {
      more := FlightRunsOut(After(w, op), t.flight.value, w.flights, answers);
    }
    TurnAmounts(w, op, t, more, w.flights, answers, op.now);
  }

  /**
   A publication that is given all its turns before anything else is the atomic one: it leads to the same
   state and returns the same deliveries.
   */
  lemma {:induction false} PublishAloneIsAtomic(since: int, ops: seq<SplitOp>, event: Event, ok: string -> bool,
                                                now: int)
    requires RunFrom(Beginning(since), ops).Some?
    requires Possible(RunFrom(Beginning(since), ops).value, StartPublish(event, now))
    ensures
      var w := RunFrom(Beginning(since), ops).value;
      exists more :: ComesTo(w, StartPublish(event, now), more, PublishStep(w.state, event, ok, now))
  {
    var w, op := RunFrom(Beginning(since), ops).value, StartPublish(event, now);
    var answers := (pair: Pair) => ok(pair.sub);
    RunFits(since, ops);
    var s, ids := Publish(w.state, event), w.state.book.subscriptions.keys;
    forall i | 0 <= i < |ids|
      ensures ids[i] in s.book.subscriptions.data
    {
      assert ids[i] in ids;
    }
    WorkIsPublish(s, ids, Announcements(s, event), event, ok, answers, now);
    hide Fits, Possible, Work, DeliverTo;
    var more := StartRunsOut(w, op, answers);
    assert ComesTo(w, op, more, PublishStep(w.state, event, ok, now));
  }

  /**
   A sweep that is given all its turns before anything else is the atomic one: it leads to the same state,
   returns the same deliveries, and ends with an error exactly when that one does.
   */
  lemma {:induction false} SweepAloneIsAtomic(since: int, ops: seq<SplitOp>, cutoff: int, ok: string -> bool, now: int)
    requires RunFrom(Beginning(since), ops).Some?
    requires Possible(RunFrom(Beginning(since), ops).value, StartSweep(cutoff, now))
    ensures
      var w := RunFrom(Beginning(since), ops).value;
      exists more :: ComesTo(w, StartSweep(cutoff, now), more, SweepStep(w.state, cutoff, ok, now))
  {
    var w, op := RunFrom(Beginning(since), ops).value, StartSweep(cutoff, now);
    var answers := (pair: Pair) => ok(pair.Name());
    RunFits(since, ops);
    WorkIsSweep(w.state, Listed(w.state.book.records), Retries(w.state, cutoff), cutoff, ok, answers, now);
    hide Fits, Possible, Work, SweepAll;
    var more := StartRunsOut(w, op, answers);
    assert ComesTo(w, op, more, SweepStep(w.state, cutoff, ok, now));
  }

  /* ---------- Runs that show each failure ---------- */

  const KNOCK := Event("e", "k", Low, map[])
  const LISTENER := Subscription("u", EventFilter(["k"], None, []), "h", true)
  const KNOCKED := Pair("s", "e")
  const WAITING := Flight(Some(KNOCKED), [])
  const IDLE := Flight(None, [])

  // One subscription, one event, and the record of that pair.
  function Scene(r: Option<Record>, times: seq<int>, flights: seq<Flight>, clock: int): World {
    World(
      State(
        Book(
          Map(["s"], map["s" := LISTENER]),
          if r.Some? then Map([KNOCKED.Name()], map[KNOCKED.Name() := r.value]) else Map([], map[]),
          if r.Some? then map[KNOCKED.Name() := times] else map[]),
        [KNOCK]),
      flights, {"s"}, clock)
  }

  ghost predicate Reaches(ops: seq<SplitOp>, w: World) {
    RunFrom(Beginning(0), ops) == Some(w)
  }

  lemma ReachesNext(ops: seq<SplitOp>, w: World, op: SplitOp)
    requires Reaches(ops, w) && Possible(w, op)
    ensures Reaches(ops + [op], After(w, op))
  {
    RunOfOne(w, op);
    RunOnward(Beginning(0), ops, [op]);
  }

  lemma SceneValid(r: Option<Record>, times: seq<int>, flights: seq<Flight>, clock: int)
    ensures Scene(r, times, flights, clock).Valid()
  {
  }

  function Created(): World {
    World(State(Book(Map(["s"], map["s" := LISTENER]), Map([], map[]), map[]), []), [], {"s"}, 0)
  }

  lemma {:induction false} SceneCreated(op: SplitOp)
    requires op == Calm(Create("s", "u", LISTENER.filter, "h"))
    ensures Reaches([op], Created())
  {
    var w := Beginning(0);
    assert Reaches([], w) && [op] == [] + [op];
    assert Possible(w, op);
    assert After(w, op) == Created();
    ReachesNext([], w, op);
  }

  lemma TakeOne(s: State, item: Item, pair: Pair, now: int)
    requires Judge(s, item) == Attempt(pair, true)
    ensures TakeNext(s, [item], now) == Turn(s, Some(Flight(Some(pair), [])), None, false)
  {
    assert [item][1..] == [];
  }

  lemma {:induction false} SceneAnnounced(op: SplitOp)
    requires op == StartPublish(KNOCK, 0)
    ensures Possible(Created(), op) && After(Created(), op) == Scene(None, [], [WAITING], 0)
  {
    var w := Created();
    var items := Announcements(Publish(w.state, KNOCK), KNOCK);
    assert items == [Announce(KNOCK, "s", LISTENER)];
    assert Wanted(LISTENER.filter, KNOCK);
    TakeOne(Publish(w.state, KNOCK), items[0], KNOCKED, 0);
    StartTurns(w, op);
    assert w.flights + Placing(Some(WAITING)) == [WAITING];
    hide After, TakeNext;
  }

  lemma {:induction false} ScenePublished() returns (ops: seq<SplitOp>)
    ensures Reaches(ops, Scene(None, [], [WAITING], 0))
  {
    var create, publish := Calm(Create("s", "u", LISTENER.filter, "h")), StartPublish(KNOCK, 0);
    SceneCreated(create);
    SceneAnnounced(publish);
    hide Possible, After, Reaches, Scene;
    ReachesNext([create], Created(), publish);
    ops := [create] + [publish];
  }

  lemma {:induction false} SceneLands(r: Option<Record>, times: seq<int>, flights: seq<Flight>, clock: int, op: SplitOp)
    requires op.Resume? && op.now >= clock && op.i < |flights| && flights[op.i] == WAITING
    requires r.None? ==> times == []
    ensures
      var w := Scene(r, times, flights, clock);
      var outcome := if op.ok then Delivered else Retrying;
      var after := Attempted(r, "s", "e", outcome, op.now);
      && Possible(w, op)
      && After(w, op) == Scene(Some(after), times + [op.now], flights[op.i := IDLE], op.now)
  {
    var w := Scene(r, times, flights, clock);
    SceneValid(r, times, flights, clock);
    ResumeTurns(w, op);
    assert Placed(flights, op.i, Some(IDLE)) == flights[op.i := IDLE];
    hide Attempted;
  }

  lemma {:induction false} SceneSweeps(r: Record, times: seq<int>, flights: seq<Flight>, clock: int, op: SplitOp)
    requires op.StartSweep? && op.now >= clock && op.now >= op.cutoff && Due(r, op.cutoff)
    requires r.subscriptionId == "s" && r.eventId == "e"
    ensures
      var w := Scene(Some(r), times, flights, clock);
      Possible(w, op) && After(w, op) == Scene(Some(r), times, flights + [WAITING], op.now)
  {
    var w := Scene(Some(r), times, flights, clock);
    SceneValid(Some(r), times, flights, clock);
    var items := Retries(w.state, op.cutoff);
    assert items == [Retry(op.cutoff, r)];
    assert FindEvent(w.state.events, "e") == Some(KNOCK);
    assert "s" in w.state.book.subscriptions.data;
    TakeOne(w.state, items[0], KNOCKED, op.now);
    StartTurns(w, op);
    hide After, Possible, TakeNext;
  }

  lemma {:induction false} SceneEnds(r: Record, times: seq<int>, flights: seq<Flight>, clock: int, op: SplitOp)
    requires op.Resume? && op.now >= clock && op.i < |flights| && flights[op.i] == IDLE
    ensures
      var w := Scene(Some(r), times, flights, clock);
      && Possible(w, op)
      && After(w, op) == Scene(Some(r), times, flights[..op.i] + flights[op.i + 1..], op.now)
  {
    var w := Scene(Some(r), times, flights, clock);
    SceneValid(Some(r), times, flights, clock);
    ResumeTurns(w, op);
  }

  // The record after n attempts that all failed, the last one at `now`.
  function Retried(n: nat, now: int): Record
    requires 1 <= n <= MAX_RETRY_ATTEMPTS
  {
    Record("s", "e", Retrying, 0, now, n, Some(now + BASE_RETRY_DELAY_MS * Pow2(n - 1)))
  }

  lemma {:induction false} LandFailing(ops: seq<SplitOp>, r: Option<Record>, times: seq<int>, clock: int, now: int)
    returns (next: seq<SplitOp>)
    requires Reaches(ops, Scene(r, times, [WAITING], clock)) && now >= clock && (r.None? ==> times == [])
    ensures Reaches(next, Scene(Some(Attempted(r, "s", "e", Retrying, now)), times + [now], [], now))
  {
    var land, end := Resume(0, false, now), Resume(0, false, now);
    var w := Scene(Some(Attempted(r, "s", "e", Retrying, now)), times + [now], [IDLE], now);
    SceneLands(r, times, [WAITING], clock, land);
    SceneEnds(Attempted(r, "s", "e", Retrying, now), times + [now], [IDLE], now, end);
    hide Possible, After, Scene, Attempted, Reaches;
    assert [WAITING][0 := IDLE] == [IDLE] && [IDLE][..0] + [IDLE][1..] == [];
    ReachesNext(ops, Scene(r, times, [WAITING], clock), land);
    ReachesNext(ops + [land], w, end);
    next := ops + [land] + [end];
  }

  lemma {:induction false} SweepOnce(ops: seq<SplitOp>, r: Record, times: seq<int>, clock: int, now: int)
    returns (next: seq<SplitOp>)
    requires Reaches(ops, Scene(Some(r), times, [], clock)) && now >= clock
    requires Due(r, now) && r.subscriptionId == "s" && r.eventId == "e"
    ensures Reaches(next, Scene(Some(r), times, [WAITING], now))
  {
    var sweep := StartSweep(now, now);
    SceneSweeps(r, times, [], clock, sweep);
    assert [] + [WAITING] == [WAITING];
    hide Possible, After, Scene, Reaches, Due;
    ReachesNext(ops, Scene(Some(r), times, [], clock), sweep);
    next := ops + [sweep];
  }

  lemma {:induction false} FailsAgain(n: nat, clock: int)
    requires 1 <= n < MAX_RETRY_ATTEMPTS
    ensures
      var r := Retried(n, clock);
      var now := r.nextRetryAt.value;
      now >= clock && Due(r, now) && Attempted(Some(r), "s", "e", Retrying, now) == Retried(n + 1, now)
  {
    Pow2Positive(n - 1);
  }

  lemma {:induction false} FailedRounds(n: nat) returns (ops: seq<SplitOp>, times: seq<int>, now: int)
    requires 1 <= n <= MAX_RETRY_ATTEMPTS
    ensures Reaches(ops, Scene(Some(Retried(n, now)), times, [], now))
    ensures n == 1 ==> now == 0
  {
    hide Reaches, Scene;
    if n == 1 {
      var before := ScenePublished();
      now, times := 0, [] + [0];
      assert Pow2(0) == 1;
      assert Attempted(None, "s", "e", Retrying, 0) == Retried(1, 0);
      ops := LandFailing(before, None, [], 0, 0);
    } else {
      var before, ts, clock := FailedRounds(n - 1);
      var r := Retried(n - 1, clock);
      FailsAgain(n - 1, clock);
      now := r.nextRetryAt.value;
      hide Attempted, Pow2;
      var swept := SweepOnce(before, r, ts, clock, now);
      ops := LandFailing(swept, Some(r), ts, now, now);
      times := ts + [now];
    }
  }

  ghost predicate ReachesRecord(ops: seq<SplitOp>, outcome: Outcome, count: nat) {
    && RunFrom(Beginning(0), ops).Some?
    && var records := RunFrom(Beginning(0), ops).value.state.book.records.data;
       && KNOCKED.Name() in records
       && records[KNOCKED.Name()].outcome == outcome && records[KNOCKED.Name()].attemptCount == count
  }

  lemma {:induction false} TwoSweeps(ops: seq<SplitOp>, r: Record, times: seq<int>, clock: int, now: int)
    returns (next: seq<SplitOp>)
    requires Reaches(ops, Scene(Some(r), times, [], clock)) && now >= clock
    requires Due(r, now) && r.subscriptionId == "s" && r.eventId == "e"
    ensures Reaches(next, Scene(Some(r), times, [WAITING, WAITING], now))
  {
    var sweep := StartSweep(now, now);
    var one := SweepOnce(ops, r, times, clock, now);
    SceneSweeps(r, times, [WAITING], now, sweep);
    assert [WAITING] + [WAITING] == [WAITING, WAITING];
    hide Possible, After, Scene, Reaches, Due;
    ReachesNext(one, Scene(Some(r), times, [WAITING], now), sweep);
    next := one + [sweep];
  }

  lemma {:induction false} BothLand(before: seq<SplitOp>, r: Record, times: seq<int>, now: int)
    returns (ops: seq<SplitOp>, op: SplitOp)
    requires Reaches(before, Scene(Some(r), times, [WAITING, WAITING], now))
    ensures
      var r6 := Attempted(Some(r), "s", "e", Retrying, now);
      var r7 := Attempted(Some(r6), "s", "e", Delivered, now);
      ReachesRecord(ops, r6.outcome, r6.attemptCount) && ReachesRecord(ops + [op], r7.outcome, r7.attemptCount)
  {
    var r6 := Attempted(Some(r), "s", "e", Retrying, now);
    var r7 := Attempted(Some(r6), "s", "e", Delivered, now);
    var fails, lands := Resume(0, false, now), Resume(1, true, now);
    SceneLands(Some(r), times, [WAITING, WAITING], now, fails);
    SceneLands(Some(r6), times + [now], [IDLE, WAITING], now, lands);
    assert [WAITING, WAITING][0 := IDLE] == [IDLE, WAITING];
    hide Possible, After, Scene, Attempted, Reaches, ReachesRecord;
    ops, op := before + [fails], lands;
    ReachesNext(before, Scene(Some(r), times, [WAITING, WAITING], now), fails);
    ReachesNext(ops, Scene(Some(r6), times + [now], [IDLE, WAITING], now), lands);
    SceneRecord(ops, r6, times + [now], [IDLE, WAITING], now);
    SceneRecord(ops + [op], r7, times + [now] + [now], [IDLE, WAITING][1 := IDLE], now);
  }

  /** Two sweeps over one due record: it fails with its sixth attempt and is delivered with a seventh. */
  lemma {:induction false} SevenAttempts()
    ensures exists ops, op :: ReachesRecord(ops, Failed, 6) && ReachesRecord(ops + [op], Delivered, 7)
  {
    var before, times, clock := FailedRounds(5);
    Pow2Positive(4);
    var r := Retried(5, clock);
    var now := r.nextRetryAt.value;
    var two := TwoSweeps(before, r, times, clock, now);
    hide Scene, Reaches, ReachesRecord;
    var ops, op := BothLand(two, r, times, now);
  }

  lemma SceneRecord(ops: seq<SplitOp>, r: Record, times: seq<int>, flights: seq<Flight>, clock: int)
    requires Reaches(ops, Scene(Some(r), times, flights, clock))
    ensures ReachesRecord(ops, r.outcome, r.attemptCount)
  {
  }

  lemma {:induction false} SceneAcknowledged(r: Record, times: seq<int>, flights: seq<Flight>, clock: int, op: SplitOp)
    requires op == Calm(AcknowledgeEvents("u", "s", ["e"])) && r.outcome != Acknowledged
    ensures
      var w := Scene(Some(r), times, flights, clock);
      Possible(w, op) && After(w, op) == Scene(Some(Acknowledge(r)), times, flights, clock)
  {
    var b := Scene(Some(r), times, flights, clock).state.book;
    SceneValid(Some(r), times, flights, clock);
    assert AcknowledgeAll(b, "s", ["e"][..0]) == b;
    assert AcknowledgeAll(b, "s", ["e"]) == AcknowledgeOne(b, "s", "e");
    assert AcknowledgeStep(b, "u", "s", ["e"]) == AcknowledgeOne(b, "s", "e");
  }

  /** A delivery under way turns an acknowledged record into a delivered one. */
  lemma {:induction false} AcknowledgementIsUndone()
    ensures exists ops, op :: ReachesRecord(ops, Acknowledged, 1) && ReachesRecord(ops + [op], Delivered, 2)
  {
    var before, times, clock := FailedRounds(1);
    var r := Retried(1, 0);
    assert Pow2(0) == 1;
    var acknowledge, lands := Calm(AcknowledgeEvents("u", "s", ["e"])), Resume(0, true, 1000);
    var last := Attempted(Some(Acknowledge(r)), "s", "e", Delivered, 1000);
    SceneAcknowledged(r, times, [WAITING], 1000, acknowledge);
    SceneLands(Some(Acknowledge(r)), times, [WAITING], 1000, lands);
    hide Possible, After, Scene, Reaches, ReachesRecord;
    var swept := SweepOnce(before, r, times, 0, 1000);
    var ops := swept + [acknowledge];
    ReachesNext(swept, Scene(Some(r), times, [WAITING], 1000), acknowledge);
    ReachesNext(ops, Scene(Some(Acknowledge(r)), times, [WAITING], 1000), lands);
    SceneRecord(ops, Acknowledge(r), times, [WAITING], 1000);
    SceneRecord(ops + [lands], last, times + [1000], [WAITING][0 := IDLE], 1000);
  }

  // The subscription is gone while the first delivery is under way.
  function Abandoned(flights: seq<Flight>): World {
    World(State(Book(Map([], map[]), Map([], map[]), map[]), [KNOCK]), flights, {"s"}, 0)
  }

  lemma {:induction false} SceneDeleted(op: SplitOp)
    requires op == Calm(Delete("u", "s"))
    ensures Possible(Scene(None, [], [WAITING], 0), op)
    ensures After(Scene(None, [], [WAITING], 0), op) == Abandoned([WAITING])
  {
    var w := Scene(None, [], [WAITING], 0);
    SceneValid(None, [], [WAITING], 0);
    assert Without(["s"], "s") == [];
    assert Owns(w.state.book, "u", "s");
    assert (map["s" := LISTENER] - {"s"}) == map[];
    var m: Map<Record> := Map([], map[]);
    assert m.Keep(KeysOfOthers(m, "s")) == m;
  }

  function Haunted(): World {
    var r := Retried(1, 0);
    World(
      State(Book(Map([], map[]), Map([KNOCKED.Name()], map[KNOCKED.Name() := r]), map[KNOCKED.Name() := [0]]), [KNOCK]),
      [IDLE], {"s"}, 0)
  }

  lemma {:induction false} HauntedIsReached() returns (ops: seq<SplitOp>)
    ensures Reaches(ops, Haunted())
  {
    var before := ScenePublished();
    var delete, lands := Calm(Delete("u", "s")), Resume(0, false, 0);
    SceneDeleted(delete);
    HauntedLands(lands);
    hide Reaches, Possible, After, Scene;
    ReachesNext(before, Scene(None, [], [WAITING], 0), delete);
    ReachesNext(before + [delete], Abandoned([WAITING]), lands);
    ops := before + [delete] + [lands];
  }

  lemma {:induction false} HauntedLands(op: SplitOp)
    requires op == Resume(0, false, 0)
    ensures Possible(Abandoned([WAITING]), op) && After(Abandoned([WAITING]), op) == Haunted()
  {
    var w := Abandoned([WAITING]);
    ResumeTurns(w, op);
    assert Placed([WAITING], 0, Some(IDLE)) == [IDLE];
    assert Pow2(0) == 1 && Attempted(None, "s", "e", Retrying, 0) == Retried(1, 0);
    assert [] + [0] == [0] && Put(Map([], map[]), KNOCKED.Name(), Retried(1, 0)).keys == [KNOCKED.Name()];
    hide Possible, After, Attempted;
  }

  /** A delivery under way outlives its subscription; then every sweep that finds the retry due throws. */
  lemma {:induction false} OrphanMakesSweepsThrow()
    ensures exists ops :: Reaches(ops, Haunted()) && Orphaned(Haunted().state, KNOCKED.Name())
    ensures forall cutoff, ok, now :: cutoff >= 1000 ==> SweepStep(Haunted().state, cutoff, ok, now).threw
  {
    var s := Haunted().state;
    assert s.book.records.Valid() && Pow2(0) == 1 && Orphaned(s, KNOCKED.Name());
    assert s.events[0].id == "e" && Known(s.events, "e");
    assert forall cutoff :: cutoff >= 1000 ==> Orphan(s, Retried(1, 0), cutoff);
    var ops := HauntedIsReached();
    hide Reaches, Orphan, Retried;
    forall cutoff, ok, now | cutoff >= 1000
      ensures SweepStep(s, cutoff, ok, now).threw
    {
      SweepThrowsIff(s, cutoff, ok, now);
    }
  }
}
