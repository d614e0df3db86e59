/** Per-key sliding windows over admission times (src/rate-limit/rate-limit.algorithms.ts). */
module SlidingWindow {
  import opened Common
  import opened RateLimitTypes

  datatype Window = Window(timestamps: seq<int>, lastSeen: int)

  type Windows = map<string, Window>

  // `timestamps.filter((timestamp) => timestamp > cutoff)`
  function After(ts: seq<int>, cutoff: int): seq<int> {
    if ts == [] then [] else
    var n := |ts| - 1;
    if ts[n] > cutoff then After(ts[..n], cutoff) + [ts[n]] else After(ts[..n], cutoff)
  }

  function Current(ws: Windows, key: string, now: int): Window {
    if key in ws then ws[key] else Window([], now)
  }

  // What becomes of a key whose admissions inside the window are `recent`.
  function Answer(recent: seq<int>, p: Policy, now: int): (Window, Result) {
    var allowed := |recent| < p.limit;
    var kept := if allowed then recent + [now] else recent;
    var resetAt := if kept == [] then now + p.windowMs else kept[0] + p.windowMs;
    (Window(kept, now),
     Result(allowed, p.limit, Max(0, p.limit - |kept|), resetAt, if allowed then 0 else Max(1, resetAt - now)))
  }

  function Step(w: Window, p: Policy, now: int): (Window, Result) {
    Answer(After(w.timestamps, now - p.windowMs), p, now)
  }

  function ConsumeStep(ws: Windows, key: string, p: Policy, now: int): (Windows, Result) {
    var (w, r) := Step(Current(ws, key, now), p, now);
    (ws[key := w], r)
  }

  function PruneStep(ws: Windows, olderThan: int): Windows {
    map k | k in ws && ws[k].lastSeen >= olderThan :: ws[k]
  }

  function Run(run: seq<Event>): Windows {
    if run == [] then map[] else
    var n := |run| - 1;
    var ws := Run(run[..n]);
    match run[n]
    case Consume(key, p, now) => ConsumeStep(ws, key, p, now).0
    case Prune(olderThan) => PruneStep(ws, olderThan)
  }

  ghost predicate AtMost(ts: seq<int>, t: int) {
    forall i :: 0 <= i < |ts| ==> ts[i] <= t
  }

  /* ---------- The limiter object ---------- */

  class WindowState {
    var timestamps: seq<int>
    var lastSeen: int

    constructor (now: int)
      ensures timestamps == [] && lastSeen == now
    {
      timestamps := [];
      lastSeen := now;
    }

    function Value(): Window
      reads this
    {
      Window(timestamps, lastSeen)
    }

    method Take(p: Policy, now: int) returns (r: Result)
      modifies this
      ensures (Value(), r) == Step(old(Value()), p, now)
    {
      var cutoff := now - p.windowMs;
      timestamps := After(timestamps, cutoff);
      lastSeen := now;

      var allowed := |timestamps| < p.limit;
      if allowed {
        timestamps := timestamps + [now];
      }
      var resetAt := now + p.windowMs;
      if |timestamps| > 0 {
        resetAt := timestamps[0] + p.windowMs;
      }
      r := Result(allowed, p.limit, Max(0, p.limit - |timestamps|), resetAt,
                  if allowed then 0 else Max(1, resetAt - now));
    }
  }

  class SlidingWindowRateLimiter {
    var windows: map<string, WindowState>

    // No two keys share a window.
    ghost predicate Valid()
      reads this
    {
      forall j, k :: j in windows && k in windows && j != k ==> windows[j] != windows[k]
    }

    ghost function Contents(): Windows
      reads this, windows.Values
    {
      map k | k in windows :: windows[k].Value()
    }

    constructor ()
      ensures Valid() && Contents() == map[]
      ensures fresh(this) && windows == map[]
    {
      windows := map[];
    }

    method Consume(key: string, p: Policy, now: int) returns (r: Result)
      requires Valid()
      modifies this, windows.Values
      ensures Valid() && fresh(windows.Values - old(windows.Values))
      ensures (Contents(), r) == ConsumeStep(old(Contents()), key, p, now)
    {
      hide Step;
      var state: WindowState;
      if key in windows {
        state := windows[key];
      } else {
        state := new WindowState(now);
        windows := windows[key := state];
      }
      ghost var w := Current(old(Contents()), key, now);
      assert state.Value() == w;
      r := state.Take(p, now);
      assert forall k :: k in windows && k != key ==> windows[k] == old(windows)[k];
      assert Contents() == old(Contents())[key := state.Value()];
    }

    method PruneIdle(olderThan: int)
      requires Valid()
      modifies this
      ensures Valid() && windows.Values <= old(windows.Values)
      ensures Contents() == PruneStep(old(Contents()), olderThan)
    {
      var todo := windows.Keys;
      while todo != {}
        invariant todo <= windows.Keys <= old(windows).Keys
        invariant forall k :: k in windows ==> windows[k] == old(windows)[k]
        invariant forall k :: k in old(windows) && k !in todo ==>
          (k in windows <==> old(windows)[k].lastSeen >= olderThan)
      {
        var key :| key in todo;
        todo := todo - {key};
        if windows[key].lastSeen < olderThan {
          windows := windows - {key};
        }
      }
    }
  }

  /* ---------- The history rule ---------- */

  datatype Call = Call(time: int, limit: int, windowMs: int, admitted: bool)

  // Admission i is inside the window of every call made after it.
  ghost predicate Alive(h: seq<Call>, i: nat)
    requires i < |h|
  {
    h[i].admitted && forall j :: i < j < |h| ==> h[i].time > h[j].time - h[j].windowMs
  }

  // The times of the admissions still alive, among the first n calls.
  ghost function LiveTimes(h: seq<Call>, n: nat): seq<int>
    requires n <= |h|
  {
    if n == 0 then []
    else if Alive(h, n - 1) then LiveTimes(h, n - 1) + [h[n - 1].time]
    else LiveTimes(h, n - 1)
  }

  // The history rule: admit while fewer than `limit` live admissions lie in the window of this call.
  ghost function Decide(h: seq<Call>, p: Policy, now: int): Call {
    var asked := h + [Call(now, p.limit, p.windowMs, false)];
    Call(now, p.limit, p.windowMs, |LiveTimes(asked, |h|)| < p.limit)
  }

  ghost function HistoryOf(hs: map<string, seq<Call>>, key: string): seq<Call> {
    if key in hs then hs[key] else []
  }

  // The history of every key under the history rule, since the key was last pruned.
  ghost function Histories(run: seq<Event>): (hs: map<string, seq<Call>>)
    ensures forall k :: k in hs ==> hs[k] != []
  {
    if run == [] then map[] else
    var n := |run| - 1;
    var hs := Histories(run[..n]);
    match run[n]
    case Consume(key, p, now) => hs[key := HistoryOf(hs, key) + [Decide(HistoryOf(hs, key), p, now)]]
    case Prune(olderThan) => map k | k in hs && hs[k][|hs[k]| - 1].time >= olderThan :: hs[k]
  }

  lemma {:induction false} AliveNext(h: seq<Call>, c: Call, i: nat)
    requires i < |h|
    ensures Alive(h + [c], i) <==> Alive(h, i) && h[i].time > c.time - c.windowMs
  {
    var h' := h + [c];
    assert forall j :: i < j < |h| ==> h'[j] == h[j];
    if Alive(h', i) {
      assert h'[|h|] == c;
      assert forall j :: i < j < |h| ==> h[i].time > h'[j].time - h'[j].windowMs;
    }
  }

  lemma AfterSnoc(ts: seq<int>, t: int, cutoff: int)
    ensures After(ts + [t], cutoff) == if t > cutoff then After(ts, cutoff) + [t] else After(ts, cutoff)
  {
    assert (ts + [t])[..|ts|] == ts;
  }

  // A new call keeps, of the live admissions, those inside its own window.
  lemma {:induction false} LiveNext(h: seq<Call>, c: Call, n: nat)
    requires n <= |h|
    ensures LiveTimes(h + [c], n) == After(LiveTimes(h, n), c.time - c.windowMs)
  {
    if n > 0 {
      LiveNext(h, c, n - 1);
      AliveNext(h, c, n - 1);
      hide Alive, After;
      assert (h + [c])[n - 1] == h[n - 1];
      AfterSnoc(LiveTimes(h, n - 1), h[n - 1].time, c.time - c.windowMs);
    }
  }

  ghost predicate Matches(w: Window, h: seq<Call>) {
    h != [] && w.timestamps == LiveTimes(h, |h|) && w.lastSeen == h[|h| - 1].time
  }

  lemma ConsumeMatches(w: Window, h: seq<Call>, p: Policy, now: int)
    requires if h == [] then w == Window([], now) else Matches(w, h)
    ensures
      var c := Decide(h, p, now);
      && Step(w, p, now).1.allowed == c.admitted
      && Matches(Step(w, p, now).0, h + [c])
  {
    var c := Decide(h, p, now);
    var asked := c.(admitted := false);
    var recent := After(w.timestamps, now - p.windowMs);
    LiveNext(h, asked, |h|);
    assert recent == LiveTimes(h + [asked], |h|);
    LiveNext(h, c, |h|);
    assert recent == LiveTimes(h + [c], |h|);
    LiveLast(h, c);
  }

  lemma LiveLast(h: seq<Call>, c: Call)
    ensures LiveTimes(h + [c], |h + [c]|) ==
      if c.admitted then LiveTimes(h + [c], |h|) + [c.time] else LiveTimes(h + [c], |h|)
  {
    assert Alive(h + [c], |h|) == c.admitted;
  }

  /**
   The limiter refines the history rule: after any run, over any keys, policies and clock, the timestamps
   kept for a key are exactly the admissions, since the key was last pruned, that lie inside the window of
   every later call, in order.
   */
  lemma {:induction false} RunMatches(run: seq<Event>)
    ensures Run(run).Keys == Histories(run).Keys
    ensures forall k :: k in Run(run) ==> Matches(Run(run)[k], Histories(run)[k])
  {
    if run != [] {
      var n := |run| - 1;
      RunMatches(run[..n]);
      if run[n].Consume? {
        var ws, hs, key := Run(run[..n]), Histories(run[..n]), run[n].key;
        ConsumeMatches(Current(ws, key, run[n].now), HistoryOf(hs, key), run[n].policy, run[n].now);
      }
    }
  }

  /** The next call of any key is decided by its history since it was last pruned. */
  lemma HistoryExact(run: seq<Event>, key: string, p: Policy, now: int)
    ensures ConsumeStep(Run(run), key, p, now).1.allowed == Decide(HistoryOf(Histories(run), key), p, now).admitted
  {
    RunMatches(run);
    ConsumeMatches(Current(Run(run), key, now), HistoryOf(Histories(run), key), p, now);
  }

  /* ---------- The bound on every span ---------- */

  // The limiter after a run with its prune steps.
  function Play(run: seq<Timed>): Windows {
    if run == [] then map[] else
    var n := |run| - 1;
    match run[n].event
    case Consume(key, p, now) => ConsumeStep(Play(run[..n]), key, p, now).0
    case Prune(olderThan) => PruneStep(Play(run[..n]), olderThan)
  }

  // The times at which the key was admitted along the run.
  function AdmittedTimes(run: seq<Timed>, key: string): seq<int> {
    if run == [] then [] else
    var n := |run| - 1;
    var before := AdmittedTimes(run[..n], key);
    match run[n].event
    case Consume(k, p, now) =>
      if k == key then Extend(before, ConsumeStep(Play(run[..n]), k, p, now).1.allowed, now) else before
    case Prune(_) => before
  }

  // How many of the times lie in [x, x + span).
  function CountSpan(times: seq<int>, x: int, span: int): nat {
    if times == [] then 0 else
    var n := |times| - 1;
    CountSpan(times[..n], x, span) + if x <= times[n] < x + span then 1 else 0
  }

  lemma PlaySnoc(run: seq<Timed>, e: Timed, key: string)
    ensures Play(run + [e]) ==
      match e.event
      case Consume(k, p, now) => ConsumeStep(Play(run), k, p, now).0
      case Prune(olderThan) => PruneStep(Play(run), olderThan)
    ensures AdmittedTimes(run + [e], key) ==
      if e.event.Consume? && e.event.key == key
      then
        var now := e.event.now;
        Extend(AdmittedTimes(run, key), ConsumeStep(Play(run), key, e.event.policy, now).1.allowed, now)
      else AdmittedTimes(run, key)
  {
    assert (run + [e])[..|run|] == run;
  }

  lemma CountSpanSnoc(times: seq<int>, t: int, x: int, span: int)
    ensures CountSpan(times + [t], x, span) == CountSpan(times, x, span) + if x <= t < x + span then 1 else 0
  {
    assert (times + [t])[..|times|] == times;
  }

  // Filtering twice is filtering by the later cutoff.
  lemma AfterAfter(ts: seq<int>, cutoff: int, later: int)
    requires cutoff <= later
    ensures After(After(ts, cutoff), later) == After(ts, later)
  {
    if ts != [] {
      var n := |ts| - 1;
      AfterAfter(ts[..n], cutoff, later);
      AfterSnoc(After(ts[..n], cutoff), ts[n], later);
    }
  }

  lemma SpanIsAfter(times: seq<int>, x: int, span: int, cutoff: int)
    requires cutoff < x
    ensures CountSpan(times, x, span) <= |After(times, cutoff)|
  {
  }

  function KeptOf(ws: Windows, key: string): seq<int> {
    if key in ws then ws[key].timestamps else []
  }

  // No window that reaches back to the cutoff or less can tell the two lists apart.
  ghost predicate SameAfter(a: seq<int>, b: seq<int>, cutoff: int) {
    forall c :: c >= cutoff ==> After(a, c) == After(b, c)
  }

  // At time t, a key's kept timestamps and its true admissions look the same to any window that
  // a later call may apply.
  ghost predicate Covers(ws: Windows, key: string, admitted: seq<int>, p: Policy, t: int) {
    && SameAfter(KeptOf(ws, key), admitted, t - p.windowMs)
    && (key in ws ==> AtMost(admitted, ws[key].lastSeen))
  }

  function Extend(admitted: seq<int>, allowed: bool, now: int): seq<int> {
    if allowed then admitted + [now] else admitted
  }

  lemma FilterKeepsSame(a: seq<int>, b: seq<int>, cutoff: int)
    requires SameAfter(a, b, cutoff)
    ensures SameAfter(After(a, cutoff), b, cutoff)
  {
    forall c | c >= cutoff
      ensures After(After(a, cutoff), c) == After(b, c)
    {
      AfterAfter(a, cutoff, c);
    }
  }

  lemma SnocKeepsSame(a: seq<int>, b: seq<int>, t: int, cutoff: int)
    requires SameAfter(a, b, cutoff)
    ensures SameAfter(a + [t], b + [t], cutoff)
  {
    forall c | c >= cutoff
      ensures After(a + [t], c) == After(b + [t], c)
    {
      AfterSnoc(a, t, c);
      AfterSnoc(b, t, c);
    }
  }

  lemma AnswerCovers(ts: seq<int>, admitted: seq<int>, p: Policy, now: int)
    requires SameAfter(ts, admitted, now - p.windowMs)
    ensures
      var (w, r) := Answer(After(ts, now - p.windowMs), p, now);
      && SameAfter(w.timestamps, Extend(admitted, r.allowed, now), now - p.windowMs)
      && (r.allowed <==> |After(admitted, now - p.windowMs)| < p.limit)
  {
    var cutoff := now - p.windowMs;
    assert After(ts, cutoff) == After(admitted, cutoff);
    FilterKeepsSame(ts, admitted, cutoff);
    SnocKeepsSame(After(ts, cutoff), admitted, now, cutoff);
    hide After, SameAfter;
  }

  lemma ConsumeCovers(ws: Windows, key: string, admitted: seq<int>, p: Policy, now: int)
    requires Covers(ws, key, admitted, p, now) && AtMost(admitted, now)
    ensures
      var (ws', r) := ConsumeStep(ws, key, p, now);
      && Covers(ws', key, Extend(admitted, r.allowed, now), p, now)
      && (r.allowed <==> |After(admitted, now - p.windowMs)| < p.limit)
  {
    hide After, SameAfter, Extend;
    assert Current(ws, key, now).timestamps == KeptOf(ws, key);
    AnswerCovers(KeptOf(ws, key), admitted, p, now);
    AtMostExtend(admitted, ConsumeStep(ws, key, p, now).1.allowed, now);
  }

  lemma AtMostExtend(admitted: seq<int>, allowed: bool, now: int)
    requires AtMost(admitted, now)
    ensures AtMost(Extend(admitted, allowed, now), now)
  {
  }

  lemma PruneCovers(ws: Windows, key: string, admitted: seq<int>, p: Policy, now: int)
    requires Covers(ws, key, admitted, p, now) && p.windowMs <= MAX_IDLE_MS + 1
    ensures Covers(PruneStep(ws, now - MAX_IDLE_MS), key, admitted, p, now)
  {
    if key in ws && ws[key].lastSeen < now - MAX_IDLE_MS {
      forall c | c >= now - p.windowMs
        ensures After([], c) == After(admitted, c)
      {
        AfterNone(admitted, c);
      }
    }
  }

  lemma CoversLater(ws: Windows, key: string, admitted: seq<int>, p: Policy, t: int, now: int)
    requires Covers(ws, key, admitted, p, t) && t <= now
    ensures Covers(ws, key, admitted, p, now)
  {
  }

  lemma {:induction false} PlayCovers(run: seq<Timed>, key: string, p: Policy, t: int)
    requires SteadyKey(run, key, p) && forall i :: 0 <= i < |run| ==> run[i].now <= t
    ensures Covers(Play(run), key, AdmittedTimes(run, key), p, t)
    ensures AtMost(AdmittedTimes(run, key), t)
  {
    if run != [] {
      var n := |run| - 1;
      var before, now := run[..n], run[n].now;
      PlayCovers(before, key, p, now);
      if run[n].event.Prune? {
        PruneCovers(Play(before), key, AdmittedTimes(before, key), p, now);
      } else if run[n].event.key == key {
        ConsumeCovers(Play(before), key, AdmittedTimes(before, key), p, now);
      }
      CoversLater(Play(run), key, AdmittedTimes(run, key), p, now, t);
    }
  }

  // Whatever was pruned, the next call of the key is decided by its true admissions.
  lemma {:induction false} DecidedByAdmissions(run: seq<Timed>, key: string, p: Policy, now: int)
    requires SteadyKey(run, key, p) && forall i :: 0 <= i < |run| ==> run[i].now <= now
    ensures ConsumeStep(Play(run), key, p, now).1.allowed
       <==> |After(AdmittedTimes(run, key), now - p.windowMs)| < p.limit
  {
    PlayCovers(run, key, p, now);
    ConsumeCovers(Play(run), key, AdmittedTimes(run, key), p, now);
  }

  /**
   The rate bound on whole runs: a key that always calls under one policy is admitted at most `limit`
   times in any half-open span as long as the window, whatever other keys do and whatever is pruned.
   */
  lemma {:induction false} EverySpanIsBounded(run: seq<Timed>, key: string, p: Policy, x: int)
    requires SteadyKey(run, key, p)
    ensures CountSpan(AdmittedTimes(run, key), x, p.windowMs) <= p.limit
  {
    hide After, Play, ConsumeStep;
    if run != [] {
      hide CountSpan;
      var n := |run| - 1;
      EverySpanIsBounded(run[..n], key, p, x);
      CountSpanSnoc(AdmittedTimes(run[..n], key), run[n].now, x, p.windowMs);
      assert KeyUses(run[n], key, p) && TimerStep(run[n]);
      if run[n].event.Consume? && run[n].event.key == key && x <= run[n].now < x + p.windowMs {
        DecidedByAdmissions(run[..n], key, p, run[n].now);
        SpanIsAfter(AdmittedTimes(run[..n], key), x, p.windowMs, run[n].now - p.windowMs);
      }
    }
  }

  /* ---------- Waiting times ---------- */

  ghost predicate Sorted(ts: seq<int>) {
    forall i, j :: 0 <= i <= j < |ts| ==> ts[i] <= ts[j]
  }

  // What the windows of a run on a clock that does not step back satisfy.
  ghost predicate Ordered(w: Window) {
    Sorted(w.timestamps) && AtMost(w.timestamps, w.lastSeen)
  }

  // On ordered timestamps, filtering drops a prefix.
  lemma {:induction false} AfterIsSuffix(ts: seq<int>, cutoff: int) returns (d: nat)
    requires Sorted(ts)
    ensures d <= |ts| && After(ts, cutoff) == ts[d..]
    ensures forall i :: 0 <= i < |ts| ==> (ts[i] > cutoff <==> i >= d)
  {
    if ts == [] {
      d := 0;
    } else {
      var n := |ts| - 1;
      d := AfterIsSuffix(ts[..n], cutoff);
      AfterSnoc(ts[..n], ts[n], cutoff);
      assert ts[..n] + [ts[n]] == ts;
      hide After;
      assert forall i :: 0 <= i < n ==> (ts[i] > cutoff <==> i >= d);
      if ts[n] > cutoff {
        assert ts[..n][d..] + [ts[n]] == ts[d..];
      } else {
        assert n > 0 ==> ts[n - 1] <= ts[n];
        assert d == n;
        assert ts[..n][d..] == ts[n + 1..];
        d := n + 1;
      }
    }
  }

  lemma StepOrdered(w: Window, p: Policy, now: int)
    requires Ordered(w) && now >= w.lastSeen
    ensures Ordered(Step(w, p, now).0)
  {
    var d := AfterIsSuffix(w.timestamps, now - p.windowMs);
    var recent := w.timestamps[d..];
    assert AtMost(recent, now);
    assert Sorted(recent + [now]);
  }

  // The key has `limit` timestamps in a row that all stay inside the window until `due`.
  ghost predicate Due(w: Window, p: Policy, due: int) {
    && p.Valid() && Ordered(w) && |w.timestamps| >= p.limit
    && due == w.timestamps[|w.timestamps| - p.limit] + p.windowMs
  }

  lemma DueDecides(w: Window, p: Policy, due: int, t: int)
    requires Due(w, p, due) && t >= w.lastSeen
    ensures Step(w, p, t).1.allowed <==> t >= due
    ensures t < due ==> Due(Step(w, p, t).0, p, due)
  {
    var d := AfterIsSuffix(w.timestamps, t - p.windowMs);
    StepOrdered(w, p, t);
  }

  // What is left after a denial, and what is announced.
  lemma {:induction false} DenialFacts(w: Window, p: Policy, now: int)
    requires Ordered(w) && p.Valid() && w.lastSeen <= now
    requires !Step(w, p, now).1.allowed
    ensures
      var (w', r) := Step(w, p, now);
      && Ordered(w') && w'.lastSeen == now && p.limit <= |w'.timestamps| <= |w.timestamps|
      && now < now + r.retryAfterMs == w'.timestamps[0] + p.windowMs
  {
    StepOrdered(w, p, now);
    var d := AfterIsSuffix(w.timestamps, now - p.windowMs);
    assert Step(w, p, now).0.timestamps[0] == w.timestamps[d];
  }

  /**
   `now + retryAfterMs` is the earliest admissible time if and only if, of the timestamps inside the window
   before the call, the oldest is as old as the `limit`-th most recent one. A key whose calls never had
   a larger limit keeps at most `limit` timestamps, and then this always holds.
   */
  lemma {:induction false} RetryIsLeastIff(w: Window, p: Policy, now: int)
    requires Ordered(w) && p.Valid() && w.lastSeen <= now
    requires !Step(w, p, now).1.allowed
    ensures
      var (w', r) := Step(w, p, now);
      var inside := After(w.timestamps, now - p.windowMs);
      && |inside| >= p.limit
      && ((forall t :: t >= now ==> (Step(w', p, t).1.allowed <==> t >= now + r.retryAfterMs))
          <==> inside[0] == inside[|inside| - p.limit])
      && (|w.timestamps| <= p.limit ==> inside[0] == inside[|inside| - p.limit])
  {
    var (w', r) := Step(w, p, now);
    DenialFacts(w, p, now);
    DenialDecides(w, p, now);
    assert w'.timestamps == After(w.timestamps, now - p.windowMs);
    DueIsLate(w', p);
    hide Step, After, DueAfter;
    var early := now + r.retryAfterMs;
    assert Step(w', p, early).1.allowed <==> early >= DueAfter(w', p);
  }

  // When the `limit`-th most recent timestamp leaves the window.
  function DueAfter(w: Window, p: Policy): int
    requires 0 < p.limit <= |w.timestamps|
  {
    w.timestamps[|w.timestamps| - p.limit] + p.windowMs
  }

  lemma DueIsLate(w: Window, p: Policy)
    requires Sorted(w.timestamps) && 0 < p.limit <= |w.timestamps|
    ensures w.timestamps[0] + p.windowMs <= DueAfter(w, p)
    ensures w.timestamps[0] == w.timestamps[|w.timestamps| - p.limit] <==>
      w.timestamps[0] + p.windowMs == DueAfter(w, p)
  {
  }

  lemma {:induction false} DenialDecides(w: Window, p: Policy, now: int)
    requires Ordered(w) && p.Valid() && w.lastSeen <= now
    requires !Step(w, p, now).1.allowed
    ensures
      var w' := Step(w, p, now).0;
      |w'.timestamps| >= p.limit && forall t :: t >= now ==> (Step(w', p, t).1.allowed <==> t >= DueAfter(w', p))
  {
    var w' := Step(w, p, now).0;
    DenialFacts(w, p, now);
    hide Step;
    forall t | t >= now
      ensures Step(w', p, t).1.allowed <==> t >= DueAfter(w', p)
    {
      DueDecides(w', p, DueAfter(w', p), t);
    }
  }

  predicate AllAdmitted(w: Window, p: Policy, now: int, n: nat)
    decreases n
  {
    n == 0 || (Step(w, p, now).1.allowed && AllAdmitted(Step(w, p, now).0, p, now, n - 1))
  }

  // All timestamps lie inside the window of a call at `now`.
  predicate Inside(w: Window, p: Policy, now: int) {
    After(w.timestamps, now - p.windowMs) == w.timestamps
  }

  lemma {:induction false} StepIsInside(w: Window, p: Policy, now: int)
    requires p.Valid()
    ensures Inside(Step(w, p, now).0, p, now)
  {
    hide After;
    var cutoff := now - p.windowMs;
    AfterAfter(w.timestamps, cutoff, cutoff);
    AfterSnoc(After(w.timestamps, cutoff), now, cutoff);
  }

  lemma {:induction false} BurstNeedsRoom(w: Window, p: Policy, now: int, n: nat)
    requires p.Valid() && Inside(w, p, now)
    ensures AllAdmitted(w, p, now, n) <==> n == 0 || |w.timestamps| + n <= p.limit
    decreases n
  {
    if n > 0 {
      StepIsInside(w, p, now);
      BurstNeedsRoom(Step(w, p, now).0, p, now, n - 1);
    }
  }

  /** `remaining` is exactly how many more calls would be admitted at the same instant. */
  lemma {:induction false} RemainingIsExact(w: Window, p: Policy, now: int, n: nat)
    requires p.Valid()
    ensures AllAdmitted(Step(w, p, now).0, p, now, n) <==> n <= Step(w, p, now).1.remaining
  {
    StepIsInside(w, p, now);
    BurstNeedsRoom(Step(w, p, now).0, p, now, n);
  }

  /** `resetAt` is the first moment at which an admission that now counts does not count any more. */
  lemma {:induction false} ResetIsFirstLeave(w: Window, p: Policy, now: int, t: int)
    requires p.Valid() && Ordered(w) && w.lastSeen <= now <= t
    ensures
      var (w', r) := Step(w, p, now);
      Inside(w', p, t) <==> t < r.resetAt
  {
    StepOrdered(w, p, now);
    var (w', r) := Step(w, p, now);
    assert w'.timestamps != [];
    hide Step;
    var d := AfterIsSuffix(w'.timestamps, t - p.windowMs);
    if d > 0 {
      assert |w'.timestamps[d..]| < |w'.timestamps|;
    }
  }

  // Two calls under a limit of 2, then calls under a limit of 1.
  function Lowered(): seq<Event> {
    var loose := Policy(2, 10, Algorithm.SlidingWindow);
    [Consume("k", loose, 0), Consume("k", loose, 1)]
  }

  /**
   A lowered limit makes the announcement wrong: after admissions at 0 and 1, a call at 2 is denied
   with a wait of 8, and the call at 10 is denied all the same.
   */
  lemma {:induction false} LoweredLimitAnnouncesTooSoon(p: Policy)
    requires p.limit == 1 && p.windowMs == 10
    ensures
      var (ws, r) := ConsumeStep(Run(Lowered()), "k", p, 2);
      !r.allowed && r.retryAfterMs == 8 && !ConsumeStep(ws, "k", p, 10).1.allowed
  {
    var run := Lowered();
    assert run[..1][..0] == [] && run[..2] == run && run[..1] == [run[0]];
    AfterOne(0, -10);
    AfterNothing(-10);
    assert [] + [0] == [0] && [0] + [1] == [0, 1];
    assert Run(run[..1]) == map["k" := Window([0], 0)];
    AfterOne(0, -9);
    assert Run(run) == map["k" := Window([0, 1], 1)];
    AfterTwo(0, 1, -8);
    AfterTwo(0, 1, 0);
    hide After, Run;
  }

  lemma AfterNothing(cutoff: int)
    ensures After([], cutoff) == []
  {
  }

  lemma AfterOne(a: int, cutoff: int)
    ensures After([a], cutoff) == if a > cutoff then [a] else []
  {
    AfterSnoc([], a, cutoff);
    assert [] + [a] == [a];
  }

  lemma AfterTwo(a: int, b: int, cutoff: int)
    ensures After([a, b], cutoff) == (if a > cutoff then [a] else []) + (if b > cutoff then [b] else [])
  {
    AfterOne(a, cutoff);
    AfterSnoc([a], b, cutoff);
    assert [a] + [b] == [a, b];
  }

  // A window never keeps more timestamps than the largest limit it was asked under.
  lemma StepKeepsAtMostLimit(w: Window, p: Policy, limit: int, now: int)
    requires |w.timestamps| <= limit && p.limit <= limit
    ensures |Step(w, p, now).0.timestamps| <= limit
  {
    AfterShrinks(w.timestamps, now - p.windowMs);
  }

  lemma AfterShrinks(ts: seq<int>, cutoff: int)
    ensures |After(ts, cutoff)| <= |ts|
  {
  }

  // A window after a list of later calls, and whether all of them were denied.
  function Later(w: Window, p: Policy, times: seq<int>): (Window, bool)
    decreases |times|
  {
    if times == [] then (w, true) else
    var (w', r) := Step(w, p, times[0]);
    var (w'', denied) := Later(w', p, times[1..]);
    (w'', !r.allowed && denied)
  }

  lemma DenialMakesDue(w: Window, p: Policy, now: int)
    requires Ordered(w) && p.Valid() && w.lastSeen <= now && |w.timestamps| <= p.limit
    requires !Step(w, p, now).1.allowed
    ensures Due(Step(w, p, now).0, p, now + Step(w, p, now).1.retryAfterMs)
  {
    DenialFacts(w, p, now);
  }

  lemma {:induction false} EarlyCallsKeepDue(w: Window, p: Policy, due: int, times: seq<int>)
    requires Due(w, p, due)
    requires forall i :: 0 <= i < |times| ==> w.lastSeen <= times[i] < due
    requires forall i, j :: 0 <= i <= j < |times| ==> times[i] <= times[j]
    ensures Later(w, p, times).1 && Due(Later(w, p, times).0, p, due)
    ensures Later(w, p, times).0.lastSeen == if times == [] then w.lastSeen else times[|times| - 1]
    decreases |times|
  {
    if times != [] {
      DueDecides(w, p, due, times[0]);
      EarlyCallsKeepDue(Step(w, p, times[0]).0, p, due, times[1..]);
    }
  }

  /**
   A key under one policy that keeps calling too early is denied each time and is still admitted at
   the moment first announced, and not a millisecond sooner.
   */
  lemma {:induction false} HammeringDoesNotPostpone(w: Window, p: Policy, now: int, times: seq<int>, t: int)
    requires Ordered(w) && p.Valid() && w.lastSeen <= now && |w.timestamps| <= p.limit
    requires !Step(w, p, now).1.allowed
    requires forall i :: 0 <= i < |times| ==> now <= times[i] < now + Step(w, p, now).1.retryAfterMs
    requires forall i, j :: 0 <= i <= j < |times| ==> times[i] <= times[j]
    requires t >= now && forall i :: 0 <= i < |times| ==> times[i] <= t
    ensures
      var (w', r) := Step(w, p, now);
      var (w'', denied) := Later(w', p, times);
      denied && (Step(w'', p, t).1.allowed <==> t >= now + r.retryAfterMs)
  {
    var (w', r) := Step(w, p, now);
    var due := now + r.retryAfterMs;
    DenialMakesDue(w, p, now);
    EarlyCallsKeepDue(w', p, due, times);
    DueDecides(Later(w', p, times).0, p, due, t);
  }

  // A run up to time t, on a clock that does not step back, with no limit of the key above this one.
  ghost predicate NoLargerLimit(run: seq<Event>, key: string, limit: int, t: int) {
    && (forall i, j :: 0 <= i <= j < |run| && run[i].Consume? && run[j].Consume? ==> run[i].now <= run[j].now)
    && (forall i :: 0 <= i < |run| && run[i].Consume? ==> run[i].now <= t)
    && (forall i :: 0 <= i < |run| && run[i].Consume? && run[i].key == key ==> run[i].policy.limit <= limit)
  }

  lemma {:induction false} NoLargerLimitIsOrdered(run: seq<Event>, key: string, limit: int, t: int)
    requires NoLargerLimit(run, key, limit, t) && limit >= 0 && key in Run(run)
    ensures Ordered(Run(run)[key]) && Run(run)[key].lastSeen <= t && |Run(run)[key].timestamps| <= limit
  {
    var n := |run| - 1;
    var ws := Run(run[..n]);
    if run[n].Consume? && run[n].key == key {
      var now := run[n].now;
      if key in ws {
        NoLargerLimitIsOrdered(run[..n], key, limit, now);
      }
      StepOrdered(Current(ws, key, now), run[n].policy, now);
      StepKeepsAtMostLimit(Current(ws, key, now), run[n].policy, limit, now);
    } else {
      NoLargerLimitIsOrdered(run[..n], key, limit, t);
    }
  }

  // The limiter after more events, and whether all calls of the key among them were denied.
  function Onward(ws: Windows, more: seq<Timed>, key: string): (Windows, bool) {
    if more == [] then (ws, true) else
    var n := |more| - 1;
    var (mid, denied) := Onward(ws, more[..n], key);
    match more[n].event
    case Consume(k, p, now) =>
      var (after, r) := ConsumeStep(mid, k, p, now);
      (after, denied && (k == key ==> !r.allowed))
    case Prune(olderThan) => (PruneStep(mid, olderThan), denied)
  }

  // The calls of the key in this run all come before `due`.
  ghost predicate Early(run: seq<Timed>, key: string, due: int) {
    forall i :: 0 <= i < |run| && run[i].event.Consume? && run[i].event.key == key ==> run[i].now < due
  }

  // The key waits until `due`, or `due` has come and its window was pruned.
  ghost predicate Waiting(ws: Windows, key: string, p: Policy, due: int, clock: int) {
    if key in ws then Due(ws[key], p, due) && ws[key].lastSeen <= clock else clock >= due
  }

  lemma WaitingDecides(ws: Windows, key: string, p: Policy, due: int, clock: int, t: int)
    requires p.Valid() && Waiting(ws, key, p, due, clock) && t >= clock
    ensures ConsumeStep(ws, key, p, t).1.allowed <==> t >= due
    ensures t < due ==> Waiting(ConsumeStep(ws, key, p, t).0, key, p, due, t)
  {
    if key in ws {
      DueDecides(ws[key], p, due, t);
    } else {
      assert After([], t - p.windowMs) == [];
    }
  }

  lemma PruneKeepsWaiting(ws: Windows, key: string, p: Policy, due: int, clock: int)
    requires Waiting(ws, key, p, due, clock) && p.windowMs <= MAX_IDLE_MS + 1
    ensures Waiting(PruneStep(ws, clock - MAX_IDLE_MS), key, p, due, clock)
  {
  }

  lemma {:induction false} EarlyCallsKeepWaiting(ws: Windows, more: seq<Timed>, key: string, p: Policy, due: int,
                                                 now: int, t: int)
    requires SteadyKey(more, key, p) && Waiting(ws, key, p, due, now) && now <= t && Early(more, key, due)
    requires forall i :: 0 <= i < |more| ==> now <= more[i].now <= t
    ensures Onward(ws, more, key).1 && Waiting(Onward(ws, more, key).0, key, p, due, t)
  {
    if more != [] {
      var n := |more| - 1;
      var e := more[n];
      EarlyCallsKeepWaiting(ws, more[..n], key, p, due, now, e.now);
      var mid := Onward(ws, more[..n], key).0;
      assert KeyUses(e, key, p) && TimerStep(e) && PruneSafe(p, e);
      if e.event.Prune? {
        PruneKeepsWaiting(mid, key, p, due, e.now);
      } else if e.event.key == key {
        WaitingDecides(mid, key, p, due, e.now, e.now);
      }
    }
  }

  /**
   On every run: a key that never had a larger limit and is denied at `now` is next admitted at
   `now + retryAfterMs` and at no earlier millisecond, whatever follows: calls of other keys, prune
   steps, and calls of the same key that are too early, which are all denied.
   */
  lemma {:induction false} RetryIsLeastOnRuns(run: seq<Event>, key: string, p: Policy, now: int, more: seq<Timed>,
                                              t: int)
    requires NoLargerLimit(run, key, p.limit, now) && SteadyKey(more, key, p) && t >= now
    requires forall i :: 0 <= i < |more| ==> now <= more[i].now <= t
    requires !ConsumeStep(Run(run), key, p, now).1.allowed
    requires Early(more, key, now + ConsumeStep(Run(run), key, p, now).1.retryAfterMs)
    ensures
      var (ws, r) := ConsumeStep(Run(run), key, p, now);
      var (after, denied) := Onward(ws, more, key);
      denied && (ConsumeStep(after, key, p, t).1.allowed <==> t >= now + r.retryAfterMs)
  {
    if key in Run(run) {
      NoLargerLimitIsOrdered(run, key, p.limit, now);
    }
    var (ws, r) := ConsumeStep(Run(run), key, p, now);
    var due := now + r.retryAfterMs;
    DenialMakesDue(Current(Run(run), key, now), p, now);
    EarlyCallsKeepWaiting(ws, more, key, p, due, now, t);
    WaitingDecides(Onward(ws, more, key).0, key, p, due, t, t);
  }

  /* ---------- Pruning ---------- */

  function Answers(ws: Windows, run: seq<Timed>, pruning: bool): seq<Result>
    decreases |run|
  {
    if run == [] then [] else
    match run[0].event
    case Consume(key, p, now) =>
      var (ws', r) := ConsumeStep(ws, key, p, now);
      [r] + Answers(ws', run[1..], pruning)
    case Prune(olderThan) =>
      Answers(if pruning then PruneStep(ws, olderThan) else ws, run[1..], pruning)
  }

  // `small` is `big` without some windows that have been idle for more than MAX_IDLE_MS at `now`.
  ghost predicate PrunedFrom(small: Windows, big: Windows, now: int) {
    && small.Keys <= big.Keys
    && (forall k :: k in big ==> Ordered(big[k]) && big[k].lastSeen <= now)
    && (forall k :: k in small ==> small[k] == big[k])
    && (forall k :: k in big && k !in small ==> now - big[k].lastSeen > MAX_IDLE_MS)
  }

  lemma AfterNone(ts: seq<int>, cutoff: int)
    requires AtMost(ts, cutoff)
    ensures After(ts, cutoff) == []
  {
  }

  lemma IdleIsEmpty(w: Window, p: Policy, now: int)
    requires Ordered(w) && now - w.lastSeen > MAX_IDLE_MS && p.windowMs <= MAX_IDLE_MS + 1
    ensures Step(w, p, now) == Step(Window([], now), p, now)
  {
    AfterNone(w.timestamps, now - p.windowMs);
    assert After([], now - p.windowMs) == [];
  }

  lemma ApplyPruned(small: Windows, big: Windows, key: string, p: Policy, now: int)
    requires PrunedFrom(small, big, now) && p.windowMs <= MAX_IDLE_MS + 1
    ensures ConsumeStep(small, key, p, now).1 == ConsumeStep(big, key, p, now).1
    ensures PrunedFrom(ConsumeStep(small, key, p, now).0, ConsumeStep(big, key, p, now).0, now)
  {
    var w := Current(big, key, now);
    if key in big && key !in small {
      IdleIsEmpty(w, p, now);
    }
    assert Step(Current(small, key, now), p, now) == Step(w, p, now);
    StepOrdered(w, p, now);
  }

  lemma PruneStaysPruned(small: Windows, big: Windows, s: int, now: int)
    requires PrunedFrom(small, big, s) && s <= now
    ensures PrunedFrom(small, big, now) && PrunedFrom(PruneStep(small, now - MAX_IDLE_MS), big, now)
  {
  }

  lemma {:induction false} AnswersAgree(small: Windows, big: Windows, run: seq<Timed>, now: int)
    requires TimerRun(run) && PrunedFrom(small, big, now)
    requires forall i :: 0 <= i < |run| ==> now <= run[i].now
    requires forall i :: 0 <= i < |run| && run[i].event.Consume? ==> run[i].event.policy.windowMs <= MAX_IDLE_MS + 1
    ensures Answers(small, run, true) == Answers(big, run, false)
    decreases |run|
  {
    if run != [] {
      var t := run[0].now;
      match run[0].event
      case Consume(key, p, _) =>
        ApplyPruned(small, big, key, p, t);
        AnswersAgree(ConsumeStep(small, key, p, t).0, ConsumeStep(big, key, p, t).0, run[1..], t);
      case Prune(olderThan) =>
        AnswersAgree(PruneStep(small, olderThan), big, run[1..], t);
    }
  }

  /**
   Pruning is invisible: while every window is at most MAX_IDLE_MS + 1 long, a limiter pruned at any
   moments gives the same answers as one never pruned.
   */
  lemma {:induction false} PruningIsInvisible(run: seq<Timed>)
    requires TimerRun(run)
    requires ShortWindows(run)
    ensures Answers(map[], run, true) == Answers(map[], run, false)
  {
    if run != [] {
      AnswersAgree(map[], map[], run, run[0].now);
    }
  }

  function Probe(p: Policy): seq<Timed> {
    [Timed(Consume("k", p, 0), 0), Timed(Prune(LATER - MAX_IDLE_MS), LATER), Timed(Consume("k", p, LATER), LATER)]
  }

  lemma OneAnswer(ws: Windows, p: Policy, pruning: bool)
    ensures Answers(ws, [Timed(Consume("k", p, LATER), LATER)], pruning) == [ConsumeStep(ws, "k", p, LATER).1]
  {
  }

  lemma ProbeDiffers(p: Policy)
    requires p.Valid() && p.windowMs > MAX_IDLE_MS + 1
    ensures TimerRun(Probe(p)) && Answers(map[], Probe(p), true) != Answers(map[], Probe(p), false)
  {
    var run := Probe(p);
    var ws := map["k" := Window([0], 0)];
    assert After([], -p.windowMs) == [] && [] + [0] == [0];
    assert Step(Window([], 0), p, 0).0 == Window([0], 0);
    assert ConsumeStep(map[], "k", p, 0).0 == ws;
    assert PruneStep(ws, LATER - MAX_IDLE_MS) == map[];
    assert run[1..][1..] == [Timed(Consume("k", p, LATER), LATER)];
    var a, b := ConsumeStep(map[], "k", p, LATER).1, ConsumeStep(ws, "k", p, LATER).1;
    assert [0][..0] == [];
    assert After([0], LATER - p.windowMs) == [0];
    assert a.resetAt == LATER + p.windowMs && b.resetAt == p.windowMs;
    var first := ConsumeStep(map[], "k", p, 0).1;
    OneAnswer(map[], p, true);
    OneAnswer(ws, p, false);
    hide ConsumeStep, After;
    assert Answers(map[], run, true) == [first, a];
    assert Answers(map[], run, false) == [first, b];
  }

  /** The bound is exact, policy by policy: with a longer window some run shows the difference. */
  lemma PruningInvisibleIff(p: Policy)
    requires p.Valid()
    ensures p.windowMs <= MAX_IDLE_MS + 1 <==>
      forall run: seq<Timed> :: TimerRun(run) && UsesOnly(p, run) ==>
        Answers(map[], run, true) == Answers(map[], run, false)
  {
    if p.windowMs <= MAX_IDLE_MS + 1 {
      forall run: seq<Timed> | TimerRun(run) && UsesOnly(p, run)
        ensures Answers(map[], run, true) == Answers(map[], run, false)
      {
        PruningIsInvisible(run);
      }
    } else {
      ProbeDiffers(p);
      assert UsesOnly(p, Probe(p));
    }
  }

  // The calls of a run, without its prune steps.
  function Calls(run: seq<Timed>): seq<Event> {
    if run == [] then [] else
    var n := |run| - 1;
    if run[n].event.Consume? then Calls(run[..n]) + [run[n].event] else Calls(run[..n])
  }

  ghost predicate ShortWindows(run: seq<Timed>) {
    forall i :: 0 <= i < |run| && run[i].event.Consume? ==> run[i].event.policy.windowMs <= MAX_IDLE_MS + 1
  }

  lemma {:induction false} PlayIsPruned(run: seq<Timed>, now: int)
    requires TimerRun(run) && ShortWindows(run) && forall i :: 0 <= i < |run| ==> run[i].now <= now
    ensures PrunedFrom(Play(run), Run(Calls(run)), now)
  {
    if run != [] {
      var n := |run| - 1;
      var e := run[n];
      PlayIsPruned(run[..n], e.now);
      assert TimerStep(e);
      var small, big := Play(run[..n]), Run(Calls(run[..n]));
      match e.event
      case Consume(key, p, _) =>
        ApplyPruned(small, big, key, p, e.now);
        assert Calls(run)[..|Calls(run)| - 1] == Calls(run[..n]);
      case Prune(_) => PruneStaysPruned(small, big, e.now, e.now);
    }
  }

  /**
   Pruned or not, the whole history decides: while every window is at most MAX_IDLE_MS + 1 long, the next
   call of any key is decided by all calls ever made, as if none had been pruned.
   */
  lemma {:induction false} WholeHistoryDecides(run: seq<Timed>, key: string, p: Policy, now: int)
    requires TimerRun(run) && ShortWindows(run) && forall i :: 0 <= i < |run| ==> run[i].now <= now
    requires p.windowMs <= MAX_IDLE_MS + 1
    ensures ConsumeStep(Play(run), key, p, now).1.allowed
       <==> Decide(HistoryOf(Histories(Calls(run)), key), p, now).admitted
  {
    PlayIsPruned(run, now);
    ApplyPruned(Play(run), Run(Calls(run)), key, p, now);
    HistoryExact(Calls(run), key, p, now);
  }
}
