/** Which fields of an audit entry the hash chain protects (src/audit-log/integrity/log-integrity.verifier.ts). */
module AuditAnswers {
  import opened Json
  import opened AuditChain

  // A new value for one field of an entry.
  datatype Edit =
    | Id(text: Text) | UserId(text: Text) | EventType(text: Text) | PortfolioId(text: Text)
    | UserAction(text: Text) | Details(value: Value) | CreatedAt(time: int)
    | IpAddress(text: Text) | UserAgent(text: Text)

  function Edited(log: Log, e: Edit): Log {
    match e
    case Id(t) => log.(id := t)
    case UserId(t) => log.(userId := t)
    case EventType(t) => log.(eventType := t)
    case PortfolioId(t) => log.(portfolioId := t)
    case UserAction(t) => log.(userAction := t)
    case Details(v) => log.(details := v)
    case CreatedAt(time) => log.(createdAt := time)
    case IpAddress(t) => log.(ipAddress := t)
    case UserAgent(t) => log.(userAgent := t)
  }

  lemma Middle(a: Text, b: Text, c: Text, d: Text)
    ensures a + b + d == a + c + d <==> b == c
  {
    if a + b + d == a + c + d {
      AppendedAlike(a + b, a + c, d);
      assert b == (a + b)[|a|..] && c == (a + c)[|a|..];
    }
  }

  lemma PrintsApart(v: Value, w: Value)
    requires v.Valid() && w.Valid()
    ensures Print(v) == Print(w) <==> v == w
  {
    RoundTrip(v);
    RoundTrip(w);
  }

  // The digested text around one of its parts.
  lemma {:induction false} Around(parts: seq<Text>, i: nat, t: Text)
    requires i < |parts|
    ensures Joined(parts[i := t]) == Joined(parts) <==> t == parts[i]
  {
    if parts[i := t] != parts {
      JoinedAround(parts, i);
      JoinedAround(parts[i := t], i);
      assert parts[i := t][..i] == parts[..i] && parts[i := t][i + 1..] == parts[i + 1..];
      Middle(Joined(parts[..i]), parts[i], t, Joined(parts[i + 1..]));
    }
  }

  function Joined(parts: seq<Text>): Text {
    if parts == [] then [] else Joined(parts[..|parts| - 1]) + parts[|parts| - 1]
  }

  lemma {:induction false} JoinedAround(parts: seq<Text>, i: nat)
    requires i < |parts|
    ensures Joined(parts) == Joined(parts[..i]) + parts[i] + Joined(parts[i + 1..])
    decreases |parts|
  {
    var n := |parts| - 1;
    if i < n {
      JoinedAround(parts[..n], i);
      assert parts[..n][..i] == parts[..i] && parts[i + 1..][..n - i - 1] == parts[..n][i + 1..];
    } else {
      assert parts[i + 1..] == [];
    }
  }

  function Parts(h: Hashing, log: Log): seq<Text>
    requires log.details.Valid()
  {
    [log.id, log.userId, log.eventType, log.portfolioId, log.userAction, Print(log.details), h.iso(log.createdAt)]
  }

  lemma {:induction false} ContentJoins(h: Hashing, log: Log)
    requires log.details.Valid()
    ensures Content(h, log) == Joined(Parts(h, log))
  {
    hide Print;
    var p := Parts(h, log);
    forall k | 0 <= k < 7
      ensures Joined(p[..k + 1]) == Joined(p[..k]) + p[k]
    {
      assert p[..k + 1][..k] == p[..k];
    }
    assert Joined(p[..0]) == [] && p[..7] == p;
    assert Joined(p[..0 + 1]) == p[0] && Joined(p[..1 + 1]) == p[0] + p[1];
    assert Joined(p[..2 + 1]) == Joined(p[..2]) + p[2] && Joined(p[..3 + 1]) == Joined(p[..3]) + p[3];
    assert Joined(p[..4 + 1]) == Joined(p[..4]) + p[4] && Joined(p[..5 + 1]) == Joined(p[..5]) + p[5];
    assert Joined(p[..6 + 1]) == Joined(p[..6]) + p[6];
  }

  /** Of all single edits, only those of the address and of the user agent leave the digested text alone. */
  lemma {:induction false} EditSeen(h: Hashing, log: Log, e: Edit)
    requires log.details.Valid() && Edited(log, e).details.Valid() && Edited(log, e) != log
    requires e.CreatedAt? ==> h.iso(e.time) != h.iso(log.createdAt)
    ensures Content(h, Edited(log, e)) == Content(h, log) <==> e.IpAddress? || e.UserAgent?
  {
    ContentJoins(h, log);
    ContentJoins(h, Edited(log, e));
    var p, q := Parts(h, log), Parts(h, Edited(log, e));
    PrintsApart(log.details, Edited(log, e).details);
    hide Joined, Content, Print;
    match e
    case Id(t) => Around(p, 0, t); assert q == p[0 := t];
    case UserId(t) => Around(p, 1, t); assert q == p[1 := t];
    case EventType(t) => Around(p, 2, t); assert q == p[2 := t];
    case PortfolioId(t) => Around(p, 3, t); assert q == p[3 := t];
    case UserAction(t) => Around(p, 4, t); assert q == p[4 := t];
    case Details(v) => Around(p, 5, q[5]); assert q == p[5 := q[5]];
    case CreatedAt(time) => Around(p, 6, q[6]); assert q == p[6 := q[6]];
    case _ => assert q == p;
  }

  /**
   One edit of one entry of a verifying log, not of its time, is reported under the id of that entry and
   nothing else is, unless it edits the address or the user agent.
   */
  lemma {:induction false} EditReported(h: Hashing, x: seq<Log>, i: nat, e: Edit)
    requires Printable(x) && Verifies(h, SortByTime(x)) && i < |x| && !e.CreatedAt?
    requires Edited(x[i], e).details.Valid() && Edited(x[i], e) != x[i]
    requires CollisionFree(h, Digested(h, SortByTime(x)) + Digested(h, SortByTime(x[i := Edited(x[i], e)])))
    ensures
      InvalidIds(h, SortByTime(x[i := Edited(x[i], e)])) ==
      if e.IpAddress? || e.UserAgent? then [] else [Edited(x[i], e).id]
  {
    var log := Edited(x[i], e);
    var p := SortTracks(x, i, log);
    OneEntryChanged(h, SortByTime(x), p, log);
    ChecksumsDiffer(h, SortByTime(x), p, log);
    EditSeen(h, x[i], e);
    hide Content, InvalidIds, Digested, CollisionFree, SortByTime, Verifies;
  }
}
