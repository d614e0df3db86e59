/** The hash chain over audit logs (src/audit-log/integrity/log-integrity.verifier.ts). */
module AuditChain {
  import opened Json

  datatype Log = Log(
    id: Text, userId: Text, eventType: Text, portfolioId: Text, userAction: Text, details: Value,
    ipAddress: Text, userAgent: Text, createdAt: int, checksum: Text)

  // SHA-256 in hexadecimal, and `toISOString`.
  datatype Hashing = Hashing(digest: Text -> Text, iso: int -> Text)

  predicate IsHex(c: CodeUnit) {
    0x30 <= c <= 0x39 || 0x61 <= c <= 0x66
  }

  predicate IsDigest(t: Text) {
    |t| == 64 && forall i :: 0 <= i < |t| ==> IsHex(t[i])
  }

  const ZULU: CodeUnit := 0x5A

  ghost predicate IsClock(iso: int -> Text) {
    forall n :: iso(n) != [] && iso(n)[|iso(n)| - 1] == ZULU
  }

  // A digest is 64 hexadecimal digits, an ISO time ends in 'Z'.
  ghost predicate WellShaped(h: Hashing) {
    (forall t :: IsDigest(h.digest(t))) && IsClock(h.iso)
  }

  // No two of these texts have the same digest.
  ghost predicate CollisionFree(h: Hashing, texts: set<Text>) {
    forall t, u :: t in texts && u in texts && h.digest(t) == h.digest(u) ==> t == u
  }

  ghost predicate Printable(logs: seq<Log>) {
    forall i :: 0 <= i < |logs| ==> logs[i].details.Valid()
  }

  // The digested text of an entry, up to the checksum of the entry before it.
  function Content(h: Hashing, log: Log): Text
    requires log.details.Valid()
  {
    log.id + log.userId + log.eventType + log.portfolioId + log.userAction + Print(log.details) + h.iso(log.createdAt)
  }

  function GenerateChecksum(h: Hashing, log: Log, previous: Text): Text
    requires log.details.Valid()
  {
    h.digest(Content(h, log) + previous)
  }

  /* ---------- Sorting by time ---------- */

  // `Array.prototype.sort` is stable.
  function Insert(logs: seq<Log>, log: Log): (r: seq<Log>)
    ensures Printable(logs) && log.details.Valid() ==> Printable(r)
  {
    if logs == [] || log.createdAt <= logs[0].createdAt then [log] + logs
    else [logs[0]] + Insert(logs[1..], log)
  }

  function SortByTime(logs: seq<Log>): (r: seq<Log>)
    ensures Printable(logs) ==> Printable(r)
  {
    if logs == [] then [] else Insert(SortByTime(logs[1..]), logs[0])
  }

  function AtTime(logs: seq<Log>, t: int): seq<Log> {
    if logs == [] then []
    else if logs[0].createdAt == t then [logs[0]] + AtTime(logs[1..], t)
    else AtTime(logs[1..], t)
  }

  predicate Ordered(logs: seq<Log>) {
    forall i, j :: 0 <= i < j < |logs| ==> logs[i].createdAt <= logs[j].createdAt
  }

  lemma {:induction false} InsertExact(logs: seq<Log>, log: Log, t: int)
    requires Ordered(logs)
    ensures Ordered(Insert(logs, log)) && |Insert(logs, log)| == |logs| + 1
    ensures forall x :: x in Insert(logs, log) <==> x in logs || x == log
    ensures AtTime(Insert(logs, log), t) == AtTime([log] + logs, t)
  {
    if logs == [] || log.createdAt <= logs[0].createdAt {
    } else {
      var r := Insert(logs[1..], log);
      InsertExact(logs[1..], log, t);
      assert Insert(logs, log)[1..] == r;
      assert ([log] + logs[1..])[1..] == logs[1..] && ([log] + logs)[1..] == logs;
      assert forall x :: x in logs <==> x == logs[0] || x in logs[1..];
    }
  }

  /** The sorted list is in the order of time, and keeps the order of the entries of any one moment. */
  lemma {:induction false} SortExact(logs: seq<Log>, t: int)
    ensures Ordered(SortByTime(logs)) && |SortByTime(logs)| == |logs|
    ensures forall x :: x in SortByTime(logs) <==> x in logs
    ensures AtTime(SortByTime(logs), t) == AtTime(logs, t)
  {
    if logs != [] {
      SortExact(logs[1..], t);
      var r := SortByTime(logs[1..]);
      InsertExact(r, logs[0], t);
      assert ([logs[0]] + r)[1..] == r;
      assert forall x :: x in logs <==> x == logs[0] || x in logs[1..];
    }
  }

  /* ---------- Verifying ---------- */

  // The checksum that the entry after the given ones is chained to.
  function Previous(logs: seq<Log>): Text {
    if logs == [] then [] else logs[|logs| - 1].checksum
  }

  // The identifiers of the entries whose checksum is not what the chain says.
  function InvalidIds(h: Hashing, logs: seq<Log>): seq<Text>
    requires Printable(logs)
  {
    if logs == [] then []
    else
      var n := |logs| - 1;
      var before := InvalidIds(h, logs[..n]);
      if logs[n].checksum == GenerateChecksum(h, logs[n], Previous(logs[..n])) then before
      else before + [logs[n].id]
  }

  // The texts that are digested when the list is verified.
  ghost function Digested(h: Hashing, logs: seq<Log>): set<Text>
    requires Printable(logs)
  {
    set i | 0 <= i < |logs| :: Content(h, logs[i]) + Previous(logs[..i])
  }

  ghost predicate Verifies(h: Hashing, logs: seq<Log>)
    requires Printable(logs)
  {
    InvalidIds(h, logs) == []
  }

  /** The array is sorted in place, then the chain is followed from its start. */
  method VerifyLogs(h: Hashing, logs: array<Log>) returns (valid: bool, invalidLogIds: seq<Text>)
    requires Printable(logs[..])
    modifies logs
    ensures logs[..] == SortByTime(old(logs[..])) && Printable(logs[..])
    ensures invalidLogIds == InvalidIds(h, logs[..])
    ensures valid <==> Verifies(h, logs[..])
  {
    SortInPlace(logs);
    invalidLogIds := [];
    var previousChecksum := [];
    for i := 0 to logs.Length
      invariant logs[..] == SortByTime(old(logs[..])) && Printable(logs[..])
      invariant previousChecksum == Previous(logs[..i])
      invariant invalidLogIds == InvalidIds(h, logs[..i])
    {
      assert logs[..i + 1][..i] == logs[..i] && logs[..][i] == logs[i];
      var expectedChecksum := GenerateChecksum(h, logs[i], previousChecksum);
      if logs[i].checksum != expectedChecksum {
        invalidLogIds := invalidLogIds + [logs[i].id];
      }
      previousChecksum := logs[i].checksum;
    }
    assert logs[..logs.Length] == logs[..];
    valid := |invalidLogIds| == 0;
  }

  method SortInPlace(logs: array<Log>)
    modifies logs
    ensures logs[..] == SortByTime(old(logs[..]))
  {
    var sorted := SortByTime(logs[..]);
    SortExact(logs[..], 0);
    hide SortByTime;
    for i := 0 to logs.Length
      invariant forall j :: 0 <= j < i ==> logs[j] == sorted[j]
    {
      logs[i] := sorted[i];
    }
    assert logs[..] == sorted;
  }

  /* ---------- The last checksum determines the history ---------- */

  lemma {:induction false} VerifiesPrefix(h: Hashing, logs: seq<Log>)
    requires Printable(logs) && logs != [] && Verifies(h, logs)
    ensures Verifies(h, logs[..|logs| - 1])
    ensures logs[|logs| - 1].checksum == GenerateChecksum(h, logs[|logs| - 1], Previous(logs[..|logs| - 1]))
  {
  }

  // A text chained to nothing ends in 'Z', one chained to a checksum ends in a hexadecimal digit.
  lemma {:induction false} ChainedTextsSplit(a: Text, p: Text, b: Text, q: Text)
    requires a != [] && a[|a| - 1] == ZULU && b != [] && b[|b| - 1] == ZULU
    requires (p == [] || IsDigest(p)) && (q == [] || IsDigest(q)) && a + p == b + q
    ensures a == b && p == q
  {
    var t := a + p;
    assert t[|t| - 1] == if p == [] then ZULU else p[|p| - 1];
    assert t[|t| - 1] == if q == [] then ZULU else q[|q| - 1];
    assert |p| == |q|;
    assert a == t[..|t| - |p|] && p == t[|t| - |p|..];
    assert b == t[..|t| - |q|] && q == t[|t| - |q|..];
  }

  lemma ContentEndsInZulu(h: Hashing, log: Log)
    requires WellShaped(h) && log.details.Valid()
    ensures Content(h, log) != [] && Content(h, log)[|Content(h, log)| - 1] == ZULU
  {
    var iso := h.iso(log.createdAt);
    assert iso != [] && iso[|iso| - 1] == ZULU;
    var c := Content(h, log);
    assert c[|c| - 1] == iso[|iso| - 1];
  }

  lemma {:induction false} PreviousIsDigest(h: Hashing, logs: seq<Log>)
    requires WellShaped(h) && Printable(logs) && Verifies(h, logs)
    ensures Previous(logs) == [] <==> logs == []
    ensures logs != [] ==> IsDigest(Previous(logs))
  {
    if logs != [] {
      VerifiesPrefix(h, logs);
      var n := |logs| - 1;
      assert IsDigest(h.digest(Content(h, logs[n]) + Previous(logs[..n])));
    }
  }

  lemma DigestsDiffer(h: Hashing, texts: set<Text>, t: Text, u: Text)
    requires CollisionFree(h, texts) && t in texts && u in texts
    ensures h.digest(t) == h.digest(u) <==> t == u
  {
  }

  lemma {:induction false} DigestedPrefix(h: Hashing, logs: seq<Log>, m: nat)
    requires Printable(logs) && m <= |logs|
    ensures Digested(h, logs[..m]) <= Digested(h, logs)
  {
    forall t | t in Digested(h, logs[..m])
      ensures t in Digested(h, logs)
    {
      var i :| 0 <= i < m && t == Content(h, logs[..m][i]) + Previous(logs[..m][..i]);
      assert logs[..m][..i] == logs[..i] && logs[..m][i] == logs[i];
    }
  }

  lemma {:induction false} LastDigested(h: Hashing, logs: seq<Log>)
    requires Printable(logs) && logs != []
    ensures
      var n := |logs| - 1;
      Content(h, logs[n]) + Previous(logs[..n]) in Digested(h, logs)
  {
  }

  // The digested texts of the two lists are the same, entry by entry.
  ghost predicate SameTexts(h: Hashing, a: seq<Log>, b: seq<Log>)
    requires Printable(a) && Printable(b)
  {
    |a| == |b| && forall i :: 0 <= i < |a| ==> Content(h, a[i]) == Content(h, b[i]) && a[i].checksum == b[i].checksum
  }

  // Two lists that end in the same checksum: their last entries agree, and what is before ends alike.
  lemma {:induction false} ChainStep(h: Hashing, a: seq<Log>, b: seq<Log>, texts: set<Text>)
    requires WellShaped(h) && Printable(a) && Printable(b) && Verifies(h, a) && Verifies(h, b)
    requires CollisionFree(h, texts) && Digested(h, a) <= texts && Digested(h, b) <= texts
    requires a != [] && b != [] && Previous(a) == Previous(b)
    ensures
      var m, n := |a| - 1, |b| - 1;
      && Verifies(h, a[..m]) && Verifies(h, b[..n]) && Previous(a[..m]) == Previous(b[..n])
      && Content(h, a[m]) == Content(h, b[n])
  {
    hide WellShaped, Content, IsDigest, CollisionFree;
    var m, n := |a| - 1, |b| - 1;
    LastDigested(h, a);
    LastDigested(h, b);
    hide Digested;
    VerifiesPrefix(h, a);
    VerifiesPrefix(h, b);
    PreviousIsDigest(h, a[..m]);
    PreviousIsDigest(h, b[..n]);
    hide Verifies;
    ContentEndsInZulu(h, a[m]);
    ContentEndsInZulu(h, b[n]);
    var c, p, d, q := Content(h, a[m]), Previous(a[..m]), Content(h, b[n]), Previous(b[..n]);
    assert h.digest(c + p) == h.digest(d + q);
    hide Previous, GenerateChecksum;
    DigestsDiffer(h, texts, c + p, d + q);
    ChainedTextsSplit(c, p, d, q);
  }

  lemma {:induction false} SameTextsSnoc(h: Hashing, a: seq<Log>, b: seq<Log>)
    requires Printable(a) && Printable(b) && a != [] && b != []
    requires SameTexts(h, a[..|a| - 1], b[..|b| - 1])
    requires Content(h, a[|a| - 1]) == Content(h, b[|b| - 1]) && a[|a| - 1].checksum == b[|b| - 1].checksum
    ensures SameTexts(h, a, b)
  {
    hide Content;
    var n := |a| - 1;
    forall i | 0 <= i < |a|
      ensures Content(h, a[i]) == Content(h, b[i]) && a[i].checksum == b[i].checksum
    {
      assert i < n ==> a[..n][i] == a[i] && b[..n][i] == b[i];
    }
  }

  lemma {:induction false} ChainDetermines(h: Hashing, a: seq<Log>, b: seq<Log>, texts: set<Text>)
    requires WellShaped(h) && Printable(a) && Printable(b) && Verifies(h, a) && Verifies(h, b)
    requires CollisionFree(h, texts) && Digested(h, a) <= texts && Digested(h, b) <= texts
    requires Previous(a) == Previous(b)
    ensures SameTexts(h, a, b)
    decreases |a|
  {
    hide WellShaped, Content, IsDigest, Verifies, Digested, CollisionFree;
    PreviousIsDigest(h, a);
    PreviousIsDigest(h, b);
    if a != [] && b != [] {
      ChainStep(h, a, b, texts);
      DigestedPrefix(h, a, |a| - 1);
      DigestedPrefix(h, b, |b| - 1);
      ChainDetermines(h, a[..|a| - 1], b[..|b| - 1], texts);
      hide SameTexts;
      SameTextsSnoc(h, a, b);
    }
  }

  /**
   Two logs that both verify and end in the same checksum have the same history, entry by entry, unless
   two of the texts digested collide.
   */
  lemma LastChecksumDetermines(h: Hashing, x: seq<Log>, y: seq<Log>)
    requires WellShaped(h) && Printable(x) && Printable(y)
    requires Verifies(h, SortByTime(x)) && Verifies(h, SortByTime(y))
    requires CollisionFree(h, Digested(h, SortByTime(x)) + Digested(h, SortByTime(y)))
    requires Previous(SortByTime(x)) == Previous(SortByTime(y))
    ensures |x| == |y| && SameTexts(h, SortByTime(x), SortByTime(y))
  {
    SortExact(x, 0);
    SortExact(y, 0);
    var a, b := SortByTime(x), SortByTime(y);
    hide WellShaped, Verifies, CollisionFree, Digested, SortByTime, Previous, Content;
    ChainDetermines(h, a, b, Digested(h, a) + Digested(h, b));
  }

  /* ---------- Changes ---------- */

  // What is reported when only the entry x of a verifying log was changed, to y.
  function Report(h: Hashing, x: Log, y: Log, previous: Text): seq<Text>
    requires x.details.Valid() && y.details.Valid()
  {
    if GenerateChecksum(h, x, previous) == GenerateChecksum(h, y, previous) then [] else [y.id]
  }

  lemma {:induction false} LastEntryChanged(h: Hashing, a: seq<Log>, x: Log, y: Log)
    requires Printable(a) && x.details.Valid() && y.details.Valid()
    requires InvalidIds(h, a) == [] && x.checksum == GenerateChecksum(h, x, Previous(a)) == y.checksum
    ensures Printable(a + [y]) && InvalidIds(h, a + [y]) == Report(h, x, y, Previous(a))
  {
    InvalidSnoc(h, a, y);
    hide Content, InvalidIds, GenerateChecksum, Previous;
  }

  // What comes after the changed entry is judged as before.
  lemma {:induction false} EarlierEntryChanged(h: Hashing, a: seq<Log>, b: seq<Log>, x: Log)
    requires Printable(a) && Printable(b) && x.details.Valid() && Previous(a) == Previous(b)
    requires Printable(a + [x]) && Verifies(h, a + [x])
    ensures Printable(b + [x]) && InvalidIds(h, b + [x]) == InvalidIds(h, b)
  {
    InvalidSnoc(h, a, x);
    InvalidSnoc(h, b, x);
    hide InvalidIds, GenerateChecksum, Previous, Content;
  }

  lemma {:induction false} OneEntryChanged(h: Hashing, a: seq<Log>, i: nat, y: Log)
    requires Printable(a) && Verifies(h, a) && i < |a| && y.details.Valid()
    requires y.checksum == a[i].checksum
    ensures Printable(a[i := y]) && InvalidIds(h, a[i := y]) == Report(h, a[i], y, Previous(a[..i]))
    ensures Previous(a[i := y]) == Previous(a)
    decreases |a|
  {
    hide Report, GenerateChecksum;
    var n := |a| - 1;
    var pre := a[..n];
    assert a == pre + [a[n]];
    VerifiesPrefix(h, a);
    hide InvalidIds;
    if i == n {
      assert a[i := y] == pre + [y];
      LastEntryChanged(h, pre, a[n], y);
    } else {
      assert pre[..i] == a[..i];
      OneEntryChanged(h, pre, i, y);
      assert a[i := y] == pre[i := y] + [a[n]];
      EarlierEntryChanged(h, pre, pre[i := y], a[n]);
    }
  }

  lemma {:induction false} ChecksumsDiffer(h: Hashing, a: seq<Log>, i: nat, y: Log)
    requires Printable(a) && i < |a| && y.details.Valid() && Printable(a[i := y])
    requires CollisionFree(h, Digested(h, a) + Digested(h, a[i := y]))
    ensures
      var p := Previous(a[..i]);
      GenerateChecksum(h, a[i], p) == GenerateChecksum(h, y, p) <==> Content(h, a[i]) == Content(h, y)
  {
    hide Content, Previous, CollisionFree;
    var p := Previous(a[..i]);
    assert a[i := y][..i] == a[..i] && a[i := y][i] == y;
    assert Content(h, a[i]) + p in Digested(h, a);
    assert Content(h, y) + p in Digested(h, a[i := y]);
    hide Digested;
    AppendedAlike(Content(h, a[i]), Content(h, y), p);
    DigestsDiffer(h, Digested(h, a) + Digested(h, a[i := y]), Content(h, a[i]) + p, Content(h, y) + p);
  }

  lemma AppendedAlike(a: Text, b: Text, p: Text)
    ensures a + p == b + p <==> a == b
  {
    if a + p == b + p {
      assert a == (a + p)[..|a + p| - |p|] && b == (b + p)[..|b + p| - |p|];
    }
  }

  lemma {:induction false} InsertTracks(logs: seq<Log>, x: Log, y: Log) returns (p: nat)
    requires x.createdAt == y.createdAt
    ensures p < |Insert(logs, x)| && Insert(logs, x)[p] == x && Insert(logs, y) == Insert(logs, x)[p := y]
  {
    if logs == [] || x.createdAt <= logs[0].createdAt {
      p := 0;
    } else {
      var q := InsertTracks(logs[1..], x, y);
      p := q + 1;
    }
  }

  lemma {:induction false} InsertAround(logs: seq<Log>, x: Log, i: nat, y: Log) returns (p: nat)
    requires i < |logs| && logs[i].createdAt == y.createdAt
    ensures p < |Insert(logs, x)| && Insert(logs, x)[p] == logs[i]
    ensures Insert(logs[i := y], x) == Insert(logs, x)[p := y]
  {
    var c := logs[i := y];
    if x.createdAt <= logs[0].createdAt {
      p := i + 1;
    } else if i == 0 {
      p := 0;
      assert c[1..] == logs[1..];
    } else {
      assert c[1..] == logs[1..][i - 1 := y];
      var q := InsertAround(logs[1..], x, i - 1, y);
      p := q + 1;
    }
  }

  // Where an entry ends up does not depend on what it says, only on its time.
  lemma {:induction false} SortTracks(logs: seq<Log>, i: nat, y: Log) returns (p: nat)
    requires i < |logs| && logs[i].createdAt == y.createdAt
    ensures p < |SortByTime(logs)| && SortByTime(logs)[p] == logs[i]
    ensures SortByTime(logs[i := y]) == SortByTime(logs)[p := y]
  {
    var c := logs[i := y];
    if i == 0 {
      assert c[1..] == logs[1..];
      p := InsertTracks(SortByTime(logs[1..]), logs[0], y);
    } else {
      var q := SortTracks(logs[1..], i - 1, y);
      assert c[1..] == logs[1..][i - 1 := y];
      p := InsertAround(SortByTime(logs[1..]), logs[0], q, y);
    }
  }

  /**
   Changing what one entry of a verifying log says, but not its time, id or checksum, reports exactly
   that entry, if and only if its digested text changes.
   */
  lemma TamperedEntryReported(h: Hashing, x: seq<Log>, i: nat, log: Log)
    requires Printable(x) && Verifies(h, SortByTime(x))
    requires i < |x| && log.details.Valid()
    requires log.createdAt == x[i].createdAt && log.id == x[i].id && log.checksum == x[i].checksum
    requires CollisionFree(h, Digested(h, SortByTime(x)) + Digested(h, SortByTime(x[i := log])))
    ensures
      InvalidIds(h, SortByTime(x[i := log])) == if Content(h, x[i]) == Content(h, log) then [] else [x[i].id]
  {
    var p := SortTracks(x, i, log);
    OneEntryChanged(h, SortByTime(x), p, log);
    ChecksumsDiffer(h, SortByTime(x), p, log);
  }

  /**
   The fields are digested one after the other without a separator, and two of them not at all: what
   moves over from one field to the next, or changes there, is never reported, whatever the digest.
   */
  lemma SilentChange(h: Hashing, x: seq<Log>, i: nat, c: CodeUnit, log: Log)
    requires Printable(x) && Verifies(h, SortByTime(x)) && i < |x|
    requires x[i].userId == log.userId + [c] && log.eventType == [c] + x[i].eventType
    requires log == x[i].(userId := log.userId, eventType := log.eventType,
                          ipAddress := log.ipAddress, userAgent := log.userAgent)
    ensures log != x[i] && Verifies(h, SortByTime(x[i := log]))
  {
    var a := x[i];
    Moved(a.id, log.userId, [c], a.eventType);
    assert Content(h, log) == Content(h, a);
    var p := SortTracks(x, i, log);
    OneEntryChanged(h, SortByTime(x), p, log);
    assert |log.userId| != |a.userId|;
  }

  lemma Moved(a: Text, u: Text, c: Text, e: Text)
    ensures a + u + (c + e) == a + (u + c) + e
  {
  }

  lemma {:induction false} InvalidSnoc(h: Hashing, a: seq<Log>, x: Log)
    requires Printable(a) && x.details.Valid()
    ensures Printable(a + [x]) && Previous(a + [x]) == x.checksum
    ensures
      InvalidIds(h, a + [x]) ==
      InvalidIds(h, a) + if x.checksum == GenerateChecksum(h, x, Previous(a)) then [] else [x.id]
  {
    hide Content;
    assert (a + [x])[..|a|] == a;
  }

  // What follows two lists with the same last checksum is judged alike.
  lemma {:induction false} SuffixVerifies(h: Hashing, a: seq<Log>, b: seq<Log>, tail: seq<Log>)
    requires Printable(a) && Printable(b) && Printable(tail) && Previous(a) == Previous(b)
    requires Printable(a + tail) && Verifies(h, a + tail)
    ensures Printable(b + tail) && InvalidIds(h, b + tail) == InvalidIds(h, b)
    ensures Previous(b + tail) == Previous(a + tail)
    decreases |tail|
  {
    hide GenerateChecksum, InvalidIds, Previous;
    if tail == [] {
      assert a + tail == a && b + tail == b;
    } else {
      var n := |tail| - 1;
      var t, x := tail[..n], tail[n];
      assert a + tail == (a + t) + [x] && b + tail == (b + t) + [x];
      assert forall i :: 0 <= i < |a + t| ==> (a + t)[i] == (a + tail)[i];
      InvalidSnoc(h, a + t, x);
      SuffixVerifies(h, a, b, t);
      InvalidSnoc(h, b + t, x);
    }
  }

  lemma {:induction false} VerifiesUpTo(h: Hashing, a: seq<Log>, m: nat)
    requires Printable(a) && Verifies(h, a) && m <= |a|
    ensures Verifies(h, a[..m])
  {
    if m < |a| {
      VerifiesPrefix(h, a);
      VerifiesUpTo(h, a[..|a| - 1], m);
      assert a[..|a| - 1][..m] == a[..m];
    } else {
      assert a[..m] == a;
    }
  }

  // What is left when an entry is taken out.
  function Dropped(logs: seq<Log>, i: nat): (r: seq<Log>)
    requires i < |logs|
    ensures Printable(logs) ==> Printable(r)
  {
    logs[..i] + logs[i + 1..]
  }

  lemma DroppedCons(x: Log, logs: seq<Log>, i: nat)
    requires i < |logs|
    ensures Dropped([x] + logs, i + 1) == [x] + Dropped(logs, i)
  {
  }

  lemma {:induction false} InsertDrops(logs: seq<Log>, x: Log) returns (p: nat)
    ensures p < |Insert(logs, x)| && Insert(logs, x)[p] == x && Dropped(Insert(logs, x), p) == logs
  {
    if logs == [] || x.createdAt <= logs[0].createdAt {
      p := 0;
    } else {
      var q := InsertDrops(logs[1..], x);
      p := q + 1;
      DroppedCons(logs[0], Insert(logs[1..], x), q);
    }
  }

  lemma {:induction false} InsertKeepsDropped(logs: seq<Log>, x: Log, i: nat) returns (p: nat)
    requires Ordered(logs) && i < |logs|
    ensures p < |Insert(logs, x)| && Insert(logs, x)[p] == logs[i]
    ensures Insert(Dropped(logs, i), x) == Dropped(Insert(logs, x), p)
  {
    if x.createdAt <= logs[0].createdAt {
      p := i + 1;
      DroppedCons(x, logs, i);
      InsertBefore(logs, x, i);
      hide Dropped;
    } else if i == 0 {
      p := 0;
      assert Dropped(logs, 0) == logs[1..];
      DroppedFirst(logs[0], Insert(logs[1..], x));
      hide Dropped;
    } else {
      var q := InsertKeepsDropped(logs[1..], x, i - 1);
      p := q + 1;
      InsertBehind(logs, x, i, q);
      hide Dropped;
    }
  }

  lemma {:induction false} InsertBehind(logs: seq<Log>, x: Log, i: nat, q: nat)
    requires 0 < i < |logs| && logs[0].createdAt < x.createdAt && q < |Insert(logs[1..], x)|
    requires Insert(Dropped(logs[1..], i - 1), x) == Dropped(Insert(logs[1..], x), q)
    ensures Insert(Dropped(logs, i), x) == Dropped(Insert(logs, x), q + 1)
  {
    var rest := logs[1..];
    assert logs == [logs[0]] + rest;
    DroppedCons(logs[0], rest, i - 1);
    DroppedCons(logs[0], Insert(rest, x), q);
    var d := Dropped(rest, i - 1);
    hide Dropped;
    assert ([logs[0]] + d)[1..] == d;
  }

  lemma {:induction false} InsertBefore(logs: seq<Log>, x: Log, i: nat)
    requires Ordered(logs) && i < |logs| && x.createdAt <= logs[0].createdAt
    ensures Insert(Dropped(logs, i), x) == [x] + Dropped(logs, i)
  {
    if |logs| > 1 {
      assert Dropped(logs, i)[0] == logs[if i == 0 then 1 else 0];
    }
  }

  lemma DroppedFirst(x: Log, logs: seq<Log>)
    ensures Dropped([x] + logs, 0) == logs
  {
  }

  // Taking an entry out of a list takes one entry out of the sorted list.
  lemma {:induction false} SortDrops(logs: seq<Log>, i: nat) returns (p: nat)
    requires i < |logs|
    ensures p < |SortByTime(logs)| && SortByTime(logs)[p] == logs[i]
    ensures SortByTime(Dropped(logs, i)) == Dropped(SortByTime(logs), p)
  {
    if i == 0 {
      assert Dropped(logs, i) == logs[1..];
      p := InsertDrops(SortByTime(logs[1..]), logs[0]);
    } else {
      var q := SortDrops(logs[1..], i - 1);
      assert Dropped(logs, i)[1..] == Dropped(logs[1..], i - 1);
      SortExact(logs[1..], 0);
      p := InsertKeepsDropped(SortByTime(logs[1..]), logs[0], q);
    }
  }

  ghost predicate NextIsReported(h: Hashing, a: seq<Log>, b: seq<Log>, p: nat)
    requires Printable(b) && p < |a|
  {
    b == Dropped(a, p) && InvalidIds(h, b) == if p + 1 < |a| then [a[p + 1].id] else []
  }

  /** Taking an entry out of a verifying log reports exactly the entry after it; taking the last, nothing. */
  lemma {:induction false} DroppedEntryReported(h: Hashing, x: seq<Log>, i: nat)
    requires WellShaped(h) && Printable(x) && Verifies(h, SortByTime(x)) && i < |x|
    requires CollisionFree(h, Digested(h, SortByTime(x)) + Digested(h, SortByTime(Dropped(x, i))))
    ensures
      exists p :: 0 <= p < |SortByTime(x)| && SortByTime(x)[p] == x[i] &&
        NextIsReported(h, SortByTime(x), SortByTime(Dropped(x, i)), p)
  {
    var p := SortDrops(x, i);
    SortedDroppedReported(h, SortByTime(x), p);
  }

  lemma {:induction false} SortedDroppedReported(h: Hashing, a: seq<Log>, i: nat)
    requires WellShaped(h) && Printable(a) && Verifies(h, a) && i < |a|
    requires CollisionFree(h, Digested(h, a) + Digested(h, Dropped(a, i)))
    ensures InvalidIds(h, Dropped(a, i)) == if i + 1 < |a| then [a[i + 1].id] else []
  {
    hide Content, WellShaped, CollisionFree, Digested;
    VerifiesUpTo(h, a, i);
    if i + 1 == |a| {
      assert Dropped(a, i) == a[..i];
    } else {
      var long, short := a[..i + 2], a[..i] + [a[i + 1]];
      NextReported(h, a, i);
      var tail := a[i + 2..];
      Rejoin(a, i);
      hide InvalidIds, Previous;
      assert Printable(tail) && Printable(long);
      SuffixVerifies(h, long, short, tail);
    }
  }

  lemma {:induction false} Rejoin(a: seq<Log>, i: nat)
    requires i + 1 < |a|
    ensures a == a[..i + 2] + a[i + 2..]
    ensures Dropped(a, i) == a[..i] + [a[i + 1]] + a[i + 2..]
  {
  }

  lemma {:induction false} NextReported(h: Hashing, a: seq<Log>, i: nat)
    requires WellShaped(h) && Printable(a) && Verifies(h, a) && i + 1 < |a|
    requires CollisionFree(h, Digested(h, a) + Digested(h, Dropped(a, i)))
    ensures
      var short := a[..i] + [a[i + 1]];
      Printable(short) && InvalidIds(h, short) == [a[i + 1].id] && Previous(short) == Previous(a[..i + 2])
  {
    hide Content, WellShaped, CollisionFree, Digested;
    VerifiesUpTo(h, a, i);
    VerifiesUpTo(h, a, i + 2);
    var long, short := a[..i + 2], a[..i] + [a[i + 1]];
    assert long[..i + 1] == a[..i + 1] && short[..i] == a[..i];
    VerifiesPrefix(h, long);
    CheckpointsDiffer(h, a, i, Digested(h, a) + Digested(h, Dropped(a, i)));
    var c, p, q := Content(h, a[i + 1]), Previous(a[..i]), Previous(a[..i + 1]);
    SameTail(c, p, q);
    NextTexts(h, a, i);
    DigestsDiffer(h, Digested(h, a) + Digested(h, Dropped(a, i)), c + p, c + q);
  }

  // The next entry is digested with both predecessors.
  lemma {:induction false} NextTexts(h: Hashing, a: seq<Log>, i: nat)
    requires Printable(a) && i + 1 < |a|
    ensures Content(h, a[i + 1]) + Previous(a[..i]) in Digested(h, Dropped(a, i))
    ensures Content(h, a[i + 1]) + Previous(a[..i + 1]) in Digested(h, a)
  {
    hide Content, Previous;
    assert Dropped(a, i)[..i] == a[..i] && Dropped(a, i)[i] == a[i + 1];
  }

  // No two prefixes of a verifying log end in the same checksum.
  lemma {:induction false} CheckpointsDiffer(h: Hashing, a: seq<Log>, i: nat, texts: set<Text>)
    requires WellShaped(h) && Printable(a) && Verifies(h, a) && i < |a|
    requires CollisionFree(h, texts) && Digested(h, a) <= texts
    ensures Previous(a[..i]) != Previous(a[..i + 1])
  {
    VerifiesUpTo(h, a, i);
    VerifiesUpTo(h, a, i + 1);
    DigestedPrefix(h, a, i);
    DigestedPrefix(h, a, i + 1);
    if Previous(a[..i]) == Previous(a[..i + 1]) {
      ChainDetermines(h, a[..i], a[..i + 1], texts);
    }
  }

  /* ---------- Digests without a collision on the texts at hand ---------- */

  // The entries with the checksums that the chain gives them.
  function Sealed(h: Hashing, bodies: seq<Log>): (r: seq<Log>)
    requires Printable(bodies)
    ensures |r| == |bodies| && Printable(r)
    ensures forall i :: 0 <= i < |r| ==> r[i] == bodies[i].(checksum := r[i].checksum)
  {
    if bodies == [] then []
    else
      var n := |bodies| - 1;
      var before := Sealed(h, bodies[..n]);
      before + [bodies[n].(checksum := GenerateChecksum(h, bodies[n], Previous(before)))]
  }

  /** Entries sealed in the order of time verify. */
  lemma {:induction false} SealedVerifies(h: Hashing, bodies: seq<Log>)
    requires Printable(bodies)
    ensures Verifies(h, Sealed(h, bodies))
  {
    if bodies != [] {
      var n := |bodies| - 1;
      var before := Sealed(h, bodies[..n]);
      var last := bodies[n].(checksum := GenerateChecksum(h, bodies[n], Previous(before)));
      SealedVerifies(h, bodies[..n]);
      InvalidSnoc(h, before, last);
      hide Content, Previous;
      assert GenerateChecksum(h, last, Previous(before)) == last.checksum;
    }
  }

  function Pow16(w: nat): nat {
    if w == 0 then 1 else 16 * Pow16(w - 1)
  }

  function HexDigit(d: nat): CodeUnit
    requires d < 16
  {
    if d < 10 then (0x30 + d) as CodeUnit else (0x57 + d) as CodeUnit
  }

  // The number n with w hexadecimal digits.
  function HexOf(n: nat, w: nat): (t: Text)
    ensures |t| == w && forall i :: 0 <= i < |t| ==> IsHex(t[i])
  {
    if w == 0 then [] else HexOf(n / 16, w - 1) + [HexDigit(n % 16)]
  }

  lemma {:induction false} HexOfInjective(m: nat, n: nat, w: nat)
    requires m < Pow16(w) && n < Pow16(w) && HexOf(m, w) == HexOf(n, w)
    ensures m == n
  {
    if w > 0 {
      assert HexOf(m, w)[..w - 1] == HexOf(m / 16, w - 1) && HexOf(n, w)[..w - 1] == HexOf(n / 16, w - 1);
      assert HexOf(m, w)[w - 1] == HexDigit(m % 16) && HexOf(n, w)[w - 1] == HexDigit(n % 16);
      HexOfInjective(m / 16, n / 16, w - 1);
    }
  }

  function IndexOf(texts: seq<Text>, t: Text): (i: nat)
    ensures i <= |texts| && (i < |texts| ==> texts[i] == t) && (i == |texts| ==> t !in texts)
    ensures forall j :: 0 <= j < i ==> texts[j] != t
  {
    if texts == [] || texts[0] == t then 0 else IndexOf(texts[1..], t) + 1
  }

  ghost function AllOf(texts: seq<Text>): set<Text> {
    set t | t in texts
  }

  // Texts are numbered in the order of the list.
  function Numbering(iso: int -> Text, texts: seq<Text>): Hashing {
    Hashing((t: Text) => HexOf(IndexOf(texts, t), 64), iso)
  }

  lemma {:induction false} NumberingIsCollisionFree(iso: int -> Text, texts: seq<Text>)
    requires IsClock(iso) && |texts| < Pow16(64)
    ensures WellShaped(Numbering(iso, texts)) && CollisionFree(Numbering(iso, texts), AllOf(texts))
  {
    hide HexOf, Pow16;
    var h := Numbering(iso, texts);
    forall t, u | t in texts && u in texts && h.digest(t) == h.digest(u)
      ensures t == u
    {
      HexOfInjective(IndexOf(texts, t), IndexOf(texts, u), 64);
    }
  }

  // What entry i is chained to when the checksums are numbered.
  function NumberBefore(i: nat): Text {
    if i == 0 then [] else HexOf(i - 1, 64)
  }

  function ChainTexts(iso: int -> Text, bodies: seq<Log>): (texts: seq<Text>)
    requires Printable(bodies)
    ensures |texts| == |bodies|
    ensures forall i :: 0 <= i < |texts| ==> texts[i] == Content(Numbering(iso, []), bodies[i]) + NumberBefore(i)
  {
    seq(|bodies|, i requires 0 <= i < |bodies| => Content(Numbering(iso, []), bodies[i]) + NumberBefore(i))
  }

  lemma {:induction false} ChainTextsDiffer(iso: int -> Text, bodies: seq<Log>, i: nat, j: nat)
    requires IsClock(iso) && Printable(bodies) && |bodies| < Pow16(64) && i < j < |bodies|
    ensures ChainTexts(iso, bodies)[i] != ChainTexts(iso, bodies)[j]
  {
    var h := Numbering(iso, []);
    hide Content, HexOf, Pow16;
    NumberingIsCollisionFree(iso, []);
    ContentEndsInZulu(h, bodies[i]);
    ContentEndsInZulu(h, bodies[j]);
    if ChainTexts(iso, bodies)[i] == ChainTexts(iso, bodies)[j] {
      ChainedTextsSplit(Content(h, bodies[i]), NumberBefore(i), Content(h, bodies[j]), NumberBefore(j));
      HexOfInjective(i - 1, j - 1, 64);
    }
  }

  lemma SameContent(iso: int -> Text, texts: seq<Text>, others: seq<Text>, x: Log, y: Log)
    requires x.details.Valid() && x == y.(checksum := x.checksum)
    ensures Content(Numbering(iso, texts), x) == Content(Numbering(iso, others), y)
  {
  }

  // The chain's own texts come first, so entry i gets the number i.
  lemma {:induction false} ChainTextIndex(iso: int -> Text, bodies: seq<Log>, more: seq<Text>, i: nat)
    requires IsClock(iso) && Printable(bodies) && |bodies| < Pow16(64) && i < |bodies|
    ensures IndexOf(ChainTexts(iso, bodies) + more, ChainTexts(iso, bodies)[i]) == i
  {
    hide ChainTexts, Pow16;
    var own := ChainTexts(iso, bodies);
    var texts := own + more;
    assert texts[i] == own[i];
    forall j | 0 <= j < i
      ensures texts[j] != own[i]
    {
      ChainTextsDiffer(iso, bodies, j, i);
    }
  }

  lemma {:induction false} SealedLast(h: Hashing, bodies: seq<Log>, n: nat)
    requires Printable(bodies) && n < |bodies|
    ensures
      Previous(Sealed(h, bodies[..n + 1])) == h.digest(Content(h, bodies[n]) + Previous(Sealed(h, bodies[..n])))
  {
    hide Content;
    assert bodies[..n + 1][..n] == bodies[..n];
  }

  lemma {:induction false} SealedIsNumbered(iso: int -> Text, bodies: seq<Log>, more: seq<Text>, n: nat)
    requires IsClock(iso) && Printable(bodies) && |bodies| < Pow16(64) && n <= |bodies|
    ensures Previous(Sealed(Numbering(iso, ChainTexts(iso, bodies) + more), bodies[..n])) == NumberBefore(n)
  {
    hide Content, HexOf, Pow16, IndexOf, ChainTexts, Numbering, Previous, Sealed;
    var texts := ChainTexts(iso, bodies) + more;
    if n > 0 {
      SealedIsNumbered(iso, bodies, more, n - 1);
      SealedLast(Numbering(iso, texts), bodies, n - 1);
      ChainTextIs(iso, bodies, texts, n - 1);
      ChainTextIndex(iso, bodies, more, n - 1);
      NumberOf(iso, texts, ChainTexts(iso, bodies)[n - 1]);
    } else {
      assert bodies[..0] == [];
      SealedNone(Numbering(iso, texts));
    }
  }

  lemma SealedNone(h: Hashing)
    ensures Previous(Sealed(h, [])) == []
  {
  }

  lemma NumberOf(iso: int -> Text, texts: seq<Text>, t: Text)
    ensures Numbering(iso, texts).digest(t) == HexOf(IndexOf(texts, t), 64)
  {
  }

  lemma ChainTextIs(iso: int -> Text, bodies: seq<Log>, texts: seq<Text>, i: nat)
    requires Printable(bodies) && i < |bodies|
    ensures Content(Numbering(iso, texts), bodies[i]) + NumberBefore(i) == ChainTexts(iso, bodies)[i]
  {
    SameContent(iso, texts, [], bodies[i], bodies[i]);
    hide Content, HexOf;
  }

  lemma {:induction false} SealedPrefix(h: Hashing, bodies: seq<Log>, n: nat)
    requires Printable(bodies) && n <= |bodies|
    ensures Sealed(h, bodies)[..n] == Sealed(h, bodies[..n])
    decreases |bodies|
  {
    hide GenerateChecksum;
    if n < |bodies| {
      var m := |bodies| - 1;
      SealedPrefix(h, bodies[..m], n);
      assert bodies[..m][..n] == bodies[..n];
      assert Sealed(h, bodies)[..n] == Sealed(h, bodies[..m])[..n];
    } else {
      assert bodies[..n] == bodies;
    }
  }

  // Digesting the sealed entries takes the chain's own texts.
  lemma {:induction false} SealedText(iso: int -> Text, bodies: seq<Log>, more: seq<Text>, i: nat)
    requires IsClock(iso) && Printable(bodies) && |bodies| < Pow16(64) && i < |bodies|
    ensures
      var h := Numbering(iso, ChainTexts(iso, bodies) + more);
      var x := Sealed(h, bodies);
      && Previous(x[..i]) == NumberBefore(i)
      && Content(h, x[i]) + Previous(x[..i]) == ChainTexts(iso, bodies)[i]
  {
    var texts := ChainTexts(iso, bodies) + more;
    var h := Numbering(iso, texts);
    SealedPrefix(h, bodies, i);
    SealedIsNumbered(iso, bodies, more, i);
    SameContent(iso, texts, [], Sealed(h, bodies)[i], bodies[i]);
    hide Content, HexOf, Pow16, Previous, Sealed, Numbering;
  }

  lemma PreviousAt(logs: seq<Log>, n: nat)
    requires 0 < n <= |logs|
    ensures Previous(logs[..n]) == logs[n - 1].checksum
  {
  }

  // What entry j of the shortened list is chained to.
  lemma DroppedAt(a: seq<Log>, i: nat, j: nat)
    requires i < |a| && j < |Dropped(a, i)|
    ensures
      var b := Dropped(a, i);
      && b[j] == a[if j < i then j else j + 1]
      && Previous(b[..j]) == Previous(a[..if j <= i then j else j + 1])
  {
    var b := Dropped(a, i);
    if j <= i {
      assert b[..j] == a[..j];
    } else {
      PreviousAt(a, j + 1);
      PreviousAt(b, j);
    }
  }

  // One entry changed or taken out brings one more text.
  lemma {:induction false} ChangedTexts(h: Hashing, a: seq<Log>, i: nat, y: Log)
    requires Printable(a) && i < |a| && y.details.Valid() && y.checksum == a[i].checksum
    ensures Digested(h, a[i := y]) <= Digested(h, a) + {Content(h, y) + Previous(a[..i])}
  {
    hide Content;
    var b := a[i := y];
    forall t | t in Digested(h, b)
      ensures t in Digested(h, a) || t == Content(h, y) + Previous(a[..i])
    {
      var j :| 0 <= j < |b| && t == Content(h, b[j]) + Previous(b[..j]);
      if j == i {
        assert b[..j] == a[..i];
      } else {
        assert Previous(b[..j]) == Previous(a[..j]);
      }
    }
  }

  lemma {:induction false} DroppedTexts(h: Hashing, a: seq<Log>, i: nat)
    requires Printable(a) && i < |a|
    ensures
      Digested(h, Dropped(a, i)) <=
      Digested(h, a) + if i + 1 < |a| then {Content(h, a[i + 1]) + Previous(a[..i])} else {}
  {
    hide Content, Previous;
    var b := Dropped(a, i);
    forall t | t in Digested(h, b)
      ensures t in Digested(h, a) || (i + 1 < |a| && t == Content(h, a[i + 1]) + Previous(a[..i]))
    {
      var j :| 0 <= j < |b| && t == Content(h, b[j]) + Previous(b[..j]);
      DroppedAt(a, i, j);
      hide Dropped;
      var k := if j < i then j else j + 1;
      assert j != i ==> t == Content(h, a[k]) + Previous(a[..k]);
    }
  }

  lemma {:induction false} SortedStays(logs: seq<Log>)
    requires Ordered(logs)
    ensures SortByTime(logs) == logs
  {
    if logs != [] {
      SortedStays(logs[1..]);
    }
  }

  // A digest under which the entries verify, and neither they nor the changed logs make a collision.
  ghost predicate Serves(h: Hashing, bodies: seq<Log>, i: nat, log: Log)
    requires Printable(bodies) && i < |bodies| && log.details.Valid()
  {
    var x := Sealed(h, bodies);
    var y := log.(checksum := x[i].checksum);
    && WellShaped(h) && Verifies(h, SortByTime(x))
    && CollisionFree(
      h, Digested(h, SortByTime(x)) + Digested(h, SortByTime(x[i := y])) + Digested(h, SortByTime(Dropped(x, i))))
  }

  lemma {:induction false} SealedTexts(iso: int -> Text, bodies: seq<Log>, more: seq<Text>)
    requires IsClock(iso) && Printable(bodies) && |bodies| < Pow16(64)
    ensures
      var h := Numbering(iso, ChainTexts(iso, bodies) + more);
      forall t :: t in Digested(h, Sealed(h, bodies)) ==> t in ChainTexts(iso, bodies)
  {
    var h := Numbering(iso, ChainTexts(iso, bodies) + more);
    var x := Sealed(h, bodies);
    hide ChainTexts, Sealed, Numbering, Pow16, Content;
    forall t | t in Digested(h, x)
      ensures t in ChainTexts(iso, bodies)
    {
      var i :| 0 <= i < |x| && t == Content(h, x[i]) + Previous(x[..i]);
      SealedText(iso, bodies, more, i);
    }
  }

  lemma FewerTexts(h: Hashing, texts: set<Text>, fewer: set<Text>)
    requires CollisionFree(h, texts) && fewer <= texts
    ensures CollisionFree(h, fewer)
  {
  }

  // What is digested besides the chain's own texts when entry i is changed or taken out.
  function MoreTexts(iso: int -> Text, bodies: seq<Log>, i: nat, log: Log): seq<Text>
    requires Printable(bodies) && i < |bodies| && log.details.Valid()
  {
    var h := Numbering(iso, []);
    [Content(h, log) + NumberBefore(i)] +
    if i + 1 < |bodies| then [Content(h, bodies[i + 1]) + NumberBefore(i)] else []
  }

  lemma {:induction false} ChangedText(iso: int -> Text, bodies: seq<Log>, i: nat, log: Log)
    requires IsClock(iso) && Printable(bodies) && i < |bodies| && |bodies| + 2 < Pow16(64) && log.details.Valid()
    ensures
      var texts := ChainTexts(iso, bodies) + MoreTexts(iso, bodies, i, log);
      var h := Numbering(iso, texts);
      var x := Sealed(h, bodies);
      Content(h, log.(checksum := x[i].checksum)) + Previous(x[..i]) in AllOf(texts)
  {
    var more := MoreTexts(iso, bodies, i, log);
    var texts := ChainTexts(iso, bodies) + more;
    var x := Sealed(Numbering(iso, texts), bodies);
    SealedText(iso, bodies, more, i);
    SameContent(iso, texts, [], log.(checksum := x[i].checksum), log);
    hide Content, Pow16, Previous, Sealed, Numbering, NumberBefore, ChainTexts;
    assert texts[|bodies|] == more[0];
  }

  lemma {:induction false} NextText(iso: int -> Text, bodies: seq<Log>, i: nat, log: Log)
    requires IsClock(iso) && Printable(bodies) && i + 1 < |bodies| && |bodies| + 2 < Pow16(64) && log.details.Valid()
    ensures
      var texts := ChainTexts(iso, bodies) + MoreTexts(iso, bodies, i, log);
      var h := Numbering(iso, texts);
      var x := Sealed(h, bodies);
      Content(h, x[i + 1]) + Previous(x[..i]) in AllOf(texts)
  {
    hide Content, Pow16, Previous, Numbering, NumberBefore, ChainTexts;
    var more := MoreTexts(iso, bodies, i, log);
    var texts := ChainTexts(iso, bodies) + more;
    var x := Sealed(Numbering(iso, texts), bodies);
    SealedText(iso, bodies, more, i);
    SameContent(iso, texts, [], x[i + 1], bodies[i + 1]);
    hide Sealed;
    assert texts[|bodies| + 1] == more[1];
  }

  lemma {:induction false} ChangesStayWithin(iso: int -> Text, bodies: seq<Log>, i: nat, log: Log)
    requires IsClock(iso) && Printable(bodies) && i < |bodies| && |bodies| + 2 < Pow16(64) && log.details.Valid()
    ensures
      var texts := ChainTexts(iso, bodies) + MoreTexts(iso, bodies, i, log);
      StaysWithin(Numbering(iso, texts), AllOf(texts), Sealed(Numbering(iso, texts), bodies), i, log)
  {
    hide Content, Pow16, Previous, Numbering, NumberBefore, ChainTexts, MoreTexts, Sealed, Dropped, IsClock, AllOf;
    var more := MoreTexts(iso, bodies, i, log);
    var texts := ChainTexts(iso, bodies) + more;
    var h := Numbering(iso, texts);
    var x := Sealed(h, bodies);
    ChangedTexts(h, x, i, log.(checksum := x[i].checksum));
    DroppedTexts(h, x, i);
    ChangedText(iso, bodies, i, log);
    if i + 1 < |bodies| {
      NextText(iso, bodies, i, log);
    }
    OwnTexts(iso, bodies, more);
    hide Digested;
  }

  lemma {:induction false} OwnTexts(iso: int -> Text, bodies: seq<Log>, more: seq<Text>)
    requires IsClock(iso) && Printable(bodies) && |bodies| < Pow16(64)
    ensures
      var texts := ChainTexts(iso, bodies) + more;
      var h := Numbering(iso, texts);
      Digested(h, Sealed(h, bodies)) <= AllOf(texts)
  {
    SealedTexts(iso, bodies, more);
    hide Digested, Sealed, ChainTexts, Numbering, Pow16;
  }

  // Only these texts are digested, whether entry i is as it was, changed or taken out.
  ghost predicate StaysWithin(h: Hashing, texts: set<Text>, x: seq<Log>, i: nat, log: Log)
    requires Printable(x) && i < |x| && log.details.Valid()
  {
    && Digested(h, x) <= texts && Digested(h, x[i := log.(checksum := x[i].checksum)]) <= texts
    && Digested(h, Dropped(x, i)) <= texts
  }

  lemma {:induction false} ChangedInOrder(x: seq<Log>, i: nat, y: Log)
    requires Ordered(x) && i < |x| && y.createdAt == x[i].createdAt
    ensures SortByTime(x) == x && SortByTime(x[i := y]) == x[i := y] && SortByTime(Dropped(x, i)) == Dropped(x, i)
  {
    assert Ordered(Dropped(x, i)) && Ordered(x[i := y]);
    hide Ordered, Dropped;
    SortedStays(x);
    SortedStays(x[i := y]);
    SortedStays(Dropped(x, i));
  }

  lemma {:induction false} SealedServes(h: Hashing, texts: set<Text>, bodies: seq<Log>, i: nat, log: Log)
    requires Printable(bodies) && Ordered(bodies) && i < |bodies| && log.details.Valid()
    requires log.createdAt == bodies[i].createdAt && WellShaped(h) && CollisionFree(h, texts)
    requires StaysWithin(h, texts, Sealed(h, bodies), i, log)
    ensures Serves(h, bodies, i, log)
  {
    hide Content, Digested, SortByTime, Dropped, WellShaped, Verifies, CollisionFree;
    var x := Sealed(h, bodies);
    var y := log.(checksum := x[i].checksum);
    SealedVerifies(h, bodies);
    ChangedInOrder(x, i, y);
    hide Sealed;
    FewerTexts(h, texts, Digested(h, x) + Digested(h, x[i := y]) + Digested(h, Dropped(x, i)));
  }

  /**
   For every list of entries in the order of time, every entry of it and everything the entry could say
   instead, there is a digest that meets what the lemmas above ask for.
   */
  lemma {:induction false} DigestExists(iso: int -> Text, bodies: seq<Log>, i: nat, log: Log)
    requires IsClock(iso) && Printable(bodies) && Ordered(bodies) && |bodies| + 2 < Pow16(64)
    requires i < |bodies| && log.details.Valid() && log.createdAt == bodies[i].createdAt
    ensures exists h: Hashing :: h.iso == iso && Serves(h, bodies, i, log)
  {
    hide Content, Pow16, Digested, Sealed, SortByTime, Dropped, WellShaped, Verifies, CollisionFree, Serves, IsClock;
    var texts := ChainTexts(iso, bodies) + MoreTexts(iso, bodies, i, log);
    NumberingIsCollisionFree(iso, texts);
    ChangesStayWithin(iso, bodies, i, log);
    SealedServes(Numbering(iso, texts), AllOf(texts), bodies, i, log);
  }
}
