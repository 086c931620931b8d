/**
 The bounded in-memory log store (internal/logger/logger.go) and the RPCs that page and follow it
 (internal/grpc/system.go). The store is specified by the log it would be if nothing were evicted.
 */
module LogStore {
  import opened Bytes
  import opened Options

  const DEFAULT_LOG_PAGE_LIMIT: int := 100

  /** id is assigned on write, starting at 1. */
  datatype LogEntry = LogEntry(id: int, timestamp: string, component: string, level: string, message: string)

  /** A component and level filter; the empty string matches everything. */
  datatype Query = Query(component: string, level: string)

  predicate Matches(q: Query, e: LogEntry) {
    (q.component == "" || e.component == q.component) && (q.level == "" || e.level == q.level)
  }

  /** The entries of s that match, in order. */
  function Select(s: seq<LogEntry>, q: Query): seq<LogEntry> {
    if s == [] then []
    else Select(s[..|s| - 1], q) + (if Matches(q, s[|s| - 1]) then [s[|s| - 1]] else [])
  }

  ghost predicate WellNumbered(log: seq<LogEntry>) {
    forall i | 0 <= i < |log| :: log[i].id == i + 1
  }

  /** How many entries of the log a store of capacity cap has evicted; it keeps one more than cap. */
  function Evicted(log: seq<LogEntry>, cap: nat): (n: nat)
    ensures n <= |log|
  {
    |log| - |LastN(log, cap + 1)|
  }

  /** Positions from `since` on that are still stored. */
  function From(log: seq<LogEntry>, cap: nat, since: int): (n: nat)
    ensures Evicted(log, cap) <= n <= |log|
  {
    if since <= Evicted(log, cap) then Evicted(log, cap) else if since <= |log| then since else |log|
  }

  function Since(log: seq<LogEntry>, cap: nat, since: int, q: Query): seq<LogEntry> {
    Select(log[From(log, cap, since)..], q)
  }

  function NextSince(log: seq<LogEntry>, since: int): int {
    if log != [] && |log| > since then |log| else since
  }

  /** One past the newest position with an ID below beforeID; no cursor means the end. */
  function Before(log: seq<LogEntry>, cap: nat, beforeID: int): (n: nat)
    ensures Evicted(log, cap) <= n <= |log|
  {
    if beforeID <= 0 then |log| else From(log, cap, beforeID - 1)
  }

  datatype Page = Page(logs: seq<LogEntry>, hasMore: bool)

  /** The newest `limit` matches before the cursor, and whether anything older than them is stored. */
  function PageOf(log: seq<LogEntry>, cap: nat, beforeID: int, limit: int, q: Query): Page {
    var found := Select(log[Evicted(log, cap)..Before(log, cap, beforeID)], q);
    if limit < 0 then Page(found, false)
    else
      var logs := LastN(found, limit);
      var oldest := if logs == [] then Before(log, cap, beforeID) + 1 else logs[0].id;
      Page(logs, |logs| == limit && oldest > Evicted(log, cap) + 1)
  }

  datatype PageError = NegativeBeforeID | NegativeLimit

  /** What a stream sends before it follows: the last lastN matches, or all that are stored. */
  function Backlog(log: seq<LogEntry>, cap: nat, lastN: int, q: Query): seq<LogEntry> {
    if lastN > 0 then PageOf(log, cap, 0, lastN, q).logs else Since(log, cap, 0, q)
  }

  function FollowFrom(log: seq<LogEntry>, cap: nat, lastN: int, q: Query): int {
    var backlog := Backlog(log, cap, lastN, q);
    if lastN <= 0 then NextSince(log, 0)
    else if backlog == [] then 0
    else backlog[|backlog| - 1].id
  }

  // Selection.

  lemma {:induction false} SelectConcat(a: seq<LogEntry>, b: seq<LogEntry>, q: Query)
    ensures Select(a + b, q) == Select(a, q) + Select(b, q)
  {
    if b == [] {
      assert a + b == a;
    } else {
      assert (a + b)[..|a + b| - 1] == a + b[..|b| - 1];
      SelectConcat(a, b[..|b| - 1], q);
    }
  }

  lemma SelectOne(e: LogEntry, q: Query)
    ensures Select([e], q) == if Matches(q, e) then [e] else []
  {
    assert [e][..0] == [];
  }

  lemma SelectSplit(log: seq<LogEntry>, a: nat, b: nat, c: nat, q: Query)
    requires a <= b <= c <= |log|
    ensures Select(log[a..c], q) == Select(log[a..b], q) + Select(log[b..c], q)
  {
    assert log[a..c] == log[a..b] + log[b..c];
    SelectConcat(log[a..b], log[b..c], q);
  }

  lemma {:induction false} SelectMembers(s: seq<LogEntry>, q: Query, e: LogEntry)
    ensures e in Select(s, q) <==> e in s && Matches(q, e)
  {
    if s != [] {
      SelectMembers(s[..|s| - 1], q, e);
      assert s == s[..|s| - 1] + [s[|s| - 1]];
    }
  }

  ghost predicate Ascending(s: seq<LogEntry>) {
    forall i, j | 0 <= i < j < |s| :: s[i].id < s[j].id
  }

  lemma {:induction false} SelectAscending(s: seq<LogEntry>, q: Query)
    requires Ascending(s)
    ensures Ascending(Select(s, q))
  {
    if s != [] {
      var init, last := s[..|s| - 1], s[|s| - 1];
      SelectAscending(init, q);
      forall e | e in Select(init, q)
        ensures e.id < last.id
      {
        SelectMembers(init, q, e);
      }
    }
  }

  // The store.

  function Reverse<T>(s: seq<T>): (r: seq<T>)
    ensures |r| == |s|
  {
    seq(|s|, k requires 0 <= k < |s| => s[|s| - 1 - k])
  }

  lemma ReverseElements<T>(s: seq<T>)
    ensures forall k | 0 <= k < |s| :: Reverse(s)[k] == s[|s| - 1 - k]
  {
  }

  function Between(log: seq<LogEntry>, from: nat, to: nat, q: Query): seq<LogEntry>
    requires to <= |log|
  {
    if to <= from then [] else Select(log[from..to], q)
  }

  lemma FromIsCutoff(log: seq<LogEntry>, cap: nat, since: int, i: nat)
    requires Evicted(log, cap) <= i < |log|
    ensures From(log, cap, since) <= i <==> i + 1 > since
  {
  }

  lemma BetweenAll(log: seq<LogEntry>, from: nat, q: Query)
    requires from <= |log|
    ensures Between(log, from, |log|, q) == Select(log[from..], q)
  {
    assert log[from..|log|] == log[from..];
    assert from == |log| ==> log[from..] == [];
  }

  lemma ForwardStep(log: seq<LogEntry>, from: nat, i: nat, q: Query)
    requires i < |log|
    ensures Between(log, from, i + 1, q)
         == Between(log, from, i, q) + (if from <= i && Matches(q, log[i]) then [log[i]] else [])
  {
    if from <= i {
      assert log[from..i + 1][..i - from] == log[from..i];
    }
  }

  /** The entries with later IDs that match, in order. */
  function Passing(s: seq<LogEntry>, sinceID: int, q: Query): seq<LogEntry> {
    if s == [] then []
    else
      var e := s[|s| - 1];
      Passing(s[..|s| - 1], sinceID, q) + (if e.id > sinceID && Matches(q, e) then [e] else [])
  }

  /** Skipping by ID is starting at a position. */
  lemma {:induction false} PassingIsBetween(log: seq<LogEntry>, cap: nat, sinceID: int, i: nat, q: Query)
    requires WellNumbered(log) && Evicted(log, cap) <= i <= |log|
    ensures Passing(log[Evicted(log, cap)..i], sinceID, q) == Between(log, From(log, cap, sinceID), i, q)
    decreases i
  {
    var first, from := Evicted(log, cap), From(log, cap, sinceID);
    if first == i {
      assert log[first..i] == [];
    } else {
      assert log[i - 1].id == i;
      hide *;
      var k := i - 1;
      PassingIsBetween(log, cap, sinceID, k, q);
      PassingStep(log, first, k, sinceID, q);
      FromIsCutoff(log, cap, sinceID, k);
      ForwardStep(log, from, k, q);
    }
  }

  lemma PassingStep(log: seq<LogEntry>, first: nat, k: nat, sinceID: int, q: Query)
    requires first <= k < |log|
    ensures Passing(log[first..k + 1], sinceID, q) ==
            Passing(log[first..k], sinceID, q) + (if log[k].id > sinceID && Matches(q, log[k]) then [log[k]] else [])
  {
    assert log[first..k + 1][..k - first] == log[first..k];
  }

  /** The backward loop has read the log from last down to position at. */
  ghost predicate Scanned(log: seq<LogEntry>, at: nat, last: nat, limit: int, q: Query, logs: seq<LogEntry>) {
    && at <= last <= |log|
    && Reverse(logs) == Select(log[at..last], q)
    && (limit < 0 || |logs| <= limit)
    && (|logs| == limit && logs != [] ==> logs[|logs| - 1].id == at + 1)
    && (limit == 0 ==> at == last)
  }

  lemma ScannedNothing(log: seq<LogEntry>, last: nat, limit: int, q: Query)
    requires last <= |log|
    ensures Scanned(log, last, last, limit, q, [])
  {
    assert log[last..last] == [];
  }

  class MemoryLogStore {
    const cap: nat
    var entries: seq<LogEntry>
    var nextID: int

    /** Every entry ever written. */
    ghost var log: seq<LogEntry>

    ghost predicate Valid()
      reads this
    {
      && WellNumbered(log)
      && nextID == |log|
      && entries == LastN(log, cap + 1)
    }

    constructor (cap: nat)
      ensures Valid() && log == [] && this.cap == cap
    {
      this.cap := cap;
      entries, nextID, log := [], 0, [];
    }

    /** parsed is what JSON decoding made of the bytes. */
    method Write(parsed: Option<LogEntry>) returns (ok: bool)
      requires Valid()
      modifies this
      ensures Valid()
      ensures ok == parsed.Some?
      ensures log == if parsed.Some? then old(log) + [parsed.value.(id := |old(log)| + 1)] else old(log)
    {
      if parsed.None? {
        return false;
      }
      hide LastN, WellNumbered;
      nextID := nextID + 1;
      Append(parsed.value.(id := nextID));
      return true;
    }

    /** The end of Write: keep the newest cap entries and add this one. */
    method Append(entry: LogEntry)
      requires WellNumbered(log) && entries == LastN(log, cap + 1) && entry.id == |log| + 1
      modifies `entries, `log
      ensures WellNumbered(log) && entries == LastN(log, cap + 1)
      ensures log == old(log) + [entry]
    {
      ghost var grown := log + [entry];
      StoredAfterWrite(log, entry, grown, cap, entries);
      ghost var stored := LastN(grown, cap + 1);
      hide *;
      if |entries| >= cap {
        entries := entries[|entries| - cap..];
      }
      entries := entries + [entry];
      assert entries == stored;
      log := grown;
    }

    method GetLogsSince(sinceID: int, q: Query) returns (logs: seq<LogEntry>, lastID: int)
      requires Valid()
      ensures logs == Since(log, cap, sinceID, q)
      ensures lastID == NextSince(log, sinceID) == if |log| > sinceID && log != [] then |log| else sinceID
      ensures forall x: nat | x < |log| :: log[x] in logs <==>
                && x + 1 > sinceID && x + cap + 1 >= |log|
                && (q.component == "" || log[x].component == q.component)
                && (q.level == "" || log[x].level == q.level)
    {
      NewestStored(sinceID);
      SinceHolds(log, cap, sinceID, q);
      assert NextSince(log, sinceID) == if |log| > sinceID && log != [] then |log| else sinceID;
      assert forall x: nat | x < |log| :: log[x] in Since(log, cap, sinceID, q) <==>
               && x + 1 > sinceID && x + cap + 1 >= |log|
               && (q.component == "" || log[x].component == q.component)
               && (q.level == "" || log[x].level == q.level);
      PassingIsSince(sinceID, q);
      hide *;
      lastID := sinceID;
      var n := |entries|;
      if n > 0 && entries[n - 1].id > lastID {
        lastID := entries[n - 1].id;
      }
      logs := ScanForward(sinceID, q);
    }

    /** The loop of GetLogsSince. */
    method ScanForward(sinceID: int, q: Query) returns (logs: seq<LogEntry>)
      ensures logs == Passing(entries, sinceID, q)
    {
      logs := [];
      assert entries[..0] == [];
      for i := 0 to |entries|
        invariant logs == Passing(entries[..i], sinceID, q)
      {
        var entry := entries[i];
        assert entries[..i + 1][..i] == entries[..i];
        if entry.id <= sinceID {
          continue;
        }
        if Matches(q, entry) {
          logs := logs + [entry];
        }
      }
      assert entries[..|entries|] == entries;
    }

    /** The ID the forward loop ends with. */
    lemma NewestStored(sinceID: int)
      requires Valid()
      ensures NextSince(log, sinceID) ==
              if |entries| > 0 && entries[|entries| - 1].id > sinceID then entries[|entries| - 1].id else sinceID
    {
    }

    lemma PassingIsSince(sinceID: int, q: Query)
      requires Valid()
      ensures Passing(entries, sinceID, q) == Since(log, cap, sinceID, q)
    {
      var first, from := Evicted(log, cap), From(log, cap, sinceID);
      assert entries == log[first..|log|];
      PassingIsBetween(log, cap, sinceID, |log|, q);
      BetweenAll(log, from, q);
    }

    /** sort.Search over the stored IDs. */
    method SearchID(beforeID: int) returns (end: nat)
      requires Valid() && beforeID > 0
      ensures end == From(log, cap, beforeID - 1) - Evicted(log, cap)
    {
      ghost var first := Evicted(log, cap);
      var lo, hi := 0, |entries|;
      while lo < hi
        invariant lo <= hi <= |entries|
        invariant lo > 0 ==> first + lo < beforeID
        invariant hi < |entries| ==> first + hi + 1 >= beforeID
      {
        var h := (lo + hi) / 2;
        assert entries[h] == log[first + h];
        if !(entries[h].id >= beforeID) {
          lo := h + 1;
        } else {
          hi := h;
        }
      }
      end := lo;
    }

    lemma StoredAt(i: nat, first: nat)
      requires Valid() && first == Evicted(log, cap) && first + i < |log|
      ensures i < |entries| && entries[i] == log[first + i] && entries[i].id == first + i + 1
    {
    }

    lemma BackwardTurn(i: nat, at: nat, last: nat, limit: int, q: Query, logs: seq<LogEntry>)
      requires Valid() && at == Evicted(log, cap) + i + 1 && i < |entries|
      requires Scanned(log, at, last, limit, q, logs) && |logs| != limit
      ensures Scanned(log, at - 1, last, limit, q, if Matches(q, entries[i]) then logs + [entries[i]] else logs)
    {
      StoredAt(i, Evicted(log, cap));
      hide Valid, WellNumbered, Evicted, Reverse, Select, Matches;
      BackwardStep(log, at - 1, last, q, logs);
    }

    /** The backward loop of GetLogsBefore: newest match first, stopping once the page is full. */
    method ScanBack(end: nat, limit: int, q: Query, ghost first: nat, ghost last: nat)
      returns (logs: seq<LogEntry>, hasMore: bool, ghost at: nat)
      requires Valid() && end <= |entries| && first == Evicted(log, cap) && last == first + end <= |log|
      ensures first <= at && Scanned(log, at, last, limit, q, logs)
      ensures hasMore <==> at > first
      ensures hasMore ==> |logs| == limit
    {
      ScannedNothing(log, last, limit, q);
      hide *;
      logs, hasMore := [], false;
      var i := end - 1;
      at := last;
      while i >= 0
        invariant -1 <= i < end && at == first + i + 1
        invariant Scanned(log, at, last, limit, q, logs)
      {
        if |logs| == limit {
          hasMore := true;
          break;
        }
        var entry := entries[i];
        BackwardTurn(i, at, last, limit, q, logs);
        if Matches(q, entry) {
          logs := logs + [entry];
        }
        i := i - 1;
        at := at - 1;
      }
    }

    method GetLogsBefore(beforeID: int, limit: int, q: Query) returns (logs: seq<LogEntry>, hasMore: bool)
      requires Valid()
      ensures Page(logs, hasMore) == PageOf(log, cap, beforeID, limit, q)
      ensures limit >= 0 ==>
                var last := if beforeID <= 0 || beforeID > |log| then |log| else beforeID - 1;
                forall x: nat | x < |log| :: log[x] in logs <==>
                  x < last && IsStored(log, cap, x, q) && |Select(log[x + 1..last], q)| < limit
    {
      var end := |entries|;
      if beforeID > 0 {
        end := SearchID(beforeID);
      }
      assert Before(log, cap, beforeID) == Evicted(log, cap) + end;
      ghost var at;
      logs, hasMore, at := ScanBack(end, limit, q, Evicted(log, cap), Before(log, cap, beforeID));
      ReverseElements(logs);
      assert logs != [] ==> Reverse(logs)[0] == logs[|logs| - 1];
      PageFound(log, cap, beforeID, limit, q, at, hasMore);
      ghost var page := PageOf(log, cap, beforeID, limit, q);
      logs := ReverseInPlace(logs);
      assert Page(logs, hasMore) == page;
      hide *;
      if limit >= 0 {
        forall x: nat | x < |log| {
          PageHolds(log, cap, beforeID, limit, q, x);
        }
      }
    }

    method GetLogsPage(beforeID: int, limit: int, q: Query) returns (r: Result<Page, PageError>)
      requires Valid()
      ensures r == if beforeID < 0 then Err(NegativeBeforeID)
                   else if limit < 0 then Err(NegativeLimit)
                   else Ok(PageOf(log, cap, beforeID, if limit == 0 then 100 else limit, q))
    {
      if beforeID < 0 {
        return Err(NegativeBeforeID);
      }
      if limit < 0 {
        return Err(NegativeLimit);
      }
      var n := limit;
      if n == 0 {
        n := DEFAULT_LOG_PAGE_LIMIT;
      }
      var logs, hasMore := GetLogsBefore(beforeID, n, q);
      return Ok(Page(logs, hasMore));
    }

    /** The start of GetLogsStream: what is sent at once, and the ID to follow from. */
    method OpenStream(lastN: int, q: Query) returns (backlog: seq<LogEntry>, sinceID: int)
      requires Valid()
      ensures backlog == Backlog(log, cap, lastN, q) && sinceID == FollowFrom(log, cap, lastN, q)
      ensures forall x: nat | x < |log| :: log[x] in backlog <==> InBacklog(log, cap, lastN, q, x)
    {
      BacklogHolds(log, cap, lastN, q);
      sinceID := 0;
      if lastN > 0 {
        var hasMore;
        backlog, hasMore := GetLogsBefore(0, lastN, q);
        if |backlog| > 0 {
          sinceID := backlog[|backlog| - 1].id;
        }
      } else {
        backlog, sinceID := GetLogsSince(0, q);
      }
    }

    method ReverseInPlace(s: seq<LogEntry>) returns (r: seq<LogEntry>)
      ensures r == Reverse(s)
    {
      r := s;
      var i, j := 0, |r| - 1;
      while i < j
        invariant |r| == |s| && 0 <= i && i + j == |s| - 1 && i <= j + 1
        invariant forall k | i <= k <= j :: r[k] == s[k]
        invariant forall k | 0 <= k < i || j < k < |s| :: r[k] == s[|s| - 1 - k]
      {
        r := r[i := r[j]][j := r[i]];
        i, j := i + 1, j - 1;
      }
      ReverseElements(s);
      hide Reverse;
      assert r == Reverse(s);
    }
  }

  /** Keeping one more than cap of a longer list, with an element added at its end. */
  lemma LastNSnoc(s: seq<LogEntry>, e: LogEntry, n: nat)
    ensures LastN(s + [e], n + 1) == LastN(s, n) + [e]
  {
    if |s| > n {
      assert (s + [e])[|s| - n..] == s[|s| - n..] + [e];
    }
  }

  /** A store of up to n + 1 entries that is cut to n has the last n. */
  lemma LastNCut(s: seq<LogEntry>, n: nat)
    ensures var kept := LastN(s, n + 1); LastN(s, n) == if |kept| >= n then kept[|kept| - n..] else kept
  {
    if |s| > n {
      assert s[|s| - (n + 1)..][1..] == s[|s| - n..];
    } else if |s| == n {
      assert s[0..] == s;
    }
  }

  lemma StoredAfterWrite(log: seq<LogEntry>, e: LogEntry, grown: seq<LogEntry>, cap: nat, entries: seq<LogEntry>)
    requires WellNumbered(log) && e.id == |log| + 1 && grown == log + [e] && entries == LastN(log, cap + 1)
    ensures WellNumbered(grown) && |grown| == |log| + 1
    ensures |entries| >= cap ==> LastN(grown, cap + 1) == entries[|entries| - cap..] + [e]
    ensures |entries| < cap ==> LastN(grown, cap + 1) == entries + [e]
  {
    hide LastN;
    LastNSnoc(log, e, cap);
    LastNCut(log, cap);
  }

  lemma BackwardSelect(log: seq<LogEntry>, i: nat, last: nat, q: Query)
    requires i < last <= |log|
    ensures Select(log[i..last], q) == (if Matches(q, log[i]) then [log[i]] else []) + Select(log[i + 1..last], q)
  {
    SelectSplit(log, i, i + 1, last, q);
    assert log[i..i + 1] == [log[i]];
    SelectOne(log[i], q);
  }

  lemma BackwardStep(log: seq<LogEntry>, i: nat, last: nat, q: Query, logs: seq<LogEntry>)
    requires i < last <= |log|
    requires Reverse(logs) == Select(log[i + 1..last], q)
    ensures Reverse(if Matches(q, log[i]) then logs + [log[i]] else logs) == Select(log[i..last], q)
  {
    BackwardSelect(log, i, last, q);
    ReverseElements(logs);
    ReverseElements(logs + [log[i]]);
    hide Reverse, Select;
    assert Reverse(logs + [log[i]]) == [log[i]] + Reverse(logs);
  }

  /** A backward scan that stopped at position `at` has found the page. */
  lemma PageFound(log: seq<LogEntry>, cap: nat, beforeID: int, limit: int, q: Query, at: nat, hasMore: bool)
    requires Evicted(log, cap) <= at <= Before(log, cap, beforeID)
    requires hasMore <==> at > Evicted(log, cap)
    requires limit == 0 ==> at == Before(log, cap, beforeID)
    requires var found := Select(log[at..Before(log, cap, beforeID)], q);
             && (limit < 0 || |found| <= limit)
             && (hasMore ==> |found| == limit)
             && (|found| == limit && found != [] ==> found[0].id == at + 1)
    ensures PageOf(log, cap, beforeID, limit, q) == Page(Select(log[at..Before(log, cap, beforeID)], q), hasMore)
  {
    var first, last := Evicted(log, cap), Before(log, cap, beforeID);
    var found := Select(log[at..last], q);
    SelectSplit(log, first, at, last, q);
    if at == first {
      assert log[first..at] == [];
    }
    if limit >= 0 && (hasMore || at == first) {
      assert LastN(Select(log[first..at], q) + found, limit) == found;
    }
  }

  // Paging backwards, while entries are written and evicted.

  /** The logs at successive requests are ever longer pieces of one log. */
  ghost predicate Grows(logs: seq<seq<LogEntry>>, whole: seq<LogEntry>) {
    && WellNumbered(whole)
    && (forall i | 0 <= i < |logs| :: logs[i] <= whole)
    && (forall i, j | 0 <= i < j < |logs| :: |logs[i]| <= |logs[j]|)
  }

  /** The pages a client loads, newest first, with the oldest ID of each as the next cursor. */
  function Pages(logs: seq<seq<LogEntry>>, cap: nat, beforeID: int, limit: int, q: Query): (pages: seq<Page>)
    requires limit >= 1
    ensures |pages| <= |logs|
    decreases |logs|
  {
    if logs == [] then []
    else
      var page := PageOf(logs[0], cap, beforeID, limit, q);
      if page.hasMore then [page] + Pages(logs[1..], cap, page.logs[0].id, limit, q) else [page]
  }

  /** Everything loaded, oldest first. */
  function Loaded(pages: seq<Page>): seq<LogEntry> {
    if pages == [] then [] else Loaded(pages[1..]) + pages[0].logs
  }

  /** The entry at position x was still stored when the page that reaches back to it was read. */
  ghost predicate StoredWhenRead(logs: seq<seq<LogEntry>>, cap: nat, beforeID: int, limit: int, q: Query, x: nat)
    requires limit >= 1
    decreases |logs|
  {
    if logs == [] then false
    else
      var page := PageOf(logs[0], cap, beforeID, limit, q);
      if page.hasMore && x + 1 < page.logs[0].id
      then StoredWhenRead(logs[1..], cap, page.logs[0].id, limit, q, x)
      else Evicted(logs[0], cap) <= x
  }

  /** A page is the matches in one stretch of the stored log, which reaches its start unless there is more. */
  lemma PageIsStretch(log: seq<LogEntry>, cap: nat, beforeID: int, limit: int, q: Query) returns (at: nat)
    requires WellNumbered(log) && limit >= 1
    ensures Evicted(log, cap) <= at <= Before(log, cap, beforeID)
    ensures var page := PageOf(log, cap, beforeID, limit, q);
            && page.logs == Select(log[at..Before(log, cap, beforeID)], q)
            && if page.hasMore then page.logs != [] && at + 1 == page.logs[0].id
                                    && Evicted(log, cap) < at < Before(log, cap, beforeID)
               else at == Evicted(log, cap)
  {
    var first, last := Evicted(log, cap), Before(log, cap, beforeID);
    at := LastMatches(log, first, last, limit, q);
  }

  /** The last `limit` matches in a stretch are the matches from some position on. */
  lemma {:induction false} LastMatches(log: seq<LogEntry>, first: nat, last: nat, limit: nat, q: Query) returns (at: nat)
    requires WellNumbered(log) && first <= last <= |log| && limit >= 1
    ensures first <= at <= last
    ensures var found := LastN(Select(log[first..last], q), limit);
            && found == Select(log[at..last], q)
            && (|found| < limit ==> at == first)
            && (|found| == limit ==> found[0].id == at + 1)
    decreases last - first
  {
    if first == last {
      at := first;
    } else {
      BackwardSelect(log, first, last, q);
      at := LastMatches(log, first + 1, last, limit, q);
      var head, rest := if Matches(q, log[first]) then [log[first]] else [], Select(log[first + 1..last], q);
      hide Select;
      if |rest| < limit {
        at := first;
        assert LastN(head + rest, limit) == head + rest;
      } else {
        assert LastN(head + rest, limit) == LastN(rest, limit);
      }
    }
  }

  /** The entries of a stretch, by position. */
  lemma StretchMembers(whole: seq<LogEntry>, log: seq<LogEntry>, a: nat, b: nat, q: Query)
    requires WellNumbered(whole) && log <= whole && a <= b <= |log|
    ensures Ascending(Select(log[a..b], q))
    ensures forall e | e in Select(log[a..b], q) :: a < e.id <= b && e == whole[e.id - 1] && Matches(q, e)
    ensures forall x | 0 <= x < |whole| :: whole[x] in Select(log[a..b], q) <==> a <= x < b && Matches(q, whole[x])
  {
    SelectAscending(log[a..b], q);
    forall e | e in Select(log[a..b], q)
      ensures a < e.id <= b && e == whole[e.id - 1] && Matches(q, e)
    {
      SelectMembers(log[a..b], q, e);
    }
    forall x | 0 <= x < |whole|
      ensures whole[x] in Select(log[a..b], q) <==> a <= x < b && Matches(q, whole[x])
    {
      SelectMembers(log[a..b], q, whole[x]);
      assert a <= x < b ==> log[a..b][x - a] == whole[x];
    }
  }

  // What the answers hold, entry by entry.

  /** The entry at position x is among the last cap + 1 written, and passes the filter. */
  predicate IsStored(log: seq<LogEntry>, cap: nat, x: nat, q: Query)
    requires x < |log|
  {
    && x + cap + 1 >= |log|
    && (q.component == "" || log[x].component == q.component)
    && (q.level == "" || log[x].level == q.level)
  }

  lemma StoredIff(log: seq<LogEntry>, cap: nat, x: nat, q: Query)
    requires x < |log|
    ensures IsStored(log, cap, x, q) <==> Evicted(log, cap) <= x && Matches(q, log[x])
  {
  }

  /** An answer of GetLogsSince holds exactly the stored entries after the ID that pass the filter, in the order of their IDs. */
  lemma SinceHolds(log: seq<LogEntry>, cap: nat, sinceID: int, q: Query)
    requires WellNumbered(log)
    ensures Ascending(Since(log, cap, sinceID, q))
    ensures forall e | e in Since(log, cap, sinceID, q) :: 0 < e.id <= |log| && e == log[e.id - 1]
    ensures forall x: nat | x < |log| :: log[x] in Since(log, cap, sinceID, q) <==> x + 1 > sinceID && IsStored(log, cap, x, q)
  {
    var from := From(log, cap, sinceID);
    assert log[from..] == log[from..|log|];
    StretchMembers(log, log, from, |log|, q);
    hide Select, WellNumbered;
    forall x: nat | x < |log|
      ensures log[x] in Since(log, cap, sinceID, q) <==> x + 1 > sinceID && IsStored(log, cap, x, q)
    {
      StoredIff(log, cap, x, q);
      if Evicted(log, cap) <= x {
        FromIsCutoff(log, cap, sinceID, x);
      }
    }
  }

  lemma LastNHas(a: seq<LogEntry>, e: LogEntry, b: seq<LogEntry>, n: nat)
    requires e !in a && e !in b
    ensures e in LastN(a + [e] + b, n) <==> |b| < n
  {
    var s := a + [e] + b;
    assert s[|a|] == e;
    if |b| < n {
      var r := LastN(s, n);
      assert r[|a| - (|s| - |r|)] == e;
    } else {
      assert LastN(s, n) == b[|b| - n..];
    }
  }

  lemma NotElsewhere(log: seq<LogEntry>, a: nat, b: nat, q: Query, x: nat)
    requires WellNumbered(log) && a <= b <= |log| && x < |log| && !(a <= x < b)
    ensures log[x] !in Select(log[a..b], q)
  {
    StretchMembers(log, log, a, b, q);
  }

  /** The last n matches of a stretch are those with fewer than n matches after them in it. */
  lemma LatestHold(log: seq<LogEntry>, first: nat, last: nat, n: nat, q: Query, x: nat)
    requires WellNumbered(log) && first <= last <= |log| && x < |log|
    ensures log[x] in LastN(Select(log[first..last], q), n) <==>
            first <= x < last && Matches(q, log[x]) && |Select(log[x + 1..last], q)| < n
  {
    if first <= x < last && Matches(q, log[x]) {
      SelectSplit(log, first, x, last, q);
      BackwardSelect(log, x, last, q);
      NotElsewhere(log, first, x, q, x);
      NotElsewhere(log, x + 1, last, q, x);
      hide *;
      var a, b := Select(log[first..x], q), Select(log[x + 1..last], q);
      assert a + ([log[x]] + b) == a + [log[x]] + b;
      LastNHas(a, log[x], b, n);
    } else {
      StretchMembers(log, log, first, last, q);
      LastNSubset(Select(log[first..last], q), n, log[x]);
    }
  }

  lemma LastNSubset(s: seq<LogEntry>, n: nat, e: LogEntry)
    ensures e in LastN(s, n) ==> e in s
  {
  }

  /**
   A page holds exactly the stored entries before the cursor that pass the filter and have fewer than
   `limit` such entries between them and the cursor.
   */
  lemma PageHolds(log: seq<LogEntry>, cap: nat, beforeID: int, limit: nat, q: Query, x: nat)
    requires WellNumbered(log) && x < |log|
    ensures var last := if beforeID <= 0 || beforeID > |log| then |log| else beforeID - 1;
            log[x] in PageOf(log, cap, beforeID, limit, q).logs <==>
              x < last && IsStored(log, cap, x, q) && |Select(log[x + 1..last], q)| < limit
  {
    StoredIff(log, cap, x, q);
    CursorBefore(log, cap, beforeID);
    assert Cursor(log, beforeID) == if beforeID <= 0 || beforeID > |log| then |log| else beforeID - 1;
    assert PageOf(log, cap, beforeID, limit, q).logs == LastN(Select(log[Evicted(log, cap)..Before(log, cap, beforeID)], q), limit);
    hide *;
    LatestHold(log, Evicted(log, cap), Before(log, cap, beforeID), limit, q, x);
  }

  /** What a stream sends at once: everything stored that passes the filter, or the last lastN of it. */
  predicate InBacklog(log: seq<LogEntry>, cap: nat, lastN: int, q: Query, x: nat)
    requires x < |log|
  {
    IsStored(log, cap, x, q) && (lastN > 0 ==> |Select(log[x + 1..], q)| < lastN)
  }

  lemma BacklogHolds(log: seq<LogEntry>, cap: nat, lastN: int, q: Query)
    requires WellNumbered(log)
    ensures forall x: nat | x < |log| :: log[x] in Backlog(log, cap, lastN, q) <==> InBacklog(log, cap, lastN, q, x)
  {
    if lastN <= 0 {
      SinceHolds(log, cap, 0, q);
      hide Since, IsStored, Select;
    } else {
      forall x: nat | x < |log|
        ensures log[x] in Backlog(log, cap, lastN, q) <==> InBacklog(log, cap, lastN, q, x)
      {
        PageHolds(log, cap, 0, lastN, q, x);
        assert log[x + 1..|log|] == log[x + 1..];
        hide PageOf, IsStored, Select;
      }
    }
  }

  /** What is known of a list of matches with positions below b. */
  ghost predicate Within(found: seq<LogEntry>, whole: seq<LogEntry>, a: nat, b: nat, q: Query) {
    && Ascending(found)
    && forall e | e in found :: a < e.id <= b <= |whole| && e == whole[e.id - 1] && Matches(q, e)
  }

  lemma WithinConcat(older: seq<LogEntry>, newer: seq<LogEntry>, whole: seq<LogEntry>, a: nat, b: nat, c: nat, q: Query)
    requires Within(older, whole, a, b, q) && Within(newer, whole, b, c, q) && a <= b <= c <= |whole|
    ensures Within(older + newer, whole, a, c, q)
  {
    forall i, j | 0 <= i < j < |older + newer|
      ensures (older + newer)[i].id < (older + newer)[j].id
    {
      if i < |older| <= j {
        assert older[i] in older && newer[j - |older|] in newer;
      }
    }
  }

  function Cursor(log: seq<LogEntry>, beforeID: int): nat {
    if beforeID <= 0 || beforeID > |log| then |log| else beforeID - 1
  }

  lemma LoadedUnfold(page: Page, rest: seq<Page>)
    ensures Loaded([page] + rest) == Loaded(rest) + page.logs
  {
    assert ([page] + rest)[1..] == rest;
  }

  /** A page by itself: the matches from position `at` up to the cursor. */
  lemma PageMembers(whole: seq<LogEntry>, log: seq<LogEntry>, cap: nat, beforeID: int, limit: int, q: Query)
    returns (at: nat)
    requires WellNumbered(whole) && log <= whole && limit >= 1
    ensures var page := PageOf(log, cap, beforeID, limit, q);
            && Evicted(log, cap) <= at && (page.hasMore ==> Evicted(log, cap) < at < Cursor(log, beforeID))
            && (if page.hasMore then page.logs != [] && page.logs[0].id == at + 1 else at == Evicted(log, cap))
            && (at <= Cursor(log, beforeID) ==> Within(page.logs, whole, at, Cursor(log, beforeID), q))
            && (at > Cursor(log, beforeID) ==> page.logs == [])
            && forall x | 0 <= x < Cursor(log, beforeID) && Matches(q, whole[x]) :: whole[x] in page.logs <==> at <= x
  {
    assert WellNumbered(log);
    hide *;
    CursorBefore(log, cap, beforeID);
    at := PageIsStretch(log, cap, beforeID, limit, q);
    if Evicted(log, cap) <= Cursor(log, beforeID) {
      StretchWithin(whole, log, at, Cursor(log, beforeID), q);
    } else {
      EmptyStretch(log, at, q);
    }
  }

  lemma EmptyStretch(log: seq<LogEntry>, at: nat, q: Query)
    requires at <= |log|
    ensures Select(log[at..at], q) == []
  {
    assert log[at..at] == [];
  }

  lemma StretchWithin(whole: seq<LogEntry>, log: seq<LogEntry>, a: nat, b: nat, q: Query)
    requires WellNumbered(whole) && log <= whole && a <= b <= |log|
    ensures Within(Select(log[a..b], q), whole, a, b, q) && b <= |whole|
    ensures forall x | 0 <= x < b && Matches(q, whole[x]) :: whole[x] in Select(log[a..b], q) <==> a <= x
  {
    StretchMembers(whole, log, a, b, q);
    hide Select, Matches;
  }

  lemma CursorBefore(log: seq<LogEntry>, cap: nat, beforeID: int)
    ensures var c, first := Cursor(log, beforeID), Evicted(log, cap);
            Before(log, cap, beforeID) == if c < first then first else c
  {
  }

  lemma GrowsTail(logs: seq<seq<LogEntry>>, whole: seq<LogEntry>)
    requires Grows(logs, whole) && |logs| > 1
    ensures Grows(logs[1..], whole) && |logs[0]| <= |logs[1]|
  {
  }

  /** Prepending what older pages loaded. */
  lemma LoadedMembers(older: seq<LogEntry>, newer: seq<LogEntry>, whole: seq<LogEntry>, at: nat, b: nat, q: Query, x: nat)
    requires Within(older, whole, 0, at, q) && Within(newer, whole, at, b, q) && at <= b <= |whole| && x < b
    requires WellNumbered(whole)
    ensures whole[x] in older + newer <==> if x < at then whole[x] in older else whole[x] in newer
  {
    assert whole[x].id == x + 1;
  }

  /** Of the entries before position b, exactly those stored when read are loaded, in order. */
  ghost predicate LoadsStored(
    loaded: seq<LogEntry>, whole: seq<LogEntry>, b: nat,
    logs: seq<seq<LogEntry>>, cap: nat, beforeID: int, limit: int, q: Query)
    requires limit >= 1
  {
    && Within(loaded, whole, 0, b, q)
    && b <= |whole|
    && forall x | 0 <= x < b && Matches(q, whole[x]) ::
         whole[x] in loaded <==> StoredWhenRead(logs, cap, beforeID, limit, q, x)
  }

  lemma NoLogsLoadNothing(whole: seq<LogEntry>, b: nat, logs: seq<seq<LogEntry>>, cap: nat, beforeID: int, limit: int, q: Query)
    requires limit >= 1 && b <= |whole| && |logs| == 0
    ensures LoadsStored(Loaded(Pages(logs, cap, beforeID, limit, q)), whole, b, logs, cap, beforeID, limit, q)
  {
  }

  lemma LastPageLoads(whole: seq<LogEntry>, logs: seq<seq<LogEntry>>, cap: nat, beforeID: int, limit: int, q: Query)
    requires Grows(logs, whole) && logs != [] && limit >= 1
    requires !PageOf(logs[0], cap, beforeID, limit, q).hasMore
    ensures LoadsStored(PageOf(logs[0], cap, beforeID, limit, q).logs, whole, Cursor(logs[0], beforeID),
                        logs, cap, beforeID, limit, q)
  {
    var at := PageMembers(whole, logs[0], cap, beforeID, limit, q);
    hide PageOf, Evicted;
    assert forall x: nat :: StoredWhenRead(logs, cap, beforeID, limit, q, x) <==> at <= x;
  }

  lemma MorePagesLoad(
    whole: seq<LogEntry>, logs: seq<seq<LogEntry>>, cap: nat, beforeID: int, limit: int, q: Query,
    older: seq<LogEntry>, at: nat)
    requires Grows(logs, whole) && logs != [] && limit >= 1
    requires var page := PageOf(logs[0], cap, beforeID, limit, q);
             page.hasMore && page.logs != [] && page.logs[0].id == at + 1
    requires LoadsStored(older, whole, at, logs[1..], cap, at + 1, limit, q)
    ensures LoadsStored(older + PageOf(logs[0], cap, beforeID, limit, q).logs, whole, Cursor(logs[0], beforeID),
                        logs, cap, beforeID, limit, q)
  {
    var page, bound := PageOf(logs[0], cap, beforeID, limit, q), Cursor(logs[0], beforeID);
    var at' := PageMembers(whole, logs[0], cap, beforeID, limit, q);
    WithinConcat(older, page.logs, whole, 0, at, bound, q);
    forall x | 0 <= x < bound && Matches(q, whole[x])
      ensures whole[x] in older + page.logs <==> StoredWhenRead(logs, cap, beforeID, limit, q, x)
    {
      hide PageOf, Within, Cursor, Evicted;
      LoadedMembers(older, page.logs, whole, at, bound, q, x);
    }
  }

  lemma {:induction false} PagesLoad(
    logs: seq<seq<LogEntry>>, whole: seq<LogEntry>, cap: nat, beforeID: int, limit: int, q: Query)
    requires Grows(logs, whole) && logs != [] && limit >= 1
    ensures LoadsStored(Loaded(Pages(logs, cap, beforeID, limit, q)), whole, Cursor(logs[0], beforeID),
                        logs, cap, beforeID, limit, q)
    decreases |logs|
  {
    hide *;
    LoadedPagesUnfold(logs, cap, beforeID, limit, q);
    if !PageOf(logs[0], cap, beforeID, limit, q).hasMore {
      LastPageLoads(whole, logs, cap, beforeID, limit, q);
    } else {
      GrowsHead(logs, whole);
      var at := PageIsStretch(logs[0], cap, beforeID, limit, q);
      if |logs| > 1 {
        NextStretch(logs, whole, at);
        PagesLoad(logs[1..], whole, cap, at + 1, limit, q);
      } else {
        NoLogsLoadNothing(whole, at, logs[1..], cap, at + 1, limit, q);
      }
      MorePagesLoad(whole, logs, cap, beforeID, limit, q, Loaded(Pages(logs[1..], cap, at + 1, limit, q)), at);
    }
  }

  lemma GrowsHead(logs: seq<seq<LogEntry>>, whole: seq<LogEntry>)
    requires Grows(logs, whole) && logs != []
    ensures WellNumbered(whole) && WellNumbered(logs[0]) && logs[0] <= whole
  {
  }

  lemma NextStretch(logs: seq<seq<LogEntry>>, whole: seq<LogEntry>, at: nat)
    requires Grows(logs, whole) && |logs| > 1 && at < |logs[0]|
    ensures Grows(logs[1..], whole) && logs[1..] != [] && Cursor(logs[1..][0], at + 1) == at
  {
    GrowsTail(logs, whole);
  }

  lemma LoadedPagesUnfold(logs: seq<seq<LogEntry>>, cap: nat, beforeID: int, limit: int, q: Query)
    requires logs != [] && limit >= 1
    ensures var page := PageOf(logs[0], cap, beforeID, limit, q);
            Loaded(Pages(logs, cap, beforeID, limit, q)) ==
            if page.hasMore then Loaded(Pages(logs[1..], cap, page.logs[0].id, limit, q)) + page.logs else page.logs
  {
    var page := PageOf(logs[0], cap, beforeID, limit, q);
    if page.hasMore {
      LoadedUnfold(page, Pages(logs[1..], cap, page.logs[0].id, limit, q));
    } else {
      assert Loaded([page]) == Loaded([]) + page.logs == page.logs;
    }
  }

  /**
   Whatever is written and evicted between requests: what is loaded is in ID order without repeats, every
   entry of it matches and is older than the first cursor, and a matching entry is loaded exactly when it
   was still stored at the request that reached back to it.
   */
  lemma PagingIsExact(
    logs: seq<seq<LogEntry>>, whole: seq<LogEntry>, cap: nat, beforeID: int, limit: int, q: Query)
    requires Grows(logs, whole) && logs != [] && limit >= 1
    ensures var loaded := Loaded(Pages(logs, cap, beforeID, limit, q));
            && Ascending(loaded)
            && (forall e | e in loaded ::
                  0 < e.id <= Cursor(logs[0], beforeID) && e.id <= |whole| && e == whole[e.id - 1] && Matches(q, e))
            && (forall x | 0 <= x < Cursor(logs[0], beforeID) && x < |whole| && Matches(q, whole[x]) ::
                  whole[x] in loaded <==> StoredWhenRead(logs, cap, beforeID, limit, q, x))
  {
    PagesLoad(logs, whole, cap, beforeID, limit, q);
  }

  /** The cursor falls with every page, so a client that keeps asking reaches a last page. */
  lemma {:induction false} PagingEnds(
    logs: seq<seq<LogEntry>>, whole: seq<LogEntry>, cap: nat, beforeID: int, limit: int, q: Query)
    requires Grows(logs, whole) && logs != [] && limit >= 1 && Cursor(logs[0], beforeID) < |logs|
    ensures var pages := Pages(logs, cap, beforeID, limit, q); pages != [] && !pages[|pages| - 1].hasMore
    decreases |logs|
  {
    hide *;
    PagesUnfold(logs, cap, beforeID, limit, q);
    if PageOf(logs[0], cap, beforeID, limit, q).hasMore {
      GrowsHead(logs, whole);
      var at := PageMembers(whole, logs[0], cap, beforeID, limit, q);
      NextCursor(logs, whole, at, beforeID);
      PagingEnds(logs[1..], whole, cap, at + 1, limit, q);
    }
  }

  lemma PagesUnfold(logs: seq<seq<LogEntry>>, cap: nat, beforeID: int, limit: int, q: Query)
    requires logs != [] && limit >= 1
    ensures var page, pages := PageOf(logs[0], cap, beforeID, limit, q), Pages(logs, cap, beforeID, limit, q);
            if page.hasMore then
              page.logs != [] &&
              var rest := Pages(logs[1..], cap, page.logs[0].id, limit, q);
              |pages| == |rest| + 1 && (rest != [] ==> pages[|pages| - 1] == rest[|rest| - 1])
            else pages != [] && pages[|pages| - 1] == page
  {
    MoreMeansSome(logs[0], cap, beforeID, limit, q);
    hide PageOf;
    var page, pages := PageOf(logs[0], cap, beforeID, limit, q), Pages(logs, cap, beforeID, limit, q);
    if page.hasMore {
      var rest := Pages(logs[1..], cap, page.logs[0].id, limit, q);
      assert pages == [page] + rest;
      hide *;
      LastOfCons(page, rest);
    } else {
      assert pages == [page];
    }
  }

  lemma MoreMeansSome(log: seq<LogEntry>, cap: nat, beforeID: int, limit: int, q: Query)
    requires limit >= 1
    ensures var page := PageOf(log, cap, beforeID, limit, q); page.hasMore ==> page.logs != []
  {
    hide Select, LastN, Evicted, Before;
  }

  lemma LastOfCons(page: Page, rest: seq<Page>)
    ensures |[page] + rest| == |rest| + 1
    ensures rest != [] ==> ([page] + rest)[|[page] + rest| - 1] == rest[|rest| - 1]
  {
  }

  lemma NextCursor(logs: seq<seq<LogEntry>>, whole: seq<LogEntry>, at: nat, beforeID: int)
    requires Grows(logs, whole) && logs != [] && at < Cursor(logs[0], beforeID) < |logs|
    ensures Grows(logs[1..], whole) && logs[1..] != []
    ensures Cursor(logs[1..][0], at + 1) == at
  {
    GrowsTail(logs, whole);
  }

  /** Nothing written meanwhile: the pages together are the whole filtered store. */
  lemma {:induction false} PagingIsComplete(
    logs: seq<seq<LogEntry>>, log: seq<LogEntry>, cap: nat, beforeID: int, limit: int, q: Query)
    requires WellNumbered(log) && limit >= 1 && Cursor(log, beforeID) < |logs|
    requires forall i | 0 <= i < |logs| :: logs[i] == log
    ensures Loaded(Pages(logs, cap, beforeID, limit, q)) == Select(log[Evicted(log, cap)..Before(log, cap, beforeID)], q)
    decreases |logs|
  {
    hide *;
    assert logs[0] == log;
    LoadedPagesUnfold(logs, cap, beforeID, limit, q);
    var at := PageIsStretch(log, cap, beforeID, limit, q);
    if PageOf(log, cap, beforeID, limit, q).hasMore {
      CursorAt(log, cap, beforeID, at);
      PagingIsComplete(logs[1..], log, cap, at + 1, limit, q);
      SelectSplit(log, Evicted(log, cap), at, Before(log, cap, beforeID), q);
    }
  }

  lemma CursorAt(log: seq<LogEntry>, cap: nat, beforeID: int, at: nat)
    requires Evicted(log, cap) < at < Before(log, cap, beforeID)
    ensures at < Cursor(log, beforeID) && Before(log, cap, at + 1) == at && Cursor(log, at + 1) == at
  {
  }

  // Following.

  /** What successive polls send, from entries after `since` on. */
  function Tail(logs: seq<seq<LogEntry>>, cap: nat, since: int, q: Query): seq<LogEntry>
    decreases |logs|
  {
    if logs == [] then []
    else Since(logs[0], cap, since, q) + Tail(logs[1..], cap, NextSince(logs[0], since), q)
  }

  /** The entry at position x had not been evicted when a poll first saw it written. */
  predicate StoredWhenPolled(logs: seq<seq<LogEntry>>, cap: nat, x: nat)
    decreases |logs|
  {
    if logs == [] then false
    else if x < |logs[0]| then Evicted(logs[0], cap) <= x
    else StoredWhenPolled(logs[1..], cap, x)
  }

  lemma SinceMembers(whole: seq<LogEntry>, log: seq<LogEntry>, cap: nat, since: nat, q: Query)
    requires WellNumbered(whole) && log <= whole && since <= |log|
    ensures NextSince(log, since) == |log|
    ensures Within(Since(log, cap, since, q), whole, since, |log|, q)
    ensures forall x | since <= x < |whole| :: whole[x] in Since(log, cap, since, q) <==>
              x < |log| && Evicted(log, cap) <= x && Matches(q, whole[x])
  {
    var from := From(log, cap, since);
    assert log[from..] == log[from..|log|];
    StretchMembers(whole, log, from, |log|, q);
  }

  /**
   Following from an ID sends matching entries in strictly increasing order without repeats, and misses
   exactly those that were evicted before a poll could see them.
   */
  lemma {:induction false} TailIsExact(logs: seq<seq<LogEntry>>, whole: seq<LogEntry>, cap: nat, since: nat, q: Query)
    requires Grows(logs, whole) && logs != [] && since <= |logs[0]|
    ensures Within(Tail(logs, cap, since, q), whole, since, |logs[|logs| - 1]|, q)
    ensures forall x | since <= x < |logs[|logs| - 1]| && Matches(q, whole[x]) ::
              whole[x] in Tail(logs, cap, since, q) <==> StoredWhenPolled(logs, cap, x)
    decreases |logs|
  {
    hide *;
    var end, mid := |logs[|logs| - 1]|, |logs[0]|;
    GrowthBounds(logs, whole);
    SinceMembers(whole, logs[0], cap, since, q);
    TailUnfold(logs, cap, since, q);
    var head, rest := Since(logs[0], cap, since, q), Tail(logs[1..], cap, mid, q);
    if |logs| > 1 {
      GrowsTail(logs, whole);
      assert logs[1..][|logs[1..]| - 1] == logs[|logs| - 1];
      TailIsExact(logs[1..], whole, cap, mid, q);
    } else {
      NothingWithin(whole, mid, end, q);
    }
    TailJoins(logs, whole, cap, since, q, head, rest, mid, end);
  }

  lemma GrowthBounds(logs: seq<seq<LogEntry>>, whole: seq<LogEntry>)
    requires Grows(logs, whole) && logs != []
    ensures WellNumbered(whole) && logs[0] <= whole && |logs[0]| <= |logs[|logs| - 1]| <= |whole|
  {
  }

  lemma NothingWithin(whole: seq<LogEntry>, a: nat, b: nat, q: Query)
    ensures Within([], whole, a, b, q)
  {
  }

  lemma TailUnfold(logs: seq<seq<LogEntry>>, cap: nat, since: nat, q: Query)
    requires logs != [] && since <= |logs[0]|
    ensures Tail(logs, cap, since, q) == Since(logs[0], cap, since, q) + Tail(logs[1..], cap, |logs[0]|, q)
    ensures |logs| == 1 ==> Tail(logs[1..], cap, |logs[0]|, q) == []
  {
  }

  lemma TailJoins(logs: seq<seq<LogEntry>>, whole: seq<LogEntry>, cap: nat, since: nat, q: Query,
                  head: seq<LogEntry>, rest: seq<LogEntry>, mid: nat, end: nat)
    requires logs != [] && mid == |logs[0]| && since <= mid <= end <= |whole| && WellNumbered(whole)
    requires Within(head, whole, since, mid, q) && Within(rest, whole, mid, end, q)
    requires forall x | since <= x < |whole| :: whole[x] in head <==> x < mid && Evicted(logs[0], cap) <= x && Matches(q, whole[x])
    requires forall x | mid <= x < end && Matches(q, whole[x]) :: whole[x] in rest <==> StoredWhenPolled(logs[1..], cap, x)
    ensures Within(head + rest, whole, since, end, q)
    ensures forall x | since <= x < end && Matches(q, whole[x]) :: whole[x] in head + rest <==> StoredWhenPolled(logs, cap, x)
  {
    WithinConcat(head, rest, whole, since, mid, end, q);
  }

  /** With at most cap + 1 writes between two polls nothing is missed. */
  lemma {:induction false} TailMissesNothing(logs: seq<seq<LogEntry>>, whole: seq<LogEntry>, cap: nat, since: nat, q: Query)
    requires Grows(logs, whole) && logs != [] && since <= |logs[0]| <= since + cap + 1
    requires forall i | 0 < i < |logs| :: |logs[i]| <= |logs[i - 1]| + cap + 1
    ensures Tail(logs, cap, since, q) == Select(whole[since..|logs[|logs| - 1]|], q)
    decreases |logs|
  {
    var mid, end := |logs[0]|, |logs[|logs| - 1]|;
    SinceIsStretch(logs[0], whole, cap, since, q);
    assert since <= mid <= end <= |whole|;
    hide Select, Since, Tail;
    TailUnfold(logs, cap, since, q);
    if |logs| > 1 {
      GrowsTail(logs, whole);
      assert logs[1..][|logs[1..]| - 1] == logs[|logs| - 1];
      hide *;
      TailMissesNothing(logs[1..], whole, cap, mid, q);
      SelectSplit(whole, since, mid, end, q);
    }
  }

  lemma SinceIsStretch(log: seq<LogEntry>, whole: seq<LogEntry>, cap: nat, since: nat, q: Query)
    requires log <= whole && since <= |log| <= since + cap + 1
    ensures Since(log, cap, since, q) == Select(whole[since..|log|], q)
  {
    assert From(log, cap, since) == since && log[since..] == whole[since..|log|];
  }

  lemma {:induction false} SelectNone(s: seq<LogEntry>, q: Query)
    requires forall e | e in s :: !Matches(q, e)
    ensures Select(s, q) == []
  {
    if s != [] {
      SelectNone(s[..|s| - 1], q);
    }
  }

  /** Nothing that matches is stored between the ID followed from and the end of the log. */
  lemma NothingBetween(log: seq<LogEntry>, cap: nat, lastN: int, q: Query)
    requires WellNumbered(log)
    ensures 0 <= FollowFrom(log, cap, lastN, q) <= |log|
    ensures Within(Backlog(log, cap, lastN, q), log, 0, FollowFrom(log, cap, lastN, q), q)
    ensures forall x | Evicted(log, cap) <= x < |log| && FollowFrom(log, cap, lastN, q) <= x :: !Matches(q, log[x])
  {
    var first := Evicted(log, cap);
    StretchMembers(log, log, first, |log|, q);
    assert log[first..] == log[first..|log|];
    var found, backlog := Select(log[first..|log|], q), Backlog(log, cap, lastN, q);
    if lastN > 0 {
      assert backlog == LastN(found, lastN);
      LastOfBacklog(log, found, backlog, lastN, first, q);
    }
  }

  lemma LastOfBacklog(log: seq<LogEntry>, found: seq<LogEntry>, backlog: seq<LogEntry>, n: nat, first: nat, q: Query)
    requires WellNumbered(log) && first <= |log| && n > 0 && backlog == LastN(found, n)
    requires Within(found, log, first, |log|, q)
    requires forall x | 0 <= x < |log| :: log[x] in found <==> first <= x < |log| && Matches(q, log[x])
    ensures var from := if backlog == [] then 0 else backlog[|backlog| - 1].id;
            && 0 <= from <= |log|
            && Within(backlog, log, 0, from, q)
            && forall x | first <= x < |log| && from <= x :: !Matches(q, log[x])
  {
    if backlog != [] {
      NewestOf(found, n);
      var newest := found[|found| - 1];
      hide LastN;
      forall x | first <= x < |log| && newest.id <= x
        ensures !Matches(q, log[x])
      {
        assert log[x].id == x + 1;
        if Matches(q, log[x]) {
          AtMostNewest(found, log[x]);
        }
      }
      forall e | e in backlog
        ensures 0 < e.id <= newest.id && e == log[e.id - 1] && Matches(q, e)
      {
        AtMostNewest(found, e);
      }
    }
  }

  lemma NewestOf(found: seq<LogEntry>, n: nat)
    requires n > 0 && LastN(found, n) != []
    ensures found != [] && LastN(found, n)[|LastN(found, n)| - 1] == found[|found| - 1]
    ensures forall e | e in LastN(found, n) :: e in found
    ensures Ascending(found) ==> Ascending(LastN(found, n))
  {
  }

  lemma AtMostNewest(found: seq<LogEntry>, e: LogEntry)
    requires Ascending(found) && e in found
    ensures e.id <= found[|found| - 1].id
  {
    var i :| 0 <= i < |found| && found[i] == e;
  }

  /** Following from the backlog's last ID sends what following from the end of the log would. */
  lemma SeedLosesNothing(log: seq<LogEntry>, logs: seq<seq<LogEntry>>, whole: seq<LogEntry>, cap: nat, lastN: int, q: Query)
    requires Grows([log] + logs, whole) && logs != []
    ensures Tail(logs, cap, FollowFrom(log, cap, lastN, q), q) == Tail(logs, cap, |log|, q)
  {
    hide *;
    StreamGrows(log, logs, whole);
    NothingBetween(log, cap, lastN, q);
    SinceSkips(log, logs[0], cap, FollowFrom(log, cap, lastN, q), q);
    TailUnfold(logs, cap, FollowFrom(log, cap, lastN, q), q);
    TailUnfold(logs, cap, |log|, q);
  }

  lemma SinceSkips(log: seq<LogEntry>, next: seq<LogEntry>, cap: nat, from: nat, q: Query)
    requires log <= next && from <= |log|
    requires forall x | Evicted(log, cap) <= x < |log| && from <= x :: !Matches(q, log[x])
    ensures Since(next, cap, from, q) == Since(next, cap, |log|, q)
  {
    assert Evicted(log, cap) <= Evicted(next, cap);
    var a, b := From(next, cap, from), From(next, cap, |log|);
    assert a <= b && (a < b ==> b == |log| && from <= a);
    assert forall x | a <= x < b :: next[x] == log[x];
    hide Evicted, From, Select;
    SilentGap(next, a, b, q);
  }

  lemma SilentGap(log: seq<LogEntry>, a: nat, b: nat, q: Query)
    requires a <= b <= |log|
    requires forall x | a <= x < b :: !Matches(q, log[x])
    ensures Select(log[a..], q) == Select(log[b..], q)
  {
    forall e | e in log[a..b]
      ensures !Matches(q, e)
    {
      var i :| 0 <= i < b - a && log[a..b][i] == e;
      assert e == log[a + i];
    }
    hide *;
    SelectNone(log[a..b], q);
    SelectSplit(log, a, b, |log|, q);
    assert log[a..] == log[a..|log|] && log[b..] == log[b..|log|];
  }

  /**
   A whole stream: what is sent is in ID order without repeats; of what was written before it opened exactly
   the last lastN stored matches are sent, or all of them; and of what is written later exactly the matching
   entries that were not evicted before a poll.
   */
  lemma StreamIsExact(log: seq<LogEntry>, logs: seq<seq<LogEntry>>, whole: seq<LogEntry>, cap: nat, lastN: int, q: Query)
    requires Grows([log] + logs, whole) && logs != []
    ensures var sent := Backlog(log, cap, lastN, q) + Tail(logs, cap, FollowFrom(log, cap, lastN, q), q);
            && Within(sent, whole, 0, |logs[|logs| - 1]|, q)
            && (forall x | |log| <= x < |logs[|logs| - 1]| && x < |whole| && Matches(q, whole[x]) ::
                  whole[x] in sent <==> StoredWhenPolled(logs, cap, x))
            && forall x: nat | x < |log| && x < |whole| :: whole[x] in sent <==> InBacklog(log, cap, lastN, q, x)
  {
    hide *;
    StreamGrows(log, logs, whole);
    SeedLosesNothing(log, logs, whole, cap, lastN, q);
    NothingBetween(log, cap, lastN, q);
    TailIsExact(logs, whole, cap, |log|, q);
    BacklogHolds(log, cap, lastN, q);
    StreamJoins(log, whole, |logs[|logs| - 1]|, Backlog(log, cap, lastN, q), FollowFrom(log, cap, lastN, q),
                Tail(logs, cap, |log|, q), q);
  }

  lemma StreamGrows(log: seq<LogEntry>, logs: seq<seq<LogEntry>>, whole: seq<LogEntry>)
    requires Grows([log] + logs, whole) && logs != []
    ensures Grows(logs, whole) && WellNumbered(whole) && WellNumbered(log) && log <= whole && log <= logs[0]
    ensures |log| <= |logs[0]| && |log| <= |logs[|logs| - 1]| <= |whole|
  {
    var all := [log] + logs;
    assert forall i | 0 <= i < |logs| :: logs[i] == all[i + 1];
    assert all[0] == log;
  }

  lemma StreamJoins(log: seq<LogEntry>, whole: seq<LogEntry>, end: nat, backlog: seq<LogEntry>, from: nat, tail: seq<LogEntry>, q: Query)
    requires WellNumbered(whole) && log <= whole && from <= |log| <= end <= |whole|
    requires Within(backlog, log, 0, from, q) && Within(tail, whole, |log|, end, q)
    ensures Within(backlog + tail, whole, 0, end, q)
    ensures forall x | |log| <= x < end :: whole[x] in backlog + tail <==> whole[x] in tail
    ensures forall x: nat | x < |log| :: whole[x] == log[x] && (whole[x] in backlog + tail <==> log[x] in backlog)
  {
    assert Within(backlog, whole, 0, |log|, q);
    WithinConcat(backlog, tail, whole, 0, |log|, end, q);
  }
}
