/**
 The orphan sweeper of the process watcher (internal/system/process.go), over a snapshot of /proc. A
 sweep and a registration exclude each other when the registering code holds the creation lock, so a run
 is a sequence of whole sweeps and whole registrations.
 */
module OrphanSweeper {
  import opened Options

  /** What is read of a process; excluded says that its command line matches an exclude pattern. */
  datatype ProcessInfo = ProcessInfo(ppid: int, sid: int, ignoreSIGHUP: bool, excluded: bool)

  /** One numeric entry of /proc; info is None when reading it failed. */
  datatype ProcEntry = ProcEntry(pid: int, info: Option<ProcessInfo>)

  type Snapshot = seq<ProcEntry>

  function PidsOf(snapshot: Snapshot): set<int> {
    set e | e in snapshot :: e.pid
  }

  /** The two protection records of the watcher. */
  datatype Watch = Watch(table: set<int>, ignored: seq<int>)

  predicate LeaderIgnored(e: ProcEntry, ignored: seq<int>) {
    e.info.Some? && e.info.value.sid > 0 && e.info.value.sid != e.pid && e.info.value.sid in ignored
  }

  predicate IsOrphan(e: ProcEntry) { e.info.Some? && e.info.value.ppid == 1 }

  predicate IsExempt(e: ProcEntry) { e.info.Some? && (e.info.value.ignoreSIGHUP || e.info.value.excluded) }

  /** The visit leaves the process in the protected table. */
  predicate Protects(e: ProcEntry, ignored: seq<int>) {
    e.pid in ignored || LeaderIgnored(e, ignored) || (IsOrphan(e) && IsExempt(e))
  }

  /** The visit signals the process. */
  predicate Signals(e: ProcEntry, w: Watch) {
    e.pid !in w.table && IsOrphan(e) && !Protects(e, w.ignored)
  }

  /** The table after visiting the entries in order. */
  function TableAfter(entries: Snapshot, w: Watch): set<int> {
    if entries == [] then w.table
    else
      var e := entries[|entries| - 1];
      TableAfter(entries[..|entries| - 1], w) + (if Protects(e, w.ignored) then {e.pid} else {})
  }

  /** The processes signalled while visiting the entries in order. */
  function SignalledBy(entries: Snapshot, w: Watch): seq<int> {
    if entries == [] then []
    else
      var init, e := entries[..|entries| - 1], entries[|entries| - 1];
      SignalledBy(init, w) + (if Signals(e, w.(table := TableAfter(init, w))) then [e.pid] else [])
  }

  /**
   What the clean-up makes of the ignore list. Ranging over the list yields its indices, so the new list
   holds those indices below its length that happen to be process IDs, and not the IDs it held.
   */
  function IndicesIn(n: nat, pids: set<int>): seq<int> {
    if n == 0 then [] else IndicesIn(n - 1, pids) + (if n - 1 in pids then [n - 1] else [])
  }

  function Swept(w: Watch, snapshot: Snapshot): Watch {
    Watch(TableAfter(snapshot, w) * PidsOf(snapshot), IndicesIn(|w.ignored|, PidsOf(snapshot)))
  }

  lemma HasElement(s: set<int>)
    ensures s == {} || exists x :: x in s
  {
    if forall x :: x !in s {
      assert s == {};
    }
  }

  class ProcessWatcher {
    var ignoreSIGHUPTable: set<int>
    var ignorePIDsTerminate: seq<int>

    function View(): Watch
      reads this
    {
      Watch(ignoreSIGHUPTable, ignorePIDsTerminate)
    }

    constructor ()
      ensures View() == Watch({}, [])
    {
      ignoreSIGHUPTable, ignorePIDsTerminate := {}, [];
    }

    method AddPIDIgnoreTerminate(pid: int)
      modifies this`ignorePIDsTerminate
      ensures View() == Registered(old(View()), pid)
      ensures ignorePIDsTerminate == old(ignorePIDsTerminate) + [pid]
    {
      ignorePIDsTerminate := ignorePIDsTerminate + [pid];
    }

    /** The search through the ignore list. */
    method IsIgnored(pid: int) returns (found: bool)
      ensures found <==> pid in ignorePIDsTerminate
    {
      found := false;
      for k := 0 to |ignorePIDsTerminate|
        invariant !found
        invariant pid !in ignorePIDsTerminate[..k]
      {
        if pid == ignorePIDsTerminate[k] {
          return true;
        }
      }
    }

    method TerminateOrphans(snapshot: Snapshot) returns (signalled: seq<int>)
      modifies this
      ensures View() == Swept(old(View()), snapshot)
      ensures signalled == SignalledBy(snapshot, old(View()))
    {
      ghost var w := View();
      var validPIDs: set<int> := {};
      signalled := [];
      for k := 0 to |snapshot|
        modifies this`ignoreSIGHUPTable
        invariant ignorePIDsTerminate == w.ignored
        invariant validPIDs == PidsOf(snapshot[..k])
        invariant ignoreSIGHUPTable == TableAfter(snapshot[..k], w)
        invariant signalled == SignalledBy(snapshot[..k], w)
      {
        var pid, info := snapshot[k].pid, snapshot[k].info;
        VisitNext(snapshot, k, w);
        validPIDs := validPIDs + {pid};
        if pid in ignoreSIGHUPTable {
          continue;
        }
        var found := IsIgnored(pid);
        if found {
          ignoreSIGHUPTable := ignoreSIGHUPTable + {pid};
          continue;
        }
        if info.None? {
          continue;
        }
        if info.value.sid > 0 && info.value.sid != pid {
          found := IsIgnored(info.value.sid);
          if found {
            ignoreSIGHUPTable := ignoreSIGHUPTable + {pid};
            continue;
          }
        }
        if info.value.ppid == 1 {
          if info.value.ignoreSIGHUP {
            ignoreSIGHUPTable := ignoreSIGHUPTable + {pid};
            continue;
          }
          if info.value.excluded {
            ignoreSIGHUPTable := ignoreSIGHUPTable + {pid};
            continue;
          }
          signalled := signalled + [pid];
        }
      }
      assert snapshot[..|snapshot|] == snapshot;
      CleanUp(validPIDs);
    }

    /** The end of a sweep: forget what is gone. */
    method CleanUp(validPIDs: set<int>)
      modifies this
      ensures ignoreSIGHUPTable == old(ignoreSIGHUPTable) * validPIDs
      ensures ignorePIDsTerminate == IndicesIn(|old(ignorePIDsTerminate)|, validPIDs)
    {
      var pids: set<int> := ignoreSIGHUPTable;
      while pids != {}
        modifies this`ignoreSIGHUPTable
        invariant pids <= old(ignoreSIGHUPTable)
        invariant ignoreSIGHUPTable == old(ignoreSIGHUPTable) * (validPIDs + pids)
        decreases pids
      {
        HasElement(pids);
        var pid :| pid in pids;
        pids := pids - {pid};
        if pid !in validPIDs {
          ignoreSIGHUPTable := ignoreSIGHUPTable - {pid};
        }
      }
      var newIgnoreList: seq<int> := [];
      for pid := 0 to |ignorePIDsTerminate|
        invariant newIgnoreList == IndicesIn(pid, validPIDs)
      {
        if pid in validPIDs {
          newIgnoreList := newIgnoreList + [pid];
        }
      }
      ignorePIDsTerminate := newIgnoreList;
    }
  }

  function Registered(w: Watch, pid: int): Watch {
    w.(ignored := w.ignored + [pid])
  }

  lemma VisitNext(snapshot: Snapshot, k: nat, w: Watch)
    requires k < |snapshot|
    ensures snapshot[..k + 1][..k] == snapshot[..k] && snapshot[..k + 1][k] == snapshot[k]
    ensures PidsOf(snapshot[..k + 1]) == PidsOf(snapshot[..k]) + {snapshot[k].pid}
  {
    assert snapshot[..k + 1] == snapshot[..k] + [snapshot[k]];
  }

  // What one sweep does.

  lemma {:induction false} TableGrows(entries: Snapshot, w: Watch)
    ensures w.table <= TableAfter(entries, w)
    ensures forall e | e in entries && Protects(e, w.ignored) :: e.pid in TableAfter(entries, w)
  {
    if entries != [] {
      TableGrows(entries[..|entries| - 1], w);
      assert entries == entries[..|entries| - 1] + [entries[|entries| - 1]];
    }
  }

  lemma {:induction false} TableOnlyGetsVisited(entries: Snapshot, w: Watch)
    ensures TableAfter(entries, w) <= w.table + PidsOf(entries)
  {
    if entries != [] {
      TableOnlyGetsVisited(entries[..|entries| - 1], w);
      assert entries == entries[..|entries| - 1] + [entries[|entries| - 1]];
    }
  }

  predicate DistinctPids(snapshot: Snapshot) {
    forall i, j | 0 <= i < j < |snapshot| :: snapshot[i].pid != snapshot[j].pid
  }

  /** A sweep signals exactly the orphans that neither record protects and that are not exempt. */
  lemma {:induction false} SweepSignalsExactly(entries: Snapshot, w: Watch, pid: int)
    requires DistinctPids(entries)
    ensures pid in SignalledBy(entries, w) <==> exists e :: e in entries && e.pid == pid && Signals(e, w)
  {
    if entries != [] {
      var init, last := entries[..|entries| - 1], entries[|entries| - 1];
      assert entries == init + [last];
      SweepSignalsExactly(init, w, pid);
      TableGrows(init, w);
      TableOnlyGetsVisited(init, w);
      forall e | e in init
        ensures e.pid != last.pid
      {
        var i :| 0 <= i < |init| && init[i] == e;
        assert entries[i].pid != entries[|entries| - 1].pid;
      }
    }
  }

  /**
   A process is signalled exactly when process 1 is its parent, it can be read, it neither ignores SIGHUP
   nor matches an exclude pattern, neither record has it, and the ignore list does not have its leader.
   */
  lemma SignalledIff(entries: Snapshot, w: Watch, pid: int)
    requires DistinctPids(entries)
    ensures pid in SignalledBy(entries, w) <==>
            exists e :: e in entries && e.pid == pid && e.info.Some? && e.info.value.ppid == 1
                        && !e.info.value.ignoreSIGHUP && !e.info.value.excluded
                        && pid !in w.table && pid !in w.ignored
                        && !(e.info.value.sid > 0 && e.info.value.sid != pid && e.info.value.sid in w.ignored)
  {
    SweepSignalsExactly(entries, w, pid);
    hide SignalledBy;
  }

  /**
   After a sweep the table has exactly the processes it found that were in it before, are in the ignore
   list themselves or by their leader, or are exempt orphans.
   */
  lemma TableIff(snapshot: Snapshot, w: Watch, pid: int)
    ensures pid in Swept(w, snapshot).table <==>
            exists e :: e in snapshot && e.pid == pid
                        && (|| pid in w.table || pid in w.ignored
                            || (e.info.Some? && e.info.value.sid > 0 && e.info.value.sid != pid && e.info.value.sid in w.ignored)
                            || (e.info.Some? && e.info.value.ppid == 1 && (e.info.value.ignoreSIGHUP || e.info.value.excluded)))
  {
    RecordedIsInTable(w, snapshot, pid);
    hide Swept;
  }

  /** And the ignore list has exactly those of its own indices that are process IDs it found. */
  lemma IgnoredIff(snapshot: Snapshot, w: Watch, pid: int)
    ensures pid in Swept(w, snapshot).ignored <==> 0 <= pid < |w.ignored| && exists e :: e in snapshot && e.pid == pid
  {
    IgnoreListKeeps(|w.ignored|, PidsOf(snapshot), pid);
    hide IndicesIn;
  }

  /** A process in either record is not signalled, and stays in the table while it exists. */
  lemma {:induction false} SweepSparesProtected(entries: Snapshot, w: Watch, pid: int)
    requires pid in w.table || pid in w.ignored
    ensures pid !in SignalledBy(entries, w)
  {
    if entries != [] {
      SweepSparesProtected(entries[..|entries| - 1], w, pid);
      TableGrows(entries[..|entries| - 1], w);
    }
  }

  lemma SweepKeepsProtected(snapshot: Snapshot, w: Watch, pid: int)
    requires (pid in w.table || pid in w.ignored) && pid in PidsOf(snapshot)
    ensures pid in Swept(w, snapshot).table
  {
    TableGrows(snapshot, w);
    var e :| e in snapshot && e.pid == pid;
  }

  /** A clean-up keeps a registered process in the ignore list exactly when its ID is smaller than the list is long. */
  lemma {:induction false} IgnoreListKeeps(n: nat, pids: set<int>, pid: int)
    ensures pid in IndicesIn(n, pids) <==> 0 <= pid < n && pid in pids
  {
    if n > 0 {
      IgnoreListKeeps(n - 1, pids, pid);
    }
  }

  // Whole runs.

  datatype Event = Register(pid: int) | Sweep(snapshot: Snapshot)

  function Next(w: Watch, e: Event): Watch {
    match e
    case Register(pid) => Registered(w, pid)
    case Sweep(snapshot) => Swept(w, snapshot)
  }

  function WatchAfter(w: Watch, events: seq<Event>): Watch
    decreases |events|
  {
    if events == [] then w else WatchAfter(Next(w, events[0]), events[1..])
  }

  predicate NeverSignalled(w: Watch, events: seq<Event>, pid: int)
    decreases |events|
  {
    events == [] ||
    ((events[0].Sweep? ==> pid !in SignalledBy(events[0].snapshot, w))
     && NeverSignalled(Next(w, events[0]), events[1..], pid))
  }

  /** The process exists at every sweep. */
  predicate AlwaysPresent(events: seq<Event>, pid: int) {
    forall e | e in events && e.Sweep? :: pid in PidsOf(e.snapshot)
  }

  lemma {:induction false} ProtectedForGood(w: Watch, events: seq<Event>, pid: int)
    requires pid in w.table || pid in w.ignored
    requires AlwaysPresent(events, pid)
    ensures NeverSignalled(w, events, pid)
    decreases |events|
  {
    if events != [] {
      assert events[0] in events;
      if events[0].Sweep? {
        SweepSparesProtected(events[0].snapshot, w, pid);
        SweepKeepsProtected(events[0].snapshot, w, pid);
      }
      ProtectedForGood(Next(w, events[0]), events[1..], pid);
    }
  }

  /**
   Whatever was swept and registered before and after: a process registered under the creation lock is
   not signalled while it lives, although the clean-up loses it from the ignore list.
   */
  lemma RegisteredIsNeverSignalled(before: seq<Event>, pid: int, events: seq<Event>)
    requires AlwaysPresent(events, pid)
    ensures NeverSignalled(Registered(WatchAfter(Watch({}, []), before), pid), events, pid)
  {
    ProtectedForGood(Registered(WatchAfter(Watch({}, []), before), pid), events, pid);
  }

  function AllRegistered(w: Watch, pids: seq<int>): Watch {
    w.(ignored := w.ignored + pids)
  }

  /**
   The children of a registered session leader that are there, and readable, at the first sweep after the
   registration are protected for good as well, whatever else is registered before that sweep.
   */
  lemma EarlyMemberIsNeverSignalled(before: seq<Event>, leader: int, between: seq<int>, first: Snapshot,
                                    events: seq<Event>, pid: int)
    requires leader > 0 && leader != pid
    requires pid in PidsOf(first) && AlwaysPresent(events, pid)
    requires forall e | e in first && e.pid == pid :: e.info.Some? && e.info.value.sid == leader
    ensures NeverSignalled(AllRegistered(Registered(WatchAfter(Watch({}, []), before), leader), between),
                           [Sweep(first)] + events, pid)
  {
    var w := AllRegistered(Registered(WatchAfter(Watch({}, []), before), leader), between);
    var e :| e in first && e.pid == pid;
    TableGrows(first, w);
    assert LeaderIgnored(e, w.ignored) && pid in Swept(w, first).table;
    MemberIsSpared(first, w, pid);
    ProtectedForGood(Swept(w, first), events, pid);
    assert ([Sweep(first)] + events)[1..] == events;
  }

  lemma {:induction false} MemberIsSpared(entries: Snapshot, w: Watch, pid: int)
    requires forall e | e in entries && e.pid == pid :: Protects(e, w.ignored)
    ensures pid !in SignalledBy(entries, w)
  {
    if entries != [] {
      MemberIsSpared(entries[..|entries| - 1], w, pid);
      assert entries[|entries| - 1] in entries;
    }
  }

  /** Orphaned and not exempt, in the session of the given leader. */
  predicate IsOrphanOf(e: ProcEntry, leader: int) {
    IsOrphan(e) && !IsExempt(e) && e.info.value.sid == leader && leader > 0 && leader != e.pid
  }

  /** The clean-up of a sweep left this ID in the ignore list, though only as an index, or it was registered since. */
  predicate StillIgnored(w: Watch, first: Snapshot, regs: seq<int>, pid: int) {
    pid in regs || (0 <= pid < |w.ignored| && pid in PidsOf(first))
  }

  /** The sweep found the process and left it in the table. */
  predicate Recorded(w: Watch, first: Snapshot, pid: int) {
    exists e :: e in first && e.pid == pid && (pid in w.table || Protects(e, w.ignored))
  }

  lemma {:induction false} TableHolds(entries: Snapshot, w: Watch, pid: int)
    ensures pid in TableAfter(entries, w) <==> pid in w.table || exists e :: e in entries && e.pid == pid && Protects(e, w.ignored)
  {
    if entries != [] {
      TableHolds(entries[..|entries| - 1], w, pid);
      assert entries == entries[..|entries| - 1] + [entries[|entries| - 1]];
    }
  }

  lemma RecordedIsInTable(w: Watch, first: Snapshot, pid: int)
    ensures pid in Swept(w, first).table <==> Recorded(w, first, pid)
  {
    TableHolds(first, w, pid);
    if pid in w.table && pid in PidsOf(first) {
      var e :| e in first && e.pid == pid;
    }
  }

  /**
   After any history, one sweep and any registrations, the next sweep spares an orphaned member of a
   session exactly when the sweep before recorded it, or it or its leader is still in the ignore list.
   */
  lemma MemberIsSparedIff(w: Watch, first: Snapshot, regs: seq<int>, second: Snapshot, leader: int, member: ProcEntry)
    requires DistinctPids(second) && member in second && IsOrphanOf(member, leader)
    ensures member.pid !in SignalledBy(second, AllRegistered(Swept(w, first), regs)) <==>
              Recorded(w, first, member.pid) || StillIgnored(w, first, regs, member.pid) || StillIgnored(w, first, regs, leader)
  {
    var pid, w' := member.pid, AllRegistered(Swept(w, first), regs);
    IgnoreListKeeps(|w.ignored|, PidsOf(first), pid);
    IgnoreListKeeps(|w.ignored|, PidsOf(first), leader);
    RecordedIsInTable(w, first, pid);
    SweepSignalsExactly(second, w', pid);
    assert Signals(member, w') <==>
           !(Recorded(w, first, pid) || StillIgnored(w, first, regs, pid) || StillIgnored(w, first, regs, leader)) by {
      hide Recorded, SignalledBy;
    }
    forall e | e in second && e.pid == pid
      ensures e == member
    {
      SamePidSameEntry(second, e, member);
    }
  }

  /** So a member that was not there at that sweep has nothing but its leader's place in the list. */
  lemma LateMemberIsSparedIff(w: Watch, first: Snapshot, regs: seq<int>, second: Snapshot, leader: int, member: ProcEntry)
    requires DistinctPids(second) && member in second && IsOrphanOf(member, leader)
    requires member.pid !in PidsOf(first) && member.pid !in regs
    ensures member.pid !in SignalledBy(second, AllRegistered(Swept(w, first), regs)) <==>
              leader in regs || (leader < |w.ignored| && leader in PidsOf(first))
  {
    MemberIsSparedIff(w, first, regs, second, leader, member);
    assert !Recorded(w, first, member.pid);
    hide SignalledBy;
  }

  lemma SamePidSameEntry(snapshot: Snapshot, a: ProcEntry, b: ProcEntry)
    requires DistinctPids(snapshot) && a in snapshot && b in snapshot && a.pid == b.pid
    ensures a == b
  {
    var i :| 0 <= i < |snapshot| && snapshot[i] == a;
    var j :| 0 <= j < |snapshot| && snapshot[j] == b;
    assert i == j;
  }

  /**
   So a late member is lost in the plainest run: the first sweep has dropped the leader from the list, and
   once the child is reparented to process 1 the next sweep signals it.
   */
  lemma LateMemberIsSignalled(leader: int, pid: int, leaderInfo: ProcessInfo)
    requires leader > 0 && leader != pid
    ensures var child := ProcEntry(pid, Some(ProcessInfo(1, leader, false, false)));
            var shell := ProcEntry(leader, Some(leaderInfo));
            var w := WatchAfter(Watch({}, []), [Register(leader), Sweep([shell])]);
            pid in SignalledBy([shell, child], w)
  {
    var child := ProcEntry(pid, Some(ProcessInfo(1, leader, false, false)));
    var shell := ProcEntry(leader, Some(leaderInfo));
    var w1 := Registered(Watch({}, []), leader);
    var w := Swept(w1, [shell]);
    assert [Register(leader), Sweep([shell])][1..] == [Sweep([shell])];
    assert WatchAfter(w1, [Sweep([shell])]) == w;
    assert w1.ignored == [leader] && AllRegistered(w, []) == w;
    assert [shell, child][1] == child && child in [shell, child];
    LateMemberIsSparedIff(w1, [shell], [], [shell, child], leader, child);
  }
}
