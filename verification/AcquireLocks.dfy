/**
 One-shot, expiring claims on detached sessions (internal/grpc/acquire.go), and their use by the Shell
 RPC (internal/grpc/shell.go).
 */
module AcquireLocks {
  import opened Options
  import opened Sessions
  import opened Units

  const SESSION_LOCK_TTL: int := 30 * SECOND

  datatype SessionLock = SessionLock(sessionId: string, expiresAt: int)

  type LockStore = map<string, SessionLock>

  /** A stored session; only PTY sessions have a shell-exit channel. */
  datatype StoredSession = StoredSession(isPty: bool, session: Session)

  type SessionStore = map<string, StoredSession>

  /** The lock still keeps others from acquiring its session. */
  predicate Live(lock: SessionLock, now: int) { now < lock.expiresAt }

  /** The Shell RPC still accepts the lock. */
  predicate Acceptable(lock: SessionLock, now: int) { now <= lock.expiresAt }

  predicate Locked(locks: LockStore, sessionId: string, now: int) {
    exists k | k in locks :: locks[k].sessionId == sessionId && Live(locks[k], now)
  }

  datatype AttachRefusal = AttachNotEnabled | UnknownSession | NotPty | HasExited | ClientAttached

  function ValidateSessionForAttach(p: Policy, sessions: SessionStore, id: string): Option<AttachRefusal> {
    if !p.allowSessionDetach then Some(AttachNotEnabled)
    else if id !in sessions then Some(UnknownSession)
    else if !sessions[id].isPty then Some(NotPty)
    else if sessions[id].session.ptyDone then Some(HasExited)
    else if sessions[id].session.attachedSender.Some? then Some(ClientAttached)
    else None
  }

  /** Acquire looks at the locks of such a session. */
  predicate AttachableNow(p: Policy, sessions: SessionStore, id: string) {
    id != "" && ValidateSessionForAttach(p, sessions, id).None?
  }

  /** Stored, and not known to have exited; only PTY sessions tell. */
  predicate Runs(sessions: SessionStore, id: string) {
    id in sessions && (sessions[id].isPty ==> !sessions[id].session.ptyDone)
  }

  /** The store after a request for a lock on a session that may be attached. */
  function WithLock(locks: LockStore, lockId: string, sessionId: string, now: int): LockStore {
    if Locked(locks, sessionId, now) then locks
    else locks[lockId := SessionLock(sessionId, now + SESSION_LOCK_TTL)]
  }

  datatype FailureReason = Unspecified | NotFound | AlreadyAcquired

  datatype AcquireResponse =
    | PermissionDenied
    | InvalidArgument
    | Refused(reason: FailureReason)
    | Internal
    | Granted(lockId: string)

  /** The session is alive, nobody is attached, and no lock on it is live. */
  predicate Acquirable(p: Policy, sessions: SessionStore, locks: LockStore, id: string, now: int) {
    && p.allowSessionDetach && id != "" && id in sessions
    && sessions[id].isPty && !sessions[id].session.ptyDone && sessions[id].session.attachedSender.None?
    && !Locked(locks, id, now)
  }

  /** ListSessions shows the session. */
  predicate Listed(sessions: SessionStore, locks: LockStore, id: string, now: int) {
    && id in sessions
    && sessions[id].isPty && sessions[id].session.deleted.None? && !sessions[id].session.ptyDone
    && sessions[id].session.attachedSender.None?
    && !Locked(locks, id, now)
  }

  datatype ShellOutcome =
    | NotPermitted
    | PtyRequired
    | LockNotFound
    | LockExpired
    | SessionGone
    | Attach(sessionId: string)

  class LockService {
    const policy: Policy
    var sessions: SessionStore
    var locks: LockStore

    constructor (policy: Policy)
      ensures this.policy == policy && sessions == map[] && locks == map[]
    {
      this.policy := policy;
      sessions, locks := map[], map[];
    }

    /** drawn is the random identifier for this request, if drawing one succeeded; now is the clock inside the mutex. */
    method AcquireSession(sessionId: string, drawn: Option<string>, now: int) returns (r: AcquireResponse)
      modifies this`locks
      ensures r.Granted? <==> Acquirable(policy, sessions, old(locks), sessionId, now) && drawn.Some?
      ensures r.Granted? ==> r.lockId == drawn.value
      ensures r.Granted? ==> locks == old(locks)[drawn.value := SessionLock(sessionId, now + 30_000_000_000)]
      ensures !r.Granted? ==> locks == old(locks)
      ensures r.Granted? <==>
                && policy.allowSessionDetach && sessionId != "" && drawn.Some? && sessionId in sessions
                && sessions[sessionId].isPty && !sessions[sessionId].session.ptyDone
                && sessions[sessionId].session.attachedSender.None?
                && forall k | k in old(locks) && old(locks)[k].sessionId == sessionId :: old(locks)[k].expiresAt <= now
      ensures r == Internal <==> AttachableNow(policy, sessions, sessionId) && drawn.None?
      ensures locks == if AttachableNow(policy, sessions, sessionId) && drawn.Some?
                       then WithLock(old(locks), drawn.value, sessionId, now) else old(locks)
      ensures r == PermissionDenied <==> !policy.allowSessionDetach
      ensures r == InvalidArgument <==> policy.allowSessionDetach && sessionId == ""
      ensures r == Refused(NotFound) <==>
                policy.allowSessionDetach && sessionId != "" && !Runs(sessions, sessionId)
      ensures r == Refused(Unspecified) <==>
                policy.allowSessionDetach && sessionId != "" && Runs(sessions, sessionId) && !sessions[sessionId].isPty
      ensures r == Refused(AlreadyAcquired) <==>
                && policy.allowSessionDetach && sessionId != "" && Runs(sessions, sessionId) && sessions[sessionId].isPty
                && (sessions[sessionId].session.attachedSender.Some? || (drawn.Some? && Locked(old(locks), sessionId, now)))
    {
      if !policy.allowSessionDetach {
        return PermissionDenied;
      }
      if sessionId == "" {
        return InvalidArgument;
      }
      var refusal := ValidateSessionForAttach(policy, sessions, sessionId);
      if refusal.Some? {
        match refusal.value
        case UnknownSession => return Refused(NotFound);
        case HasExited => return Refused(NotFound);
        case AttachNotEnabled => return Refused(AlreadyAcquired);
        case ClientAttached => return Refused(AlreadyAcquired);
        case NotPty => return Refused(Unspecified);
      }
      if drawn.None? {
        return Internal;
      }
      var lockId := drawn.value;
      var existingLock := false;
      var keys := locks.Keys;
      while keys != {} && !existingLock
        invariant keys <= locks.Keys
        invariant existingLock ==> Locked(locks, sessionId, now)
        invariant !existingLock ==>
                    forall k | k in locks.Keys - keys :: !(locks[k].sessionId == sessionId && Live(locks[k], now))
        decreases keys
      {
        var k :| k in keys;
        keys := keys - {k};
        if locks[k].sessionId == sessionId && now < locks[k].expiresAt {
          existingLock := true;
        }
      }
      if existingLock {
        return Refused(AlreadyAcquired);
      }
      locks := locks[lockId := SessionLock(sessionId, now + SESSION_LOCK_TTL)];
      return Granted(lockId);
    }

    method ListSessions(now: int) returns (r: Option<seq<string>>)
      ensures r.Some? <==> policy.allowSessionDetach
      ensures r.Some? ==> forall id: string :: multiset(r.value)[id] == if Listed(sessions, locks, id, now) then 1 else 0
      ensures r.Some? ==> forall id: string :: multiset(r.value)[id] == 1 <==>
                && id in sessions && sessions[id].isPty && sessions[id].session.deleted.None?
                && !sessions[id].session.ptyDone && sessions[id].session.attachedSender.None?
                && forall k | k in locks && locks[k].sessionId == id :: locks[k].expiresAt <= now
    {
      if !policy.allowSessionDetach {
        return None;
      }
      var locked: set<string> := {};
      var keys := locks.Keys;
      while keys != {}
        invariant keys <= locks.Keys
        invariant forall id: string :: id in locked <==>
                    exists k | k in locks.Keys - keys :: locks[k].sessionId == id && Live(locks[k], now)
        decreases keys
      {
        var k :| k in keys;
        keys := keys - {k};
        if now < locks[k].expiresAt {
          locked := locked + {locks[k].sessionId};
        }
      }
      assert forall id: string :: id in locked <==> Locked(locks, id, now);
      var listed: seq<string> := [];
      var ids := sessions.Keys;
      while ids != {}
        invariant ids <= sessions.Keys
        invariant forall id: string :: multiset(listed)[id] ==
                    if id in sessions.Keys - ids && Listed(sessions, locks, id, now) then 1 else 0
        decreases ids
      {
        var id :| id in ids;
        ids := ids - {id};
        var s := sessions[id];
        if !s.isPty || s.session.deleted.Some? || s.session.ptyDone {
          continue;
        }
        if s.session.attachedSender.Some? || id in locked {
          continue;
        }
        listed := listed + [id];
      }
      return Some(listed);
    }

    method CleanupExpiredLocks(now: int)
      modifies this`locks
      ensures locks == map k | k in old(locks) && old(locks)[k].expiresAt >= now :: old(locks)[k]
    {
      var keys := locks.Keys;
      while keys != {}
        invariant keys <= locks.Keys <= old(locks).Keys
        invariant forall k | k in locks :: locks[k] == old(locks)[k]
        invariant forall k | k in old(locks).Keys - keys :: k in locks <==> Acceptable(old(locks)[k], now)
        decreases keys
      {
        var k :| k in keys;
        keys := keys - {k};
        if now > locks[k].expiresAt {
          locks := locks - {k};
        }
      }
    }

    /** The lock branch of the Shell RPC. */
    method ConsumeLock(lockId: string, usePty: bool, now: int) returns (r: ShellOutcome)
      modifies this`locks
      ensures locks == if policy.allowSessionDetach && usePty then old(locks) - {lockId} else old(locks)
      ensures r.Attach? <==>
              && policy.allowSessionDetach && usePty && lockId in old(locks)
              && now <= old(locks)[lockId].expiresAt && old(locks)[lockId].sessionId in sessions
      ensures r.Attach? ==> r.sessionId == old(locks)[lockId].sessionId
      ensures r == NotPermitted <==> !policy.allowSessionDetach
      ensures r == PtyRequired <==> policy.allowSessionDetach && !usePty
      ensures r == LockNotFound <==> policy.allowSessionDetach && usePty && lockId !in old(locks)
      ensures r == LockExpired <==>
                policy.allowSessionDetach && usePty && lockId in old(locks) && now > old(locks)[lockId].expiresAt
    {
      if !policy.allowSessionDetach {
        return NotPermitted;
      }
      if !usePty {
        return PtyRequired;
      }
      if lockId !in locks {
        return LockNotFound;
      }
      var lock := locks[lockId];
      locks := locks - {lockId};
      if now > lock.expiresAt {
        return LockExpired;
      }
      if lock.sessionId !in sessions {
        return SessionGone;
      }
      return Attach(lock.sessionId);
    }
  }

  /**
   Every listed session would be acquired in the same state, but for one whose name is empty; and what
   would be acquired is listed, but for a session the collector has just ended.
   */
  lemma ListedIffAcquirable(p: Policy, sessions: SessionStore, locks: LockStore, id: string, now: int)
    requires p.allowSessionDetach
    ensures Listed(sessions, locks, id, now) ==> (Acquirable(p, sessions, locks, id, now) <==> id != "")
    ensures Acquirable(p, sessions, locks, id, now) ==>
              (Listed(sessions, locks, id, now) <==> sessions[id].session.deleted.None?)
  {
  }

  // Whole runs of the lock store.

  /** The clock, the stored locks, and how often each identifier was handed out and led to an attach. */
  datatype State = State(now: int, locks: LockStore, issued: multiset<string>, attached: multiset<string>)

  datatype Step =
    | Tick(to: int)
    | Acquire(lockId: string, sessionId: string)
    | Consume(lockId: string, sessionExists: bool)
    | CleanupVisit(lockId: string, readAt: int)   // the clock may have been read a while ago

  predicate Enabled(s: State, step: Step) {
    match step
    case Tick(to) => s.now <= to
    case Acquire(_, _) => true
    case Consume(_, _) => true
    case CleanupVisit(k, readAt) => k in s.locks && readAt <= s.now
  }

  function Apply(s: State, step: Step): State
    requires Enabled(s, step)
  {
    match step
    case Tick(to) => s.(now := to)
    case Acquire(lockId, sessionId) =>
      s.(locks := WithLock(s.locks, lockId, sessionId, s.now),
         issued := if Locked(s.locks, sessionId, s.now) then s.issued else s.issued + multiset{lockId})
    case Consume(lockId, sessionExists) =>
      if lockId !in s.locks then s
      else
        var attaches := Acceptable(s.locks[lockId], s.now) && sessionExists;
        s.(locks := s.locks - {lockId}, attached := if attaches then s.attached + multiset{lockId} else s.attached)
    case CleanupVisit(k, readAt) =>
      if readAt > s.locks[k].expiresAt then s.(locks := s.locks - {k}) else s
  }

  /** No two live locks on one session. */
  ghost predicate AtMostOneLive(s: State) {
    forall j, k | j in s.locks && k in s.locks && s.locks[j].sessionId == s.locks[k].sessionId
               && Live(s.locks[j], s.now) && Live(s.locks[k], s.now) :: j == k
  }

  /** A stored identifier has been handed out once more than it led to an attach; no attach is unpaid. */
  ghost predicate AttachesArePaid(s: State) {
    forall id: string :: s.attached[id] + (if id in s.locks then 1 else 0) <= s.issued[id]
  }

  ghost predicate Inv(s: State) {
    AtMostOneLive(s) && AttachesArePaid(s)
  }

  lemma StepKeepsInv(s: State, step: Step)
    requires Inv(s) && Enabled(s, step)
    ensures Inv(Apply(s, step))
  {
  }

  /** Cleanup removes the lock it visits once it saw that expire, and none that the Shell RPC would still accept. */
  lemma CleanupKeepsAcceptable(s: State, k: string, readAt: int)
    requires Enabled(s, CleanupVisit(k, readAt))
    ensures forall j | j in s.locks && Acceptable(s.locks[j], s.now) :: j in Apply(s, CleanupVisit(k, readAt)).locks
    ensures var after := Apply(s, CleanupVisit(k, readAt)).locks;
            (k in after <==> readAt <= s.locks[k].expiresAt) && after - {k} == s.locks - {k}
  {
  }

  /** Using an identifier attaches exactly when its lock is stored and not yet past its end and the session is there. */
  lemma UseAttachesIff(s: State, lockId: string, sessionExists: bool)
    ensures var s' := Apply(s, Consume(lockId, sessionExists));
            && s'.locks == s.locks - {lockId} && s'.issued == s.issued
            && (s'.attached == s.attached + multiset{lockId}
                <==> lockId in s.locks && s.now <= s.locks[lockId].expiresAt && sessionExists)
            && (s'.attached == s.attached || s'.attached == s.attached + multiset{lockId})
  {
  }

  ghost predicate IsRun(s: State, steps: seq<Step>)
    decreases |steps|
  {
    steps == [] || (Enabled(s, steps[0]) && IsRun(Apply(s, steps[0]), steps[1..]))
  }

  ghost function After(s: State, steps: seq<Step>): State
    requires IsRun(s, steps)
    decreases |steps|
  {
    if steps == [] then s else After(Apply(s, steps[0]), steps[1..])
  }

  lemma {:induction false} RunKeepsInv(s: State, steps: seq<Step>)
    requires Inv(s) && IsRun(s, steps)
    ensures Inv(After(s, steps))
    decreases |steps|
  {
    if steps != [] {
      StepKeepsInv(s, steps[0]);
      RunKeepsInv(Apply(s, steps[0]), steps[1..]);
    }
  }

  /**
   In every run from an empty store: one live lock per session; two locks the Shell RPC would accept on
   one session only at the very instant one of them expires; and no more attaches with an identifier than
   times it was handed out, so at most one when identifiers do not repeat.
   */
  lemma LockProtocol(now: int, steps: seq<Step>)
    requires IsRun(State(now, map[], multiset{}, multiset{}), steps)
    ensures var s := After(State(now, map[], multiset{}, multiset{}), steps);
            && AtMostOneLive(s)
            && (forall j, k | j in s.locks && k in s.locks && j != k && s.locks[j].sessionId == s.locks[k].sessionId
                           && Acceptable(s.locks[j], s.now) && Acceptable(s.locks[k], s.now) ::
                  s.locks[j].expiresAt == s.now || s.locks[k].expiresAt == s.now)
            && (forall id: string :: s.issued[id] <= 1 ==> s.attached[id] <= 1)
            && (forall id: string :: s.issued[id] <= 1 && id in s.locks ==> s.attached[id] == 0)
  {
    RunKeepsInv(State(now, map[], multiset{}, multiset{}), steps);
  }

  /** A lock that is granted leads to an attach when it is used in time and the session is still there, and is gone then. */
  lemma GrantedLockAttaches(s: State, lockId: string, sessionId: string, wait: nat)
    requires !Locked(s.locks, sessionId, s.now) && wait <= 30_000_000_000
    ensures var s1 := Apply(s, Acquire(lockId, sessionId));
            var s2 := Apply(s1, Tick(s.now + wait));
            var s3 := Apply(s2, Consume(lockId, true));
            && s1.locks == s.locks[lockId := SessionLock(sessionId, s.now + 30_000_000_000)]
            && s1.issued == s.issued + multiset{lockId}
            && s3.attached == s.attached + multiset{lockId} && lockId !in s3.locks
  {
  }

  /** At that instant there can be two: the old lock is still accepted when a new one is granted. */
  lemma TwoAcceptedAtExpiry(sessionId: string)
    ensures var steps := [Acquire("a", sessionId), Tick(SESSION_LOCK_TTL), Acquire("b", sessionId)];
            var s0 := State(0, map[], multiset{}, multiset{});
            IsRun(s0, steps)
            && (var s := After(s0, steps);
                "a" in s.locks && "b" in s.locks && Acceptable(s.locks["a"], s.now) && Acceptable(s.locks["b"], s.now))
  {
    var s0 := State(0, map[], multiset{}, multiset{});
    var a, t, b := Acquire("a", sessionId), Tick(SESSION_LOCK_TTL), Acquire("b", sessionId);
    assert [a, t, b][1..] == [t, b] && [t, b][1..] == [b] && [b][1..] == [];
    var s1 := Apply(s0, a);
    assert s1.locks == map["a" := SessionLock(sessionId, SESSION_LOCK_TTL)];
    var s2 := Apply(s1, t);
    assert !Locked(s2.locks, sessionId, s2.now);
    var s3 := Apply(s2, b);
    assert s3.locks == s2.locks["b" := SessionLock(sessionId, 2 * SESSION_LOCK_TTL)];
    assert IsRun(s3, []) && After(s3, []) == s3;
    assert IsRun(s2, [b]) && After(s2, [b]) == s3;
    assert IsRun(s1, [t, b]) && After(s1, [t, b]) == s3;
  }
}
