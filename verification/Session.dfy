/**
 One PTY shell session: who is attached, since when it is detached, and when the collector may end it
 (internal/grpc/detachable.go, internal/grpc/grpcapi.go). Times and durations are nanoseconds.
 */
module Sessions {
  import opened Bytes
  import opened Options
  import opened Units
  import RingBuffers

  type ClientId = nat

  /** The server settings; a negative detachedSessionTTL is refused at start-up, and 0 means no expiry. */
  datatype Policy = Policy(detachedSessionTTL: nat, allowUnlimitedTTL: bool, allowSessionDetach: bool)

  /** The fields of a session that its mutex guards, and whether its shell is gone. */
  datatype Session = Session(
    attachedSender: Option<ClientId>,
    detachedAt: Option<int>,
    detachTTL: Option<int>,
    deleted: Option<int>,
    ptyDone: bool,   // the shell exited
    killed: bool)    // the process was killed and the PTY closed by the daemon

  const FRESH: Session := Session(None, None, None, None, false, false)

  // The sections of the source that change a session, as functions of its value. The methods of SessionData
  // are proved against them, and the runs in SessionRuns are made of them, so that both speak of the same steps.

  function OnAttach(s: Session, client: ClientId): Session {
    s.(attachedSender := Some(client), detachedAt := None)
  }

  function OnDetach(s: Session, now: int): Session {
    s.(attachedSender := None, detachedAt := Some(now))
  }

  function OnDrop(s: Session): Session {
    s.(attachedSender := None)
  }

  function OnSendFailure(s: Session, client: ClientId): Session {
    if s.attachedSender == Some(client) then s.(attachedSender := None) else s
  }

  function OnEnd(s: Session, now: int): Session {
    s.(killed := true, deleted := Some(now))
  }

  // Time to live.

  datatype TtlError = UnlimitedNotPermitted | ExceedsMaximum

  function ValidateTTL(p: Policy, requested: int): Option<TtlError> {
    if requested == 0 then
      if !p.allowUnlimitedTTL then Some(UnlimitedNotPermitted) else None
    else if p.detachedSessionTTL != 0 && requested > p.detachedSessionTTL then Some(ExceedsMaximum)
    else None
  }

  /** The override, once there is one, else the server's setting; 0 exempts the session. */
  function EffectiveTTL(p: Policy, s: Session): int {
    if s.detachTTL.Some? then s.detachTTL.value else p.detachedSessionTTL
  }

  /** The collector would end this session at time now, going by what it has read of it. */
  predicate Due(p: Policy, s: Session, now: int) {
    && !s.ptyDone
    && s.attachedSender.None? && s.detachedAt.Some?
    && EffectiveTTL(p, s) != 0
    && now - s.detachedAt.value > EffectiveTTL(p, s)
  }

  /** One visit of the collector that nothing interleaves with. */
  function Collected(p: Policy, s: Session, now: int): Session {
    if s.ptyDone then (if s.deleted.None? then OnEnd(s, now) else s)
    else if Due(p, s, now) then OnEnd(s, now)
    else s
  }

  /** Duration.Round(time.Second): to the nearest second, halves away from zero. */
  function RoundToSecond(d: int): int {
    var r := if d < 0 then -(-d % SECOND) else d % SECOND;
    if d < 0 then
      if -r + -r < SECOND then d - r else d - SECOND - r
    else
      if r + r < SECOND then d - r else d + SECOND - r
  }

  datatype Remaining = NotDetached | Unlimited | Left(seconds: nat)

  /** What the session list shows as the time a detached session has left. */
  function TTLRemaining(p: Policy, s: Session, now: int): Remaining {
    if s.deleted.Some? || s.detachedAt.None? then NotDetached
    else if EffectiveTTL(p, s) == 0 then Unlimited
    else
      var remaining := RoundToSecond(s.detachedAt.value + EffectiveTTL(p, s) - now);
      if remaining <= 0 then Left(0) else Left(remaining / SECOND)
  }

  lemma RoundedIsNearest(d: int)
    ensures RoundToSecond(d) % SECOND == 0
    ensures -SECOND <= 2 * (d - RoundToSecond(d)) <= SECOND
    ensures 2 * (d - RoundToSecond(d)) == SECOND ==> d < 0
    ensures 2 * (d - RoundToSecond(d)) == -SECOND ==> d > 0
  {
  }

  /**
   The list and the collector agree: "unlimited" is shown exactly for the detached sessions that no
   visit ever ends, a session that is due shows no time left, and no time left means under half a second.
   */
  lemma ShownTTLAgreesWithCollector(p: Policy, s: Session, now: int)
    requires !s.ptyDone && s.deleted.None? && s.attachedSender.None?
    ensures TTLRemaining(p, s, now) == NotDetached <==> s.detachedAt.None?
    ensures TTLRemaining(p, s, now) != Left(0) ==> Collected(p, s, now) == s
    ensures TTLRemaining(p, s, now) == Left(0) <==>
            s.detachedAt.Some? && EffectiveTTL(p, s) != 0
            && 2 * (s.detachedAt.value + EffectiveTTL(p, s) - now) < SECOND
    ensures TTLRemaining(p, s, now) == Unlimited <==>
            s.detachedAt.Some? && forall later: int :: Collected(p, s, later) == s
  {
    if s.detachedAt.Some? {
      RoundedIsNearest(s.detachedAt.value + EffectiveTTL(p, s) - now);
      var late := s.detachedAt.value + EffectiveTTL(p, s) + 1;
      assert EffectiveTTL(p, s) != 0 ==> Collected(p, s, late) != s;
    }
  }

  /**
   What one visit does, field by field: it kills an exited session and notes its end once, it does the same
   to a session detached for longer than its time to live, and it leaves every other session as it is.
   */
  lemma VisitChanges(p: Policy, s: Session, now: int)
    ensures var r := Collected(p, s, now);
            var ttl := if s.detachTTL.Some? then s.detachTTL.value else p.detachedSessionTTL;
            var ends := if s.ptyDone then s.deleted.None?
                        else s.attachedSender.None? && s.detachedAt.Some? && ttl != 0 && now - s.detachedAt.value > ttl;
            && (ends ==> r.killed && r.deleted == Some(now))
            && (!ends ==> r.killed == s.killed && r.deleted == s.deleted)
            && r.attachedSender == s.attachedSender && r.detachedAt == s.detachedAt && r.detachTTL == s.detachTTL
            && r.ptyDone == s.ptyDone
    ensures s.ptyDone ==> StatusOf(Collected(p, s, now)) == STOPPED
  {
  }

  /** What the list shows while time is left: the nearest whole second to the end of the time to live. */
  lemma ShownTTLIsNearest(p: Policy, s: Session, now: int)
    requires s.deleted.None? && s.detachedAt.Some?
    ensures var ttl := if s.detachTTL.Some? then s.detachTTL.value else p.detachedSessionTTL;
            var left := s.detachedAt.value + ttl - now;
            var shown := TTLRemaining(p, s, now);
            && (shown == Unlimited <==> ttl == 0)
            && (ttl != 0 && 2 * left >= 1_000_000_000 ==>
                  && shown.Left? && shown.seconds > 0
                  && -1_000_000_000 <= 2 * (left - shown.seconds * 1_000_000_000) < 1_000_000_000)
            && (ttl != 0 && 2 * left < 1_000_000_000 ==> shown == Left(0))
  {
    RoundedIsNearest(s.detachedAt.value + EffectiveTTL(p, s) - now);
  }

  /** Status, field by field. */
  lemma StatusMeans(s: Session)
    ensures StatusOf(s) == STOPPED <==> s.deleted.Some?
    ensures StatusOf(s) == DETACHED <==> s.deleted.None? && s.detachedAt.Some?
    ensures StatusOf(s) == ACTIVE <==> s.deleted.None? && s.detachedAt.None?
  {
  }

  /** The requests that are accepted, and why the others are not. */
  lemma OverrideAcceptedIff(p: Policy, requested: int)
    ensures ValidateTTL(p, requested).None? <==>
            if requested == 0 then p.allowUnlimitedTTL else p.detachedSessionTTL == 0 || requested <= p.detachedSessionTTL
    ensures ValidateTTL(p, requested) == Some(UnlimitedNotPermitted) <==> requested == 0 && !p.allowUnlimitedTTL
    ensures ValidateTTL(p, requested) == Some(ExceedsMaximum) <==>
            requested != 0 && p.detachedSessionTTL != 0 && requested > p.detachedSessionTTL
  {
  }

  /** With a maximum and no unlimited sessions, every accepted override keeps the session under it. */
  predicate WithinMaximum(p: Policy, s: Session) {
    p.detachedSessionTTL != 0 && !p.allowUnlimitedTTL ==>
      EffectiveTTL(p, s) != 0 && EffectiveTTL(p, s) <= p.detachedSessionTTL
  }

  /** The overrides that may be accepted are exactly those that leave the session within the maximum. */
  lemma AcceptedIffWithinMaximum(p: Policy, s: Session, requested: int)
    requires p.detachedSessionTTL != 0 && !p.allowUnlimitedTTL
    ensures ValidateTTL(p, requested) == None <==> WithinMaximum(p, s.(detachTTL := Some(requested)))
  {
  }

  /** So a visit later than the maximum after the detach ends the session. */
  lemma LongDetachedIsCollected(p: Policy, s: Session, now: int)
    requires p.detachedSessionTTL != 0 && !p.allowUnlimitedTTL && WithinMaximum(p, s)
    requires !s.ptyDone && s.attachedSender.None? && s.detachedAt.Some?
    requires now - s.detachedAt.value > p.detachedSessionTTL
    ensures Collected(p, s, now) == OnEnd(s, now)
  {
  }

  /**
   How the last client left decides whether a live session is ever collected. A client that drops after
   a reattach without detach-on-close leaves no detach time, so no visit ends it; the source's comment
   calls the session destroyed.
   */
  lemma LeavingDecidesCollection(p: Policy, s: Session, t: int, detaches: bool)
    requires !s.ptyDone && s.attachedSender.Some? && s.detachedAt.None?
    ensures var left := if detaches then OnDetach(s, t) else OnDrop(s);
            (exists now: int :: Collected(p, left, now) != left) <==> detaches && EffectiveTTL(p, s) != 0
  {
    if detaches && EffectiveTTL(p, s) != 0 {
      var now := t + EffectiveTTL(p, s) + 1;
      assert Collected(p, OnDetach(s, t), now).killed;
      assert Due(p, OnDetach(s, t), now);
      if Collected(p, OnDetach(s, t), now) == OnDetach(s, t) {
        assert Collected(p, OnDetach(s, t), now + 1) != OnDetach(s, t);
      }
    }
  }

  datatype Status = ACTIVE | DETACHED | STOPPED

  function StatusOf(s: Session): Status {
    if s.deleted.Some? then STOPPED
    else if s.detachedAt.Some? then DETACHED
    else ACTIVE
  }

  // The session object.

  /** The per-attachment channel that is closed to ask for a detach. */
  class DetachSignal {
    var closed: bool

    constructor ()
      ensures !closed
    {
      closed := false;
    }
  }

  datatype DetachError = NotEnabled | SessionNotFound | BadTTL(error: TtlError) | NoActiveAttachment

  class SessionData {
    var attachedSender: Option<ClientId>
    var detachedAt: Option<int>
    var detachTTL: Option<int>
    var deleted: Option<int>
    var ptyDone: bool
    var killed: bool
    var bytesOut: nat
    var detachRequested: DetachSignal?
    const ring: RingBuffers.RingBuffer

    function View(): Session
      reads this
    {
      Session(attachedSender, detachedAt, detachTTL, deleted, ptyDone, killed)
    }

    constructor ()
      ensures View() == FRESH && bytesOut == 0 && detachRequested == null
      ensures fresh(ring) && fresh(ring.buf) && ring.Valid()
      ensures ring.history == [] && ring.cap == RingBuffers.DETACHABLE_RING_BUF_SIZE == 262_144
    {
      attachedSender, detachedAt, detachTTL, deleted := None, None, None, None;
      ptyDone, killed, bytesOut, detachRequested := false, false, 0, null;
      ring := new RingBuffers.RingBuffer(RingBuffers.DETACHABLE_RING_BUF_SIZE);
    }

    method DoAttach(sender: ClientId) returns (ch: DetachSignal)
      modifies this
      ensures View() == OnAttach(old(View()), sender) && bytesOut == old(bytesOut)
      ensures attachedSender == Some(sender) && detachedAt == None
      ensures detachTTL == old(detachTTL) && deleted == old(deleted) && ptyDone == old(ptyDone) && killed == old(killed)
      ensures fresh(ch) && !ch.closed && detachRequested == ch
    {
      ch := new DetachSignal();
      attachedSender := Some(sender);
      detachedAt := None;
      detachRequested := ch;
    }

    /** The pump's half turn up to the send: record the chunk, then look up who is attached. */
    method PumpChunk(data: seq<byte>) returns (w: Option<ClientId>)
      requires ring.Valid() && this as object != ring.buf
      modifies this`bytesOut, ring, ring.buf
      ensures ring.Valid() && ring.history == old(ring.history) + data && ring.markPos == old(ring.markPos)
      ensures w == old(attachedSender) && View() == old(View()) && bytesOut == old(bytesOut) + |data|
    {
      ring.Write(data);
      w := attachedSender;
      bytesOut := bytesOut + |data|;
    }

    method SendFailed(w: ClientId)
      modifies this`attachedSender
      ensures View() == OnSendFailure(old(View()), w)
      ensures attachedSender == if old(attachedSender) == Some(w) then None else old(attachedSender)
    {
      if attachedSender == Some(w) {
        attachedSender := None;
      }
    }

    method ClearAttached()
      modifies this`attachedSender
      ensures View() == OnDrop(old(View())) && attachedSender == None
    {
      attachedSender := None;
    }

    method DoDetach(now: int)
      requires ring.Valid()
      modifies this, ring`markPos
      ensures View() == OnDetach(old(View()), now)
      ensures attachedSender == None && detachedAt == Some(now)
      ensures detachTTL == old(detachTTL) && deleted == old(deleted) && ptyDone == old(ptyDone) && killed == old(killed)
      ensures bytesOut == old(bytesOut) && detachRequested == old(detachRequested)
      ensures ring.Valid() && ring.markPos == |ring.history|
    {
      attachedSender := None;
      detachedAt := Some(now);
      ring.Mark();
    }

    /** Ask the latest attachment to detach, optionally overriding the time to live first. */
    method RequestDetach(p: Policy, ttl: Option<int>) returns (err: Option<DetachError>)
      modifies this`detachTTL, detachRequested
      ensures ttl.Some? && ValidateTTL(p, ttl.value).Some? ==>
                err == Some(BadTTL(ValidateTTL(p, ttl.value).value)) && View() == old(View())
      ensures (ttl.Some? ==> ValidateTTL(p, ttl.value).None?) ==>
                && View() == old(View()).(detachTTL := if ttl.Some? then ttl else old(detachTTL))
                && detachTTL == (if ttl.Some? then ttl else old(detachTTL))
                && err == if detachRequested == null then Some(NoActiveAttachment) else None
      ensures detachRequested != null ==> detachRequested.closed == (old(detachRequested.closed) || err.None?)
    {
      if ttl.Some? {
        var e := ValidateTTL(p, ttl.value);
        if e.Some? {
          return Some(BadTTL(e.value));
        }
        detachTTL := ttl;
      }
      if detachRequested == null {
        return Some(NoActiveAttachment);
      }
      if !detachRequested.closed {
        detachRequested.closed := true;
      }
      return None;
    }

    /** The body of gcDetachedSessions for this session. */
    method Collect(p: Policy, now: int)
      modifies this`killed, this`deleted
      ensures View() == Collected(p, old(View()), now)
      ensures ptyDone && old(deleted).None? ==> killed && deleted == Some(now)
      ensures ptyDone && old(deleted).Some? ==> killed == old(killed) && deleted == old(deleted)
      ensures !ptyDone ==>
                var ttl := if detachTTL.Some? then detachTTL.value else p.detachedSessionTTL;
                if attachedSender.None? && detachedAt.Some? && ttl != 0 && now - detachedAt.value > ttl
                then killed && deleted == Some(now) else killed == old(killed) && deleted == old(deleted)
    {
      if ptyDone {
        if deleted.None? {
          killed := true;
          deleted := Some(now);
        }
        return;
      }
      var isDetached, since := attachedSender.None?, detachedAt;
      if isDetached && since.Some? {
        var effectiveTTL := if detachTTL.Some? then detachTTL.value else p.detachedSessionTTL;
        if effectiveTTL == 0 {
          return;
        }
        if now - since.value > effectiveTTL {
          killed := true;
          deleted := Some(now);
        }
      }
    }
  }

  /** The part of the service that finds a session by its name. */
  class GRPCService {
    const policy: Policy
    var sessions: map<string, SessionData>

    constructor (policy: Policy)
      ensures this.policy == policy && sessions == map[]
    {
      this.policy := policy;
      sessions := map[];
    }

    /** What a detach request may change: the override and the signal of the named session. */
    ghost function Footprint(sessionId: string): set<object?>
      reads this, sessions.Values
    {
      if sessionId in sessions then {sessions[sessionId], sessions[sessionId].detachRequested} else {}
    }

    method DetachShellSession(sessionId: string, ttl: Option<int>) returns (err: Option<DetachError>)
      modifies Footprint(sessionId)
      ensures err == Some(NotEnabled) <==> !policy.allowSessionDetach
      ensures err == Some(SessionNotFound) <==> policy.allowSessionDetach && sessionId !in sessions
      ensures err == Some(NotEnabled) && sessionId in sessions ==>
                sessions[sessionId].View() == old(sessions[sessionId].View())
      ensures policy.allowSessionDetach && sessionId in sessions && ttl.Some? && ValidateTTL(policy, ttl.value).Some? ==>
                && err == Some(BadTTL(ValidateTTL(policy, ttl.value).value))
                && sessions[sessionId].View() == old(sessions[sessionId].View())
      ensures policy.allowSessionDetach && sessionId in sessions && (ttl.Some? ==> ValidateTTL(policy, ttl.value).None?) ==>
                var s := sessions[sessionId];
                && s.View() == old(s.View()).(detachTTL := if ttl.Some? then ttl else old(s.detachTTL))
                && err == if s.detachRequested == null then Some(NoActiveAttachment) else None
      ensures sessionId in sessions && old(sessions[sessionId].detachRequested) != null ==>
                var signal := old(sessions[sessionId].detachRequested);
                && sessions[sessionId].detachRequested == signal
                && signal.closed == (old(sessions[sessionId].detachRequested.closed) || err.None?)
    {
      if !policy.allowSessionDetach {
        return Some(NotEnabled);
      }
      if sessionId !in sessions {
        return Some(SessionNotFound);
      }
      err := sessions[sessionId].RequestDetach(policy, ttl);
    }
  }
}
