/**
 Every interleaving of the PTY pump, any number of gRPC and REST clients that attach and leave, the calls
 that serve them, and the collector, on one session. A step is one section under the session's or the
 ring's mutex, one send, or one look at whether the shell has exited; the time of an end is noted with the
 kill before it.
 */
module SessionRuns {
  import opened Bytes
  import opened Options
  import opened Sessions
  import QueryResponses
  import RingBuffers

  const CAP: nat := RingBuffers.DETACHABLE_RING_BUF_SIZE

  /** Where the pump stands between two chunks. */
  datatype Pump =
    | Reading                        // waiting for the shell
    | Recorded(chunk: seq<byte>)     // the chunk is in the ring, the sender not yet looked up
    | Sending(chunk: seq<byte>, w: Option<ClientId>)  // the sender is looked up, the send not yet made
    | SendFailed(lost: ClientId)     // the send failed, the sender not yet dropped

  datatype Phase = Snapped | Replayed | Registered | Gone

  /** A client: what it got so far, and which chunks that should be. */
  datatype Client = Client(
    phase: Phase,
    opening: bool,          // it opened the session, so there was nothing to replay
    scrollback: seq<byte>,  // its copy of the ring
    stream: seq<byte>,      // every byte sent to it
    m: nat,                 // chunks recorded when the ring was copied
    k: nat,                 // chunks whose sender had been looked up when it registered
    d: nat)                 // one past the last chunk sent to it

  /** The collector between its reads of a session and its decision. */
  datatype Collector =
    | Idle
    | SawRunning(now: int)                            // the shell had not exited
    | SawDetached(now: int, since: int)
    | FoundDue(now: int, since: int, ttl: int)

  /** A call whose client has left, and which goes on to end the session or has nothing left to do. */
  datatype Call = Ending | Returned

  datatype World = World(
    session: Session,
    banner: seq<byte>,        // what the ring held before the pump started
    chunks: seq<seq<byte>>,   // what the pump has recorded
    pump: Pump,
    clients: map<ClientId, Client>,   // those attached over gRPC
    rest: set<ClientId>,              // those attached over REST
    calls: map<ClientId, Call>,       // the calls that have decided what to do with the session
    collector: Collector)

  datatype Step =
    | PumpRecords(chunk: seq<byte>)
    | PumpLooksUp
    | PumpSends
    | PumpSendFails
    | PumpDropsSender
    | ClientOpens(c: ClientId)
    | ClientSnapshots(c: ClientId)
    | ClientReplays(c: ClientId)
    | ClientRegisters(c: ClientId)
    | ClientDetaches(c: ClientId, now: int)
    | ClientDrops(c: ClientId)
    | ClientSeesExit(c: ClientId, now: int)
    | OpenerLooks(c: ClientId)               // the Shell call that opened the session looks for a detach time
    | RestAttaches(c: ClientId)
    | RestDetaches(c: ClientId, now: int)
    | RestDrops(c: ClientId)
    | CallEnds(c: ClientId, now: int)        // the cleanup that such a call has decided on
    | OverrideTTL(ttl: int)
    | ShellExits
    | CollectorStarts(now: int)
    | CollectorLooks
    | CollectorReadsTTL
    | CollectorEnds

  function History(w: World): seq<byte> {
    w.banner + Flatten(w.chunks)
  }

  predicate InPhase(w: World, c: ClientId, phase: Phase) {
    c in w.clients && w.clients[c].phase == phase
  }

  /** Chunks whose sender has been looked up: all, but for one just recorded. */
  function LookedUp(w: World): nat {
    if w.pump.Recorded? && w.chunks != [] then |w.chunks| - 1 else |w.chunks|
  }

  function Deliver(clients: map<ClientId, Client>, c: ClientId, chunk: seq<byte>, d: nat): map<ClientId, Client> {
    if c in clients then clients[c := clients[c].(stream := clients[c].stream + chunk, d := d)] else clients
  }

  predicate IsNew(w: World, c: ClientId) {
    c !in w.clients && c !in w.rest
  }

  predicate IsPumpStep(step: Step) {
    step.PumpRecords? || step.PumpLooksUp? || step.PumpSends? || step.PumpSendFails? || step.PumpDropsSender?
  }

  predicate IsJoiningStep(step: Step) {
    step.ClientOpens? || step.ClientSnapshots? || step.ClientReplays? || step.ClientRegisters?
  }

  predicate IsCollectorStep(step: Step) {
    step.CollectorStarts? || step.CollectorLooks? || step.CollectorReadsTTL? || step.CollectorEnds?
  }

  predicate PumpEnabled(w: World, step: Step) {
    match step
    case PumpRecords(chunk) => w.pump.Reading? && |chunk| > 0 && !w.session.ptyDone
    case PumpLooksUp => w.pump.Recorded?
    case PumpSends => w.pump.Sending?
    case PumpSendFails => w.pump.Sending? && w.pump.w.Some?
    case PumpDropsSender => w.pump.SendFailed?
    case _ => false
  }

  /** The PTY pump. */
  ghost function ApplyPump(w: World, step: Step): World
    requires PumpEnabled(w, step)
  {
    match step
    case PumpRecords(chunk) =>
      w.(chunks := w.chunks + [chunk], pump := Recorded(chunk))
    case PumpLooksUp =>
      w.(pump := Sending(w.pump.chunk, w.session.attachedSender))
    case PumpSends =>
      if w.pump.w.None? then w.(pump := Reading)
      else w.(pump := Reading, clients := Deliver(w.clients, w.pump.w.value, w.pump.chunk, |w.chunks|))
    case PumpSendFails =>
      w.(pump := SendFailed(w.pump.w.value))
    case PumpDropsSender =>
      w.(pump := Reading, session := OnSendFailure(w.session, w.pump.lost))
  }

  predicate JoinEnabled(w: World, step: Step) {
    match step
    case ClientOpens(c) => IsNew(w, c)
    case ClientSnapshots(c) => IsNew(w, c)
    case ClientReplays(c) => InPhase(w, c, Snapped)
    case ClientRegisters(c) => InPhase(w, c, Replayed)
    case _ => false
  }

  /** A gRPC client joins. */
  ghost function ApplyJoin(w: World, step: Step): World
    requires JoinEnabled(w, step)
  {
    match step
    case ClientOpens(c) =>
      var client := Client(Registered, true, [], [], 0, LookedUp(w), LookedUp(w));
      w.(clients := w.clients[c := client], session := OnAttach(w.session, c))
    case ClientSnapshots(c) =>
      w.(clients := w.clients[c := Client(Snapped, false, LastN(History(w), CAP), [], |w.chunks|, 0, 0)])
    case ClientReplays(c) =>
      var client := w.clients[c];
      var replay := QueryResponses.Kept(client.scrollback, 0);
      w.(clients := w.clients[c := client.(phase := Replayed, stream := replay)])
    case ClientRegisters(c) =>
      var client := w.clients[c].(phase := Registered, k := LookedUp(w), d := LookedUp(w));
      w.(clients := w.clients[c := client], session := OnAttach(w.session, c))
  }

  predicate VisitEnabled(w: World, step: Step) {
    match step
    case CollectorStarts(_) => w.collector.Idle?
    case CollectorLooks => w.collector.SawRunning?
    case CollectorReadsTTL => w.collector.SawDetached?
    case CollectorEnds => w.collector.FoundDue?
    case _ => false
  }

  /** The collector visits the session. */
  ghost function ApplyVisit(p: Policy, w: World, step: Step): World
    requires VisitEnabled(w, step)
  {
    match step
    case CollectorStarts(now) =>
      if w.session.ptyDone then w.(session := Collected(p, w.session, now)) else w.(collector := SawRunning(now))
    case CollectorLooks =>
      if w.session.attachedSender.None? && w.session.detachedAt.Some?
      then w.(collector := SawDetached(w.collector.now, w.session.detachedAt.value))
      else w.(collector := Idle)
    case CollectorReadsTTL =>
      var ttl := EffectiveTTL(p, w.session);
      if ttl != 0 && w.collector.now - w.collector.since > ttl
      then w.(collector := FoundDue(w.collector.now, w.collector.since, ttl))
      else w.(collector := Idle)
    case CollectorEnds =>
      w.(collector := Idle, session := OnEnd(w.session, w.collector.now))
  }

  predicate SessionEnabled(p: Policy, w: World, step: Step) {
    match step
    case ClientDetaches(c, _) => InPhase(w, c, Registered)
    case ClientDrops(c) => InPhase(w, c, Registered)
    case ClientSeesExit(c, _) => InPhase(w, c, Registered) && w.session.ptyDone
    case OpenerLooks(c) => InPhase(w, c, Gone) && w.clients[c].opening && c !in w.calls
    case RestAttaches(c) => IsNew(w, c)
    case RestDetaches(c, _) => c in w.rest && c !in w.calls
    case RestDrops(c) => c in w.rest && c !in w.calls
    case CallEnds(c, _) => c in w.calls && w.calls[c].Ending?
    case OverrideTTL(ttl) => ValidateTTL(p, ttl).None?
    case ShellExits => w.pump.Reading?
    case _ => false
  }

  /** Clients leave, REST clients come and leave, calls end, and the rest. */
  ghost function ApplySession(p: Policy, w: World, step: Step): World
    requires SessionEnabled(p, w, step)
  {
    match step
    case ClientDetaches(c, now) =>
      w.(clients := w.clients[c := w.clients[c].(phase := Gone)], session := OnDetach(w.session, now))
    case ClientDrops(c) =>
      w.(clients := w.clients[c := w.clients[c].(phase := Gone)], session := OnDrop(w.session))
    case ClientSeesExit(c, now) =>
      w.(clients := w.clients[c := w.clients[c].(phase := Gone)], session := OnDrop(w.session).(deleted := Some(now)))
    case OpenerLooks(c) =>
      w.(calls := w.calls[c := if w.session.detachedAt.None? then Ending else Returned])
    case RestAttaches(c) =>
      w.(rest := w.rest + {c}, session := OnAttach(w.session, c))
    case RestDetaches(c, now) =>
      w.(calls := w.calls[c := Returned], session := OnDetach(w.session, now))
    case RestDrops(c) =>
      w.(calls := w.calls[c := Ending], session := OnDrop(w.session))
    case CallEnds(c, now) =>
      w.(calls := w.calls[c := Returned], session := OnEnd(w.session, now))
    case OverrideTTL(ttl) =>
      w.(session := w.session.(detachTTL := Some(ttl)))
    case ShellExits =>
      w.(session := w.session.(ptyDone := true))
  }

  predicate Enabled(p: Policy, w: World, step: Step) {
    if IsPumpStep(step) then PumpEnabled(w, step)
    else if IsJoiningStep(step) then JoinEnabled(w, step)
    else if IsCollectorStep(step) then VisitEnabled(w, step)
    else SessionEnabled(p, w, step)
  }

  ghost function Apply(p: Policy, w: World, step: Step): World
    requires Enabled(p, w, step)
  {
    if IsPumpStep(step) then ApplyPump(w, step)
    else if IsJoiningStep(step) then ApplyJoin(w, step)
    else if IsCollectorStep(step) then ApplyVisit(p, w, step)
    else ApplySession(p, w, step)
  }

  ghost predicate IsRun(p: Policy, w: World, steps: seq<Step>)
    decreases |steps|
  {
    steps == [] || (Enabled(p, w, steps[0]) && IsRun(p, Apply(p, w, steps[0]), steps[1..]))
  }

  ghost function After(p: Policy, w: World, steps: seq<Step>): World
    requires IsRun(p, w, steps)
    decreases |steps|
  {
    if steps == [] then w else After(p, Apply(p, w, steps[0]), steps[1..])
  }

  function Start(banner: seq<byte>): World {
    World(FRESH, banner, [], Reading, map[], {}, map[], Idle)
  }

  // What every step keeps.

  /** The scrollback as it stood after m chunks, without the echoed query responses. */
  ghost function Replay(banner: seq<byte>, chunks: seq<seq<byte>>, m: nat): seq<byte>
    requires m <= |chunks|
  {
    QueryResponses.Kept(Scrollback(banner, chunks, m), 0)
  }

  function Scrollback(banner: seq<byte>, chunks: seq<seq<byte>>, m: nat): seq<byte>
    requires m <= |chunks|
  {
    LastN(banner + Flatten(chunks[..m]), CAP)
  }

  function Live(chunks: seq<seq<byte>>, k: nat, d: nat): seq<byte>
    requires k <= d <= |chunks|
  {
    Flatten(chunks[k..d])
  }

  /** A client was sent its replay, and after it the chunks k up to d: none reordered, repeated or left out. */
  ghost predicate StreamOk(w: World, client: Client) {
    && client.m <= |w.chunks| && client.k <= client.d <= LookedUp(w)
    && client.stream == (if client.opening then [] else Replay(w.banner, w.chunks, client.m)) + Live(w.chunks, client.k, client.d)
  }

  /** The copy of the ring is not newer than the first chunk sent live, so no more than one chunk is sent twice. */
  ghost predicate ReplayOk(w: World, client: Client) {
    && client.m <= |w.chunks| && client.m <= LookedUp(w) + 1
    && (!client.opening ==> client.scrollback == Scrollback(w.banner, w.chunks, client.m))
    && (client.phase.Snapped? || client.phase.Replayed? ==> !client.opening)
    && (client.phase.Replayed? ==> client.stream == Replay(w.banner, w.chunks, client.m))
    && (client.phase.Registered? || client.phase.Gone? ==> client.m <= client.k + 1)
  }

  /** The last chunk is on its way to c, or was lost on it. */
  predicate InFlight(w: World, c: ClientId) {
    (w.pump.Sending? && w.pump.w == Some(c)) || (w.pump.SendFailed? && w.pump.lost == c)
  }

  predicate Joined(client: Client) {
    client.phase.Registered? || client.phase.Gone?
  }

  ghost predicate ClientOk(w: World, c: ClientId, client: Client) {
    && ReplayOk(w, client)
    && (Joined(client) ==> StreamOk(w, client))
    && (InFlight(w, c) ==> Joined(client) && client.d == |w.chunks| - 1)
    && (w.session.attachedSender == Some(c) ==>
          client.phase.Registered? && (!InFlight(w, c) ==> client.d == LookedUp(w)))
  }

  predicate PumpOk(w: World) {
    && (w.pump.Recorded? || w.pump.Sending? ==> w.chunks != [] && w.chunks[|w.chunks| - 1] == w.pump.chunk)
    && (w.session.attachedSender.Some? ==> !IsNew(w, w.session.attachedSender.value))
    && (w.pump.Sending? && w.pump.w.Some? ==> !IsNew(w, w.pump.w.value))
    && (w.pump.SendFailed? ==> w.chunks != [] && !IsNew(w, w.pump.lost))
    && w.clients.Keys !! w.rest
  }

  predicate SessionOk(p: Policy, w: World) {
    && (w.session.attachedSender.Some? ==> w.session.detachedAt.None?)
    && WithinMaximum(p, w.session)
    && (w.collector.FoundDue? ==> w.collector.ttl != 0 && w.collector.now - w.collector.since > w.collector.ttl)
  }

  ghost predicate Inv(p: Policy, w: World) {
    && PumpOk(w)
    && SessionOk(p, w)
    && forall c | c in w.clients :: ClientOk(w, c, w.clients[c])
  }

  /** Recording one more chunk changes nothing that was recorded before it. */
  lemma RecordingKeepsPrefixes(w: World, chunk: seq<byte>, client: Client)
    requires ReplayOk(w, client)
    ensures Scrollback(w.banner, w.chunks + [chunk], client.m) == Scrollback(w.banner, w.chunks, client.m)
    ensures client.k <= client.d <= |w.chunks| ==>
              Live(w.chunks + [chunk], client.k, client.d) == Live(w.chunks, client.k, client.d)
  {
    assert (w.chunks + [chunk])[..client.m] == w.chunks[..client.m];
    if client.k <= client.d <= |w.chunks| {
      assert (w.chunks + [chunk])[client.k..client.d] == w.chunks[client.k..client.d];
    }
  }

  lemma LiveGrows(chunks: seq<seq<byte>>, k: nat)
    requires k < |chunks|
    ensures Live(chunks, k, |chunks|) == Live(chunks, k, |chunks| - 1) + chunks[|chunks| - 1]
  {
    var last := |chunks| - 1;
    assert chunks[k..|chunks|] == chunks[k..last] + [chunks[last]];
    FlattenSnoc(chunks[k..last], chunks[last]);
  }

  lemma RecordingKeepsClient(w: World, chunk: seq<byte>, c: ClientId)
    requires PumpOk(w) && c in w.clients && ClientOk(w, c, w.clients[c]) && PumpEnabled(w, PumpRecords(chunk))
    ensures var w' := ApplyPump(w, PumpRecords(chunk)); c in w'.clients && ClientOk(w', c, w'.clients[c])
  {
    RecordingKeepsPrefixes(w, chunk, w.clients[c]);
    hide Scrollback, Live;
  }

  /** The chunk goes to c, the only client that it changes. */
  lemma SendingKeepsClient(w: World, c: ClientId)
    requires PumpOk(w) && c in w.clients && ClientOk(w, c, w.clients[c]) && PumpEnabled(w, PumpSends)
    ensures var w' := ApplyPump(w, PumpSends); c in w'.clients && ClientOk(w', c, w'.clients[c])
  {
    var client := w.clients[c];
    if w.pump.w == Some(c) {
      LiveGrows(w.chunks, client.k);
      hide Scrollback, Live, Replay;
      Extend(if client.opening then [] else Replay(w.banner, w.chunks, client.m),
             Live(w.chunks, client.k, client.d), w.pump.chunk);
    } else {
      hide Scrollback, Live, Replay;
    }
  }

  lemma Extend(a: seq<byte>, b: seq<byte>, c: seq<byte>)
    ensures a + (b + c) == a + b + c
  {
  }

  lemma PumpKeepsClient(w: World, step: Step, c: ClientId)
    requires PumpOk(w) && c in w.clients && ClientOk(w, c, w.clients[c]) && PumpEnabled(w, step)
    ensures var w' := ApplyPump(w, step); c in w'.clients && ClientOk(w', c, w'.clients[c])
  {
    if step.PumpRecords? {
      RecordingKeepsClient(w, step.chunk, c);
    } else if step.PumpSends? {
      SendingKeepsClient(w, c);
    } else {
      hide Scrollback, Live, Replay;
    }
  }

  lemma JoiningKeepsClient(w: World, step: Step, c: ClientId)
    requires PumpOk(w) && (c in w.clients ==> ClientOk(w, c, w.clients[c])) && JoinEnabled(w, step)
    requires c in ApplyJoin(w, step).clients
    ensures var w' := ApplyJoin(w, step); ClientOk(w', c, w'.clients[c])
  {
    if c != step.c {
      JoiningKeepsOthers(w, step, c);
    } else if step.ClientSnapshots? || step.ClientReplays? {
      ReplayIsOk(w, step);
    } else {
      RegistrationIsOk(w, step);
    }
  }

  lemma JoiningKeepsOthers(w: World, step: Step, c: ClientId)
    requires PumpOk(w) && JoinEnabled(w, step)
    requires c in ApplyJoin(w, step).clients && c != step.c && (c in w.clients ==> ClientOk(w, c, w.clients[c]))
    ensures var w' := ApplyJoin(w, step); ClientOk(w', c, w'.clients[c])
  {
    hide History, Replay, Scrollback, Live;
  }

  lemma ReplayIsOk(w: World, step: Step)
    requires PumpOk(w) && JoinEnabled(w, step) && (step.ClientSnapshots? || step.ClientReplays?)
    requires step.c in w.clients ==> ClientOk(w, step.c, w.clients[step.c])
    ensures var w' := ApplyJoin(w, step); step.c in w'.clients && ClientOk(w', step.c, w'.clients[step.c])
  {
    WholeScrollback(w.banner, w.chunks);
    hide Live, Scrollback, LastN, Flatten, StreamOk;
  }

  lemma RegistrationIsOk(w: World, step: Step)
    requires PumpOk(w) && JoinEnabled(w, step) && (step.ClientOpens? || step.ClientRegisters?)
    requires step.c in w.clients ==> ClientOk(w, step.c, w.clients[step.c])
    ensures var w' := ApplyJoin(w, step); step.c in w'.clients && ClientOk(w', step.c, w'.clients[step.c])
  {
    NothingLive(w.chunks, LookedUp(w));
    hide Live, Scrollback, Flatten, Replay;
  }

  /** The pump and the recorded chunks stay, and client c at most leaves. */
  predicate AtMostLeaves(w: World, w': World, c: ClientId) {
    && w' == w.(session := w'.session, clients := w'.clients, rest := w'.rest, calls := w'.calls, collector := w'.collector)
    && c in w.clients && c in w'.clients
    && (w'.clients[c] == w.clients[c] || (w.clients[c].phase.Registered? && w'.clients[c] == w.clients[c].(phase := Gone)))
    && (w'.session.attachedSender == Some(c) ==> w.session.attachedSender == Some(c) && w'.clients[c] == w.clients[c])
  }

  lemma VisitAtMostLeaves(p: Policy, w: World, step: Step, c: ClientId)
    requires VisitEnabled(w, step) && c in w.clients
    ensures AtMostLeaves(w, ApplyVisit(p, w, step), c)
  {
  }

  lemma OthersAtMostLeave(p: Policy, w: World, step: Step, c: ClientId)
    requires SessionEnabled(p, w, step) && c in w.clients
    ensures AtMostLeaves(w, ApplySession(p, w, step), c)
  {
  }

  lemma LeavingKeepsClient(w: World, w': World, c: ClientId)
    requires AtMostLeaves(w, w', c) && ClientOk(w, c, w.clients[c])
    ensures ClientOk(w', c, w'.clients[c])
  {
    hide Replay, Scrollback, Live;
  }

  lemma StepKeepsClient(p: Policy, w: World, step: Step, c: ClientId)
    requires PumpOk(w) && (c in w.clients ==> ClientOk(w, c, w.clients[c])) && Enabled(p, w, step)
    requires c in Apply(p, w, step).clients
    ensures var w' := Apply(p, w, step); ClientOk(w', c, w'.clients[c])
  {
    if IsJoiningStep(step) {
      hide ApplyJoin, JoinEnabled, ClientOk, PumpOk;
      JoiningKeepsClient(w, step, c);
    } else {
      assert c in w.clients by { OnlyJoiningAdds(p, w, step, c); }
      hide ApplyPump, PumpEnabled, ApplyVisit, VisitEnabled, ApplySession, SessionEnabled, ClientOk, PumpOk, AtMostLeaves;
      if IsPumpStep(step) {
        PumpKeepsClient(w, step, c);
      } else if IsCollectorStep(step) {
        VisitAtMostLeaves(p, w, step, c);
        LeavingKeepsClient(w, ApplyVisit(p, w, step), c);
      } else {
        OthersAtMostLeave(p, w, step, c);
        LeavingKeepsClient(w, ApplySession(p, w, step), c);
      }
    }
  }

  lemma OnlyJoiningAdds(p: Policy, w: World, step: Step, c: ClientId)
    requires Enabled(p, w, step) && !IsJoiningStep(step) && c in Apply(p, w, step).clients
    ensures c in w.clients
  {
  }

  lemma WholeScrollback(banner: seq<byte>, chunks: seq<seq<byte>>)
    ensures Scrollback(banner, chunks, |chunks|) == LastN(banner + Flatten(chunks), CAP)
  {
    hide LastN;
    assert chunks[..|chunks|] == chunks;
  }

  lemma NothingLive(chunks: seq<seq<byte>>, k: nat)
    requires k <= |chunks|
    ensures Live(chunks, k, k) == []
  {
  }

  lemma PumpKeepsSession(p: Policy, w: World, step: Step)
    requires PumpOk(w) && SessionOk(p, w) && PumpEnabled(w, step)
    ensures PumpOk(ApplyPump(w, step)) && SessionOk(p, ApplyPump(w, step))
  {
  }

  lemma JoiningKeepsSession(p: Policy, w: World, step: Step)
    requires PumpOk(w) && SessionOk(p, w) && JoinEnabled(w, step)
    ensures PumpOk(ApplyJoin(w, step)) && SessionOk(p, ApplyJoin(w, step))
  {
    hide History, LastN;
  }

  lemma VisitKeepsSession(p: Policy, w: World, step: Step)
    requires PumpOk(w) && SessionOk(p, w) && VisitEnabled(w, step)
    ensures PumpOk(ApplyVisit(p, w, step)) && SessionOk(p, ApplyVisit(p, w, step))
  {
  }

  lemma OthersKeepSession(p: Policy, w: World, step: Step)
    requires PumpOk(w) && SessionOk(p, w) && SessionEnabled(p, w, step)
    ensures PumpOk(ApplySession(p, w, step)) && SessionOk(p, ApplySession(p, w, step))
  {
  }

  lemma StepKeepsSession(p: Policy, w: World, step: Step)
    requires PumpOk(w) && SessionOk(p, w) && Enabled(p, w, step)
    ensures PumpOk(Apply(p, w, step)) && SessionOk(p, Apply(p, w, step))
  {
    hide PumpOk, SessionOk, PumpEnabled, JoinEnabled, VisitEnabled, SessionEnabled,
      ApplyPump, ApplyJoin, ApplyVisit, ApplySession, IsPumpStep, IsJoiningStep, IsCollectorStep;
    if IsPumpStep(step) {
      PumpKeepsSession(p, w, step);
    } else if IsJoiningStep(step) {
      JoiningKeepsSession(p, w, step);
    } else if IsCollectorStep(step) {
      VisitKeepsSession(p, w, step);
    } else {
      OthersKeepSession(p, w, step);
    }
  }

  lemma StepKeepsInv(p: Policy, w: World, step: Step)
    requires Inv(p, w) && Enabled(p, w, step)
    ensures Inv(p, Apply(p, w, step))
  {
    hide Enabled, Apply, PumpOk, SessionOk, ClientOk;
    StepKeepsSession(p, w, step);
    var w' := Apply(p, w, step);
    forall c | c in w'.clients
      ensures ClientOk(w', c, w'.clients[c])
    {
      StepKeepsClient(p, w, step, c);
    }
  }

  lemma {:induction false} RunKeepsInv(p: Policy, w: World, steps: seq<Step>)
    requires Inv(p, w) && IsRun(p, w, steps)
    ensures Inv(p, After(p, w, steps))
    decreases |steps|
  {
    if steps != [] {
      StepKeepsInv(p, w, steps[0]);
      RunKeepsInv(p, Apply(p, w, steps[0]), steps[1..]);
    }
  }

  lemma StartOk(p: Policy, banner: seq<byte>)
    ensures Inv(p, Start(banner))
  {
  }

  // The theorems, over every run from a fresh session.

  /**
   A reattached client was sent the cleaned-up scrollback as of chunk m, and then chunks k, k + 1, ... in
   order without a gap: at most chunk m comes twice (k == m - 1), and what it missed is chunks m up to k.
   */
  lemma ReplayThenStream(p: Policy, banner: seq<byte>, steps: seq<Step>, c: ClientId)
    requires IsRun(p, Start(banner), steps)
    requires var w := After(p, Start(banner), steps); c in w.clients && Joined(w.clients[c]) && !w.clients[c].opening
    ensures var w := After(p, Start(banner), steps);
            var client := w.clients[c];
            && client.m <= client.k + 1 && client.k <= client.d <= |w.chunks|
            && client.m <= |w.chunks|
            && client.stream == QueryResponses.Kept(LastN(banner + Flatten(w.chunks[..client.m]), CAP), 0)
                              + Flatten(w.chunks[client.k..client.d])
  {
    StartOk(p, banner);
    RunKeepsInv(p, Start(banner), steps);
    BannerStays(p, Start(banner), steps);
    var w := After(p, Start(banner), steps);
    assert ClientOk(w, c, w.clients[c]);
  }

  lemma {:induction false} BannerStays(p: Policy, w: World, steps: seq<Step>)
    requires IsRun(p, w, steps)
    ensures After(p, w, steps).banner == w.banner
    decreases |steps|
  {
    if steps != [] {
      BannerStays(p, Apply(p, w, steps[0]), steps[1..]);
    }
  }

  /** While it stays registered, every chunk from k on has reached the client or is being sent to it. */
  lemma RegisteredMissesNothing(p: Policy, banner: seq<byte>, steps: seq<Step>, c: ClientId)
    requires IsRun(p, Start(banner), steps)
    requires After(p, Start(banner), steps).session.attachedSender == Some(c) && c !in After(p, Start(banner), steps).rest
    ensures var w := After(p, Start(banner), steps);
            && c in w.clients && w.clients[c].phase.Registered?
            && (w.pump.Reading? ==> w.clients[c].d == |w.chunks|)
            && w.clients[c].d >= |w.chunks| - 1
  {
    StartOk(p, banner);
    RunKeepsInv(p, Start(banner), steps);
    var w := After(p, Start(banner), steps);
    assert ClientOk(w, c, w.clients[c]);
  }

  /** A client is registered only while there is no detach time, so DETACHED means nobody is attached. */
  lemma DetachedMeansNobodyAttached(p: Policy, banner: seq<byte>, steps: seq<Step>)
    requires IsRun(p, Start(banner), steps)
    ensures var s := After(p, Start(banner), steps).session;
            && (s.attachedSender.Some? ==> s.detachedAt.None?)
            && (StatusOf(s) == DETACHED ==> s.attachedSender.None?)
  {
    StartOk(p, banner);
    RunKeepsInv(p, Start(banner), steps);
  }

  lemma {:induction false} RunSplits(p: Policy, w: World, a: seq<Step>, b: seq<Step>)
    ensures IsRun(p, w, a + b) <==> IsRun(p, w, a) && IsRun(p, After(p, w, a), b)
    ensures IsRun(p, w, a + b) ==> After(p, w, a + b) == After(p, After(p, w, a), b)
    decreases |a|
  {
    hide Enabled, Apply;
    if a == [] {
      assert a + b == b;
    } else {
      assert (a + b)[1..] == a[1..] + b;
      if Enabled(p, w, a[0]) {
        RunSplits(p, Apply(p, w, a[0]), a[1..], b);
      }
    }
  }

  lemma OthersKeepCollector(p: Policy, w: World, step: Step)
    requires Enabled(p, w, step) && !IsCollectorStep(step)
    ensures Apply(p, w, step).collector == w.collector
  {
  }

  lemma {:induction false} QuietRunKeepsCollector(p: Policy, w: World, steps: seq<Step>)
    requires IsRun(p, w, steps) && forall s | s in steps :: !IsCollectorStep(s)
    ensures After(p, w, steps).collector == w.collector
    decreases |steps|
  {
    hide Apply, Enabled, IsCollectorStep;
    if steps != [] {
      assert steps[0] in steps;
      OthersKeepCollector(p, w, steps[0]);
      QuietRunKeepsCollector(p, Apply(p, w, steps[0]), steps[1..]);
    }
  }

  /** The time to live is read at any later moment, whatever it was overridden to: the visit goes on. */
  lemma LateLookIsFoundDue(p: Policy, w: World, now: int, since: int)
    requires p.detachedSessionTTL != 0 && !p.allowUnlimitedTTL && now - since > p.detachedSessionTTL
    requires w.collector == SawDetached(now, since) && WithinMaximum(p, w.session)
    ensures var w' := Apply(p, w, CollectorReadsTTL); w'.collector.FoundDue? && w'.collector.now == now
  {
  }

  /**
   A visit of the collector that finds the session detached for longer than the maximum ends it, whatever
   other steps come between its sections.
   */
  lemma LateVisitEnds(p: Policy, banner: seq<byte>, before: seq<Step>, now: int, between: seq<Step>, after: seq<Step>)
    requires p.detachedSessionTTL != 0 && !p.allowUnlimitedTTL
    requires IsRun(p, Start(banner), before)
    requires var w := After(p, Start(banner), before);
             && w.collector == SawRunning(now) && w.session.detachedAt.Some?
             && now - w.session.detachedAt.value > p.detachedSessionTTL
             && IsRun(p, w, [CollectorLooks] + between + ([CollectorReadsTTL] + after))
    requires forall s | s in between || s in after :: !IsCollectorStep(s)
    ensures var w := After(p, Start(banner), before);
            var e := After(p, w, [CollectorLooks] + between + ([CollectorReadsTTL] + after));
            Enabled(p, e, CollectorEnds) && Apply(p, e, CollectorEnds).session == OnEnd(e.session, now)
  {
    var w := After(p, Start(banner), before);
    var since := w.session.detachedAt.value;
    StartOk(p, banner);
    RunKeepsInv(p, Start(banner), before);
    var looking, reading := [CollectorLooks], [CollectorReadsTTL];
    RunSplits(p, w, looking + between, reading + after);
    RunSplits(p, w, looking, between);
    var w1 := Apply(p, w, CollectorLooks);
    assert After(p, w, looking) == w1 by { RunOfOne(p, w, CollectorLooks); }
    LateLook(p, w, now);
    StepKeepsInv(p, w, CollectorLooks);
    RunKeepsInv(p, w1, between);
    QuietRunKeepsCollector(p, w1, between);
    var w2 := After(p, w1, between);
    assert WithinMaximum(p, w2.session);
    hide Apply, Enabled, Inv, WithinMaximum, IsRun, After;
    RunSplits(p, w2, reading, after);
    var w3 := Apply(p, w2, CollectorReadsTTL);
    assert After(p, w2, reading) == w3 by { RunOfOne(p, w2, CollectorReadsTTL); }
    LateLookIsFoundDue(p, w2, now, since);
    QuietRunKeepsCollector(p, w3, after);
    DueIsEnded(p, After(p, w3, after), now);
  }

  lemma LateLook(p: Policy, w: World, now: int)
    requires SessionOk(p, w) && w.session.detachedAt.Some? && w.collector == SawRunning(now)
    ensures Enabled(p, w, CollectorLooks)
    ensures Apply(p, w, CollectorLooks).collector == SawDetached(now, w.session.detachedAt.value)
  {
  }

  lemma DueIsEnded(p: Policy, w: World, now: int)
    requires w.collector.FoundDue? && w.collector.now == now
    ensures Enabled(p, w, CollectorEnds) && Apply(p, w, CollectorEnds).session == OnEnd(w.session, now)
  {
  }

  lemma RunOfOne(p: Policy, w: World, a: Step)
    requires Enabled(p, w, a)
    ensures IsRun(p, w, [a]) && After(p, w, [a]) == Apply(p, w, a)
  {
    assert [a][1..] == [];
  }

  lemma RunCons(p: Policy, w: World, a: Step, rest: seq<Step>)
    requires Enabled(p, w, a) && IsRun(p, Apply(p, w, a), rest)
    ensures IsRun(p, w, [a] + rest) && After(p, w, [a] + rest) == After(p, Apply(p, w, a), rest)
  {
    assert ([a] + rest)[1..] == rest;
  }

  // What the steps do to the session, field by field.

  /** The steps that kill it. */
  predicate Kills(w: World, step: Step) {
    step.CallEnds? || step.CollectorEnds? || (step.CollectorStarts? && w.session.ptyDone && w.session.deleted.None?)
  }

  lemma EndAfterStep(p: Policy, w: World, step: Step)
    requires Enabled(p, w, step)
    ensures Apply(p, w, step).session.killed == (w.session.killed || Kills(w, step))
    ensures Apply(p, w, step).session.deleted ==
            if step.CollectorEnds? then Some(w.collector.now)
            else if Kills(w, step) || step.ClientSeesExit? then Some(step.now)
            else w.session.deleted
  {
  }

  lemma SettingsAfterStep(p: Policy, w: World, step: Step)
    requires Enabled(p, w, step)
    ensures Apply(p, w, step).session.ptyDone == (w.session.ptyDone || step.ShellExits?)
    ensures Apply(p, w, step).session.detachTTL == if step.OverrideTTL? then Some(step.ttl) else w.session.detachTTL
  {
  }

  /** Once a session has an end time it is STOPPED for good. */
  lemma {:induction false} StoppedForGood(p: Policy, w: World, steps: seq<Step>)
    requires IsRun(p, w, steps) && w.session.deleted.Some?
    ensures After(p, w, steps).session.deleted.Some? && StatusOf(After(p, w, steps).session) == STOPPED
    decreases |steps|
  {
    StatusMeans(After(p, w, steps).session);
    hide Apply, Enabled, StatusOf;
    if steps != [] {
      EndAfterStep(p, w, steps[0]);
      StoppedForGood(p, Apply(p, w, steps[0]), steps[1..]);
    }
  }

  /** A visit to a session whose shell has exited kills it and notes its end, once, and it stays STOPPED. */
  lemma ExitedIsStopped(p: Policy, w: World, now: int, steps: seq<Step>)
    requires w.collector.Idle? && w.session.ptyDone
    ensures Enabled(p, w, CollectorStarts(now))
    ensures var s := Apply(p, w, CollectorStarts(now)).session;
            && s.deleted == (if w.session.deleted.None? then Some(now) else w.session.deleted)
            && (w.session.deleted.None? ==> s.killed)
            && (w.session.deleted.Some? ==> s == w.session)
    ensures IsRun(p, Apply(p, w, CollectorStarts(now)), steps) ==>
            StatusOf(After(p, Apply(p, w, CollectorStarts(now)), steps).session) == STOPPED
  {
    VisitChanges(p, w.session, now);
    var w' := Apply(p, w, CollectorStarts(now));
    assert w'.session.deleted.Some?;
    if IsRun(p, w', steps) {
      StoppedForGood(p, w', steps);
    }
  }

  /** The sections of a visit with nothing in between. */
  function VisitSteps(p: Policy, s: Session, now: int): seq<Step> {
    if s.ptyDone then [CollectorStarts(now)]
    else if s.attachedSender.Some? || s.detachedAt.None? then [CollectorStarts(now)] + [CollectorLooks]
    else [CollectorStarts(now)] + ([CollectorLooks] + ReadingSteps(p, s, s.detachedAt.value, now))
  }

  function ReadingSteps(p: Policy, s: Session, since: int, now: int): seq<Step> {
    var ttl := EffectiveTTL(p, s);
    if ttl == 0 || now - since <= ttl then [CollectorReadsTTL] else [CollectorReadsTTL] + [CollectorEnds]
  }

  /** The sections together are the one visit that Collected describes: it reads and decides the same. */
  lemma UndisturbedVisit(p: Policy, w: World, now: int)
    requires w.collector.Idle?
    ensures IsRun(p, w, VisitSteps(p, w.session, now))
    ensures After(p, w, VisitSteps(p, w.session, now)) == w.(session := Collected(p, w.session, now))
  {
    var s := w.session;
    var w1 := Apply(p, w, CollectorStarts(now));
    assert Enabled(p, w, CollectorStarts(now));
    if s.ptyDone {
      assert w1 == w.(session := Collected(p, s, now));
      RunOfOne(p, w, CollectorStarts(now));
    } else {
      var w2 := Apply(p, w1, CollectorLooks);
      assert w1.session == s && Enabled(p, w1, CollectorLooks);
      if s.attachedSender.Some? || s.detachedAt.None? {
        assert w2 == w.(session := Collected(p, s, now));
        hide *;
        RunOfOne(p, w1, CollectorLooks);
        RunCons(p, w, CollectorStarts(now), [CollectorLooks]);
      } else {
        var rest := ReadingSteps(p, s, s.detachedAt.value, now);
        assert VisitSteps(p, s, now) == [CollectorStarts(now)] + ([CollectorLooks] + rest);
        UndisturbedReading(p, w, now);
        assert w2 == w.(collector := SawDetached(now, s.detachedAt.value));
        hide *;
        RunOfTwo(p, w, CollectorStarts(now), CollectorLooks, rest);
      }
    }
  }

  lemma UndisturbedReading(p: Policy, w: World, now: int)
    requires w.collector.Idle? && !w.session.ptyDone && w.session.attachedSender.None? && w.session.detachedAt.Some?
    ensures var w2 := w.(collector := SawDetached(now, w.session.detachedAt.value));
            var rest := ReadingSteps(p, w.session, w.session.detachedAt.value, now);
            IsRun(p, w2, rest) && After(p, w2, rest) == w.(session := Collected(p, w.session, now))
  {
    var w2 := w.(collector := SawDetached(now, w.session.detachedAt.value));
    assert Enabled(p, w2, CollectorReadsTTL);
    var w3 := Apply(p, w2, CollectorReadsTTL);
    if Due(p, w.session, now) {
      assert Enabled(p, w3, CollectorEnds);
      assert Apply(p, w3, CollectorEnds) == w.(session := Collected(p, w.session, now));
      hide *;
      RunOfOne(p, w3, CollectorEnds);
      RunCons(p, w2, CollectorReadsTTL, [CollectorEnds]);
    } else {
      assert w3 == w.(session := Collected(p, w.session, now));
      hide *;
      RunOfOne(p, w2, CollectorReadsTTL);
    }
  }

  /** A call that has nothing left to do never does anything again. */
  lemma {:induction false} ReturnedForGood(p: Policy, w: World, c: ClientId, steps: seq<Step>)
    requires IsRun(p, w, steps) && c in w.calls && w.calls[c].Returned?
    ensures var e := After(p, w, steps); c in e.calls && e.calls[c].Returned?
    decreases |steps|
  {
    if steps != [] {
      var w' := Apply(p, w, steps[0]);
      assert c in w'.calls && w'.calls[c].Returned?;
      hide *;
      ReturnedForGood(p, w', c, steps[1..]);
    }
  }

  /** A REST client that detached ends the session neither then nor later, while one that dropped can, once. */
  lemma RestDetachEndsNothing(p: Policy, w: World, c: ClientId, now: int, steps: seq<Step>, later: int)
    requires c in w.rest && c !in w.calls
    requires IsRun(p, Apply(p, w, RestDetaches(c, now)), steps)
    ensures !Enabled(p, After(p, Apply(p, w, RestDetaches(c, now)), steps), CallEnds(c, later))
    ensures Enabled(p, Apply(p, w, RestDrops(c)), CallEnds(c, later))
    ensures !Enabled(p, Apply(p, Apply(p, w, RestDrops(c)), CallEnds(c, later)), CallEnds(c, later))
  {
    ReturnedForGood(p, Apply(p, w, RestDetaches(c, now)), c, steps);
  }

  // The ordinary course of things is always possible.

  /** Whatever state the session is in, a chunk gets from the shell to the client that is attached. */
  lemma ChunkGetsThrough(p: Policy, w: World, c: ClientId, chunk: seq<byte>)
    requires w.pump.Reading? && !w.session.ptyDone && chunk != []
    requires w.session.attachedSender == Some(c) && c in w.clients
    ensures var steps := [PumpRecords(chunk)] + ([PumpLooksUp] + [PumpSends]);
            && IsRun(p, w, steps)
            && var e := After(p, w, steps);
               && e.pump.Reading? && e.chunks == w.chunks + [chunk] && e.session == w.session
               && c in e.clients && e.clients[c].stream == w.clients[c].stream + chunk
  {
    var w1 := Apply(p, w, PumpRecords(chunk));
    var w2 := Apply(p, w1, PumpLooksUp);
    assert Enabled(p, w2, PumpSends);
    var w3 := Apply(p, w2, PumpSends);
    assert w3.pump.Reading? && w3.chunks == w.chunks + [chunk] && w3.session == w.session;
    assert c in w3.clients && w3.clients[c].stream == w.clients[c].stream + chunk;
    hide Apply, Enabled;
    RunOfOne(p, w2, PumpSends);
    RunOfTwo(p, w, PumpRecords(chunk), PumpLooksUp, [PumpSends]);
  }

  /** Any new client can reattach, whatever state the session is in, and is then the one attached. */
  lemma AnyClientReattaches(p: Policy, w: World, c: ClientId)
    requires c !in w.clients && c !in w.rest
    ensures var steps := [ClientSnapshots(c)] + ([ClientReplays(c)] + [ClientRegisters(c)]);
            && IsRun(p, w, steps)
            && var e := After(p, w, steps);
               && e.session.attachedSender == Some(c) && e.session.detachedAt == None
               && e.session.killed == w.session.killed && e.session.detachTTL == w.session.detachTTL
               && c in e.clients
               && e.clients[c].stream == QueryResponses.Kept(LastN(w.banner + Flatten(w.chunks), 262_144), 0)
  {
    assert IsNew(w, c);
    var w1 := Apply(p, w, ClientSnapshots(c));
    var w2 := Apply(p, w1, ClientReplays(c));
    assert Enabled(p, w, ClientSnapshots(c)) && Enabled(p, w1, ClientReplays(c)) && Enabled(p, w2, ClientRegisters(c));
    var w3 := Apply(p, w2, ClientRegisters(c));
    assert w3.session == OnAttach(w.session, c) && c in w3.clients;
    assert w3.clients[c].stream == QueryResponses.Kept(LastN(w.banner + Flatten(w.chunks), 262_144), 0);
    assert w3.session.attachedSender == Some(c) && w3.session.detachedAt == None;
    assert w3.session.killed == w.session.killed && w3.session.detachTTL == w.session.detachTTL;
    hide *;
    RunOfOne(p, w2, ClientRegisters(c));
    RunOfTwo(p, w, ClientSnapshots(c), ClientReplays(c), [ClientRegisters(c)]);
  }

  /** A send that fails costs the client its attachment, and nothing else. */
  lemma FailedSendDropsSender(p: Policy, w: World, c: ClientId, chunk: seq<byte>)
    requires w.pump == Sending(chunk, Some(c)) && w.session.attachedSender == Some(c)
    ensures var steps := [PumpSendFails] + [PumpDropsSender];
            && IsRun(p, w, steps)
            && var e := After(p, w, steps);
               && e.pump.Reading? && e.clients == w.clients && e.session.attachedSender == None
               && e.session.detachedAt == w.session.detachedAt && e.session.killed == w.session.killed
  {
    var w1 := Apply(p, w, PumpSendFails);
    assert Enabled(p, w1, PumpDropsSender);
    var w2 := Apply(p, w1, PumpDropsSender);
    assert w2.pump.Reading? && w2.clients == w.clients && w2.session.attachedSender == None;
    assert w2.session.detachedAt == w.session.detachedAt && w2.session.killed == w.session.killed;
    assert Enabled(p, w, PumpSendFails);
    hide *;
    RunOfOne(p, w1, PumpDropsSender);
    RunCons(p, w, PumpSendFails, [PumpDropsSender]);
  }

  /** Nobody attached and no detach time: what a reattached client that just drops leaves behind. */
  predicate Abandoned(w: World) {
    && w.session.attachedSender.None? && w.session.detachedAt.None?
    && !w.session.ptyDone && !w.session.killed && (w.collector.Idle? || w.collector.SawRunning?)
  }

  /** Somebody attaches, an earlier attachment or its call ends only now, or the shell exits. */
  predicate MayEndAbandonment(s: Step) {
    || s.ClientOpens? || s.ClientRegisters? || s.RestAttaches?
    || s.ClientDetaches? || s.RestDetaches? || s.CallEnds?
    || s.ShellExits?
  }

  /** Until somebody attaches or the shell exits, the collector does not end it, however long the run. */
  lemma {:induction false} AbandonedIsNeverCollected(p: Policy, w: World, steps: seq<Step>)
    requires Abandoned(w) && IsRun(p, w, steps)
    requires forall s | s in steps :: !MayEndAbandonment(s)
    ensures Abandoned(After(p, w, steps))
    decreases |steps|
  {
    if steps != [] {
      assert steps[0] in steps;
      assert Abandoned(Apply(p, w, steps[0]));
      AbandonedIsNeverCollected(p, Apply(p, w, steps[0]), steps[1..]);
    }
  }

  // When a session is ended under a client.

  predicate IsAttach(s: Step) {
    s.ClientOpens? || s.ClientRegisters? || s.RestAttaches?
  }

  predicate IsLeave(s: Step) {
    s.ClientDetaches? || s.ClientDrops? || s.ClientSeesExit? || s.RestDetaches? || s.RestDrops?
  }

  /** Through the whole run, nobody leaves or attaches and no failed send drops client c. */
  ghost predicate Undisturbed(p: Policy, w: World, steps: seq<Step>, c: ClientId)
    requires IsRun(p, w, steps)
    decreases |steps|
  {
    steps == [] ||
    (&& !IsAttach(steps[0]) && !IsLeave(steps[0]) && !(steps[0].PumpDropsSender? && w.pump.lost == c)
     && Undisturbed(p, Apply(p, w, steps[0]), steps[1..], c))
  }

  /** Some client attaches in the run and is undisturbed from then on. */
  ghost predicate Attaches(p: Policy, w: World, steps: seq<Step>)
    requires IsRun(p, w, steps)
    decreases |steps|
  {
    steps != [] &&
    (var w' := Apply(p, w, steps[0]);
     (IsAttach(steps[0]) && Undisturbed(p, w', steps[1..], steps[0].c)) || Attaches(p, w', steps[1..]))
  }

  lemma SenderAfterStep(p: Policy, w: World, step: Step)
    requires Enabled(p, w, step)
    ensures Apply(p, w, step).session.attachedSender ==
            if IsAttach(step) then Some(step.c)
            else if IsLeave(step) || (step.PumpDropsSender? && w.session.attachedSender == Some(w.pump.lost)) then None
            else w.session.attachedSender
  {
  }

  lemma {:induction false} SenderAfterRun(p: Policy, w: World, steps: seq<Step>)
    requires IsRun(p, w, steps)
    ensures After(p, w, steps).session.attachedSender.Some? <==>
              || (w.session.attachedSender.Some? && Undisturbed(p, w, steps, w.session.attachedSender.value))
              || Attaches(p, w, steps)
    decreases |steps|
  {
    hide Apply, Enabled, IsAttach, IsLeave;
    if steps != [] {
      SenderAfterStep(p, w, steps[0]);
      SenderAfterRun(p, Apply(p, w, steps[0]), steps[1..]);
      AttachIsNoLeave(steps[0]);
    }
  }

  lemma AttachIsNoLeave(s: Step)
    ensures !(IsAttach(s) && (IsLeave(s) || s.PumpDropsSender?))
  {
  }

  lemma {:induction false} AttachesByAttaching(p: Policy, w: World, steps: seq<Step>)
    requires IsRun(p, w, steps) && Attaches(p, w, steps)
    ensures exists s :: s in steps && IsAttach(s)
    decreases |steps|
  {
    hide Apply, Enabled, IsAttach, IsLeave;
    assert steps[0] in steps;
    if !IsAttach(steps[0]) {
      AttachesByAttaching(p, Apply(p, w, steps[0]), steps[1..]);
      var s :| s in steps[1..] && IsAttach(s);
    }
  }

  /**
   The collector decides on what it read. From any state in which it finds the session detached, and
   through any run up to its decision: it ends the session under a client exactly when one has attached
   meanwhile and is undisturbed since; so never, when no step in between attaches.
   */
  lemma CollectorEndsAttachedIff(p: Policy, w: World, steps: seq<Step>)
    requires w.collector.SawRunning? && w.session.attachedSender.None? && w.session.detachedAt.Some?
    requires IsRun(p, Apply(p, w, CollectorLooks), steps)
    requires Enabled(p, After(p, Apply(p, w, CollectorLooks), steps), CollectorEnds)
    ensures var w1 := Apply(p, w, CollectorLooks);
            var ended := Apply(p, After(p, w1, steps), CollectorEnds).session;
            && ended.killed
            && (ended.attachedSender.Some? <==> Attaches(p, w1, steps))
            && (ended.attachedSender.Some? ==> exists s :: s in steps && IsAttach(s))
  {
    var w1 := Apply(p, w, CollectorLooks);
    SenderAfterRun(p, w1, steps);
    if Attaches(p, w1, steps) {
      AttachesByAttaching(p, w1, steps);
    }
  }

  predicate IsDetach(s: Step) {
    s.ClientDetaches? || s.RestDetaches?
  }

  /** Some client detaches in the run and none attaches from then on. */
  predicate StaysDetached(steps: seq<Step>) {
    steps != [] &&
    ((IsDetach(steps[0]) && forall s | s in steps[1..] :: !IsAttach(s)) || StaysDetached(steps[1..]))
  }

  lemma DetachTimeAfterStep(p: Policy, w: World, step: Step)
    requires Enabled(p, w, step)
    ensures Apply(p, w, step).session.detachedAt.Some? <==>
            IsDetach(step) || (w.session.detachedAt.Some? && !IsAttach(step))
  {
  }

  lemma {:induction false} DetachTimeAfterRun(p: Policy, w: World, steps: seq<Step>)
    requires IsRun(p, w, steps)
    ensures After(p, w, steps).session.detachedAt.Some? <==>
            (w.session.detachedAt.Some? && forall s | s in steps :: !IsAttach(s)) || StaysDetached(steps)
    decreases |steps|
  {
    hide Apply, Enabled, IsAttach, IsDetach;
    if steps != [] {
      DetachTimeAfterStep(p, w, steps[0]);
      DetachTimeAfterRun(p, Apply(p, w, steps[0]), steps[1..]);
      assert steps == [steps[0]] + steps[1..];
    }
  }

  /** The call that opened the session decides to end it exactly when its client or a later one has left no detach time. */
  lemma OpenerDecidesIff(p: Policy, w: World, steps: seq<Step>, c: ClientId)
    requires IsRun(p, w, steps) && Enabled(p, After(p, w, steps), OpenerLooks(c))
    ensures c in Apply(p, After(p, w, steps), OpenerLooks(c)).calls
    ensures Apply(p, After(p, w, steps), OpenerLooks(c)).calls[c] == Returned <==>
            (w.session.detachedAt.Some? && forall s | s in steps :: !IsAttach(s)) || StaysDetached(steps)
  {
    DetachTimeAfterRun(p, w, steps);
    hide IsRun, After, StaysDetached;
  }

  predicate IsEndOf(s: Step, c: ClientId) {
    s.CallEnds? && s.c == c
  }

  lemma OthersKeepCall(p: Policy, w: World, step: Step, c: ClientId)
    requires Enabled(p, w, step) && c in w.calls && !IsEndOf(step, c)
    ensures c in Apply(p, w, step).calls && Apply(p, w, step).calls[c] == w.calls[c]
  {
  }

  lemma {:induction false} RunKeepsCall(p: Policy, w: World, steps: seq<Step>, c: ClientId)
    requires IsRun(p, w, steps) && c in w.calls && forall s | s in steps :: !IsEndOf(s, c)
    ensures c in After(p, w, steps).calls && After(p, w, steps).calls[c] == w.calls[c]
    decreases |steps|
  {
    hide Apply, Enabled, IsEndOf;
    if steps != [] {
      assert steps[0] in steps;
      OthersKeepCall(p, w, steps[0], c);
      RunKeepsCall(p, Apply(p, w, steps[0]), steps[1..], c);
    }
  }

  /** Somebody is attached after the run: from before it and undisturbed, or by the run. */
  ghost predicate HasClientAfter(p: Policy, w: World, steps: seq<Step>)
    requires IsRun(p, w, steps)
  {
    || (w.session.attachedSender.Some? && Undisturbed(p, w, steps, w.session.attachedSender.value))
    || Attaches(p, w, steps)
  }

  /** What a call that has decided to end the session ends, any run later. */
  lemma CallEndsWhatIsThere(p: Policy, w: World, c: ClientId, steps: seq<Step>, now: int)
    requires c in w.calls && IsRun(p, w, steps) && forall s | s in steps :: !IsEndOf(s, c)
    ensures var e := After(p, w, steps);
            && (Enabled(p, e, CallEnds(c, now)) <==> w.calls[c] == Ending)
            && (w.calls[c] == Ending ==>
                  var ended := Apply(p, e, CallEnds(c, now)).session;
                  && ended == OnEnd(e.session, now)
                  && (ended.attachedSender.Some? <==> HasClientAfter(p, w, steps))
                  && (ended.detachedAt.Some? <==>
                        (w.session.detachedAt.Some? && forall s | s in steps :: !IsAttach(s)) || StaysDetached(steps)))
  {
    RunKeepsCall(p, w, steps, c);
    SenderAfterRun(p, w, steps);
    DetachTimeAfterRun(p, w, steps);
    hide IsRun, After, StaysDetached, Undisturbed, Attaches;
  }

  /**
   The call that opened the session looks for a detach time once, when it returns, and cleans up in a later
   section. From any state in which it looks, and through any run up to its cleanup: it ends the session
   exactly when it found no detach time; it does so under a client exactly when the one attached at the look
   is undisturbed or another has attached and is; and it ends a session that has got a detach time meanwhile
   exactly when a client has detached and none attached after it.
   */
  lemma OpenerEndsAttachedIff(p: Policy, w: World, c: ClientId, steps: seq<Step>, now: int)
    requires Enabled(p, w, OpenerLooks(c)) && IsRun(p, Apply(p, w, OpenerLooks(c)), steps)
    requires forall s | s in steps :: !IsEndOf(s, c)
    ensures var w1 := Apply(p, w, OpenerLooks(c));
            var e := After(p, w1, steps);
            && (Enabled(p, e, CallEnds(c, now)) <==> w.session.detachedAt.None?)
            && (w.session.detachedAt.None? ==>
                  var ended := Apply(p, e, CallEnds(c, now)).session;
                  && ended == OnEnd(e.session, now)
                  && (ended.attachedSender.Some? <==> HasClientAfter(p, w1, steps))
                  && (ended.detachedAt.Some? <==> StaysDetached(steps)))
  {
    var w1 := Apply(p, w, OpenerLooks(c));
    assert c in w1.calls && w1.session == w.session && (w1.calls[c] == Ending <==> w.session.detachedAt.None?);
    hide *;
    CallEndsWhatIsThere(p, w1, c, steps, now);
  }

  /**
   A REST call that destroys the session clears the sender in one section and cleans up in another. It ends
   the session under a client exactly when one has attached in between and is undisturbed.
   */
  lemma RestEndsAttachedIff(p: Policy, w: World, c: ClientId, steps: seq<Step>, now: int)
    requires Enabled(p, w, RestDrops(c)) && IsRun(p, Apply(p, w, RestDrops(c)), steps)
    requires forall s | s in steps :: !IsEndOf(s, c)
    ensures var w1 := Apply(p, w, RestDrops(c));
            var e := After(p, w1, steps);
            && Enabled(p, e, CallEnds(c, now))
            && var ended := Apply(p, e, CallEnds(c, now)).session;
               ended == OnEnd(e.session, now) && (ended.attachedSender.Some? <==> Attaches(p, w1, steps))
  {
    var w1 := Apply(p, w, RestDrops(c));
    assert c in w1.calls && w1.calls[c] == Ending && w1.session.attachedSender.None?;
    hide Apply, Enabled, IsRun, After, Attaches, Undisturbed, StaysDetached, IsEndOf;
    CallEndsWhatIsThere(p, w1, c, steps, now);
  }

  // Runs from a fresh session in which it happens: client 1 reattaches in between.

  function ReattachThen(tail: seq<Step>): seq<Step> {
    [ClientSnapshots(1)] + ([ClientReplays(1)] + ([ClientRegisters(1)] + tail))
  }

  ghost function Reattached(p: Policy, w: World): World
    requires IsNew(w, 1)
  {
    Apply(p, Apply(p, Apply(p, w, ClientSnapshots(1)), ClientReplays(1)), ClientRegisters(1))
  }

  lemma ReattachedIs(p: Policy, w: World)
    requires IsNew(w, 1)
    ensures var w' := Reattached(p, w);
            && w'.session == OnAttach(w.session, 1) && w'.collector == w.collector && w'.calls == w.calls
            && InPhase(w', 1, Registered)
            && (forall c | c in w.clients :: c in w'.clients && w'.clients[c] == w.clients[c])
  {
  }

  lemma ReattachRuns(p: Policy, w: World, tail: seq<Step>)
    requires IsNew(w, 1) && IsRun(p, Reattached(p, w), tail)
    ensures IsRun(p, w, ReattachThen(tail)) && After(p, w, ReattachThen(tail)) == After(p, Reattached(p, w), tail)
  {
    var w1 := Apply(p, w, ClientSnapshots(1));
    var w2 := Apply(p, w1, ClientReplays(1));
    assert Enabled(p, w1, ClientReplays(1)) && Enabled(p, w2, ClientRegisters(1));
    assert Apply(p, w2, ClientRegisters(1)) == Reattached(p, w);
    hide Apply, Enabled, Reattached;
    RunCons(p, w2, ClientRegisters(1), tail);
    RunCons(p, w1, ClientReplays(1), [ClientRegisters(1)] + tail);
    RunCons(p, w, ClientSnapshots(1), [ClientReplays(1)] + ([ClientRegisters(1)] + tail));
  }

  /** One more step after a reattach. */
  lemma ReattachAndOne(p: Policy, w: World, a: Step)
    requires IsNew(w, 1) && Enabled(p, Reattached(p, w), a)
    ensures IsRun(p, w, ReattachThen([a])) && After(p, w, ReattachThen([a])) == Apply(p, Reattached(p, w), a)
  {
    hide *;
    RunOfOne(p, Reattached(p, w), a);
    ReattachRuns(p, w, [a]);
  }

  /** Two more steps after a reattach. */
  lemma ReattachAndTwo(p: Policy, w: World, a: Step, b: Step)
    requires IsNew(w, 1) && Enabled(p, Reattached(p, w), a) && Enabled(p, Apply(p, Reattached(p, w), a), b)
    ensures var steps := ReattachThen([a] + [b]);
            IsRun(p, w, steps) && After(p, w, steps) == Apply(p, Apply(p, Reattached(p, w), a), b)
  {
    hide *;
    RunOfOne(p, Apply(p, Reattached(p, w), a), b);
    RunCons(p, Reattached(p, w), a, [b]);
    ReattachRuns(p, w, [a] + [b]);
  }

  lemma RunOfTwo(p: Policy, w: World, a: Step, b: Step, rest: seq<Step>)
    requires Enabled(p, w, a) && Enabled(p, Apply(p, w, a), b) && IsRun(p, Apply(p, Apply(p, w, a), b), rest)
    ensures IsRun(p, w, [a] + ([b] + rest))
    ensures After(p, w, [a] + ([b] + rest)) == After(p, Apply(p, Apply(p, w, a), b), rest)
  {
    hide *;
    RunCons(p, Apply(p, w, a), b, rest);
    RunCons(p, w, a, [b] + rest);
  }

  /** Client 0 opens the session and leaves. */
  lemma OpensAndLeaves(p: Policy, leave: Step)
    requires leave.ClientDetaches? || leave.ClientDrops?
    requires leave.c == 0
    ensures Enabled(p, Start([]), ClientOpens(0))
    ensures var w1 := Apply(p, Start([]), ClientOpens(0));
            && Enabled(p, w1, leave)
            && var w2 := Apply(p, w1, leave);
               && IsNew(w2, 1) && InPhase(w2, 0, Gone) && w2.clients[0].opening && 0 !in w2.calls
               && w2.collector.Idle? && !w2.session.ptyDone && !w2.session.killed && w2.session.detachTTL.None?
               && w2.session.attachedSender.None?
               && w2.session.detachedAt == if leave.ClientDetaches? then Some(leave.now) else None
  {
  }

  lemma LookChangesNothingElse(p: Policy, w: World)
    requires Enabled(p, w, OpenerLooks(0))
    ensures var w' := Apply(p, w, OpenerLooks(0));
            && 0 in w'.calls && w'.calls[0] == (if w.session.detachedAt.None? then Ending else Returned)
            && w' == w.(calls := w'.calls)
  {
  }

  /** A run that abandons a session: client 0 opens and detaches, its call returns, client 1 reattaches and drops. */
  lemma AbandonedIsReached(p: Policy, t: int)
    ensures var steps := [ClientOpens(0)] + ([ClientDetaches(0, t)] + ([OpenerLooks(0)] + ReattachThen([ClientDrops(1)])));
            IsRun(p, Start([]), steps) && Abandoned(After(p, Start([]), steps))
  {
    OpensAndLeaves(p, ClientDetaches(0, t));
    var w1 := Apply(p, Start([]), ClientOpens(0));
    var w2 := Apply(p, w1, ClientDetaches(0, t));
    assert Enabled(p, w2, OpenerLooks(0));
    LookChangesNothingElse(p, w2);
    var w3 := Apply(p, w2, OpenerLooks(0));
    assert IsNew(w3, 1);
    hide *;
    DropAbandons(p, w3);
    ReattachAndOne(p, w3, ClientDrops(1));
    RunCons(p, w2, OpenerLooks(0), ReattachThen([ClientDrops(1)]));
    RunOfTwo(p, Start([]), ClientOpens(0), ClientDetaches(0, t), [OpenerLooks(0)] + ReattachThen([ClientDrops(1)]));
  }

  lemma DropAbandons(p: Policy, w: World)
    requires IsNew(w, 1) && w.collector.Idle? && !w.session.ptyDone && !w.session.killed
    ensures Enabled(p, Reattached(p, w), ClientDrops(1)) && Abandoned(Apply(p, Reattached(p, w), ClientDrops(1)))
  {
    ReattachedIs(p, w);
    hide Reattached;
  }

  function VisitWithReattach(now: int): seq<Step> {
    [CollectorStarts(now)] + ([CollectorLooks] + ([CollectorReadsTTL] + ReattachThen([CollectorEnds])))
  }

  /** A client that reattaches between the collector's last read and its decision. */
  lemma CollectorMayEndAttached(p: Policy, t: int)
    requires p.detachedSessionTTL != 0
    ensures var steps := [ClientOpens(0)] + ([ClientDetaches(0, t)] + VisitWithReattach(t + p.detachedSessionTTL + 1));
            IsRun(p, Start([]), steps)
            && After(p, Start([]), steps).session.attachedSender == Some(1) && After(p, Start([]), steps).session.killed
  {
    OpensAndLeaves(p, ClientDetaches(0, t));
    hide *;
    var w1 := Apply(p, Start([]), ClientOpens(0));
    var w2 := Apply(p, w1, ClientDetaches(0, t));
    var now := t + p.detachedSessionTTL + 1;
    VisitEndsReattached(p, w2, t, now);
    RunOfTwo(p, Start([]), ClientOpens(0), ClientDetaches(0, t), VisitWithReattach(now));
  }

  lemma VisitEndsReattached(p: Policy, w: World, t: int, now: int)
    requires w.collector.Idle? && !w.session.ptyDone && IsNew(w, 1) && w.session.detachTTL.None?
    requires w.session.attachedSender.None? && w.session.detachedAt == Some(t)
    requires p.detachedSessionTTL != 0 && now - t > p.detachedSessionTTL
    ensures var steps := VisitWithReattach(now);
            IsRun(p, w, steps)
            && After(p, w, steps).session.attachedSender == Some(1) && After(p, w, steps).session.killed
  {
    VisitFindsDue(p, w, t, now);
    assert VisitWithReattach(now) == [CollectorStarts(now)] + ([CollectorLooks] + ([CollectorReadsTTL] + ReattachThen([CollectorEnds])));
    hide *;
    var w1 := Apply(p, w, CollectorStarts(now));
    var w2 := Apply(p, w1, CollectorLooks);
    var w3 := Apply(p, w2, CollectorReadsTTL);
    DueIsEndedAfterReattach(p, w3);
    ReattachAndOne(p, w3, CollectorEnds);
    RunCons(p, w2, CollectorReadsTTL, ReattachThen([CollectorEnds]));
    RunOfTwo(p, w, CollectorStarts(now), CollectorLooks, [CollectorReadsTTL] + ReattachThen([CollectorEnds]));
  }

  lemma VisitFindsDue(p: Policy, w: World, t: int, now: int)
    requires w.collector.Idle? && !w.session.ptyDone && IsNew(w, 1) && w.session.detachTTL.None?
    requires w.session.attachedSender.None? && w.session.detachedAt == Some(t)
    requires p.detachedSessionTTL != 0 && now - t > p.detachedSessionTTL
    ensures Enabled(p, w, CollectorStarts(now))
    ensures var w1 := Apply(p, w, CollectorStarts(now));
            && Enabled(p, w1, CollectorLooks)
            && var w2 := Apply(p, w1, CollectorLooks);
               && Enabled(p, w2, CollectorReadsTTL)
               && var w3 := Apply(p, w2, CollectorReadsTTL); w3.collector.FoundDue? && IsNew(w3, 1)
  {
  }

  lemma DueIsEndedAfterReattach(p: Policy, w: World)
    requires w.collector.FoundDue? && IsNew(w, 1)
    ensures Enabled(p, Reattached(p, w), CollectorEnds)
    ensures var s := Apply(p, Reattached(p, w), CollectorEnds).session; s.attachedSender == Some(1) && s.killed
  {
    ReattachedIs(p, w);
    hide Reattached, Enabled, Apply;
    DueIsEnded(p, Reattached(p, w), w.collector.now);
  }

  /** A client that reattaches before the opening call looks has cleared the detach time. */
  lemma OpenerMayEndReattached(p: Policy, t: int, now: int)
    ensures var steps := [ClientOpens(0)] + ([ClientDetaches(0, t)] + ReattachThen([OpenerLooks(0)] + [CallEnds(0, now)]));
            IsRun(p, Start([]), steps)
            && After(p, Start([]), steps).session.attachedSender == Some(1) && After(p, Start([]), steps).session.killed
  {
    OpensAndLeaves(p, ClientDetaches(0, t));
    var w1 := Apply(p, Start([]), ClientOpens(0));
    var w2 := Apply(p, w1, ClientDetaches(0, t));
    hide *;
    LooksAfterReattach(p, w2, now);
    ReattachAndTwo(p, w2, OpenerLooks(0), CallEnds(0, now));
    RunOfTwo(p, Start([]), ClientOpens(0), ClientDetaches(0, t), ReattachThen([OpenerLooks(0)] + [CallEnds(0, now)]));
  }

  lemma LooksAfterReattach(p: Policy, w: World, now: int)
    requires IsNew(w, 1) && InPhase(w, 0, Gone) && w.clients[0].opening && 0 !in w.calls
    ensures Enabled(p, Reattached(p, w), OpenerLooks(0))
    ensures var w' := Apply(p, Reattached(p, w), OpenerLooks(0));
            && Enabled(p, w', CallEnds(0, now))
            && var s := Apply(p, w', CallEnds(0, now)).session; s.attachedSender == Some(1) && s.killed
  {
    ReattachedIs(p, w);
    hide Reattached, Apply, Enabled;
    LooksAndEnds(p, Reattached(p, w), now);
  }

  lemma LooksAndEnds(p: Policy, w: World, now: int)
    requires w.session.attachedSender == Some(1) && w.session.detachedAt.None?
    requires InPhase(w, 0, Gone) && w.clients[0].opening && 0 !in w.calls
    ensures Enabled(p, w, OpenerLooks(0))
    ensures var w' := Apply(p, w, OpenerLooks(0));
            && Enabled(p, w', CallEnds(0, now))
            && var s := Apply(p, w', CallEnds(0, now)).session; s.attachedSender == Some(1) && s.killed
  {
  }

  /** A client that reattaches and detaches between the look and the cleanup: a detached session is ended. */
  lemma OpenerMayEndDetached(p: Policy, t: int, now: int)
    ensures var steps := [ClientOpens(0)] + ([ClientDrops(0)] + ([OpenerLooks(0)] + ReattachThen([ClientDetaches(1, t)] + [CallEnds(0, now)])));
            IsRun(p, Start([]), steps)
            && After(p, Start([]), steps).session.detachedAt == Some(t) && After(p, Start([]), steps).session.killed
  {
    OpensAndLeaves(p, ClientDrops(0));
    var w1 := Apply(p, Start([]), ClientOpens(0));
    var w2 := Apply(p, w1, ClientDrops(0));
    assert Enabled(p, w2, OpenerLooks(0));
    LookChangesNothingElse(p, w2);
    var w3 := Apply(p, w2, OpenerLooks(0));
    assert IsNew(w3, 1) && 0 in w3.calls && w3.calls[0] == Ending;
    hide *;
    DetachesBeforeCleanup(p, w3, t, now);
    ReattachAndTwo(p, w3, ClientDetaches(1, t), CallEnds(0, now));
    var tail := ReattachThen([ClientDetaches(1, t)] + [CallEnds(0, now)]);
    RunCons(p, w2, OpenerLooks(0), tail);
    RunOfTwo(p, Start([]), ClientOpens(0), ClientDrops(0), [OpenerLooks(0)] + tail);
  }

  lemma DetachesBeforeCleanup(p: Policy, w: World, t: int, now: int)
    requires IsNew(w, 1) && 0 in w.calls && w.calls[0] == Ending
    ensures Enabled(p, Reattached(p, w), ClientDetaches(1, t))
    ensures var w' := Apply(p, Reattached(p, w), ClientDetaches(1, t));
            && Enabled(p, w', CallEnds(0, now))
            && var s := Apply(p, w', CallEnds(0, now)).session; s.detachedAt == Some(t) && s.killed
  {
    ReattachedIs(p, w);
    hide Reattached, Apply, Enabled;
    DetachesAndIsEnded(p, Reattached(p, w), t, now);
  }

  lemma DetachesAndIsEnded(p: Policy, w: World, t: int, now: int)
    requires InPhase(w, 1, Registered) && 0 in w.calls && w.calls[0] == Ending
    ensures Enabled(p, w, ClientDetaches(1, t))
    ensures var w' := Apply(p, w, ClientDetaches(1, t));
            && Enabled(p, w', CallEnds(0, now))
            && var s := Apply(p, w', CallEnds(0, now)).session; s.detachedAt == Some(t) && s.killed
  {
  }
}
