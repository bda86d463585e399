/** Which requests reach their target, in terms of the configuration data, the answers of the PGPE
    and the polls of the waits (state.c). */
module OccStateTargets {
  import opened OccState
  import opened OccStateRuns
  import opened Wrappers

  // ---------- The waits, poll by poll ----------

  /** Some poll of a wait, with 10 us per poll, sees the PGPE idle before the limit. */
  ghost predicate PollsIdle(e: Environment) {
    exists i: nat :: 10 * i < e.taskTimeoutUs && e.settlingAt(i) != InTransition
  }

  ghost predicate NeverIdle(e: Environment) {
    forall i: nat :: 10 * i <= e.taskTimeoutUs ==> e.settlingAt(i) == InTransition
  }

  ghost predicate PollsDisabled(e: Environment) {
    exists i: nat :: 10 * i < e.taskTimeoutUs && e.stoppingAt(i) == Disabled
  }

  /** Pstates are seen enabled at a poll, and none before it was later than five seconds. */
  ghost predicate PollsEnabled(e: Environment) {
    exists i: nat :: e.enabledAt(i) && forall j: nat :: j < i ==> !e.enabledAt(j) && e.clockUs(j) <= 5_000_000
  }

  /** A wait ends below its limit exactly when some poll below the limit is not blocked. */
  lemma {:induction false} WaitEndsBelow(blocked: nat -> bool, limit: nat, i: nat)
    ensures WaitTime(blocked, limit, i) < limit <==> exists j: nat :: i <= j && 10 * j < limit && !blocked(j)
    decreases limit - 10 * i
  {
    if blocked(i) && 10 * i < limit {
      WaitEndsBelow(blocked, limit, i + 1);
      forall j: nat | i <= j && 10 * j < limit && !blocked(j) ensures i + 1 <= j {
        assert j != i;
      }
    } else if 10 * i < limit {
      assert !blocked(i);
    }
  }

  lemma SettlesWhen(e: Environment)
    ensures SettleTime(e) < e.taskTimeoutUs <==> PollsIdle(e)
    ensures SettleTime(e) <= e.taskTimeoutUs <==> e.taskTimeoutUs % 10 == 0 || PollsIdle(e)
    ensures SettleTime(e) <= e.taskTimeoutUs ==> (StillSettling(e) <==> NeverIdle(e))
  {
    WaitEndsBelow(e.Settling, e.taskTimeoutUs, 0);
    BlockedWait(e.Settling, e.taskTimeoutUs, 0);
    assert SettleTime(e) < e.taskTimeoutUs <==> PollsIdle(e) by {
      assert forall j: nat :: e.Settling(j) <==> e.settlingAt(j) == InTransition;
    }
  }

  lemma StopsWhen(e: Environment)
    ensures StopTime(e) < e.taskTimeoutUs <==> PollsDisabled(e)
  {
    WaitEndsBelow(e.Stopping, e.taskTimeoutUs, 0);
    assert forall j: nat :: e.Stopping(j) <==> e.stoppingAt(j) != Disabled;
  }

  lemma EnabledWhen(e: Environment)
    ensures e.EnabledInTime() <==> PollsEnabled(e)
  {
    if e.EnabledInTime() {
      var i: nat :| e.enabledAt(i) && e.NotBefore(i);
    }
    if PollsEnabled(e) {
      var i: nat :| e.enabledAt(i) && forall j: nat :: j < i ==> !e.enabledAt(j) && e.clockUs(j) <= 5_000_000;
      assert e.NotBefore(i);
    }
  }

  // ---------- Readiness ----------

  predicate AllSet(data: bv32, mask: bv32) {
    data & mask == mask
  }

  lemma CoversIs(data: bv32, mask: bv32)
    ensures Covers(data, mask) <==> AllSet(data, mask)
  {
  }

  lemma ReadyWhen(e: Environment, k: nat)
    requires e.Valid() && k < 2
    ensures e.ActiveReady(k) <==> AllSet(e.data[k], e.actMask)
    ensures e.ObservationReady(k) <==> AllSet(e.data[k], e.obsMask)
  {
    hide Covers, AllSet;
    CoversIs(e.data[k], e.actMask);
    CoversIs(e.data[k], e.obsMask);
  }

  // ---------- Observation ----------

  /** From Active, Observation is reached exactly when there are no cores, or the PGPE accepts the
      clips, a previous request is not seen to outlast a limit that is no multiple of the step, the
      PGPE accepts STOP, and it is seen to have stopped before the limit. */
  lemma ObservationFromActive(s: Smgr, e: Environment)
    requires e.Valid() && s.state == Active
    ensures var r, idle := SetState(s, e, Observation), e.taskTimeoutUs % 10 == 0 || PollsIdle(e);
            var reached := !e.semaphoreFails
                           && (e.cores == 0 || (e.clipRc == 0 && idle && e.stopRc == 0 && PollsDisabled(e)));
            && r.s.state == (if reached then Observation else Active)
            && r.s.mask == (if reached then s.mask - {RtlActive} + {RtlObs} else s.mask)
            && r.err == (if reached then None
                         else if e.semaphoreFails then Some(SemaphoreFailure)
                         else if e.clipRc != 0 then Some(NoExtendedRc)
                         else if !idle then Some(TaskTimeout)
                         else if e.stopRc != 0 then Some(StartSuspendFailure)
                         else Some(ActToObsTimeout))
            && (reached ==>
                  r.s.trace == s.trace + if e.cores == 0 then []
                                         else [SetClip(0), SettleWait(NeverIdle(e)), StopPstates(0)])
            && r.s.latches == s.latches && (!e.semaphoreFails ==> r.s.wofStateChange)
  {
    hide NeverIdle, PollsIdle, PollsDisabled, SettleTime, StopTime, StillSettling;
    SettlesWhen(e);
    StopsWhen(e);
  }

  /** From Characterization, exactly when there are no cores or clips and STOP are accepted. */
  lemma ObservationFromCharacterization(s: Smgr, e: Environment)
    requires e.Valid() && s.state == Characterization
    ensures var r := SetState(s, e, Observation);
            var reached := !e.semaphoreFails && (e.cores == 0 || (e.clipRc == 0 && e.stopRc == 0));
            && r.s.state == (if reached then Observation else Characterization) && r.s.mask == s.mask
            && r.err == (if reached then None
                         else if e.semaphoreFails then Some(SemaphoreFailure) else Some(ChrToObsFailure))
            && (reached ==> r.s.trace == s.trace + if e.cores == 0 then [] else [SetClip(0), StopPstates(0)])
            && r.s.latches == s.latches && r.s.wofStateChange == s.wofStateChange
  {
  }

  /** From Standby, exactly when every bit of the observation mask is set in the data. */
  lemma ObservationFromStandby(s: Smgr, e: Environment)
    requires e.Valid() && s.state == Standby
    ensures var r := SetState(s, e, Observation);
            var reached := !e.semaphoreFails && AllSet(e.data[0], e.obsMask);
            && r.s.state == (if reached then Observation else Standby)
            && r.s.mask == (if reached then s.mask - {RtlStandby} + {RtlObs} else s.mask)
            && r.err == (if e.semaphoreFails then Some(SemaphoreFailure)
                         else if reached || s.latches.stbObs then None else Some(StbToObsFailure))
            && (reached ==> r.s.trace == s.trace + [ObsReadyCheck(true)])
            && (!e.semaphoreFails ==> r.s.latches == s.latches.(stbObs := !reached))
  {
  }

  // ---------- Characterization ----------

  /** What the PGPE is asked on the way into Characterization: to start for that owner. */
  function CharRequest(e: Environment): seq<Event> {
    if e.cores == 0 then [] else [SetClip(0), StartPstates(Char, 0), CheckEnabled(true)]
  }

  lemma CharStartsWhen(e: Environment)
    requires e.Valid()
    ensures CharStart(e).1 <==> e.cores == 0 || (e.clipRc == 0 && e.startRc == 0 && PollsEnabled(e))
    ensures CharStart(e).1 ==> CharStart(e).0 == CharRequest(e)
  {
    hide PollsEnabled, Environment.EnabledInTime;
    EnabledWhen(e);
  }

  /** From Standby, exactly when every bit of the active mask is set in the data and there are no
      cores, or clips and start are accepted and pstates are seen enabled in time. */
  lemma CharacterizationFromStandby(s: Smgr, e: Environment)
    requires e.Valid() && s.state == Standby
    ensures var r, ready := SetState(s, e, Characterization), AllSet(e.data[0], e.actMask);
            var reached := !e.semaphoreFails && ready
                           && (e.cores == 0 || (e.clipRc == 0 && e.startRc == 0 && PollsEnabled(e)));
            && r.s.state == (if reached then Characterization else Standby)
            && r.s.mask == (if reached then s.mask - {RtlStandby} + {RtlObs} else s.mask)
            && (reached ==> r.err == None && r.s.trace == s.trace + [ActiveReadyCheck(true)] + CharRequest(e))
            && (!reached && !e.semaphoreFails ==>
                  r.err == if s.latches.stbChr && !ready then None else Some(StbToChrFailure))
            && (!e.semaphoreFails ==> r.s.latches == s.latches.(stbChr := !reached))
  {
    ReadyWhen(e, 0);
    CharStartsWhen(e);
    hide CharStart, CharRequest, PollsEnabled, Covers, AllSet, Environment.ActiveReady;
  }

  /** From Observation likewise; the run mask stays. */
  lemma CharacterizationFromObservation(s: Smgr, e: Environment)
    requires e.Valid() && s.state == Observation
    ensures var r, ready := SetState(s, e, Characterization), AllSet(e.data[0], e.actMask);
            var reached := !e.semaphoreFails && ready
                           && (e.cores == 0 || (e.clipRc == 0 && e.startRc == 0 && PollsEnabled(e)));
            && r.s.state == (if reached then Characterization else Observation) && r.s.mask == s.mask
            && (reached ==> r.err == None && r.s.trace == s.trace + [ActiveReadyCheck(true)] + CharRequest(e))
            && (!reached && !e.semaphoreFails ==> r.err == if s.latches.obsChr then None else Some(ObsToChrFailure))
            && (!e.semaphoreFails ==> r.s.latches == s.latches.(obsChr := s.latches.obsChr || !reached))
  {
    ReadyWhen(e, 0);
    CharStartsWhen(e);
    hide CharStart, CharRequest, PollsEnabled, Covers, AllSet, Environment.ActiveReady;
  }

  /** From Active, exactly when there are no cores, or clips are accepted, a previous request is seen
      to settle before the limit, the new owner is accepted and pstates are seen enabled in time. */
  lemma CharacterizationFromActive(s: Smgr, e: Environment)
    requires e.Valid() && s.state == Active
    ensures var r := SetState(s, e, Characterization);
            var reached := !e.semaphoreFails
                           && (e.cores == 0 || (e.clipRc == 0 && PollsIdle(e) && e.startRc == 0 && PollsEnabled(e)));
            && r.s.state == (if reached then Characterization else Active)
            && r.s.mask == (if reached then s.mask - {RtlActive} + {RtlObs} else s.mask)
            && r.err == (if reached then None
                         else if e.semaphoreFails then Some(SemaphoreFailure) else Some(ActToChrFailure))
            && (reached ==>
                  r.s.trace == s.trace + if e.cores == 0 then []
                                         else [SetClip(0), SettleWait(false), StartPstates(Char, 0),
                                               CheckEnabled(true)])
            && r.s.latches == s.latches && (!e.semaphoreFails ==> r.s.wofStateChange)
  {
    hide PollsIdle, PollsEnabled, Environment.EnabledInTime;
    SettlesWhen(e);
    EnabledWhen(e);
    OwnerChangesOnlyWhenSettled(e);
    hide SettleTime, StillSettling;
    if !e.semaphoreFails && e.cores != 0 && e.clipRc == 0 && PollsIdle(e) && e.startRc == 0 && PollsEnabled(e) {
      assert ChangeOwner(e).0 == [SetClip(0), SettleWait(StillSettling(e)), StartPstates(Char, 0), CheckEnabled(true)];
      assert ChangeOwner(e).0[2] == StartPstates(Char, e.startRc);
    }
  }

  // ---------- Active ----------

  /** From Observation or Characterization, exactly when every bit of the active mask is set and there
      are no cores, or clips and start are accepted and pstates are enabled when read once more. */
  lemma ActiveFromBelow(s: Smgr, e: Environment)
    requires e.Valid() && s.state in {Observation, Characterization}
    ensures var r, ready := SetState(s, e, Active), AllSet(e.data[0], e.actMask);
            var reached := !e.semaphoreFails && ready
                           && (e.cores == 0 || (e.clipRc == 0 && e.startRc == 0 && e.stillEnabled));
            && r.s.state == (if reached then Active else s.state)
            && r.s.mask == (if reached then s.mask - {RtlObs} + {RtlActive} else s.mask)
            && (!e.semaphoreFails && !s.latches.obsAct ==>
                  r.err == if !ready then Some(ObsToActFailure)
                           else if e.cores == 0 then None
                           else if e.clipRc != 0 then Some(ClipFailure)
                           else if e.startRc != 0 then Some(StartSuspendFailure)
                           else if !PollsEnabled(e) then Some(GenericTimeout) else None)
            && (!e.semaphoreFails ==>
                  r.s.latches == s.latches.(
                    obsAct := (s.latches.obsAct && !(reached && e.cores != 0))
                              || !ready
                              || (e.cores != 0 && (e.clipRc != 0 || e.startRc != 0 || !PollsEnabled(e)))))
            && r.s.wofStateChange == (s.wofStateChange && (e.semaphoreFails || !ready))
  {
    ReadyWhen(e, 0);
    EnabledWhen(e);
    hide PollsEnabled, Covers, AllSet, Environment.ActiveReady, Environment.EnabledInTime, ObsActEvents;
  }

  /** From Standby, exactly when in addition every bit of the observation mask was set, or the failure
      of that is latched; the active mask is checked against the data as they are then. */
  lemma ActiveFromStandby(s: Smgr, e: Environment)
    requires e.Valid() && s.state == Standby
    ensures var r, first := SetState(s, e, Active), AllSet(e.data[0], e.obsMask);
            var reached := !e.semaphoreFails && (first || s.latches.stbObs) && AllSet(e.data[1], e.actMask)
                           && (e.cores == 0 || (e.clipRc == 0 && e.startRc == 0 && e.stillEnabled));
            && r.s.state == (if reached then Active else if !e.semaphoreFails && first then Observation else Standby)
            && (!e.semaphoreFails && !first && !s.latches.stbObs ==> r.err == Some(StbToObsFailure))
  {
    ReadyWhen(e, 0);
    ReadyWhen(e, 1);
    hide Covers, AllSet, Environment.ActiveReady, Environment.ObservationReady, ObsActEvents, ObsActRc;
  }

  // ---------- Standby, Safe, and everything else ----------

  /** Standby and Safe are always reached, with the flags of all other states gone. */
  lemma StandbyAndSafe(s: Smgr, e: Environment, target: State)
    requires e.Valid() && target in {Standby, Safe} && !e.semaphoreFails
    ensures var r := SetState(s, e, target);
            && r.err == None && r.s.state == target && r.s.trace == s.trace && r.s.wofStateChange
            && r.s.mask == (if target == Standby then s.mask - {RtlActive, RtlObs} + {RtlStandby}
                            else s.mask - {RtlStandby, RtlObs, RtlActive} + {RtlRstReq})
            && r.s.external == (if target == Safe && e.master then Safe else s.external)
  {
  }

  /** The pairs of states that have a transition. */
  predicate Possible(current: State, target: State) {
    || target in {Standby, Safe}
    || (current in {Standby, Observation, Active, Characterization} && target in {Observation, Active, Characterization}
        && current != target)
  }

  /** Everything else is refused and changes nothing, except that asking for no change is no error. */
  lemma RefusedExactly(s: Smgr, e: Environment, target: State)
    requires e.Valid()
    ensures SetState(s, e, target).err == Some(NoValidTransition) <==>
              !e.semaphoreFails && target != NoChange && !Possible(s.state, target)
    ensures e.semaphoreFails || target == NoChange || !Possible(s.state, target) ==> SetState(s, e, target).s == s
    ensures target == NoChange && !e.semaphoreFails ==> SetState(s, e, target).err == None
  {
    hide Apply;
    if !e.semaphoreFails && target != NoChange && Lookup(s.state, target).Some? {
      NeverRefuses(Lookup(s.state, target).value, s, e);
    }
  }

  lemma NeverRefuses(t: Transition, s: Smgr, e: Environment)
    requires e.Valid()
    ensures Apply(t, s, e).err != Some(NoValidTransition)
  {
    hide Covers, CharStart, ChangeOwner, ObsActEvents, SettleTime, StopTime, StillSettling, ReachesActive,
         Environment.Valid;
  }

  /** A requested state is crossed off by the attempt that ends in it. */
  lemma RequestCrossedOff(s: Smgr, e: Environment, target: State)
    requires e.Valid() && !e.semaphoreFails && target != NoChange && Possible(s.state, target)
    ensures var s' := SetState(s, e, target).s;
            s'.requested == if s'.state == s.requested then NoChange else s.requested
  {
    hide Apply;
    KeepsRequest(Lookup(s.state, target).value, s, e);
  }

  lemma KeepsRequest(t: Transition, s: Smgr, e: Environment)
    requires e.Valid()
    ensures Apply(t, s, e).s.requested == s.requested
  {
    hide Covers, CharStart, ChangeOwner, ObsActEvents, SettleTime, StopTime, StillSettling, ReachesActive,
         ObsActRc, ActObsRc, Environment.Valid;
  }

  // ---------- How often a failure is reported ----------

  /** Requests for Observation by an OCC in Standby that stays unready for it. */
  predicate KeepsFailing(calls: seq<Call>) {
    forall i :: 0 <= i < |calls| ==>
      calls[i].target == Observation && !calls[i].e.semaphoreFails && |calls[i].e.data| == 2
      && !AllSet(calls[i].e.data[0], calls[i].e.obsMask)
  }

  /** However often that fails in a row, nothing moves, and it is reported once: by the first request
      since it last succeeded. */
  lemma {:induction false} ReportedOnce(s: Smgr, calls: seq<Call>, next: Call)
    requires s.state == Standby && KeepsFailing(calls) && KeepsFailing([next])
    requires next.e.Valid() && forall i :: 0 <= i < |calls| ==> calls[i].e.Valid()
    ensures Run(s, calls).state == Standby && Run(s, calls).mask == s.mask
    ensures SetState(Run(s, calls), next.e, Observation).err
         == if calls == [] && !s.latches.stbObs then Some(StbToObsFailure) else None
    decreases |calls|
  {
    hide SetState, AllSet;
    assert [next][0] == next;
    if calls == [] {
      ObservationFromStandby(s, next.e);
    } else {
      var s' := SetState(s, calls[0].e, calls[0].target).s;
      ObservationFromStandby(s, calls[0].e);
      assert forall i :: 0 <= i < |calls[1..]| ==> calls[1..][i] == calls[i + 1];
      ReportedOnce(s', calls[1..], next);
    }
  }

  // ---------- What the PGPE is asked ----------

  /** The PGPE refuses, so nothing more may be asked of it in this call. */
  predicate Refusal(v: Event) {
    match v
    case SetClip(rc) => rc != 0
    case StartPstates(_, rc) => rc != 0
    case StopPstates(rc) => rc != 0
    case _ => false
  }

  /** Every refusal is the last event; START and STOP come only after accepted clips, and pstates
      are checked only after an accepted START. */
  ghost predicate Orderly(events: seq<Event>) {
    && (forall j :: 0 <= j < |events| && Refusal(events[j]) ==> j == |events| - 1)
    && (forall j :: 0 <= j < |events| && (events[j].StartPstates? || events[j].StopPstates?) ==>
          SetClip(0) in events[..j])
    && (forall j :: 0 <= j < |events| && events[j].CheckEnabled? ==> 0 < j && events[j - 1].StartPstates?)
  }

  ghost predicate AddsOrderly(before: seq<Event>, after: seq<Event>) {
    before <= after && Orderly(after[|before|..])
  }

  lemma Adds(before: seq<Event>, events: seq<Event>)
    requires Orderly(events)
    ensures AddsOrderly(before, before + events)
  {
    hide Orderly;
    assert (before + events)[|before|..] == events;
  }

  lemma CharOrder(e: Environment, ready: bool)
    requires e.Valid()
    ensures Orderly([ActiveReadyCheck(ready)] + if ready then CharStart(e).0 else [])
  {
    hide Environment.EnabledInTime, Environment.Valid;
    var events := [ActiveReadyCheck(ready)] + if ready then CharStart(e).0 else [];
    assert |events| > 2 ==> events[1] == SetClip(0) && events[1] in events[..2];
  }

  lemma ActiveOrder(e: Environment, k: nat)
    requires e.Valid() && k < 2
    ensures Orderly(ObsActEvents(e, k))
  {
    hide Covers;
    var events := ObsActEvents(e, k);
    assert |events| > 2 ==> events[1] == SetClip(0) && events[1] in events[..2] && events[1] in events[..3];
  }

  lemma StopOrder(s: Smgr, e: Environment)
    requires e.Valid()
    ensures AddsOrderly(s.trace, ActObs(s, e).s.trace)
  {
    hide SettleTime, StopTime, StillSettling, Environment.Valid, AddsOrderly;
    var events := if e.cores == 0 then []
                  else if e.clipRc != 0 then [SetClip(e.clipRc)]
                  else if SettleTime(e) > e.taskTimeoutUs then [SetClip(0), SettleWait(StillSettling(e))]
                  else [SetClip(0), SettleWait(StillSettling(e)), StopPstates(e.stopRc)];
    assert |events| > 2 ==> events[0] == SetClip(0) && events[0] in events[..2];
    Adds(s.trace, events);
  }

  lemma OwnerOrder(e: Environment)
    requires e.Valid()
    ensures Orderly(ChangeOwner(e).0)
  {
    hide SettleTime, StillSettling, Environment.EnabledInTime, Environment.Valid;
    var events := ChangeOwner(e).0;
    assert |events| > 2 ==> events[0] == SetClip(0) && events[0] in events[..2];
  }

  lemma ClipStopOrder(e: Environment)
    ensures Orderly([SetClip(e.clipRc)]) && Orderly([SetClip(0), StopPstates(e.stopRc)]) && Orderly([])
    ensures Orderly([ObsReadyCheck(true)]) && Orderly([ObsReadyCheck(false)])
  {
    var events := [SetClip(0), StopPstates(e.stopRc)];
    assert events[0] in events[..1];
  }

  lemma CheckFirst(events: seq<Event>, ready: bool)
    requires Orderly(events)
    ensures Orderly([ObsReadyCheck(ready)] + events)
  {
    var all := [ObsReadyCheck(ready)] + events;
    forall j | 0 <= j < |all| && (all[j].StartPstates? || all[j].StopPstates?) ensures SetClip(0) in all[..j] {
      assert all[j] == events[j - 1] && all[..j] == [ObsReadyCheck(ready)] + events[..j - 1];
    }
    forall j | 0 <= j < |all| && all[j].CheckEnabled? ensures 0 < j && all[j - 1].StartPstates? {
      assert all[j] == events[j - 1] && all[j - 1] == events[j - 2];
    }
  }

  lemma TransitionAsksInOrder(t: Transition, s: Smgr, e: Environment)
    requires e.Valid()
    ensures AddsOrderly(s.trace, Apply(t, s, e).s.trace)
  {
    ClipStopOrder(e);
    hide Orderly, Covers, CharStart, ChangeOwner, ObsActEvents, ActObs, ReachesActive, ObsActRc,
         AddsOrderly;
    match t {
      case StandbyToObservation => Adds(s.trace, [ObsReadyCheck(e.ObservationReady(0))]);
      case StandbyToCharacterization => CharAsks(s, e);
      case StandbyToActive => ActiveAsks(s, e);
      case ObservationToCharacterization => CharAsks(s, e);
      case ObservationToActive => ActiveOrder(e, 0); Adds(s.trace, ObsActEvents(e, 0));
      case CharacterizationToObservation =>
        Adds(s.trace, []);
        Adds(s.trace, [SetClip(e.clipRc)]);
        Adds(s.trace, [SetClip(0), StopPstates(e.stopRc)]);
      case CharacterizationToActive => ActiveOrder(e, 0); Adds(s.trace, ObsActEvents(e, 0));
      case ActiveToObservation => StopOrder(s, e);
      case ActiveToCharacterization =>
        OwnerOrder(e);
        Adds(s.trace, []);
        Adds(s.trace, ChangeOwner(e).0);
      case AllToStandby => Adds(s.trace, []);
      case AllToSafe => Adds(s.trace, []);
    }
    assert s.trace + [] == s.trace;
  }

  lemma CharAsks(s: Smgr, e: Environment)
    requires e.Valid()
    ensures AddsOrderly(s.trace, StbChr(s, e).s.trace) && AddsOrderly(s.trace, ObsChr(s, e).s.trace)
  {
    hide Orderly, Covers, CharStart, Environment.ActiveReady, AddsOrderly;
    var ready := e.ActiveReady(0);
    var events := if ready then CharStart(e).0 else [];
    CharOrder(e, ready);
    Adds(s.trace, [ActiveReadyCheck(ready)] + events);
    assert s.trace + ([ActiveReadyCheck(ready)] + events) == s.trace + [ActiveReadyCheck(ready)] + events;
  }

  lemma ActiveAsks(s: Smgr, e: Environment)
    requires e.Valid()
    ensures AddsOrderly(s.trace, StbAct(s, e).s.trace)
  {
    hide Orderly, Covers, ObsActEvents, ReachesActive, ObsActRc, Environment.ObservationReady,
         AddsOrderly;
    var check := [ObsReadyCheck(e.ObservationReady(0))];
    ClipStopOrder(e);
    Adds(s.trace, check);
    ActiveOrder(e, 1);
    CheckFirst(ObsActEvents(e, 1), e.ObservationReady(0));
    Adds(s.trace, check + ObsActEvents(e, 1));
    assert s.trace + (check + ObsActEvents(e, 1)) == s.trace + check + ObsActEvents(e, 1);
  }

  /** Whatever is requested, from whatever state and with whatever answers, the events that a call
      adds are in that order. */
  lemma AsksInOrder(s: Smgr, e: Environment, target: State)
    requires e.Valid()
    ensures var trace := SetState(s, e, target).s.trace; s.trace <= trace && Orderly(trace[|s.trace|..])
  {
    hide Apply, Orderly, Refusal;
    var found := Lookup(s.state, target);
    ClipStopOrder(e);
    Adds(s.trace, []);
    assert s.trace + [] == s.trace;
    if !e.semaphoreFails && target != NoChange && found.Some? {
      TransitionAsksInOrder(found.value, s, e);
    }
  }
}
