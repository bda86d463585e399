/** Properties of whole runs of the state manager. */
module OccStateRuns {
  import opened OccState
  import opened Wrappers

  // ---------- State and run mask ----------

  function FlagsOf(state: State): set<Flag> {
    match state
    case Standby => {RtlStandby}
    case Observation => {RtlObs}
    case Characterization => {RtlObs}
    case Active => {RtlActive}
    case _ => {}
  }

  /** Of the three state flags the run mask holds exactly the one of the state, none in SAFE. */
  predicate MaskMatches(s: Smgr) {
    && s.state in {Standby, Observation, Active, Safe, Characterization}
    && s.mask * STATE_FLAGS == FlagsOf(s.state)
  }

  /** Going from Standby to Active, the first half fails without a word because its error
      is already logged, and the second half succeeds all the same. */
  ghost predicate SilentSkip(s: Smgr, e: Environment)
    requires e.Valid()
  {
    s.latches.stbObs && !e.ObservationReady(0) && ReachesActive(e, 1)
  }

  lemma MoveMatches(s: Smgr, clear: set<Flag>, set_: set<Flag>, state: State)
    requires MaskMatches(s) && state in {Standby, Observation, Active, Safe, Characterization}
    requires FlagsOf(s.state) - clear + set_ * STATE_FLAGS == FlagsOf(state)
    ensures MaskMatches(Moved(s, state, clear, set_))
  {
    var mask := s.mask - clear + set_;
    assert mask * STATE_FLAGS == s.mask * STATE_FLAGS - clear + set_ * STATE_FLAGS;
  }

  /** Every transition of the table keeps the invariant, except the silent skip, which
      breaks it: STANDBY stays in the mask beside ACTIVE. */
  lemma TransitionKeepsMaskExactly(t: Transition, s: Smgr, e: Environment, target: State)
    requires e.Valid() && MaskMatches(s) && Lookup(s.state, target) == Some(t)
    ensures MaskMatches(Apply(t, s, e).s) <==> !(t == StandbyToActive && SilentSkip(s, e))
  {
    match t {
      case StandbyToObservation => MoveMatches(s, {RtlStandby}, {RtlObs}, Observation);
      case StandbyToCharacterization => MoveMatches(s, {RtlStandby}, {RtlObs}, Characterization);
      case StandbyToActive => StandbyToActiveMask(s, e);
      case ObservationToCharacterization => MoveMatches(s, {}, {}, Characterization);
      case ObservationToActive => MoveMatches(s, {RtlObs}, {RtlActive}, Active);
      case CharacterizationToObservation => MoveMatches(s, {}, {}, Observation);
      case CharacterizationToActive => MoveMatches(s, {RtlObs}, {RtlActive}, Active);
      case ActiveToObservation => MoveMatches(s, {RtlActive}, {RtlObs}, Observation);
      case ActiveToCharacterization => MoveMatches(s, {RtlActive}, {RtlObs}, Characterization);
      case AllToStandby => MoveMatches(s, {RtlActive, RtlObs}, {RtlStandby}, Standby);
      case AllToSafe => MoveMatches(s, STATE_FLAGS, {RtlRstReq}, Safe);
    }
  }

  lemma StandbyToActiveMask(s: Smgr, e: Environment)
    requires e.Valid() && MaskMatches(s) && s.state == Standby
    ensures MaskMatches(StbAct(s, e).s) <==> !SilentSkip(s, e)
  {
    var first := StbObs(s, e);
    if e.ObservationReady(0) {
      MoveMatches(s, {RtlStandby}, {RtlObs}, Observation);
      MoveMatches(first.s, {RtlObs}, {RtlActive}, Active);
    } else if SilentSkip(s, e) {
      assert RtlStandby in s.mask * STATE_FLAGS;
      assert RtlStandby in StbAct(s, e).s.mask * STATE_FLAGS;
    }
  }

  /** A configuration that becomes complete within the call. */
  function LateConfiguration(): Environment {
    Environment(false, [0, 3], 1, 3, 0, 0, false, true, 0, 0, 0, 0,
                _ => true, (i: nat) => SLEEP_US * i, true, _ => Disabled, _ => Disabled, 0)
  }

  /** For example, with that configuration and the failure to Observation latched: Active is
      reached without an error and STANDBY is still in the mask. */
  lemma SilentlySkipped(s: Smgr)
    requires MaskMatches(s) && s.state == Standby && s.latches.stbObs
    ensures LateConfiguration().Valid()
    ensures var r := StbAct(s, LateConfiguration());
            r.err == None && r.s.state == Active && RtlStandby in r.s.mask && RtlActive in r.s.mask && !MaskMatches(r.s)
  {
    LateMasks();
    StandbyToActiveMask(s, LateConfiguration());
    assert RtlStandby in s.mask * STATE_FLAGS;
  }

  lemma LateMasks()
    ensures !Covers(0, 1) && Covers(3, 3)
  {
  }

  /** The configuration does not change within the call, and being ready for Active
      includes being ready for Observation. */
  predicate StableConfiguration(e: Environment) {
    |e.data| == 2 && e.data[0] == e.data[1] && Covers(e.actMask, e.obsMask)
  }

  lemma ActiveReadyIncludesObservation(data: bv32, act: bv32, obs: bv32)
    requires Covers(act, obs) && Covers(data, act)
    ensures Covers(data, obs)
  {
  }

  lemma NoSilentSkip(s: Smgr, e: Environment)
    requires e.Valid() && StableConfiguration(e)
    ensures !SilentSkip(s, e)
  {
    hide Covers;
    if e.ActiveReady(1) {
      ActiveReadyIncludesObservation(e.data[0], e.actMask, e.obsMask);
    }
  }

  datatype Call = Call(e: Environment, target: State)

  ghost function Run(s: Smgr, calls: seq<Call>): Smgr
    requires forall i :: 0 <= i < |calls| ==> calls[i].e.Valid()
    decreases |calls|
  {
    if |calls| == 0 then s else Run(SetState(s, calls[0].e, calls[0].target).s, calls[1..])
  }

  lemma SetStateKeepsMask(s: Smgr, e: Environment, target: State)
    requires e.Valid() && StableConfiguration(e) && MaskMatches(s)
    ensures MaskMatches(SetState(s, e, target).s)
  {
    NoSilentSkip(s, e);
    var found := Lookup(s.state, target);
    if !e.semaphoreFails && target != NoChange && found.Some? {
      TransitionKeepsMaskExactly(found.value, s, e, target);
    }
  }

  /** Over every run of requests. */
  lemma {:induction false} RunKeepsMask(s: Smgr, calls: seq<Call>)
    requires forall i :: 0 <= i < |calls| ==> calls[i].e.Valid() && StableConfiguration(calls[i].e)
    requires MaskMatches(s)
    ensures MaskMatches(Run(s, calls))
    decreases |calls|
  {
    if |calls| > 0 {
      SetStateKeepsMask(s, calls[0].e, calls[0].target);
      RunKeepsMask(SetState(s, calls[0].e, calls[0].target).s, calls[1..]);
    }
  }

  // ---------- Becoming Active ----------

  /** The exchange that must end any call that makes the state Active. */
  function Handshake(e: Environment): seq<Event> {
    [ActiveReadyCheck(true)] +
    if e.cores == 0 then []
    else [SetClip(0)] + (if e.kvm then [SetNominal(e.nominalRc)] else [])
         + [StartPstates(if e.kvm then Host else Occ, 0), CheckEnabled(true)]
  }

  /** Whenever the state becomes Active, from whichever state, the events of that very call
      end with the complete handshake, preceded at most by the first half from Standby. */
  lemma BecomingActiveTakesHandshake(s: Smgr, e: Environment, target: State)
    requires e.Valid() && s.state != Active && SetState(s, e, target).s.state == Active
    ensures target == Active && s.state in {Standby, Observation, Characterization}
    ensures SetState(s, e, target).s.trace
         == s.trace + (if s.state == Standby then [ObsReadyCheck(e.ObservationReady(0))] else []) + Handshake(e)
  {
    hide Handshake, Covers, CharStart, ChangeOwner, ActObsRc, ObsActRc;
    assert Lookup(s.state, target).Some?;
    var t := Lookup(s.state, target).value;
    OnlyTowardsActive(t, s, e);
    if t == StandbyToActive {
      ObsActTrace(StbObs(s, e).s, e, 1);
    } else {
      ObsActTrace(s, e, 0);
    }
  }

  lemma OnlyTowardsActive(t: Transition, s: Smgr, e: Environment)
    requires e.Valid() && s.state != Active && Apply(t, s, e).s.state == Active
    ensures t in {StandbyToActive, ObservationToActive, CharacterizationToActive}
    ensures t == StandbyToActive ==> StbObs(s, e).err == None
  {
    hide Covers, CharStart, ChangeOwner, ActObsRc, ObsActRc, ObsActEvents, ReachesActive;
  }

  lemma ObsActTrace(s: Smgr, e: Environment, k: nat)
    requires e.Valid() && k < 2 && s.state != Active && ObsAct(s, e, k).s.state == Active
    ensures ObsAct(s, e, k).s.trace == s.trace + Handshake(e)
  {
    HandshakeEvents(e, k);
  }

  lemma HandshakeEvents(e: Environment, k: nat)
    requires e.Valid() && k < 2 && ReachesActive(e, k)
    ensures ObsActEvents(e, k) == Handshake(e)
  {
    if e.cores != 0 {
      var nominal := if e.kvm then [SetNominal(e.nominalRc)] else [];
      assert ObsActEvents(e, k)
          == [ActiveReadyCheck(true), SetClip(0)] + nominal + [StartPstates(RunOwner(e), 0)] + [CheckEnabled(true)];
    }
  }

  // ---------- What a transition returns ----------

  /** The error latches that a transition consults are clear; some transitions have none. */
  predicate OwnLatchesClear(t: Transition, l: Latches) {
    match t
    case StandbyToObservation => !l.stbObs
    case StandbyToCharacterization => !l.stbChr
    case ObservationToCharacterization => !l.obsChr
    case ObservationToActive => !l.obsAct
    case CharacterizationToActive => !l.obsAct
    case StandbyToActive => !l.stbObs && !l.obsAct
    case _ => true
  }

  /** The enabled status is the same when the wait ends and when it is read again. */
  ghost predicate SteadyStatus(e: Environment) {
    e.stillEnabled == e.EnabledInTime()
  }

  /** With its own latches clear and a steady enabled status, a transition returns no error
      exactly when the target is reached; an error leaves state and run mask as they were,
      except that Standby to Active may stop in Observation. */
  lemma ReturnContract(t: Transition, s: Smgr, e: Environment, target: State)
    requires e.Valid() && Lookup(s.state, target) == Some(t)
    requires OwnLatchesClear(t, s.latches) && SteadyStatus(e)
    ensures var r := Apply(t, s, e);
            && (r.err == None <==> r.s.state == target)
            && (r.err.Some? ==>
                  || (r.s.state == s.state && r.s.mask == s.mask)
                  || (t == StandbyToActive && r.s.state == Observation && r.s.mask == s.mask - {RtlStandby} + {RtlObs}))
  {
    ReturnContractExactly(t, s, e, target);
    if Apply(t, s, e).s.state != target {
      FailureMovesExactly(t, s, e, target);
    }
  }

  /** A failure of the transition would not be reported: the latch it would set is set. The
      one for Characterization from Standby is cleared once the OCC is found ready; going from
      Standby to Active, the second half is reached only if the first succeeds or is silent. */
  predicate Silent(t: Transition, s: Smgr, e: Environment)
    requires |e.data| == 2
  {
    match t
    case StandbyToObservation => s.latches.stbObs
    case StandbyToCharacterization => s.latches.stbChr && !e.ActiveReady(0)
    case ObservationToCharacterization => s.latches.obsChr
    case ObservationToActive => s.latches.obsAct
    case CharacterizationToActive => s.latches.obsAct
    case StandbyToActive => s.latches.obsAct && (e.ObservationReady(0) || s.latches.stbObs)
    case _ => false
  }

  /** The enabled status read after the wait differs from what ended the wait. */
  ghost predicate Disagrees(e: Environment, k: nat)
    requires e.Valid() && k < 2
  {
    e.ActiveReady(k) && e.cores != 0 && e.clipRc == 0 && e.startRc == 0 && e.stillEnabled != e.EnabledInTime()
  }

  /** The transition comes to that second read, and it differs. */
  ghost predicate Unsteady(t: Transition, s: Smgr, e: Environment)
    requires e.Valid()
  {
    match t
    case ObservationToActive => Disagrees(e, 0)
    case CharacterizationToActive => Disagrees(e, 0)
    case StandbyToActive => (e.ObservationReady(0) || s.latches.stbObs) && Disagrees(e, 1)
    case _ => false
  }

  /** For every combination of latches: no error is returned exactly when the target is
      reached or the failure is silent; but if the enabled status changes after the wait, none
      is returned exactly when it was lost, so that the target is not reached. */
  lemma ReturnContractExactly(t: Transition, s: Smgr, e: Environment, target: State)
    requires e.Valid() && Lookup(s.state, target) == Some(t)
    ensures var r := Apply(t, s, e);
            && (Unsteady(t, s, e) ==> (r.err == None <==> r.s.state != target))
            && (!Unsteady(t, s, e) ==> (r.err == None <==> r.s.state == target || Silent(t, s, e)))
  {
    hide Covers, CharStart, ChangeOwner, ActObsRc, ObsActEvents, SettleTime, StopTime;
    if t == StandbyToActive {
      ActiveFromStandbyExactly(s, e);
    }
  }

  lemma ActiveFromStandbyExactly(s: Smgr, e: Environment)
    requires e.Valid() && s.state == Standby
    ensures var r, unsteady := StbAct(s, e), Unsteady(StandbyToActive, s, e);
            && (unsteady ==> (r.err == None <==> r.s.state != Active))
            && (!unsteady ==> (r.err == None <==> r.s.state == Active || Silent(StandbyToActive, s, e)))
  {
    hide Covers;
  }

  /** A transition that does not reach its target leaves state and mask as they were exactly
      unless it goes from Standby to Active and its first half succeeded; then it stops in
      Observation. This holds whatever is latched and whatever is returned. */
  lemma FailureMovesExactly(t: Transition, s: Smgr, e: Environment, target: State)
    requires e.Valid() && Lookup(s.state, target) == Some(t) && Apply(t, s, e).s.state != target
    ensures var r, halfway := Apply(t, s, e).s, t == StandbyToActive && e.ObservationReady(0);
            && (!halfway ==> r.state == s.state && r.mask == s.mask)
            && (halfway ==> r.state == Observation && r.mask == s.mask - {RtlStandby} + {RtlObs})
  {
    hide Covers, CharStart, ChangeOwner, ActObsRc, ObsActEvents, SettleTime, StopTime;
  }

  /** A failure without an error is therefore not always without effect: from Standby to Active
      no error is returned and the state is neither Standby nor Active exactly when the OCC is
      ready for Observation, Active is not reached, and that failure is latched or is the loss
      of the enabled status after the wait. */
  lemma SilentlyHalfwayExactly(s: Smgr, e: Environment)
    requires e.Valid() && s.state == Standby
    ensures var r := StbAct(s, e);
            r.err == None && r.s.state !in {Standby, Active} <==>
              e.ObservationReady(0) && !ReachesActive(e, 1) && (s.latches.obsAct || Disagrees(e, 1))
  {
    hide Covers;
  }

  /** A configuration that is complete for Observation but not for Active. */
  function HalfConfigured(): Environment {
    Environment(false, [1, 1], 1, 3, 0, 0, false, true, 0, 0, 0, 0,
                _ => true, (i: nat) => SLEEP_US * i, true, _ => Disabled, _ => Disabled, 0)
  }

  /** For example, with that configuration and the failure to Active latched. */
  lemma SilentlyHalfway(s: Smgr)
    requires s.state == Standby && s.latches.obsAct
    ensures HalfConfigured().Valid() && SteadyStatus(HalfConfigured())
    ensures var r := StbAct(s, HalfConfigured());
            && r.err == None && r.s.state == Observation && r.s.mask == s.mask - {RtlStandby} + {RtlObs}
  {
    var e := HalfConfigured();
    assert e.enabledAt(0) && e.NotBefore(0);
    HalfConfiguredMasks();
  }

  lemma HalfConfiguredMasks()
    ensures Covers(1, 1) && !Covers(1, 3)
  {
  }

  /** The latch of Observation to Characterization is never cleared: once that transition has
      failed, it fails silently in every later request. */
  lemma {:induction false} CharacterizationFailsOnce(s: Smgr, calls: seq<Call>)
    requires forall i :: 0 <= i < |calls| ==> calls[i].e.Valid()
    ensures s.latches.obsChr ==> Run(s, calls).latches.obsChr
    decreases |calls|
  {
    hide SetState;
    if |calls| > 0 {
      LatchIsKept(s, calls[0].e, calls[0].target);
      CharacterizationFailsOnce(SetState(s, calls[0].e, calls[0].target).s, calls[1..]);
    }
  }

  lemma LatchIsKept(s: Smgr, e: Environment, target: State)
    requires e.Valid()
    ensures s.latches.obsChr ==> SetState(s, e, target).s.latches.obsChr
  {
    hide Apply, Lookup;
    var found := Lookup(s.state, target);
    if found.Some? {
      TransitionKeepsLatch(found.value, s, e);
    }
  }

  lemma TransitionKeepsLatch(t: Transition, s: Smgr, e: Environment)
    requires e.Valid()
    ensures s.latches.obsChr ==> Apply(t, s, e).s.latches.obsChr
  {
    hide Covers, CharStart, ChangeOwner, ActObsRc, ObsActRc, ObsActEvents, ReachesActive, SettleTime, StopTime,
         StillSettling, Environment.Valid;
  }

  /** From every state, for the second half of Standby to Active, and with or without the latch:
      no error is returned exactly when Active is reached or its failure is latched, unless the
      enabled status changes after the wait; a loss of it is hidden by the latch. */
  lemma ActiveContractExactly(s: Smgr, e: Environment, k: nat)
    requires e.Valid() && k < 2 && s.state != Active
    ensures var r := ObsAct(s, e, k);
            (r.err == None <==> r.s.state == Active || s.latches.obsAct) <==>
              !(Disagrees(e, k) && (e.stillEnabled || !s.latches.obsAct))
  {
  }

  // ---------- The settle waits ----------

  /** A wait that ends blocked was blocked at every poll and ended at the first step that
      is not below the limit. */
  lemma {:induction false} BlockedWait(blocked: nat -> bool, limit: nat, i: nat)
    requires SLEEP_US * i < limit + SLEEP_US
    ensures var t := WaitTime(blocked, limit, i);
            && (blocked(t / SLEEP_US) <==> t >= limit && forall j :: i <= j <= t / SLEEP_US ==> blocked(j))
            && t < limit + SLEEP_US
    decreases limit - SLEEP_US * i
  {
    if blocked(i) && SLEEP_US * i < limit {
      BlockedWait(blocked, limit, i + 1);
    }
  }

  /** Active to Observation sends STOP to a PGPE that is still busy exactly when the limit
      is a multiple of the 10 us step and the previous request never settled within it:
      the time-out test is ">" where the wait stops at "not below". */
  lemma StopsWhileBusyExactly(s: Smgr, e: Environment)
    requires e.Valid() && e.cores != 0 && e.clipRc == 0
    ensures ActObs(s, e).s.trace == s.trace + [SetClip(0), SettleWait(true), StopPstates(e.stopRc)] <==>
              e.taskTimeoutUs % SLEEP_US == 0 && forall j :: 0 <= j <= e.taskTimeoutUs / SLEEP_US ==> e.Settling(j)
  {
    BlockedWait(e.Settling, e.taskTimeoutUs, 0);
    var t, n := SettleTime(e), |s.trace|;
    assert t == SLEEP_US * (t / SLEEP_US);
    var stop := [SetClip(0), SettleWait(true), StopPstates(e.stopRc)];
    assert (s.trace + stop)[n..] == stop;
    var events := if t > e.taskTimeoutUs then [SetClip(0), SettleWait(StillSettling(e))]
                  else [SetClip(0), SettleWait(StillSettling(e)), StopPstates(e.stopRc)];
    assert ActObs(s, e).s.trace == s.trace + events;
    assert (s.trace + events)[n..] == events;
    if e.taskTimeoutUs % SLEEP_US == 0 && forall j :: 0 <= j <= e.taskTimeoutUs / SLEEP_US ==> e.Settling(j) {
      assert t <= e.taskTimeoutUs;
      assert e.Settling(t / SLEEP_US);
    }
  }

  /** For example, with the limit of four 500 us ticks and a PGPE that never settles. */
  lemma StopsWhileBusyAtDefault(s: Smgr, e: Environment)
    requires e.Valid() && e.cores != 0 && e.clipRc == 0 && e.taskTimeoutUs == 2000
    requires forall j: nat :: e.settlingAt(j) == InTransition
    ensures ActObs(s, e).s.trace == s.trace + [SetClip(0), SettleWait(true), StopPstates(e.stopRc)]
  {
    hide ActObs, WaitTime;
    StopsWhileBusyExactly(s, e);
  }

  /** Active to Characterization never asks for a new owner while the PGPE is still busy. */
  lemma OwnerChangesOnlyWhenSettled(e: Environment)
    requires e.Valid()
    ensures StartPstates(Char, e.startRc) in ChangeOwner(e).0 ==> !StillSettling(e)
  {
  }
}
