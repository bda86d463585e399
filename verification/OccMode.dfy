/** The mode manager (mode.c). */
module OccMode {
  import opened Wrappers

  datatype Mode =
    | NoChange | Nominal | Oversub | Turbo | Safe | PwrSave | DynPowerSave | MinFrequency
    | NomPerformance | MaxPerformance | DynPowerSaveFp | Ffo | Fmf | UTurbo | VrmN

  datatype Action = Set | Clear

  /** A row of the transition table: every row applies from any mode, and its function
      makes the new mode current and sets or clears the WOF mode-unsupported bit. */
  datatype Row = Row(newMode: Mode, wof: Action)

  const TRANSITIONS: seq<Row> := [
    Row(Nominal, Set), Row(PwrSave, Set), Row(DynPowerSave, Clear), Row(DynPowerSaveFp, Clear), Row(Turbo, Set),
    Row(Ffo, Set), Row(Fmf, Clear), Row(NomPerformance, Clear), Row(MaxPerformance, Clear)]

  /** The modes the table has a row for. */
  predicate Settable(m: Mode) {
    m !in {NoChange, Oversub, Safe, MinFrequency, UTurbo, VrmN}
  }

  /** The modes WOF does not support. */
  predicate WofUnsupported(m: Mode) {
    m in {Nominal, PwrSave, Turbo, Ffo}
  }

  /** Outcomes of the foreign calls of one SMGR_set_mode, and the system type. */
  datatype Environment = Environment(kvm: bool, semaphoreFails: bool, freqRangeFails: bool, thresholdsFail: bool)

  datatype State = State(mode: Mode, kvmRequest: Mode, wofBit: bool)

  /** The transition a request leads to: on KVM every request is turned into DPS. */
  function Target(env: Environment, request: Mode): Mode {
    if env.semaphoreFails || request == NoChange then NoChange
    else if env.kvm then DynPowerSave
    else request
  }

  function SetMode(s: State, env: Environment, request: Mode): State {
    var target := Target(env, request);
    State(if Settable(target) then target else s.mode,
          if env.kvm && target != NoChange then request else s.kvmRequest,
          if Settable(target) then WofUnsupported(target) else s.wofBit)
  }

  class ModeManager {
    var mode: Mode
    var kvmRequest: Mode
    var wofBit: bool
    var transitioning: bool

    constructor (initialWofBit: bool)
      ensures Snapshot() == State(NoChange, NoChange, initialWofBit) && !transitioning
    {
      mode, kvmRequest, wofBit, transitioning := NoChange, NoChange, initialWofBit, false;
    }

    function Snapshot(): State
      reads this
    {
      State(mode, kvmRequest, wofBit)
    }

    /** The transition function of a row; it takes effect even if the frequency range
        cannot be set. */
    method RunTransition(row: Row, freqRangeFails: bool) returns (err: bool)
      modifies this
      ensures mode == row.newMode && wofBit == (row.wof == Set) && kvmRequest == old(kvmRequest)
      ensures err == freqRangeFails && transitioning == old(transitioning)
    {
      err := freqRangeFails;
      mode := row.newMode;
      wofBit := row.wof == Set;
    }

    /** The table search: the row whose new mode is the target, if there is one. */
    method FindRow(target: Mode) returns (row: Option<Row>)
      ensures row.Some? <==> Settable(target)
      ensures row.Some? ==> row.value.newMode == target && (row.value.wof == Set <==> WofUnsupported(target))
    {
      var jj := 0;
      while jj < |TRANSITIONS| && TRANSITIONS[jj].newMode != target
        invariant 0 <= jj <= |TRANSITIONS|
        invariant forall k :: 0 <= k < jj ==> TRANSITIONS[k].newMode != target
      {
        jj := jj + 1;
      }
      RowOf(target);
      if jj == |TRANSITIONS| {
        return None;
      }
      RowAction(jj);
      return Some(TRANSITIONS[jj]);
    }

    method SmgrSetMode(env: Environment, request: Mode) returns (err: bool)
      requires !transitioning
      modifies this
      ensures Snapshot() == SetMode(old(Snapshot()), env, request) && !transitioning
      ensures err <==> env.semaphoreFails
                       || (request != NoChange
                           && ((!env.kvm && request in {Oversub, Safe, MinFrequency, UTurbo, VrmN})
                               || env.freqRangeFails || env.thresholdsFail))
      ensures !env.kvm && !env.semaphoreFails && request !in {NoChange, Oversub, Safe, MinFrequency, UTurbo, VrmN} ==>
                mode == request && (wofBit <==> request in {Nominal, PwrSave, Turbo, Ffo})
      ensures env.kvm && !env.semaphoreFails && request != NoChange ==>
                mode == DynPowerSave && kvmRequest == request && !wofBit
      ensures env.semaphoreFails || request == NoChange
              || (!env.kvm && request in {Oversub, Safe, MinFrequency, UTurbo, VrmN}) ==>
                mode == old(mode) && wofBit == old(wofBit) && kvmRequest == old(kvmRequest)
    {
      if env.semaphoreFails {
        return true;
      }
      if request == NoChange {
        return false;
      }
      var target := request;
      if env.kvm {
        kvmRequest := target;
        if target != DynPowerSave {
          target := DynPowerSave;
        }
      }
      err := false;
      var row := FindRow(target);
      if row == None {
        return true;
      }
      transitioning := true;
      err := RunTransition(row.value, env.freqRangeFails);
      transitioning := false;
      if !err {
        err := env.thresholdsFail;
      }
    }
  }

  /** The table has a row exactly for the settable modes. */
  lemma RowOf(target: Mode)
    ensures Settable(target) <==> exists k :: 0 <= k < |TRANSITIONS| && TRANSITIONS[k].newMode == target
  {
    match target {
      case Nominal => assert TRANSITIONS[0].newMode == target;
      case PwrSave => assert TRANSITIONS[1].newMode == target;
      case DynPowerSave => assert TRANSITIONS[2].newMode == target;
      case DynPowerSaveFp => assert TRANSITIONS[3].newMode == target;
      case Turbo => assert TRANSITIONS[4].newMode == target;
      case Ffo => assert TRANSITIONS[5].newMode == target;
      case Fmf => assert TRANSITIONS[6].newMode == target;
      case NomPerformance => assert TRANSITIONS[7].newMode == target;
      case MaxPerformance => assert TRANSITIONS[8].newMode == target;
      case _ =>
    }
  }

  /** Each row sets the bit exactly for a mode that WOF does not support. */
  lemma RowAction(k: nat)
    requires k < |TRANSITIONS|
    ensures TRANSITIONS[k].wof == Set <==> WofUnsupported(TRANSITIONS[k].newMode)
  {
  }

  // ---------- Runs ----------

  datatype Call = Call(env: Environment, request: Mode)

  function Run(s: State, calls: seq<Call>): State
    decreases |calls|
  {
    if calls == [] then s else Run(SetMode(s, calls[0].env, calls[0].request), calls[1..])
  }

  /** A call that makes a transition: the semaphore is taken and, but for KVM, the table has a row. */
  predicate Taken(c: Call) {
    && !c.env.semaphoreFails && c.request != NoChange
    && (c.env.kvm || c.request !in {Oversub, Safe, MinFrequency, UTurbo, VrmN})
  }

  predicate HasTransition(calls: seq<Call>) {
    exists i :: 0 <= i < |calls| && Taken(calls[i])
  }

  /** After any run with a transition the WOF bit tells exactly whether the current mode is
      unsupported; a run without one changes neither. */
  lemma {:induction false} WofBitMatchesMode(s: State, calls: seq<Call>)
    ensures HasTransition(calls) || s.wofBit == (s.mode in {Nominal, PwrSave, Turbo, Ffo}) ==>
              Run(s, calls).wofBit == (Run(s, calls).mode in {Nominal, PwrSave, Turbo, Ffo})
    ensures !HasTransition(calls) ==> Run(s, calls).mode == s.mode && Run(s, calls).wofBit == s.wofBit
    decreases |calls|
  {
    if calls != [] {
      var s' := SetMode(s, calls[0].env, calls[0].request);
      WofBitMatchesMode(s', calls[1..]);
      assert HasTransition(calls) <==> Taken(calls[0]) || HasTransition(calls[1..]) by {
        if HasTransition(calls[1..]) {
          var i :| 0 <= i < |calls[1..]| && Taken(calls[1..][i]);
          assert calls[i + 1] == calls[1..][i];
        }
        assert forall i :: 0 < i < |calls| ==> calls[i] == calls[1..][i - 1];
      }
    }
  }

  /** Over any run without KVM the mode is the last request taken, and the WOF bit is set exactly if
      that is one of the four modes that WOF does not support; if none is taken (`k` is -1), both
      are as they were. What is reported to KVM never changes. */
  lemma {:induction false} ModeIsLastRequest(s: State, calls: seq<Call>, k: int)
    requires -1 <= k < |calls| && forall i :: 0 <= i < |calls| ==> !calls[i].env.kvm
    requires k >= 0 ==> Taken(calls[k])
    requires forall i :: k < i < |calls| ==> !Taken(calls[i])
    ensures Run(s, calls).mode == (if k < 0 then s.mode else calls[k].request)
    ensures Run(s, calls).wofBit <==> if k < 0 then s.wofBit else calls[k].request in {Nominal, PwrSave, Turbo, Ffo}
    ensures Run(s, calls).kvmRequest == s.kvmRequest
    decreases |calls|
  {
    if calls != [] {
      var rest := calls[1..];
      assert forall i :: 0 <= i < |rest| ==> rest[i] == calls[i + 1];
      ModeIsLastRequest(SetMode(s, calls[0].env, calls[0].request), rest, if k < 0 then -1 else k - 1);
    }
  }

  /** On KVM every request taken, whatever it asks for, makes the mode dynamic power save, and the
      last one is what is reported; if none is taken, nothing changes. */
  lemma {:induction false} KvmStaysInDps(s: State, calls: seq<Call>, k: int)
    requires -1 <= k < |calls| && forall i :: 0 <= i < |calls| ==> calls[i].env.kvm
    requires k >= 0 ==> Taken(calls[k])
    requires forall i :: k < i < |calls| ==> !Taken(calls[i])
    ensures Run(s, calls) == if k < 0 then s else State(DynPowerSave, calls[k].request, false)
    decreases |calls|
  {
    if calls != [] {
      var rest := calls[1..];
      assert forall i :: 0 <= i < |rest| ==> rest[i] == calls[i + 1];
      KvmStaysInDps(SetMode(s, calls[0].env, calls[0].request), rest, if k < 0 then -1 else k - 1);
    }
  }
}
