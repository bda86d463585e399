/** The interrupt handshake between the OCC and the host (common.c): one external
    interrupt outstanding at a time, the other reasons wait in a pending set. */
module HostNotify {
  import opened Wrappers

  datatype Reason = SharedMemChange | HtmgtServiceRequired | I2cOwnershipChange

  /** The pending byte and the part of the OCCMISC register that this protocol uses. */
  datatype State = State(pending: set<Reason>, coreExtIntr: bool, reasonBits: set<Reason>)

  /** The member of a set that is raised before all the others. */
  function Highest(reasons: set<Reason>): (r: Reason)
    requires reasons != {}
    ensures r in reasons
  {
    if SharedMemChange in reasons then SharedMemChange
    else if HtmgtServiceRequired in reasons then HtmgtServiceRequired
    else assert forall q :: q in reasons ==> q == I2cOwnershipChange; I2cOwnershipChange
  }

  /** What a call with the given reason bits tries to raise. The retry passes the whole
      pending set; with nothing pending only a single-bit reason is valid. */
  function Candidate(s: State, request: set<Reason>): Option<Reason> {
    if s.pending != {} then Some(Highest(s.pending + request))
    else if |request| == 1 then Some(Highest(request))
    else None
  }

  /** The reason an interrupt is raised for by a call, if any. */
  function Sent(s: State, request: set<Reason>): Option<Reason> {
    if s.coreExtIntr then None else Candidate(s, request)
  }

  function Notify(s: State, request: set<Reason>): State {
    match Candidate(s, request)
    case None => s
    case Some(r) =>
      if !s.coreExtIntr then State(s.pending - {r}, true, {r})
      else if s.pending * request == {} then s.(pending := s.pending + request)
      else s
  }

  class Notifier {
    var pending: set<Reason>
    var coreExtIntr: bool
    var reasonBits: set<Reason>

    constructor ()
      ensures Snapshot() == State({}, false, {})
    {
      pending, coreExtIntr, reasonBits := {}, false, {};
    }

    function Snapshot(): State
      reads this
    {
      State(pending, coreExtIntr, reasonBits)
    }

    /** Raises the interrupt, or keeps the reason for the next tick. */
    method NotifyHost(reason: set<Reason>) returns (success: bool)
      modifies this
      ensures Snapshot() == Notify(old(Snapshot()), reason)
      ensures success <==> Sent(old(Snapshot()), reason).Some?
    {
      success := false;
      var notifyReason := reason;
      if pending != {} {
        notifyReason := pending + reason;
        if SharedMemChange in notifyReason {
          notifyReason := {SharedMemChange};
        } else if HtmgtServiceRequired in notifyReason {
          notifyReason := {HtmgtServiceRequired};
        } else {
          notifyReason := {I2cOwnershipChange};
        }
      }
      var newBits: set<Reason> := {};
      if notifyReason == {HtmgtServiceRequired} || notifyReason == {I2cOwnershipChange}
         || notifyReason == {SharedMemChange} {
        newBits := notifyReason;
      } else {
        SingletonReason(notifyReason);
      }
      if newBits != {} {
        if !coreExtIntr {
          if reasonBits != {} {
            reasonBits := reasonBits - {HtmgtServiceRequired, I2cOwnershipChange, SharedMemChange};
            EveryReason(old(reasonBits));
          }
          reasonBits := reasonBits + newBits;
          coreExtIntr := true;
          success := true;
          pending := pending - notifyReason;
        } else if pending * reason == {} {
          pending := pending + reason;
        }
      }
    }

    /** The part of the periodic task that retries what could not be sent. */
    method RetryPending()
      modifies this
      ensures Snapshot() == Next(old(Snapshot()), Tick)
    {
      if pending != {} {
        var _ := NotifyHost(pending);
      }
    }
  }

  lemma EveryReason(bits: set<Reason>)
    ensures bits <= {HtmgtServiceRequired, I2cOwnershipChange, SharedMemChange}
  {
    forall r | r in bits ensures r in {HtmgtServiceRequired, I2cOwnershipChange, SharedMemChange} {
      match r case SharedMemChange => case HtmgtServiceRequired => case I2cOwnershipChange =>
    }
  }

  lemma SingletonReason(bits: set<Reason>)
    ensures |bits| == 1 <==>
              bits == {HtmgtServiceRequired} || bits == {I2cOwnershipChange} || bits == {SharedMemChange}
  {
    if |bits| == 1 {
      var r :| r in bits;
      assert |bits - {r}| == 0;
      assert bits == {r};
      EveryReason(bits);
    }
  }

  // ---------- Runs ----------

  /** A firmware request, a retry tick, or the host taking the interrupt; the host may
      leave any of the reason bits behind. */
  datatype Event = Request(reason: Reason) | Tick | HostAck(left: set<Reason>)

  function Next(s: State, e: Event): State {
    match e
    case Request(r) => Notify(s, {r})
    case Tick => if s.pending != {} then Notify(s, s.pending) else s
    case HostAck(left) => State(s.pending, false, s.reasonBits * left)
  }

  function SentBy(s: State, e: Event): Option<Reason> {
    match e
    case Request(r) => Sent(s, {r})
    case Tick => if s.pending != {} then Sent(s, s.pending) else None
    case HostAck(_) => None
  }

  function Run(s: State, events: seq<Event>): State
    decreases |events|
  {
    if events == [] then s else Run(Next(s, events[0]), events[1..])
  }

  /** The reasons raised over a run, in order. */
  function SentOver(s: State, events: seq<Event>): seq<Reason>
    decreases |events|
  {
    if events == [] then []
    else (match SentBy(s, events[0]) case Some(r) => [r] case None => [])
         + SentOver(Next(s, events[0]), events[1..])
  }

  /** At most one reason bit, and exactly one while an interrupt is outstanding. */
  predicate OneReason(s: State) {
    && (forall a, b :: a in s.reasonBits && b in s.reasonBits ==> a == b)
    && (s.coreExtIntr ==> s.reasonBits != {})
  }

  lemma {:induction false} RunKeepsOneReason(s: State, events: seq<Event>)
    requires OneReason(s)
    ensures OneReason(Run(s, events))
    decreases |events|
  {
    if events != [] {
      RunKeepsOneReason(Next(s, events[0]), events[1..]);
    }
  }

  /** Nothing is raised and OCCMISC does not change while an interrupt is outstanding; else a request
      or a retry raises, of the pending reasons and the request, the first in the order of shared
      memory, HTMGT service and I2C ownership; and a reason leaves the pending set only by being
      the one raised. */
  lemma StepProtocol(s: State, e: Event)
    ensures var all := s.pending + if e.Request? then {e.reason} else {};
            SentBy(s, e)
            == if s.coreExtIntr || e.HostAck? || all == {} then None
               else if SharedMemChange in all then Some(SharedMemChange)
               else if HtmgtServiceRequired in all then Some(HtmgtServiceRequired)
               else Some(I2cOwnershipChange)
    ensures !e.HostAck? && s.coreExtIntr ==>
              && Next(s, e).reasonBits == s.reasonBits && Next(s, e).coreExtIntr && s.pending <= Next(s, e).pending
    ensures SentBy(s, e).Some? ==>
              && Next(s, e).coreExtIntr && Next(s, e).reasonBits == {SentBy(s, e).value}
              && Next(s, e).pending == s.pending - {SentBy(s, e).value}
    ensures forall r :: r in s.pending && r !in Next(s, e).pending ==> SentBy(s, e) == Some(r)
  {
    assert s.pending + s.pending == s.pending && s.pending + {} == s.pending;
    if e.Request? && s.pending != {} {
      assert e.reason in s.pending + {e.reason};
    }
  }

  /** A request is neither raised nor kept. */
  predicate Lost(s: State, r: Reason) {
    SentBy(s, Request(r)) != Some(r) && r !in Next(s, Request(r)).pending
  }

  /** Exactly when a request is lost: the host is idle, the reason is not already pending, and one
      before it in the order of shared memory, HTMGT service and I2C ownership is. */
  lemma LostExactlyWhenOutranked(s: State, r: Reason)
    ensures Lost(s, r) <==>
              && !s.coreExtIntr && r !in s.pending
              && match r
                 case SharedMemChange => false
                 case HtmgtServiceRequired => SharedMemChange in s.pending
                 case I2cOwnershipChange => SharedMemChange in s.pending || HtmgtServiceRequired in s.pending
  {
    if s.pending == {} {
      assert Highest({r}) == r;
    }
  }

  /** A pending reason, over any interleaving, is still pending at the end or was raised. */
  lemma {:induction false} PendingIsRaisedOrKept(s: State, events: seq<Event>, r: Reason)
    requires r in s.pending
    ensures r in Run(s, events).pending || r in SentOver(s, events)
    decreases |events|
  {
    if events != [] {
      StepProtocol(s, events[0]);
      if r in Next(s, events[0]).pending {
        PendingIsRaisedOrKept(Next(s, events[0]), events[1..], r);
      }
    }
  }

  /** A request that is not lost is, over any later interleaving, raised or still pending. */
  lemma RequestIsRaisedOrKept(s: State, r: Reason, events: seq<Event>)
    requires !Lost(s, r)
    ensures r in Run(s, [Request(r)] + events).pending || r in SentOver(s, [Request(r)] + events)
  {
    var all := [Request(r)] + events;
    assert all[0] == Request(r) && all[1..] == events;
    if r in Next(s, Request(r)).pending {
      PendingIsRaisedOrKept(Next(s, Request(r)), events, r);
    }
  }

  /** Rounds of a retry tick followed by the host taking the interrupt; `lefts` says which
      reason bits it leaves behind each time. */
  function Rounds(lefts: seq<set<Reason>>): seq<Event> {
    if lefts == [] then [] else [Tick, HostAck(lefts[0])] + Rounds(lefts[1..])
  }

  /** With the host answering every interrupt, whatever bits it leaves behind, the pending set
      is drained in at most three rounds, in the order of shared memory, HTMGT service and I2C
      ownership. */
  lemma {:induction false} RetriesDrainInOrder(s: State, lefts: seq<set<Reason>>)
    requires !s.coreExtIntr && |lefts| == |s.pending|
    ensures |s.pending| <= 3
    ensures Run(s, Rounds(lefts)).pending == {}
    ensures SentOver(s, Rounds(lefts))
         == (if SharedMemChange in s.pending then [SharedMemChange] else [])
            + (if HtmgtServiceRequired in s.pending then [HtmgtServiceRequired] else [])
            + (if I2cOwnershipChange in s.pending then [I2cOwnershipChange] else [])
    decreases |s.pending|
  {
    AtMostThree(s.pending);
    EveryReason(s.pending);
    if s.pending != {} {
      var top := Highest(s.pending);
      OneRound(s, lefts[0], Rounds(lefts[1..]));
      RetriesDrainInOrder(State(s.pending - {top}, false, {top} * lefts[0]), lefts[1..]);
    }
  }

  lemma OneRound(s: State, left: set<Reason>, rest: seq<Event>)
    requires !s.coreExtIntr && s.pending != {}
    ensures var s' := State(s.pending - {Highest(s.pending)}, false, {Highest(s.pending)} * left);
            && Run(s, [Tick, HostAck(left)] + rest) == Run(s', rest)
            && SentOver(s, [Tick, HostAck(left)] + rest) == [Highest(s.pending)] + SentOver(s', rest)
  {
    var all := [Tick, HostAck(left)] + rest;
    var top := Highest(s.pending);
    assert s.pending + s.pending == s.pending;
    assert all[1..][0] == HostAck(left) && all[1..][1..] == rest;
    var s1 := Next(s, Tick);
    assert s1 == State(s.pending - {top}, true, {top});
    var s2 := Next(s1, HostAck(left));
    assert s2 == State(s.pending - {top}, false, {top} * left);
    assert SentOver(s, all) == [top] + SentOver(s1, all[1..]);
    assert SentOver(s1, all[1..]) == SentOver(s2, rest);
  }

  lemma AtMostThree(reasons: set<Reason>)
    ensures |reasons| <= 3
  {
    EveryReason(reasons);
    Subset(reasons, {HtmgtServiceRequired, I2cOwnershipChange, SharedMemChange});
  }

  lemma Subset<T>(a: set<T>, b: set<T>)
    requires a <= b
    ensures |a| <= |b|
  {
    assert b == a + (b - a);
  }
}
