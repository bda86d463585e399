/** Runs of the 24x7 collector: any sequence of calls, whatever the host writes in between. */
module Pmu24x7Runs {
  import opened MachineWords
  import opened CounterDeltas
  import opened PmuLayout
  import opened PmuLedger
  import opened Pmu24x7

  function Run(t: Tables, s: Collection, calls: seq<Input>): (s': Collection)
    requires t.Valid() && s.Valid()
    ensures s'.Valid()
  {
    if |calls| == 0 then s else Step(t, Run(t, s, calls[..|calls| - 1]), calls[|calls| - 1])
  }

  // ---------- What a call does to the posting area ----------

  function VisitEvents(g: Group, s: Collection, scom: Scom): seq<Event>
    requires s.Valid()
  {
    if s.st.delay[GroupIndex(g)] == 0 then [Posted(g, s.Context(scom))] else []
  }

  predicate Posts(s: Collection) {
    !s.st.dontRun && !(s.st.configure && s.st.phase <= CONFIG_STATES)
  }

  function BeginEvents(s: Collection, i: Input): seq<Event> {
    (if Command(i) == CNTL_CMD_PAUSE then [Forget] else [])
    + if i.ticks == 0 || Decide(s, i).wipe then [Wipe] else []
  }

  function PostEvents(s: Collection, scom: Scom): seq<Event>
    requires s.Valid()
  {
    if Posts(s) then
      VisitEvents(FirstGroup(s.st.phase), s, scom)
      + VisitEvents(SecondGroup(s.st.phase), Visit(FirstGroup(s.st.phase), s, scom), scom)
    else []
  }

  function StepEvents(s: Collection, i: Input): seq<Event>
    requires s.Valid()
  {
    BeginEvents(s, i) + PostEvents(Begin(s, i), i.scom)
  }

  function Trace(t: Tables, s: Collection, calls: seq<Input>): seq<Event>
    requires t.Valid() && s.Valid()
  {
    if |calls| == 0 then []
    else Trace(t, s, calls[..|calls| - 1]) + StepEvents(Run(t, s, calls[..|calls| - 1]), calls[|calls| - 1])
  }

  lemma VisitReplays(g: Group, s: Collection, scom: Scom)
    requires s.Valid()
    ensures Visit(g, s, scom).banks == Replay(s.banks, VisitEvents(g, s, scom))
  {
    hide Post;
    assert forall e: Event :: [e][..0] == [];
  }

  lemma BeginReplays(s: Collection, i: Input)
    requires s.Valid()
    ensures Begin(s, i).banks == Replay(s.banks, BeginEvents(s, i))
  {
    hide Decide, Post, Wiped;
    var forget := if Command(i) == CNTL_CMD_PAUSE then [Forget] else [];
    var wipe := if i.ticks == 0 || Decide(s, i).wipe then [Wipe] else [];
    ReplayAppend(s.banks, forget, wipe);
    assert forall e: Event :: [e][..0] == [];
    if Command(i) == CNTL_CMD_PAUSE {
      assert Begin(s, i).banks.mba == ForgetAll(s.banks).mba;
      assert Begin(s, i).banks.phb == ForgetAll(s.banks).phb;
    }
  }

  lemma StepReplays(t: Tables, s: Collection, i: Input)
    requires t.Valid() && s.Valid()
    ensures Step(t, s, i).banks == Replay(s.banks, StepEvents(s, i))
  {
    hide Begin, Visit, Configure, Replay, VisitEvents, BeginEvents, Tables.Valid;
    var b := Begin(s, i);
    BeginReplays(s, i);
    if Posts(b) {
      var first := FirstGroup(b.st.phase);
      var v := Visit(first, b, i.scom);
      VisitReplays(first, b, i.scom);
      VisitReplays(SecondGroup(b.st.phase), v, i.scom);
      ReplayAppend(b.banks, VisitEvents(first, b, i.scom), VisitEvents(SecondGroup(b.st.phase), v, i.scom));
      ReplayAppend(s.banks, BeginEvents(s, i), PostEvents(b, i.scom));
    } else {
      assert BeginEvents(s, i) + [] == BeginEvents(s, i);
      ConfigureKeepsBanks(t, b, i.scom);
    }
  }

  lemma ConfigureKeepsBanks(t: Tables, s: Collection, scom: Scom)
    requires t.Valid() && s.Valid() && !Posts(s)
    ensures RunPhase(t, s, scom).banks == s.banks
  {
    hide SliceWrites;
  }

  /** The posting area and the remembered readings after a run are those its events leave. */
  lemma {:induction false} RunReplays(t: Tables, s: Collection, calls: seq<Input>)
    requires t.Valid() && s.Valid()
    ensures Run(t, s, calls).banks == Replay(s.banks, Trace(t, s, calls))
  {
    hide Step, StepEvents, Tables.Valid;
    if |calls| == 0 {
      assert Replay(s.banks, []) == s.banks;
    } else {
      var most, last := calls[..|calls| - 1], calls[|calls| - 1];
      RunReplays(t, s, most);
      StepReplays(t, Run(t, s, most), last);
      ReplayAppend(s.banks, Trace(t, s, most), StepEvents(Run(t, s, most), last));
    }
  }

  // ---------- What every call keeps ----------

  /** The countdowns of groups 1 and 2 go together; none exceeds its longest delay. */
  predicate CountdownsInRange(s: Collection)
    requires s.Valid()
  {
    && s.st.delay[1] == s.st.delay[2] <= 11 && s.st.delay[3] <= 11
    && s.st.delay[4] <= 1 && s.st.delay[5] <= 1 && s.st.delay[6] <= 1 && s.st.delay[7] <= 1
  }

  /** What a visit leaves of the group's countdown. */
  function CountedDown(g: Group, st: Statics): nat
    requires st.Valid()
  {
    if st.delay[GroupIndex(g)] == 0 then Reload(g, st.curDelay) else st.delay[GroupIndex(g)] - 1
  }

  function DelaysAfterPosts(st: Statics): seq<nat>
    requires st.Valid()
  {
    var first, second := FirstGroup(st.phase), SecondGroup(st.phase);
    st.delay[GroupIndex(first) := CountedDown(first, st)][GroupIndex(second) := CountedDown(second, st)]
  }

  /** What a call leaves of the statics, given its first part. */
  lemma StepStatics(t: Tables, s: Collection, i: Input)
    requires t.Valid() && s.Valid()
    ensures var b, s' := Begin(s, i), Step(t, s, i);
            && s'.st.curDelay == b.st.curDelay && s'.st.phase == NextPhase(b.st.phase)
            && s'.st.delay == (if Posts(b) then DelaysAfterPosts(b.st) else b.st.delay)
            && (Posts(b) ==> s'.st.dontRun == b.st.dontRun && s'.st.configure == b.st.configure)
  {
    hide Begin, Tables.Valid, SliceWrites, Banks.Valid, NextPhase, Visit, CountedDown;
    var b := Begin(s, i);
    if Posts(b) {
      var first := FirstGroup(b.st.phase);
      VisitStatics(first, b, i.scom);
      VisitStatics(SecondGroup(b.st.phase), Visit(first, b, i.scom), i.scom);
      OtherCountdown(b.st);
    }
  }

  lemma VisitStatics(g: Group, s: Collection, scom: Scom)
    requires s.Valid()
    ensures Visit(g, s, scom).st == s.st.(delay := s.st.delay[GroupIndex(g) := CountedDown(g, s.st)])
  {
    hide Post, Banks.Valid, Reload;
  }

  /** The first group's visit leaves the second group's countdown alone. */
  lemma OtherCountdown(st: Statics)
    requires st.Valid()
    ensures var first, second := FirstGroup(st.phase), SecondGroup(st.phase);
            && first != second
            && CountedDown(second, st.(delay := st.delay[GroupIndex(first) := CountedDown(first, st)]))
               == CountedDown(second, st)
  {
    hide Reload;
  }

  lemma StepKeepsCountdowns(t: Tables, s: Collection, i: Input)
    requires t.Valid() && s.Valid() && CountdownsInRange(s)
    ensures CountdownsInRange(Step(t, s, i))
  {
    hide Decide, Step, Wiped, Tables.Valid, Banks.Valid, Posts, NextPhase;
    StepStatics(t, s, i);
    assert Begin(s, i).st.delay == s.st.delay;
  }

  lemma {:induction false} RunKeepsCountdowns(t: Tables, s: Collection, calls: seq<Input>)
    requires t.Valid() && s.Valid() && CountdownsInRange(s)
    ensures CountdownsInRange(Run(t, s, calls))
  {
    hide Step, CountdownsInRange, Tables.Valid;
    if |calls| > 0 {
      RunKeepsCountdowns(t, s, calls[..|calls| - 1]);
      StepKeepsCountdowns(t, Run(t, s, calls[..|calls| - 1]), calls[|calls| - 1]);
    }
  }

  lemma {:induction false} FirstCallWipes(t: Tables, s: Collection, calls: seq<Input>)
    requires t.Valid() && s.Valid() && |calls| > 0 && calls[0].ticks == 0
    ensures Wipe in Trace(t, s, calls)
  {
    hide Step, Decide, PostEvents, Begin, Tables.Valid;
    var most := calls[..|calls| - 1];
    if |calls| > 1 {
      FirstCallWipes(t, s, most);
    }
  }

  /** From the first call on, whatever memory held before and whatever the host does: every
      header equals its trailer, except that the header of group 6 counts groups 6 and 7. */
  lemma HeadersMatchAfterEveryRun(t: Tables, s: Collection, calls: seq<Input>)
    requires t.Valid() && s.Valid() && |calls| > 0 && calls[0].ticks == 0
    ensures HeadersMatch(Run(t, s, calls).banks.cells)
    ensures DebugMatches(s.banks.cells) ==> DebugMatches(Run(t, s, calls).banks.cells)
  {
    hide HeadersMatch, DebugMatches, Trace, Run, Tables.Valid;
    FirstCallWipes(t, s, calls);
    RunReplays(t, s, calls);
    HeadersMatchSinceWipe(s.banks, Trace(t, s, calls));
  }

  /** Conservation over any run of the collector. */
  lemma RunConserves(t: Tables, s: Collection, calls: seq<Input>, c: Counter)
    requires t.Valid() && s.Valid()
    ensures Balanced(c, s.banks, HistoryOf(c, s.banks, Trace(t, s, calls)), Run(t, s, calls).banks)
  {
    hide Balanced, Trace, Run, Tables.Valid;
    RunReplays(t, s, calls);
    CellIsLedger(c, s.banks, Trace(t, s, calls));
  }

  /** Over a run that neither pauses nor wipes, the cell of a counter gains the counter's true
      increment, less one for every wrap and less what readings of zero hide. */
  lemma RunGainsTrueCount(t: Tables, s: Collection, calls: seq<Input>, c: Counter, truth: seq<nat>)
    requires t.Valid() && s.Valid() && Uninterrupted(Trace(t, s, calls))
    requires |truth| > 0 && Advances(c.Max(), truth)
    requires HistoryOf(c, s.banks, Trace(t, s, calls)).current == Shown(c.Max(), truth)
    ensures var turn, last := c.Max() + 1, truth[|truth| - 1];
            Run(t, s, calls).banks.cells[c.Cell()]
            == (s.banks.cells[c.Cell()]
                + c.Weight() * (last - truth[0] - (last / turn - truth[0] / turn)
                                - Suppressed(c.Max(), truth))) % TWO_64
  {
    hide Trace, Run, Uninterrupted, Tables.Valid, HistoryOf, Replay, Shown, Advances, Suppressed,
         Counter.Cell, Counter.Weight, Counter.Max;
    RunReplays(t, s, calls);
    CellGainsTrueCount(c, s.banks, Trace(t, s, calls), truth);
  }

  /** In every run the PHB cursor is where the group-4 postings since its start have moved it. */
  lemma RunMovesCursor(t: Tables, s: Collection, calls: seq<Input>)
    requires t.Valid() && s.Valid()
    ensures Run(t, s, calls).banks.EpochStart() == (s.banks.EpochStart() + 8 * Postings(G4, Trace(t, s, calls))) % 24
  {
    hide Trace, Run, Tables.Valid, Replay, Postings;
    RunReplays(t, s, calls);
    CursorCountsPostings(s.banks, Trace(t, s, calls));
  }

  // ---------- Pacing ----------

  /** Nothing in this call asks the collector to stop, resume, clear or reconfigure. */
  predicate Quiet(s: Collection, i: Input) {
    && i.ticks != 0 && (i.host.cmd == CNTL_CMD_NOP || i.host.cmd > CNTL_CMD_CLEAR)
    && i.host.speed == s.st.curSpeed && i.host.uav == s.st.curUav && i.host.mode == s.st.curMode
    && LegalMode(i.host.mode) && s.control.status != CNTL_STATUS_ERR1 && s.control.status != CNTL_STATUS_ERR2
  }

  predicate QuietRun(t: Tables, s: Collection, calls: seq<Input>)
    requires t.Valid() && s.Valid()
  {
    |calls| == 0
    || (QuietRun(t, s, calls[..|calls| - 1]) && Quiet(Run(t, s, calls[..|calls| - 1]), calls[|calls| - 1]))
  }

  predicate VisitedIn(phase: nat, g: Group) {
    g == FirstGroup(phase) || g == SecondGroup(phase)
  }

  lemma QuietBegins(s: Collection, i: Input)
    requires s.Valid() && Quiet(s, i)
    ensures Begin(s, i).st == s.st && Begin(s, i).banks == s.banks && Begin(s, i).control.status == s.control.status
    ensures Begin(s, i).log == s.log && BeginEvents(s, i) == []
  {
    hide Wiped;
  }

  /** One quiet call, seen from one group. */
  lemma QuietStep(t: Tables, s: Collection, i: Input, g: Group)
    requires t.Valid() && s.Valid() && Quiet(s, i) && !s.st.dontRun && !s.st.configure
    ensures var s', k := Step(t, s, i), GroupIndex(g);
            && s'.st.phase == NextPhase(s.st.phase) && s'.st.curDelay == s.st.curDelay
            && !s'.st.dontRun && !s'.st.configure
            && s'.st.delay[k] == (if VisitedIn(s.st.phase, g) then CountedDown(g, s.st) else s.st.delay[k])
  {
    hide Begin, Step, Tables.Valid, Reload, Quiet, NextPhase, Banks.Valid;
    QuietBegins(s, i);
    StepStatics(t, s, i);
  }

  /** What a call posts, given its first part. */
  lemma CallPosts(s: Collection, i: Input, g: Group)
    requires s.Valid()
    ensures var b := Begin(s, i);
            Postings(g, StepEvents(s, i))
            == if Posts(b) && VisitedIn(b.st.phase, g) && b.st.delay[GroupIndex(g)] == 0 then 1 else 0
  {
    hide Begin, VisitEvents, Visit, Postings, CountedDown, Command, Decide;
    var b := Begin(s, i);
    PostingsAppend(g, BeginEvents(s, i), PostEvents(b, i.scom));
    BeginPostsNothing(s, i, g);
    if Posts(b) {
      var first, second := FirstGroup(b.st.phase), SecondGroup(b.st.phase);
      var v := Visit(first, b, i.scom);
      PostingsAppend(g, VisitEvents(first, b, i.scom), VisitEvents(second, v, i.scom));
      VisitPostings(first, b, i.scom, g);
      VisitPostings(second, v, i.scom, g);
      VisitStatics(first, b, i.scom);
      assert GroupIndex(first) != GroupIndex(second) by { OtherCountdown(b.st); }
    } else {
      NothingPosted(g);
    }
  }

  lemma NothingPosted(g: Group)
    ensures Postings(g, []) == 0
  {
  }

  lemma BeginPostsNothing(s: Collection, i: Input, g: Group)
    requires s.Valid()
    ensures Postings(g, BeginEvents(s, i)) == 0
  {
    hide Decide, Command;
    assert [Forget][..0] == [] && [Wipe][..0] == [] && ([Forget] + [Wipe])[..1] == [Forget];
  }

  lemma QuietVisits(s: Collection, i: Input, g: Group)
    requires s.Valid() && Quiet(s, i) && !s.st.dontRun && !s.st.configure
    ensures Postings(g, StepEvents(s, i)) == if VisitedIn(s.st.phase, g) && s.st.delay[GroupIndex(g)] == 0 then 1 else 0
  {
    hide Begin, StepEvents, Quiet, VisitedIn, Postings;
    QuietBegins(s, i);
    CallPosts(s, i, g);
  }

  /** The rota, for every call: nothing is posted while stopped, nor in the first four phases while
      the table is still to be written. Groups 1 and 2 have the odd phases, group 3 the even ones,
      and of these phase 2 is also for group 4, phase 4 for group 5, phase 6 for group 6 and phase 8
      for group 7. A group is posted in its phase exactly when its countdown is over. */
  lemma PostedExactly(s: Collection, i: Input, g: Group)
    requires s.Valid()
    ensures Postings(g, StepEvents(s, i)) <= 1
    ensures var st := Begin(s, i).st;
            Postings(g, StepEvents(s, i)) == 1 <==>
              && !st.dontRun && (!st.configure || st.phase > 4) && st.delay[GroupIndex(g)] == 0
              && match g
                 case G1 => st.phase in {1, 3, 5, 7}
                 case G2 => st.phase in {1, 3, 5, 7}
                 case G3 => st.phase in {2, 4, 6, 8}
                 case G4 => st.phase == 2
                 case G5 => st.phase == 4
                 case G6 => st.phase == 6
                 case G7 => st.phase == 8
  {
    hide Begin, StepEvents, VisitedIn;
    CallPosts(s, i, g);
    VisitedWhen(Begin(s, i).st.phase, g);
  }

  lemma VisitPostings(visited: Group, s: Collection, scom: Scom, g: Group)
    requires s.Valid()
    ensures Postings(g, VisitEvents(visited, s, scom))
         == if visited == g && s.st.delay[GroupIndex(g)] == 0 then 1 else 0
  {
    assert forall e: Event :: [e][..0] == [];
  }

  lemma {:induction false} PostingsAppend(g: Group, first: seq<Event>, second: seq<Event>)
    ensures Postings(g, first + second) == Postings(g, first) + Postings(g, second)
  {
    var n := |second|;
    if n == 0 {
      assert first + second == first;
    } else {
      PostingsAppend(g, first, second[..n - 1]);
      assert (first + second)[..|first + second| - 1] == first + second[..n - 1];
    }
  }

  /** How many calls apart the visits of a group are, and how many calls before the next. */
  function Every(g: Group): nat {
    if GroupIndex(g) <= 3 then 2 else 8
  }

  /** The one phase of groups 4 to 7. */
  function Home(g: Group): nat {
    match g case G4 => 2 case G5 => 4 case G6 => 6 case _ => 8
  }

  function CallsBefore(g: Group, phase: nat): nat
    requires 1 <= phase <= MAX_24X7_STATES
  {
    if g == G1 || g == G2 then (9 - phase) % 2 else if g == G3 then (8 - phase) % 2 else (Home(g) + 8 - phase) % 8
  }

  function PhaseAfter(phase: nat, n: nat): (p: nat)
    requires 1 <= phase
    ensures 1 <= p <= MAX_24X7_STATES
  {
    (phase - 1 + n) % 8 + 1
  }

  /** The visits of a group in `n` calls from a phase on. */
  function Visits(g: Group, phase: nat, n: nat): nat
    requires 1 <= phase <= MAX_24X7_STATES
  {
    (n + Every(g) - 1 - CallsBefore(g, phase)) / Every(g)
  }

  lemma OneMoreCall(g: Group, phase: nat, n: nat)
    requires 1 <= phase <= MAX_24X7_STATES
    ensures PhaseAfter(phase, n + 1) == NextPhase(PhaseAfter(phase, n))
    ensures Visits(g, phase, n + 1) == Visits(g, phase, n) + if VisitedIn(PhaseAfter(phase, n), g) then 1 else 0
  {
    hide PhaseAfter, Home, VisitedIn, NextPhase, Visits, Every;
    NextInRota(phase, n);
    VisitedWhen(PhaseAfter(phase, n), g);
    if g == G1 || g == G2 || g == G3 {
      OneMoreInTwo(g, phase, n);
    } else {
      OneMoreInEight(g, phase, n);
    }
  }

  lemma OneMoreInTwo(g: Group, phase: nat, n: nat)
    requires 1 <= phase <= MAX_24X7_STATES && g in {G1, G2, G3}
    ensures Visits(g, phase, n + 1)
         == Visits(g, phase, n) + if PhaseAfter(phase, n) % 2 == (if g == G3 then 0 else 1) then 1 else 0
  {
    hide PhaseAfter;
    InTwo(phase, n);
  }

  lemma OneMoreInEight(g: Group, phase: nat, n: nat)
    requires 1 <= phase <= MAX_24X7_STATES && g !in {G1, G2, G3}
    ensures Visits(g, phase, n + 1) == Visits(g, phase, n) + if PhaseAfter(phase, n) == Home(g) then 1 else 0
  {
    hide PhaseAfter;
    InEight(phase, n, Home(g));
  }

  lemma VisitedWhen(phase: nat, g: Group)
    requires 1 <= phase <= MAX_24X7_STATES
    ensures VisitedIn(phase, g)
       <==> if g == G1 || g == G2 then phase % 2 == 1 else if g == G3 then phase % 2 == 0 else phase == Home(g)
    ensures 1 <= Home(g) <= MAX_24X7_STATES
  {
  }

  lemma NextInRota(phase: nat, n: nat)
    requires 1 <= phase <= MAX_24X7_STATES
    ensures PhaseAfter(phase, n + 1) == NextPhase(PhaseAfter(phase, n))
  {
    assert phase - 1 + (n + 1) == phase - 1 + n + 1;
    OneMore(phase - 1 + n, 8);
  }

  lemma InTwo(phase: nat, n: nat)
    requires 1 <= phase <= MAX_24X7_STATES
    ensures var o := (9 - phase) % 2;
            (n + 2 - o) / 2 == (n + 1 - o) / 2 + if PhaseAfter(phase, n) % 2 == 1 then 1 else 0
    ensures var o := (8 - phase) % 2;
            (n + 2 - o) / 2 == (n + 1 - o) / 2 + if PhaseAfter(phase, n) % 2 == 0 then 1 else 0
  {
    hide PhaseAfter;
    Parity(phase, n);
  }

  lemma Parity(phase: nat, n: nat)
    requires 1 <= phase
    ensures PhaseAfter(phase, n) % 2 == (phase + n) % 2
  {
    var m := phase - 1 + n;
    EvenInEight(m);
    assert m + 1 == phase + n;
  }

  lemma EvenInEight(m: nat)
    ensures (m % 8 + 1) % 2 == (m + 1) % 2
  {
    var q, r := m / 8, m % 8;
    var p, e := (r + 1) / 2, (r + 1) % 2;
    assert m + 1 == (4 * q + p) * 2 + e;
    Quotient(m + 1, 2, 4 * q + p, e);
  }

  lemma InEight(phase: nat, n: nat, target: nat)
    requires 1 <= phase <= MAX_24X7_STATES && 1 <= target <= MAX_24X7_STATES
    ensures var o := (target + 8 - phase) % 8;
            (n + 8 - o) / 8 == (n + 7 - o) / 8 + if PhaseAfter(phase, n) == target then 1 else 0
  {
    var a, turn := phase - 1 + n, if target >= phase then 1 else 0;
    Quotient(target + 8 - phase, 8, turn, target + 8 - phase - 8 * turn);
    var w := n + 7 - (target + 8 - phase - 8 * turn);
    OneMore(w, 8);
    InEightFrom(w, a, target, turn);
  }

  lemma InEightFrom(w: nat, a: nat, target: nat, turn: nat)
    requires 1 <= target <= MAX_24X7_STATES && w == a - target + 8 * turn
    ensures w % 8 == 7 <==> a % 8 + 1 == target
  {
    var q, r := a / 8, a % 8;
    assert a == 8 * q + r;
    if r + 1 >= target {
      DistanceInEight(w, q + turn, r - target);
    } else {
      DistanceInEight(w, q + turn - 1, 8 + r - target);
    }
  }

  lemma DistanceInEight(w: nat, q: int, d: int)
    requires w == 8 * q + d && -1 <= d <= 6
    ensures w % 8 == 7 <==> d == -1
  {
    if d == -1 {
      Quotient(w, 8, q - 1, 7);
    } else {
      Quotient(w, 8, q, d);
    }
  }

  /** The postings in `v` visits of a countdown that starts at `left` and at `delay` after
      each posting, and what is left of it. */
  function PostedIn(delay: nat, left: nat, v: nat): nat {
    if v <= left then 0 else 1 + (v - left - 1) / (delay + 1)
  }

  function LeftAfter(delay: nat, left: nat, v: nat): nat {
    if v <= left then left - v else delay - (v - left - 1) % (delay + 1)
  }

  lemma OneMoreVisit(delay: nat, left: nat, v: nat)
    ensures var before := LeftAfter(delay, left, v);
            && LeftAfter(delay, left, v + 1) == (if before == 0 then delay else before - 1)
            && PostedIn(delay, left, v + 1) == PostedIn(delay, left, v) + if before == 0 then 1 else 0
  {
    if v > left {
      OneMore(v - left - 1, delay + 1);
    }
  }

  lemma {:induction false} PacedByReload(t: Tables, s: Collection, calls: seq<Input>, g: Group)
    requires t.Valid() && s.Valid() && QuietRun(t, s, calls) && !s.st.dontRun && !s.st.configure
    ensures var s', k, v := Run(t, s, calls), GroupIndex(g), Visits(g, s.st.phase, |calls|);
            var delay := Reload(g, s.st.curDelay);
            && s'.st.phase == PhaseAfter(s.st.phase, |calls|) && s'.st.curDelay == s.st.curDelay
            && !s'.st.dontRun && !s'.st.configure
            && s'.st.delay[k] == LeftAfter(delay, s.st.delay[k], v)
            && Postings(g, Trace(t, s, calls)) == PostedIn(delay, s.st.delay[k], v)
  {
    hide Step, StepEvents, Quiet, Visits, PostedIn, LeftAfter, Reload, PhaseAfter, VisitedIn, Tables.Valid;
    var n := |calls|;
    if n == 0 {
      NoCalls(g, s.st.phase, Reload(g, s.st.curDelay), s.st.delay[GroupIndex(g)]);
    } else {
      var most := calls[..n - 1];
      PacedByReload(t, s, most, g);
      QuietStep(t, Run(t, s, most), calls[n - 1], g);
      QuietVisits(Run(t, s, most), calls[n - 1], g);
      OneMoreCall(g, s.st.phase, n - 1);
      OneMoreVisit(Reload(g, s.st.curDelay), s.st.delay[GroupIndex(g)], Visits(g, s.st.phase, n - 1));
      PostingsAppend(g, Trace(t, s, most), StepEvents(Run(t, s, most), calls[n - 1]));
    }
  }

  lemma NoCalls(g: Group, phase: nat, delay: nat, left: nat)
    requires 1 <= phase <= MAX_24X7_STATES
    ensures PhaseAfter(phase, 0) == phase && Visits(g, phase, 0) == 0
    ensures LeftAfter(delay, left, 0) == left && PostedIn(delay, left, 0) == 0
  {
  }

  /** Pacing: in a quiet run of any length the postings of a group, and what is left of its
      countdown, are those of one countdown over its visits. */
  lemma Pacing(t: Tables, s: Collection, calls: seq<Input>, g: Group)
    requires t.Valid() && s.Valid() && QuietRun(t, s, calls) && !s.st.dontRun && !s.st.configure
    ensures var s', k, v := Run(t, s, calls), GroupIndex(g), Visits(g, s.st.phase, |calls|);
            var delay := if g in {G1, G2, G3} then s.st.curDelay else s.st.curDelay / 8;
            && s'.st.phase == PhaseAfter(s.st.phase, |calls|) && s'.st.curDelay == s.st.curDelay
            && !s'.st.dontRun && !s'.st.configure
            && s'.st.delay[k] == LeftAfter(delay, s.st.delay[k], v)
            && Postings(g, Trace(t, s, calls)) == PostedIn(delay, s.st.delay[k], v)
  {
    hide Run, Trace, QuietRun, Visits, PostedIn, LeftAfter, Reload, PhaseAfter, Tables.Valid;
    ReloadIs(g, s.st.curDelay);
    PacedByReload(t, s, calls, g);
  }

  lemma OncePerReload(t: Tables, s: Collection, calls: seq<Input>, g: Group, delay: nat, every: nat, periods: nat)
    requires t.Valid() && s.Valid() && QuietRun(t, s, calls) && !s.st.dontRun && !s.st.configure
    requires delay == Reload(g, s.st.curDelay) && every == Every(g)
    requires s.st.delay[GroupIndex(g)] <= delay && |calls| == periods * (every * (delay + 1))
    ensures Postings(g, Trace(t, s, calls)) == periods
    ensures var s' := Run(t, s, calls);
            s'.st.delay[GroupIndex(g)] == s.st.delay[GroupIndex(g)] && (every == 8 ==> s'.st.phase == s.st.phase)
  {
    hide Run, Trace, QuietRun, PostedIn, LeftAfter, Visits, PhaseAfter, Reload, Tables.Valid, Every;
    PacedByReload(t, s, calls, g);
    PeriodArithmetic(g, s.st.phase, delay, s.st.delay[GroupIndex(g)], periods);
  }

  /** A group whose countdown is within its delay d posts exactly once in every 2(d+1) calls,
      for groups 1 to 3, where d is the speed's delay, and every 8(d+1) calls for groups 4 to 7,
      where it is an eighth of that; and after each such period it is where it was. */
  lemma OncePerPeriod(t: Tables, s: Collection, calls: seq<Input>, g: Group, periods: nat)
    requires t.Valid() && s.Valid() && QuietRun(t, s, calls) && !s.st.dontRun && !s.st.configure
    requires s.st.delay[GroupIndex(g)] <= if g in {G1, G2, G3} then s.st.curDelay else s.st.curDelay / 8
    requires |calls| == periods * if g in {G1, G2, G3} then 2 * (s.st.curDelay + 1) else 8 * (s.st.curDelay / 8 + 1)
    ensures Postings(g, Trace(t, s, calls)) == periods
    ensures var s' := Run(t, s, calls);
            && s'.st.delay[GroupIndex(g)] == s.st.delay[GroupIndex(g)]
            && (g !in {G1, G2, G3} ==> s'.st.phase == s.st.phase)
  {
    hide *;
    ReloadIs(g, s.st.curDelay);
    if g in {G1, G2, G3} {
      OncePerReload(t, s, calls, g, s.st.curDelay, 2, periods);
    } else {
      OncePerReload(t, s, calls, g, s.st.curDelay / 8, 8, periods);
    }
  }

  lemma ReloadIs(g: Group, curDelay: nat)
    ensures Reload(g, curDelay) == if g in {G1, G2, G3} then curDelay else curDelay / 8
    ensures Every(g) == if g in {G1, G2, G3} then 2 else 8
  {
  }

  lemma PeriodArithmetic(g: Group, phase: nat, delay: nat, left: nat, periods: nat)
    requires 1 <= phase <= MAX_24X7_STATES && left <= delay
    ensures var n := periods * (Every(g) * (delay + 1));
            && PostedIn(delay, left, Visits(g, phase, n)) == periods
            && LeftAfter(delay, left, Visits(g, phase, n)) == left
            && (Every(g) == 8 ==> PhaseAfter(phase, n) == phase)
  {
    hide PostedIn, LeftAfter, Visits, PhaseAfter, Every;
    var v := periods * (delay + 1);
    Reorder(periods, Every(g), delay + 1);
    WholePeriods(g, phase, v);
    WholeDelays(delay, left, periods);
  }

  lemma Reorder(a: int, b: int, c: int)
    ensures a * (b * c) == b * (a * c)
  {
  }

  lemma WholeDelays(delay: nat, left: nat, periods: nat)
    requires left <= delay
    ensures PostedIn(delay, left, periods * (delay + 1)) == periods
    ensures LeftAfter(delay, left, periods * (delay + 1)) == left
  {
    var d := delay + 1;
    if periods > 0 {
      assert (periods - 1) * d == periods * d - d;
      MultipleIsLarge(periods, d);
      Quotient(periods * d - left - 1, d, periods - 1, delay - left);
    }
  }

  lemma WholePeriods(g: Group, phase: nat, v: nat)
    requires 1 <= phase <= MAX_24X7_STATES
    ensures Visits(g, phase, Every(g) * v) == v
    ensures Every(g) == 8 ==> PhaseAfter(phase, Every(g) * v) == phase
  {
    hide CallsBefore;
    Soon(g, phase);
    var o := CallsBefore(g, phase);
    if Every(g) == 2 {
      Quotient(2 * v + 1 - o, 2, v, 1 - o);
    } else {
      Quotient(8 * v + 7 - o, 8, v, 7 - o);
      Quotient(phase - 1 + 8 * v, 8, v, phase - 1);
    }
  }

  lemma Soon(g: Group, phase: nat)
    requires 1 <= phase <= MAX_24X7_STATES
    ensures CallsBefore(g, phase) < Every(g)
  {
  }
}
