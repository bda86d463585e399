/** Runs of postings: what the posting area holds after any sequence of postings,
    wipes and forgotten readings (gpe1_24x7.c). */
module PmuLedger {
  import opened MachineWords
  import opened CounterDeltas
  import opened PmuLayout

  /** What can happen to the posting area and the last readings. */
  datatype Event = Forget | Wipe | Posted(g: Group, x: Context)

  function ForgetAll(b: Banks): (b': Banks)
    requires b.Valid()
    ensures b'.Valid()
  {
    Banks(b.cells, seq(SLOTS, _ => 0), seq(SLOTS, _ => 0), b.phbEvents, b.xTurn)
  }

  function WipeAll(b: Banks): (b': Banks)
    requires b.Valid()
    ensures b'.Valid()
  {
    Banks(Wiped(b.cells), b.mba, b.phb, b.phbEvents, b.xTurn)
  }

  function After(b: Banks, e: Event): (b': Banks)
    requires b.Valid()
    ensures b'.Valid()
  {
    match e
    case Forget => ForgetAll(b)
    case Wipe => WipeAll(b)
    case Posted(g, x) => Post(g, b, x)
  }

  function Replay(b: Banks, trace: seq<Event>): (b': Banks)
    requires b.Valid()
    ensures b'.Valid()
  {
    if |trace| == 0 then b else After(Replay(b, trace[..|trace| - 1]), trace[|trace| - 1])
  }

  lemma {:induction false} ReplayAppend(b: Banks, first: seq<Event>, second: seq<Event>)
    requires b.Valid()
    ensures Replay(b, first + second) == Replay(Replay(b, first), second)
  {
    hide After;
    var n := |second|;
    if n == 0 {
      assert first + second == first;
    } else {
      ReplayAppend(b, first, second[..n - 1]);
      assert (first + second)[..|first + second| - 1] == first + second[..n - 1];
    }
  }

  // ---------- The wrapping counters ----------

  /** A wrapping counter: a memory buffer slot or a PHB slot. */
  datatype Counter = Mba(k: Slot) | Phb(k: Slot) {
    function Cell(): (c: nat)
      ensures c < TOTAL_POSTINGS
    {
      if Mba? then MbaCell(k) else PhbCell(k)
    }

    function Max(): (m: Word64)
      ensures m > 0
    {
      if Mba? then MAX_32 else MAX_48
    }

    /** Cycles are counted double. */
    function Weight(): nat {
      if Mba? && k % 3 == 2 then 2 else 1
    }

    function Last(b: Banks): (w: Word64)
      requires b.Valid()
      ensures w <= Max()
    {
      if Mba? then b.mba[k] else b.phb[k]
    }

    function Reading(scom: Scom): (w: Word64)
      ensures w <= Max()
    {
      if Mba? then MbaReading(scom, k) else PhbReading(scom, k)
    }

    predicate Visited(g: Group, b: Banks, x: Context)
      requires b.Valid()
    {
      if Mba? then MbaVisited(g, x, k) else PhbVisited(g, b, x, k)
    }
  }

  /** What an event adds for a counter. */
  function Gain(c: Counter, b: Banks, scom: Scom): (n: nat)
    requires b.Valid()
    ensures n < TWO_64
  {
    if c.Last(b) == 0 then 0 else c.Weight() * WrapDelta(c.Max(), c.Reading(scom), c.Last(b))
  }

  lemma PostMovesMba(k: Slot, g: Group, b: Banks, x: Context)
    requires b.Valid()
    ensures var c, b' := Mba(k), Post(g, b, x);
            && c.Last(b') == (if c.Visited(g, b, x) then c.Reading(x.scom) else c.Last(b))
            && b'.cells[c.Cell()] == Add64(b.cells[c.Cell()], if c.Visited(g, b, x) then Gain(c, b, x.scom) else 0)
  {
    hide Has, Field16, MbaReading, Add64, CnpmScom, LinkScom, AlinkScom, NvlinkScom, NpcqScom, CappScom, AnyNvlink;
  }

  lemma PostMovesPhb(k: Slot, g: Group, b: Banks, x: Context)
    requires b.Valid()
    ensures var c, b' := Phb(k), Post(g, b, x);
            && c.Last(b') == (if c.Visited(g, b, x) then c.Reading(x.scom) else c.Last(b))
            && b'.cells[c.Cell()] == Add64(b.cells[c.Cell()], if c.Visited(g, b, x) then Gain(c, b, x.scom) else 0)
  {
    hide Has, Field16, PhbReading, Add64, CnpmScom, LinkScom, AlinkScom, NvlinkScom, NpcqScom, CappScom, AnyNvlink;
  }

  lemma PostMoves(c: Counter, g: Group, b: Banks, x: Context)
    requires b.Valid()
    ensures var b' := Post(g, b, x);
            && c.Last(b') == (if c.Visited(g, b, x) then c.Reading(x.scom) else c.Last(b))
            && b'.cells[c.Cell()] == Add64(b.cells[c.Cell()], if c.Visited(g, b, x) then Gain(c, b, x.scom) else 0)
  {
    match c
    case Mba(k) => PostMovesMba(k, g, b, x);
    case Phb(k) => PostMovesPhb(k, g, b, x);
  }

  // ---------- Conservation ----------

  /** The readings of one counter during a run: whether its cell was zeroed, the stretches of
      readings that forgetting ended since then, and the stretch still going on. The first
      element of a stretch is what the posting area's owner remembered when it began. */
  datatype History = History(wiped: bool, past: seq<seq<Word64>>, current: seq<Word64>) {
    ghost predicate Fits(max: Word64) {
      |current| > 0 && Bounded(max, current) && forall p :: p in past ==> Bounded(max, p)
    }
  }

  ghost function HistoryOf(c: Counter, b: Banks, trace: seq<Event>): (h: History)
    requires b.Valid()
    ensures h.Fits(c.Max())
  {
    var n := |trace|;
    if n == 0 then History(false, [], [c.Last(b)])
    else
      var h, before := HistoryOf(c, b, trace[..n - 1]), Replay(b, trace[..n - 1]);
      match trace[n - 1]
      case Forget => History(h.wiped, h.past + [h.current], [0])
      case Wipe => History(true, [], [h.current[|h.current| - 1]])
      case Posted(g, x) =>
        if c.Visited(g, before, x) then h.(current := h.current + [c.Reading(x.scom)]) else h
  }

  ghost function Total(max: Word64, stretches: seq<seq<Word64>>): nat
    requires forall p :: p in stretches ==> Bounded(max, p)
  {
    var n := |stretches|;
    if n == 0 then 0
    else
      assert stretches[n - 1] in stretches;
      Total(max, stretches[..n - 1]) + Accumulated(max, stretches[n - 1])
  }

  /** Conservation over any run: the cell of a counter is what it was, or zero since the last
      wipe, plus the increments over consecutive readings whose earlier one is not zero and
      was not forgotten; and what is remembered is the last reading. */
  lemma {:induction false} CellIsLedger(c: Counter, b: Banks, trace: seq<Event>)
    requires b.Valid()
    ensures Balanced(c, b, HistoryOf(c, b, trace), Replay(b, trace))
  {
    hide Balanced, After;
    var n := |trace|;
    if n == 0 {
      StartsBalanced(c, b);
    } else {
      var most, e := trace[..n - 1], trace[n - 1];
      CellIsLedger(c, b, most);
      var h, b1 := HistoryOf(c, b, most), Replay(b, most);
      match e
      case Forget => ForgetBalances(c, b, h, b1);
      case Wipe => WipeBalances(c, b, h, b1);
      case Posted(g, x) => PostBalances(c, b, h, b1, g, x);
    }
  }

  ghost predicate Balanced(c: Counter, b: Banks, h: History, b': Banks)
    requires b.Valid() && b'.Valid() && h.Fits(c.Max())
  {
    && c.Last(b') == h.current[|h.current| - 1]
    && b'.cells[c.Cell()]
       == ((if h.wiped then 0 else b.cells[c.Cell()])
           + c.Weight() * (Total(c.Max(), h.past) + Accumulated(c.Max(), h.current))) % TWO_64
  }

  lemma StartsBalanced(c: Counter, b: Banks)
    requires b.Valid()
    ensures Balanced(c, b, History(false, [], [c.Last(b)]), b)
  {
    hide Counter.Last, Counter.Cell, Counter.Max, Accumulated, Total;
    NothingYet(c.Max(), c.Last(b));
  }

  lemma ForgetBalances(c: Counter, b: Banks, h: History, b1: Banks)
    requires b.Valid() && b1.Valid() && h.Fits(c.Max()) && Balanced(c, b, h, b1)
    ensures Balanced(c, b, History(h.wiped, h.past + [h.current], [0]), After(b1, Forget))
  {
    hide Counter.Last, Counter.Cell, Counter.Max, Counter.Weight, Accumulated, Total, ForgetAll;
    NothingYet(c.Max(), 0);
    ForgetMoves(c, b1);
    MoveStretch(c.Max(), h.past, h.current);
  }

  lemma WipeBalances(c: Counter, b: Banks, h: History, b1: Banks)
    requires b.Valid() && b1.Valid() && h.Fits(c.Max()) && Balanced(c, b, h, b1)
    ensures Balanced(c, b, History(true, [], [h.current[|h.current| - 1]]), After(b1, Wipe))
  {
    hide Counter.Last, Counter.Cell, Counter.Max, Accumulated, Total, WipeAll;
    NothingYet(c.Max(), h.current[|h.current| - 1]);
    WipeMoves(c, b1);
  }

  lemma PostBalances(c: Counter, b: Banks, h: History, b1: Banks, g: Group, x: Context)
    requires b.Valid() && b1.Valid() && h.Fits(c.Max()) && Balanced(c, b, h, b1)
    ensures Balanced(c, b, if c.Visited(g, b1, x) then h.(current := h.current + [c.Reading(x.scom)]) else h,
                     After(b1, Posted(g, x)))
  {
    hide Counter.Last, Counter.Cell, Counter.Max, Counter.Reading, Counter.Visited, Counter.Weight, Accumulated, Total,
         Post, Add64, Gain;
    PostMoves(c, g, b1, x);
    if c.Visited(g, b1, x) {
      OneMoreReading(c.Max(), h.current, c.Reading(x.scom));
      AddGain(c, b1, x.scom, if h.wiped then 0 else b.cells[c.Cell()],
              Total(c.Max(), h.past) + Accumulated(c.Max(), h.current));
    } else {
      ZeroGain(b1.cells[c.Cell()]);
    }
  }

  lemma ZeroGain(w: Word64)
    ensures Add64(w, 0) == w
  {
  }

  lemma NothingYet(max: Word64, w: Word64)
    requires w <= max
    ensures Accumulated(max, [w]) == 0 && Total(max, []) == 0
  {
  }

  lemma MoveStretch(max: Word64, past: seq<seq<Word64>>, current: seq<Word64>)
    requires Bounded(max, current) && forall p :: p in past ==> Bounded(max, p)
    ensures Total(max, past + [current]) == Total(max, past) + Accumulated(max, current)
  {
    hide Accumulated;
    assert (past + [current])[..|past|] == past;
  }

  lemma OneMoreReading(max: Word64, current: seq<Word64>, w: Word64)
    requires |current| > 0 && Bounded(max, current) && w <= max
    ensures var last := current[|current| - 1];
            Accumulated(max, current + [w])
            == Accumulated(max, current) + if last != 0 then WrapDelta(max, w, last) else 0
  {
    hide WrapDelta;
    assert (current + [w])[..|current|] == current;
  }

  lemma ForgetMoves(c: Counter, b: Banks)
    requires b.Valid()
    ensures c.Last(ForgetAll(b)) == 0 && ForgetAll(b).cells == b.cells
  {
  }

  lemma WipeMoves(c: Counter, b: Banks)
    requires b.Valid()
    ensures c.Last(WipeAll(b)) == c.Last(b) && WipeAll(b).cells[c.Cell()] == 0
  {
  }

  /** Adding a gain to a sum kept modulo 2^64. */
  lemma AddGain(c: Counter, b: Banks, scom: Scom, start: Word64, total: nat)
    requires b.Valid() && b.cells[c.Cell()] == (start + c.Weight() * total) % TWO_64
    ensures var more := if c.Last(b) != 0 then WrapDelta(c.Max(), c.Reading(scom), c.Last(b)) else 0;
            Add64(b.cells[c.Cell()], Gain(c, b, scom)) == (start + c.Weight() * (total + more)) % TWO_64
  {
    hide Counter.Last, Counter.Reading, Counter.Visited, Counter.Cell, Counter.Max, Counter.Weight, WrapDelta;
    var more := if c.Last(b) != 0 then WrapDelta(c.Max(), c.Reading(scom), c.Last(b)) else 0;
    AddWeighted(start, c.Weight(), total, more);
  }

  lemma AddWeighted(start: nat, weight: nat, total: nat, more: nat)
    ensures ((start + weight * total) % TWO_64 + weight * more) % TWO_64 == (start + weight * (total + more)) % TWO_64
  {
    assert weight * (total + more) == weight * total + weight * more;
    AddModulo64(start + weight * total, weight * more);
  }

  /** Nothing but postings: no pause and no re-initialisation of the area. */
  predicate Uninterrupted(trace: seq<Event>) {
    forall i :: 0 <= i < |trace| ==> trace[i].Posted?
  }

  lemma {:induction false} OneStretch(c: Counter, b: Banks, trace: seq<Event>)
    requires b.Valid() && Uninterrupted(trace)
    ensures var h := HistoryOf(c, b, trace); !h.wiped && h.past == [] && h.current[0] == c.Last(b)
  {
    hide Counter.Last, Counter.Reading, Counter.Visited, Counter.Max, After;
    if |trace| > 0 {
      OneStretch(c, b, trace[..|trace| - 1]);
    }
  }

  /** Uninterrupted postings add what their readings accumulate. */
  lemma StretchAdds(c: Counter, b: Banks, trace: seq<Event>)
    requires b.Valid() && Uninterrupted(trace)
    ensures Replay(b, trace).cells[c.Cell()]
         == (b.cells[c.Cell()] + c.Weight() * Accumulated(c.Max(), HistoryOf(c, b, trace).current)) % TWO_64
  {
    hide Counter.Last, Counter.Cell, Counter.Max, Counter.Weight, Accumulated, Replay, HistoryOf;
    CellIsLedger(c, b, trace);
    OneStretch(c, b, trace);
    NothingYet(c.Max(), 0);
  }

  /** Over uninterrupted postings of a counter that moves by less than a turn between
      readings, its cell gains the true increment, less one for every wrap and less what
      readings of zero hide; twice that for a cycle counter. */
  lemma CellGainsTrueCount(c: Counter, b: Banks, trace: seq<Event>, truth: seq<nat>)
    requires b.Valid() && Uninterrupted(trace)
    requires |truth| > 0 && Advances(c.Max(), truth) && HistoryOf(c, b, trace).current == Shown(c.Max(), truth)
    ensures var turn, last := c.Max() + 1, truth[|truth| - 1];
            Replay(b, trace).cells[c.Cell()]
            == (b.cells[c.Cell()]
                + c.Weight() * (last - truth[0] - (last / turn - truth[0] / turn)
                                - Suppressed(c.Max(), truth))) % TWO_64
  {
    hide *;
    StretchAdds(c, b, trace);
    AccumulatedIsTrueMinusWraps(c.Max(), truth);
  }

  /** The first element of a stretch that begins with nothing remembered adds nothing. */
  lemma {:induction false} NothingRemembered(max: Word64, readings: seq<Word64>)
    requires Bounded(max, readings) && |readings| > 0 && readings[0] == 0
    ensures Accumulated(max, readings) == Accumulated(max, readings[1..])
  {
    var n := |readings|;
    if n > 2 {
      NothingRemembered(max, readings[..n - 1]);
      assert readings[..n - 1][1..] == readings[1..][..n - 2];
    }
  }

  /** What a counter moved by before the first posting after a pause is never posted: with no
      reading remembered, the cell gains the increments between the readings that follow, and
      nothing else. */
  lemma PausedCountsAreNeverPosted(c: Counter, b: Banks, trace: seq<Event>)
    requires b.Valid() && c.Last(b) == 0 && Uninterrupted(trace)
    ensures Replay(b, trace).cells[c.Cell()]
         == (b.cells[c.Cell()] + c.Weight() * Accumulated(c.Max(), HistoryOf(c, b, trace).current[1..])) % TWO_64
  {
    hide Counter.Last, Counter.Cell, Counter.Max, Counter.Weight, Accumulated, Replay, HistoryOf;
    StretchAdds(c, b, trace);
    OneStretch(c, b, trace);
    NothingRemembered(c.Max(), HistoryOf(c, b, trace).current);
  }

  // ---------- Headers and trailers ----------

  /** Group 7 counts its start in the header of group 6, so that one is ahead of its own
      trailer by the postings of group 7, and the header of group 7 stays zero. */
  predicate HeadersMatch(cells: seq<Word64>)
    requires |cells| == CELLS
  {
    && cells[G1H] == cells[G1T] && cells[G2H] == cells[G2T] && cells[G3H] == cells[G3T]
    && cells[G4H] == cells[G4T] && cells[G5H] == cells[G5T]
    && cells[G6H] == Add64(cells[G6T], cells[G7T]) && cells[G7H] == 0
  }

  /** The pair of the debug area; a wipe leaves it alone. */
  predicate DebugMatches(cells: seq<Word64>)
    requires |cells| == CELLS
  {
    cells[DEBUG_START + G1H] == cells[DEBUG_START + G1T]
  }

  lemma HeaderIncrements(g: Group, b: Banks, x: Context)
    requires b.Valid()
    ensures Increment(g, b, x, G1H) == Increment(g, b, x, G1T) && Increment(g, b, x, G2H) == Increment(g, b, x, G2T)
    ensures Increment(g, b, x, G3H) == Increment(g, b, x, G3T) && Increment(g, b, x, G4H) == Increment(g, b, x, G4T)
    ensures Increment(g, b, x, G5H) == Increment(g, b, x, G5T) && Increment(g, b, x, G7H) == 0
    ensures Increment(g, b, x, DEBUG_START + G1H) == Increment(g, b, x, DEBUG_START + G1T)
    ensures Increment(g, b, x, G6H) == Increment(g, b, x, G6T) + Increment(g, b, x, G7T)
  {
    hide Has, Field16, MbaIncrement, PhbIncrement, MbaVisited, PhbVisited, AnyNvlink,
         CnpmScom, LinkScom, AlinkScom, NvlinkScom, NpcqScom, CappScom;
  }

  lemma PostKeepsHeaders(g: Group, b: Banks, x: Context)
    requires b.Valid()
    ensures HeadersMatch(b.cells) ==> HeadersMatch(Post(g, b, x).cells)
    ensures DebugMatches(b.cells) ==> DebugMatches(Post(g, b, x).cells)
  {
    hide Increment, Add64;
    HeaderIncrements(g, b, x);
    ZeroGain(0);
    AddPair(b.cells[G6T], b.cells[G7T], Increment(g, b, x, G6T), Increment(g, b, x, G7T));
  }

  lemma AddPair(v: Word64, w: Word64, m: Word64, n: Word64)
    requires m + n < TWO_64
    ensures Add64(Add64(v, w), m + n) == Add64(Add64(v, m), Add64(w, n))
  {
    AddModulo64(v + w, m + n);
    AddModulo64(v + m, Add64(w, n));
    AddModulo64(w + n, v + m);
  }

  /** Every wipe makes headers and trailers match, and nothing breaks that afterwards. */
  lemma {:induction false} HeadersMatchSinceWipe(b: Banks, trace: seq<Event>)
    requires b.Valid()
    ensures HeadersMatch(b.cells) || Wipe in trace ==> HeadersMatch(Replay(b, trace).cells)
    ensures DebugMatches(b.cells) ==> DebugMatches(Replay(b, trace).cells)
  {
    hide HeadersMatch, DebugMatches, Post;
    var n := |trace|;
    if n > 0 {
      var most, e := trace[..n - 1], trace[n - 1];
      HeadersMatchSinceWipe(b, most);
      assert Wipe in trace ==> Wipe in most || e == Wipe;
      match e
      case Forget => assert After(Replay(b, most), e).cells == Replay(b, most).cells;
      case Wipe => WipeMatches(Replay(b, most));
      case Posted(g, x) => PostKeepsHeaders(g, Replay(b, most), x);
    }
  }

  lemma WipeMatches(b: Banks)
    requires b.Valid()
    ensures HeadersMatch(WipeAll(b).cells) && (DebugMatches(b.cells) ==> DebugMatches(WipeAll(b).cells))
  {
  }

  // ---------- Every other cell ----------

  /** The sum of what the postings of a run add to a cell. */
  ghost function Added(b: Banks, trace: seq<Event>, cell: nat): nat
    requires b.Valid()
  {
    var n := |trace|;
    if n == 0 then 0
    else Added(b, trace[..n - 1], cell)
         + match trace[n - 1]
           case Posted(g, x) => Increment(g, Replay(b, trace[..n - 1]), x, cell)
           case _ => 0
  }

  /** No cell but the time of day is ever stored to between wipes: whatever was counted there
      is still in it, modulo 2^64. */
  lemma {:induction false} CellsOnlyGrow(b: Banks, trace: seq<Event>, cell: nat)
    requires b.Valid() && cell < CELLS && cell != G7_6 && Wipe !in trace
    ensures Replay(b, trace).cells[cell] == (b.cells[cell] + Added(b, trace, cell)) % TWO_64
  {
    hide Increment;
    var n := |trace|;
    if n > 0 {
      var most := trace[..n - 1];
      CellsOnlyGrow(b, most, cell);
      if trace[n - 1].Posted? {
        AddModulo64(b.cells[cell] + Added(b, most, cell),
                    Increment(trace[n - 1].g, Replay(b, most), trace[n - 1].x, cell));
      }
    }
  }

  /** An event that neither posts group 7 nor wipes. */
  predicate LeavesTime(e: Event) {
    e == Forget || (e.Posted? && e.g != G7)
  }

  lemma TimeAfter(b: Banks, e: Event)
    requires b.Valid()
    ensures After(b, e).cells[G7_6]
         == if e.Posted? && e.g == G7 then e.x.scom(TOD_VALUE_REG) else if e == Wipe then 0 else b.cells[G7_6]
  {
    hide Has, Field16, MbaIncrement, PhbIncrement, MbaVisited, PhbVisited, AnyNvlink,
         CnpmScom, LinkScom, AlinkScom, NvlinkScom, NpcqScom, CappScom;
  }

  lemma {:induction false} TimeIsKept(b: Banks, trace: seq<Event>)
    requires b.Valid() && forall i :: 0 <= i < |trace| ==> LeavesTime(trace[i])
    ensures Replay(b, trace).cells[G7_6] == b.cells[G7_6]
  {
    hide After;
    if |trace| > 0 {
      TimeIsKept(b, trace[..|trace| - 1]);
      TimeAfter(Replay(b, trace[..|trace| - 1]), trace[|trace| - 1]);
    }
  }

  /** After any run the time-of-day cell holds the time of the last posting of group 7, or
      zero if the area was wiped since; `last` is the last event of either kind. */
  lemma TimeOfDayIsLast(b: Banks, before: seq<Event>, last: Event, rest: seq<Event>)
    requires b.Valid() && !LeavesTime(last) && forall i :: 0 <= i < |rest| ==> LeavesTime(rest[i])
    ensures Replay(b, before + [last] + rest).cells[G7_6]
         == if last.Posted? then last.x.scom(TOD_VALUE_REG) else 0
  {
    hide Replay, After;
    ReplayAppend(b, before + [last], rest);
    ReplayAppend(b, before, [last]);
    OneEvent(Replay(b, before), last);
    TimeAfter(Replay(b, before), last);
    TimeIsKept(Replay(b, before + [last]), rest);
  }

  lemma OneEvent(b: Banks, e: Event)
    requires b.Valid()
    ensures Replay(b, [e]) == After(b, e)
  {
    assert [e][..0] == [];
  }

  // ---------- The PHB cursor ----------

  /** The postings of a group in a run. */
  function Postings(g: Group, trace: seq<Event>): nat {
    var n := |trace|;
    if n == 0 then 0
    else Postings(g, trace[..n - 1]) + if trace[n - 1].Posted? && trace[n - 1].g == g then 1 else 0
  }

  /** Each group-4 posting moves the cursor by eight slots, whichever units are there and
      whatever else happens in between. */
  lemma {:induction false} CursorCountsPostings(b: Banks, trace: seq<Event>)
    requires b.Valid()
    ensures Replay(b, trace).EpochStart() == (b.EpochStart() + 8 * Postings(G4, trace)) % 24
  {
    hide After, Banks.EpochStart, Banks.Valid;
    StartIsEpoch(b);
    if |trace| > 0 {
      var most := trace[..|trace| - 1];
      CursorCountsPostings(b, most);
      EventMovesCursor(Replay(b, most), trace[|trace| - 1]);
      NextStart(b.EpochStart(), Postings(G4, most));
    }
  }

  lemma StartIsEpoch(b: Banks)
    requires b.Valid()
    ensures b.EpochStart() in {0, 8, 16}
  {
  }

  lemma EventMovesCursor(b: Banks, e: Event)
    requires b.Valid()
    ensures After(b, e).EpochStart()
         == if !(e.Posted? && e.g == G4) then b.EpochStart() else if b.EpochStart() == 16 then 0 else b.EpochStart() + 8
  {
    hide CellsAfter, MbasAfter, PhbsAfter;
  }

  lemma NextStart(start: nat, n: nat)
    requires start in {0, 8, 16}
    ensures var now := (start + 8 * n) % 24;
            now in {0, 8, 16} && (start + 8 * (n + 1)) % 24 == if now == 16 then 0 else now + 8
    ensures start % 24 == start
  {
    var m := start / 8 + n;
    assert start + 8 * n == 8 * m && start + 8 * (n + 1) == 8 * m + 8;
    NextEpoch(m);
  }

  lemma NextEpoch(n: nat)
    ensures 8 * n % 24 in {0, 8, 16}
    ensures (8 * n + 8) % 24 == if 8 * n % 24 == 16 then 0 else 8 * n % 24 + 8
  {
    var q, k := n / 3, n % 3;
    Quotient(8 * n, 24, q, 8 * k);
    if k == 2 {
      Quotient(8 * n + 8, 24, q + 1, 0);
    } else {
      Quotient(8 * n + 8, 24, q, 8 * k + 8);
    }
  }

  /** The slots read by the group-4 posting after `n` earlier ones. */
  predicate Covers(b: Banks, n: nat, k: Slot)
    requires b.Valid()
  {
    var start := (b.EpochStart() + 8 * n) % 24;
    start <= k < start + 8
  }

  /** Of any three consecutive group-4 postings exactly one reads a given slot. */
  lemma ThreePostingsCoverOnce(b: Banks, n: nat, k: Slot)
    requires b.Valid()
    ensures Covers(b, n, k) || Covers(b, n + 1, k) || Covers(b, n + 2, k)
    ensures !(Covers(b, n, k) && Covers(b, n + 1, k))
    ensures !(Covers(b, n, k) && Covers(b, n + 2, k))
    ensures !(Covers(b, n + 1, k) && Covers(b, n + 2, k))
  {
    hide Banks.EpochStart;
    StartIsEpoch(b);
    var m := b.EpochStart() / 8 + n;
    NextEpoch(m);
    NextEpoch(m + 1);
  }

  /** Where that posting leaves a slot it reads, if its unit is there. */
  lemma CoveredSlotIsRead(b: Banks, trace: seq<Event>, x: Context, k: Slot)
    requires b.Valid()
    ensures var b1 := Replay(b, trace);
            && (PhbVisited(G4, b1, x, k) <==> Covers(b, Postings(G4, trace), k) && Has(x.uav, MaskPhb(k / 4)))
            && Post(G4, b1, x).phb[k]
               == if PhbVisited(G4, b1, x, k) then High48(x.scom(PhbScom(k / 4, k % 4))) else b1.phb[k]
  {
    hide CellsAfter, Replay, MbasAfter, Has, High48, PhbScom;
    CursorCountsPostings(b, trace);
  }
}
