/**
 Distances in the TAP controller graph and the route the breadth-first search
 finds, defined level by level: the shortest TMS string from one state to
 another, lexicographically least (0 before 1) among the shortest ones.
 */
module TapDistance {
  import opened TapState
  import opened TmsOrder

  /**
   The number of TMS clocks on a shortest route from `s` to `t`, tabulated by
   target. `DistBellman` proves the table is the graph distance.
   */
  function Dist(s: State, t: State): nat
  {
    match t
    case TLR => (
      match s
      case TLR => 0 case RTI => 3 case SelectDrScan => 2 case CaptureDr => 5
      case ShiftDr => 5 case Exit1Dr => 4 case PauseDr => 5 case Exit2Dr => 4
      case UpdateDr => 3 case SelectIrScan => 1 case CaptureIr => 5 case ShiftIr => 5
      case Exit1Ir => 4 case PauseIr => 5 case Exit2Ir => 4 case UpdateIr => 3
    )
    case RTI => (
      match s
      case TLR => 1 case RTI => 0 case SelectDrScan => 3 case CaptureDr => 3
      case ShiftDr => 3 case Exit1Dr => 2 case PauseDr => 3 case Exit2Dr => 2
      case UpdateDr => 1 case SelectIrScan => 2 case CaptureIr => 3 case ShiftIr => 3
      case Exit1Ir => 2 case PauseIr => 3 case Exit2Ir => 2 case UpdateIr => 1
    )
    case SelectDrScan => (
      match s
      case TLR => 2 case RTI => 1 case SelectDrScan => 0 case CaptureDr => 3
      case ShiftDr => 3 case Exit1Dr => 2 case PauseDr => 3 case Exit2Dr => 2
      case UpdateDr => 1 case SelectIrScan => 3 case CaptureIr => 3 case ShiftIr => 3
      case Exit1Ir => 2 case PauseIr => 3 case Exit2Ir => 2 case UpdateIr => 1
    )
    case CaptureDr => (
      match s
      case TLR => 3 case RTI => 2 case SelectDrScan => 1 case CaptureDr => 0
      case ShiftDr => 4 case Exit1Dr => 3 case PauseDr => 4 case Exit2Dr => 3
      case UpdateDr => 2 case SelectIrScan => 4 case CaptureIr => 4 case ShiftIr => 4
      case Exit1Ir => 3 case PauseIr => 4 case Exit2Ir => 3 case UpdateIr => 2
    )
    case ShiftDr => (
      match s
      case TLR => 4 case RTI => 3 case SelectDrScan => 2 case CaptureDr => 1
      case ShiftDr => 0 case Exit1Dr => 3 case PauseDr => 2 case Exit2Dr => 1
      case UpdateDr => 3 case SelectIrScan => 5 case CaptureIr => 5 case ShiftIr => 5
      case Exit1Ir => 4 case PauseIr => 5 case Exit2Ir => 4 case UpdateIr => 3
    )
    case Exit1Dr => (
      match s
      case TLR => 4 case RTI => 3 case SelectDrScan => 2 case CaptureDr => 1
      case ShiftDr => 1 case Exit1Dr => 0 case PauseDr => 3 case Exit2Dr => 2
      case UpdateDr => 3 case SelectIrScan => 5 case CaptureIr => 5 case ShiftIr => 5
      case Exit1Ir => 4 case PauseIr => 5 case Exit2Ir => 4 case UpdateIr => 3
    )
    case PauseDr => (
      match s
      case TLR => 5 case RTI => 4 case SelectDrScan => 3 case CaptureDr => 2
      case ShiftDr => 2 case Exit1Dr => 1 case PauseDr => 0 case Exit2Dr => 3
      case UpdateDr => 4 case SelectIrScan => 6 case CaptureIr => 6 case ShiftIr => 6
      case Exit1Ir => 5 case PauseIr => 6 case Exit2Ir => 5 case UpdateIr => 4
    )
    case Exit2Dr => (
      match s
      case TLR => 6 case RTI => 5 case SelectDrScan => 4 case CaptureDr => 3
      case ShiftDr => 3 case Exit1Dr => 2 case PauseDr => 1 case Exit2Dr => 0
      case UpdateDr => 5 case SelectIrScan => 7 case CaptureIr => 7 case ShiftIr => 7
      case Exit1Ir => 6 case PauseIr => 7 case Exit2Ir => 6 case UpdateIr => 5
    )
    case UpdateDr => (
      match s
      case TLR => 5 case RTI => 4 case SelectDrScan => 3 case CaptureDr => 2
      case ShiftDr => 2 case Exit1Dr => 1 case PauseDr => 2 case Exit2Dr => 1
      case UpdateDr => 0 case SelectIrScan => 6 case CaptureIr => 6 case ShiftIr => 6
      case Exit1Ir => 5 case PauseIr => 6 case Exit2Ir => 5 case UpdateIr => 4
    )
    case SelectIrScan => (
      match s
      case TLR => 3 case RTI => 2 case SelectDrScan => 1 case CaptureDr => 4
      case ShiftDr => 4 case Exit1Dr => 3 case PauseDr => 4 case Exit2Dr => 3
      case UpdateDr => 2 case SelectIrScan => 0 case CaptureIr => 4 case ShiftIr => 4
      case Exit1Ir => 3 case PauseIr => 4 case Exit2Ir => 3 case UpdateIr => 2
    )
    case CaptureIr => (
      match s
      case TLR => 4 case RTI => 3 case SelectDrScan => 2 case CaptureDr => 5
      case ShiftDr => 5 case Exit1Dr => 4 case PauseDr => 5 case Exit2Dr => 4
      case UpdateDr => 3 case SelectIrScan => 1 case CaptureIr => 0 case ShiftIr => 5
      case Exit1Ir => 4 case PauseIr => 5 case Exit2Ir => 4 case UpdateIr => 3
    )
    case ShiftIr => (
      match s
      case TLR => 5 case RTI => 4 case SelectDrScan => 3 case CaptureDr => 6
      case ShiftDr => 6 case Exit1Dr => 5 case PauseDr => 6 case Exit2Dr => 5
      case UpdateDr => 4 case SelectIrScan => 2 case CaptureIr => 1 case ShiftIr => 0
      case Exit1Ir => 3 case PauseIr => 2 case Exit2Ir => 1 case UpdateIr => 4
    )
    case Exit1Ir => (
      match s
      case TLR => 5 case RTI => 4 case SelectDrScan => 3 case CaptureDr => 6
      case ShiftDr => 6 case Exit1Dr => 5 case PauseDr => 6 case Exit2Dr => 5
      case UpdateDr => 4 case SelectIrScan => 2 case CaptureIr => 1 case ShiftIr => 1
      case Exit1Ir => 0 case PauseIr => 3 case Exit2Ir => 2 case UpdateIr => 4
    )
    case PauseIr => (
      match s
      case TLR => 6 case RTI => 5 case SelectDrScan => 4 case CaptureDr => 7
      case ShiftDr => 7 case Exit1Dr => 6 case PauseDr => 7 case Exit2Dr => 6
      case UpdateDr => 5 case SelectIrScan => 3 case CaptureIr => 2 case ShiftIr => 2
      case Exit1Ir => 1 case PauseIr => 0 case Exit2Ir => 3 case UpdateIr => 5
    )
    case Exit2Ir => (
      match s
      case TLR => 7 case RTI => 6 case SelectDrScan => 5 case CaptureDr => 8
      case ShiftDr => 8 case Exit1Dr => 7 case PauseDr => 8 case Exit2Dr => 7
      case UpdateDr => 6 case SelectIrScan => 4 case CaptureIr => 3 case ShiftIr => 3
      case Exit1Ir => 2 case PauseIr => 1 case Exit2Ir => 0 case UpdateIr => 6
    )
    case UpdateIr => (
      match s
      case TLR => 6 case RTI => 5 case SelectDrScan => 4 case CaptureDr => 7
      case ShiftDr => 7 case Exit1Dr => 6 case PauseDr => 7 case Exit2Dr => 6
      case UpdateDr => 5 case SelectIrScan => 3 case CaptureIr => 2 case ShiftIr => 2
      case Exit1Ir => 1 case PauseIr => 2 case Exit2Ir => 1 case UpdateIr => 0
    )
  }

  function Min(a: nat, b: nat): nat
  {
    if a <= b then a else b
  }

  /** The distance equations: zero exactly at the target, else one more than the nearer successor. */
  predicate Bellman(s: State, t: State)
  {
    && (Dist(s, t) == 0 <==> s == t)
    && (s != t ==> Dist(s, t) == 1 + Min(Dist(Next(s, 0), t), Dist(Next(s, 1), t)))
  }

  lemma RowIntoTlr(s: State) ensures Bellman(s, TLR) {}
  lemma RowIntoRti(s: State) ensures Bellman(s, RTI) {}
  lemma RowIntoSelectDrScan(s: State) ensures Bellman(s, SelectDrScan) {}
  lemma RowIntoCaptureDr(s: State) ensures Bellman(s, CaptureDr) {}
  lemma RowIntoShiftDr(s: State) ensures Bellman(s, ShiftDr) {}
  lemma RowIntoExit1Dr(s: State) ensures Bellman(s, Exit1Dr) {}
  lemma RowIntoPauseDr(s: State) ensures Bellman(s, PauseDr) {}
  lemma RowIntoExit2Dr(s: State) ensures Bellman(s, Exit2Dr) {}
  lemma RowIntoUpdateDr(s: State) ensures Bellman(s, UpdateDr) {}
  lemma RowIntoSelectIrScan(s: State) ensures Bellman(s, SelectIrScan) {}
  lemma RowIntoCaptureIr(s: State) ensures Bellman(s, CaptureIr) {}
  lemma RowIntoShiftIr(s: State) ensures Bellman(s, ShiftIr) {}
  lemma RowIntoExit1Ir(s: State) ensures Bellman(s, Exit1Ir) {}
  lemma RowIntoPauseIr(s: State) ensures Bellman(s, PauseIr) {}
  lemma RowIntoExit2Ir(s: State) ensures Bellman(s, Exit2Ir) {}
  lemma RowIntoUpdateIr(s: State) ensures Bellman(s, UpdateIr) {}

  /** No entry of the table exceeds 8. */
  lemma DistAtMostEight(s: State, t: State)
    ensures Dist(s, t) <= 8
  {
  }

  /** Every entry of the table satisfies the distance equations. */
  lemma DistBellman(s: State, t: State)
    ensures Bellman(s, t)
  {
    match t
    case TLR => RowIntoTlr(s);
    case RTI => RowIntoRti(s);
    case SelectDrScan => RowIntoSelectDrScan(s);
    case CaptureDr => RowIntoCaptureDr(s);
    case ShiftDr => RowIntoShiftDr(s);
    case Exit1Dr => RowIntoExit1Dr(s);
    case PauseDr => RowIntoPauseDr(s);
    case Exit2Dr => RowIntoExit2Dr(s);
    case UpdateDr => RowIntoUpdateDr(s);
    case SelectIrScan => RowIntoSelectIrScan(s);
    case CaptureIr => RowIntoCaptureIr(s);
    case ShiftIr => RowIntoShiftIr(s);
    case Exit1Ir => RowIntoExit1Ir(s);
    case PauseIr => RowIntoPauseIr(s);
    case Exit2Ir => RowIntoExit2Ir(s);
    case UpdateIr => RowIntoUpdateIr(s);
  }

  /** No TMS string shorter than `Dist(s, t)` leads from `s` to `t`. */
  lemma {:induction false} DistLowerBound(s: State, t: State, tms: seq<Bit>)
    requires Run(s, tms) == t
    ensures Dist(s, t) <= |tms|
    decreases |tms|
  {
    DistBellman(s, t);
    if s != t {
      DistLowerBound(Next(s, tms[0]), t, tms[1..]);
    }
  }

  /**
   The route the search finds, built one level at a time: take TMS = 0 when
   its successor is one step nearer the target, TMS = 1 otherwise.
   */
  function ShortestRoute(s: State, t: State): (tms: seq<Bit>)
    ensures Run(s, tms) == t
    ensures |tms| == Dist(s, t)
    decreases Dist(s, t)
  {
    DistBellman(s, t);
    if s == t then []
    else if Dist(Next(s, 0), t) < Dist(s, t) then [0] + ShortestRoute(Next(s, 0), t)
    else [1] + ShortestRoute(Next(s, 1), t)
  }

  /**
   The greedy route continues with the greedy route of its first successor,
   and it takes TMS = 1 first only when TMS = 0 leads no nearer.
   */
  lemma ShortestRouteStep(s: State, t: State)
    requires s != t
    ensures ShortestRoute(s, t) != []
    ensures ShortestRoute(s, t)[1..] == ShortestRoute(Next(s, ShortestRoute(s, t)[0]), t)
    ensures ShortestRoute(s, t)[0] == 1 ==> |ShortestRoute(s, t)| <= Dist(Next(s, 0), t)
  {
    DistBellman(s, t);
  }

  /** The greedy route takes TMS = 0 when that successor is nearer the target... */
  lemma GreedyZero(s: State, t: State)
    requires s != t
    requires Dist(Next(s, 0), t) < Dist(s, t)
    ensures ShortestRoute(s, t) == [0] + ShortestRoute(Next(s, 0), t)
  {
  }

  /** ...and TMS = 1 when it is not. */
  lemma GreedyOne(s: State, t: State)
    requires s != t
    requires Dist(s, t) <= Dist(Next(s, 0), t)
    ensures ShortestRoute(s, t) == [1] + ShortestRoute(Next(s, 1), t)
  {
  }

  /** A string that starts with TMS = 0 cannot beat a greedy route that starts with TMS = 1. */
  lemma NoShorterByZero(s: State, t: State, other: seq<Bit>)
    requires s != t
    requires other != [] && other[0] == 0
    requires Run(s, other) == t
    requires ShortestRoute(s, t)[0] == 1
    ensures |ShortestRoute(s, t)| < |other|
  {
    ShortestRouteStep(s, t);
    DistLowerBound(Next(s, 0), t, other[1..]);
  }

  /** Two nonempty strings with the same head and the same tail are equal. */
  lemma SameHeadSameTail(a: seq<Bit>, c: seq<Bit>)
    requires a != [] && c != []
    requires a[0] == c[0] && a[1..] == c[1..]
    ensures a == c
  {
    assert a == [a[0]] + a[1..];
    assert c == [c[0]] + c[1..];
  }

  /**
   Among the strings as long as the greedy route that lead from `s` to `t`,
   the greedy route is the lexicographically least.
   */
  lemma {:induction false} SameLengthRoute(s: State, t: State, other: seq<Bit>)
    requires s != t
    requires Run(s, other) == t
    requires |other| == |ShortestRoute(s, t)|
    ensures other == ShortestRoute(s, t) || LexLess(ShortestRoute(s, t), other)
    decreases |other|
  {
    ShortestRouteStep(s, t);
    var g := ShortestRoute(s, t);
    if other[0] < g[0] {
      NoShorterByZero(s, t, other);
    } else if other[0] == g[0] {
      var next, rest := Next(s, other[0]), other[1..];
      if next != t {
        SameLengthRoute(next, t, rest);
      }
      if rest == g[1..] {
        SameHeadSameTail(other, g);
      }
    }
  }

  /** Any string leading from `s` to `t` is the greedy route or is explored after it. */
  lemma ShortestRouteFirstAmong(s: State, t: State, other: seq<Bit>)
    requires Run(s, other) == t
    ensures other == ShortestRoute(s, t) || ExploredBefore(ShortestRoute(s, t), other)
  {
    DistLowerBound(s, t, other);
    if s != t && |other| == |ShortestRoute(s, t)| {
      SameLengthRoute(s, t, other);
    }
  }

  /** The greedy route is the first route in the search order, and the only one. */
  lemma FirstRouteIsShortestRoute(s: State, t: State, tms: seq<Bit>)
    ensures IsFirstRoute(s, t, tms) <==> tms == ShortestRoute(s, t)
  {
    var g := ShortestRoute(s, t);
    forall other | Run(s, other) == t
      ensures other == g || ExploredBefore(g, other)
    {
      ShortestRouteFirstAmong(s, t, other);
    }
    if IsFirstRoute(s, t, tms) {
      FirstRouteUnique(s, t, tms, g);
    }
  }

  /** The table is strongly connected: every state reaches every state within eight clocks. */
  lemma Connected(s: State, t: State) returns (tms: seq<Bit>)
    ensures Run(s, tms) == t
    ensures |tms| <= 8
  {
    tms := ShortestRoute(s, t);
    DistAtMostEight(s, t);
  }

  /** The first route between any two states has at most eight bits, so it fits a byte. */
  lemma FirstRouteFitsByte(s: State, t: State, tms: seq<Bit>)
    requires IsFirstRoute(s, t, tms)
    ensures |tms| <= 8
    ensures Value(tms) < Pow2(|tms|) <= 256
  {
    FirstRouteAtMostEight(s, t, tms);
    ValueFitsByte(tms);
  }

  lemma FirstRouteAtMostEight(s: State, t: State, tms: seq<Bit>)
    requires IsFirstRoute(s, t, tms)
    ensures |tms| <= 8
  {
    FirstRouteIsShortestRoute(s, t, tms);
    DistAtMostEight(s, t);
  }

  /** The bound is reached: PAUSE_DR to EXIT2_IR takes exactly eight clocks. */
  lemma PauseDrToExit2IrTakesEight(tms: seq<Bit>)
    requires Run(PauseDr, tms) == Exit2Ir
    ensures |tms| >= 8
    ensures |ShortestRoute(PauseDr, Exit2Ir)| == 8
  {
    DistLowerBound(PauseDr, Exit2Ir, tms);
  }
}
