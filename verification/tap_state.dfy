/**
 The JTAG Test Access Port controller: its sixteen states and the constant
 transition table that maps each state to its successor on TMS = 0 and on
 TMS = 1 (the state diagram of clause 6 of IEEE Std 1149.1).
 */
module TapState {

  /** The sixteen controller states, in the order of the `JTAGState` enum. */
  datatype State =
    | TLR | RTI
    | SelectDrScan | CaptureDr | ShiftDr | Exit1Dr | PauseDr | Exit2Dr | UpdateDr
    | SelectIrScan | CaptureIr | ShiftIr | Exit1Ir | PauseIr | Exit2Ir | UpdateIr

  /** One sampled value of the TMS line. */
  type Bit = b: nat | b < 2

  /** The transition table: successor on TMS = 0, then successor on TMS = 1. */
  function Successors(s: State): (State, State)
  {
    match s
    case TLR => (RTI, TLR)
    case RTI => (RTI, SelectDrScan)
    case SelectDrScan => (CaptureDr, SelectIrScan)
    case CaptureDr => (ShiftDr, Exit1Dr)
    case ShiftDr => (ShiftDr, Exit1Dr)
    case Exit1Dr => (PauseDr, UpdateDr)
    case PauseDr => (PauseDr, Exit2Dr)
    case Exit2Dr => (ShiftDr, UpdateDr)
    case UpdateDr => (RTI, SelectDrScan)
    case SelectIrScan => (CaptureIr, TLR)
    case CaptureIr => (ShiftIr, Exit1Ir)
    case ShiftIr => (ShiftIr, Exit1Ir)
    case Exit1Ir => (PauseIr, UpdateIr)
    case PauseIr => (PauseIr, Exit2Ir)
    case Exit2Ir => (ShiftIr, UpdateIr)
    case UpdateIr => (RTI, SelectDrScan)
  }

  /** The state entered from `s` when `tms` is sampled (the table indexed by the bit). */
  function Next(s: State, tms: Bit): State
  {
    if tms == 0 then Successors(s).0 else Successors(s).1
  }

  /** Some TMS value leads from `a` to `b`. */
  predicate IsEdge(a: State, b: State)
  {
    Next(a, 0) == b || Next(a, 1) == b
  }

  /** The state reached by clocking the TMS values of `tms` in order, first bit first. */
  function Run(s: State, tms: seq<Bit>): State
    decreases |tms|
  {
    if tms == [] then s else Run(Next(s, tms[0]), tms[1..])
  }

  /** Every state visited while clocking `tms` from `s`, both ends included. */
  function Walk(s: State, tms: seq<Bit>): (path: seq<State>)
    ensures |path| == |tms| + 1
    ensures path[0] == s
    decreases |tms|
  {
    if tms == [] then [s] else [s] + Walk(Next(s, tms[0]), tms[1..])
  }

  /** Every consecutive pair of `path` is a transition of the table. */
  predicate IsWalk(path: seq<State>)
  {
    forall i :: 0 <= i < |path| - 1 ==> IsEdge(path[i], path[i + 1])
  }

  /** The two successors of a state are always different states. */
  lemma SuccessorsDistinct(s: State)
    ensures Next(s, 0) != Next(s, 1)
  {
  }

  /** Clocking `a` and then `b` is clocking `a + b`. */
  lemma {:induction false} RunAppend(s: State, a: seq<Bit>, b: seq<Bit>)
    ensures Run(s, a + b) == Run(Run(s, a), b)
    decreases |a|
  {
    if a == [] {
      assert a + b == b;
    } else {
      assert (a + b)[1..] == a[1..] + b;
      RunAppend(Next(s, a[0]), a[1..], b);
    }
  }

  /** Appending one TMS value extends the visited states by its successor. */
  lemma {:induction false} WalkSnoc(s: State, tms: seq<Bit>, b: Bit)
    ensures Walk(s, tms + [b]) == Walk(s, tms) + [Next(Run(s, tms), b)]
    decreases |tms|
  {
    if tms == [] {
      assert Walk(Next(s, b), []) == [Next(s, b)];
    } else {
      assert (tms + [b])[1..] == tms[1..] + [b];
      WalkSnoc(Next(s, tms[0]), tms[1..], b);
    }
  }

  /** The last state visited is the state the TMS values lead to. */
  lemma {:induction false} WalkLast(s: State, tms: seq<Bit>)
    ensures Walk(s, tms)[|tms|] == Run(s, tms)
    decreases |tms|
  {
    if tms != [] {
      WalkLast(Next(s, tms[0]), tms[1..]);
    }
  }

  /** The visited states form a walk of the table. */
  lemma {:induction false} WalkIsWalk(s: State, tms: seq<Bit>)
    ensures IsWalk(Walk(s, tms))
    decreases |tms|
  {
    if tms != [] {
      WalkIsWalk(Next(s, tms[0]), tms[1..]);
      var w := Walk(s, tms);
      assert w == [s] + Walk(Next(s, tms[0]), tms[1..]);
      forall i | 0 <= i < |w| - 1
        ensures IsEdge(w[i], w[i + 1])
      {
        if i == 0 {
          assert w[1] == Next(s, tms[0]);
        } else {
          assert w[i] == Walk(Next(s, tms[0]), tms[1..])[i - 1];
        }
      }
    }
  }

  /**
   The TMS value of one step: the first index whose successor is `b`, or
   nothing when `b` is not a successor of `a`.
   */
  function StepBits(a: State, b: State): (tms: seq<Bit>)
    ensures |tms| <= 1
  {
    if Next(a, 0) == b then [0] else if Next(a, 1) == b then [1] else []
  }

  /** The TMS values of the steps of `path`, in order. */
  function Tms(path: seq<State>): seq<Bit>
    decreases |path|
  {
    if |path| < 2 then [] else StepBits(path[0], path[1]) + Tms(path[1..])
  }

  /** Reading back the TMS values of the states visited by `tms` gives `tms`. */
  lemma {:induction false} TmsOfWalk(s: State, tms: seq<Bit>)
    ensures Tms(Walk(s, tms)) == tms
    decreases |tms|
  {
    if tms != [] {
      var rest := Walk(Next(s, tms[0]), tms[1..]);
      TmsOfWalk(Next(s, tms[0]), tms[1..]);
      SuccessorsDistinct(s);
      assert StepBits(s, rest[0]) == [tms[0]];
      assert ([s] + rest)[1..] == rest;
      assert [tms[0]] + tms[1..] == tms;
    }
  }

  /** Every walk is the walk of its own TMS values from its first state. */
  lemma {:induction false} WalkOfTms(path: seq<State>)
    requires |path| >= 1
    requires IsWalk(path)
    ensures Walk(path[0], Tms(path)) == path
    decreases |path|
  {
    if |path| >= 2 {
      var a, b, rest := path[0], path[1], path[1..];
      assert IsEdge(a, b);
      assert IsWalk(rest) by {
        forall i | 0 <= i < |rest| - 1
          ensures IsEdge(rest[i], rest[i + 1])
        {
          assert rest[i] == path[i + 1] && rest[i + 1] == path[i + 2];
        }
      }
      WalkOfTms(rest);
      var bit: Bit := if Next(a, 0) == b then 0 else 1;
      assert StepBits(a, b) == [bit];
      assert ([bit] + Tms(rest))[1..] == Tms(rest);
      assert [a] + rest == path;
    }
  }
}
