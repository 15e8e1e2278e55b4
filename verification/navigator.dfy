/**
 The public surface of the navigator: the `JTAG` object holding the current
 TAP state, which starts at Test-Logic-Reset and changes only when `move`
 finds a path to the requested state.
 */
module Navigator {
  import opened Optional
  import opened TapState
  import opened TmsOrder
  import opened TapDistance
  import opened Navigate
  import opened Recreate

  /**
   One `move` from `current` to `target`: the state afterwards and the
   result. Moving to the current state is a no-op that returns `None`. Any
   other target is reached, and the result holds between one and eight TMS
   values that fit their count of bits and, replayed most significant bit
   first from `current`, form the first route to `target` in search order.
   */
  method MoveFrom(current: State, target: State) returns (next: State, result: Option<BitValue>)
    ensures target == current ==> next == current && result == None
    ensures target != current ==> next == target && result.Some?
    ensures result.Some? ==> 1 <= result.value.size <= 8
    ensures result.Some? ==> result.value.bits < Pow2(result.value.size)
    ensures result.Some? ==> IsFirstRoute(current, target, Unpack(result.value.bits, result.value.size))
  {
    var path := NavigatePath(current, target);
    if path.Some? {
      var v := RecreatePath(path.value);
      ghost var tms := Tms(path.value);
      FirstRouteFitsByte(current, target, tms);
      UnpackLowByte(tms);
      assert tms != [];
      return target, Some(v);
    }
    return current, None;
  }

  /** The `JTAG` class. */
  class Jtag {
    var currentState: State

    constructor()
      ensures currentState == TLR
    {
      currentState := TLR;
    }

    function GetCurrentState(): State
      reads this
    {
      currentState
    }

    method Move(target: State) returns (result: Option<BitValue>)
      modifies this
      ensures old(currentState) == target ==> result == None && currentState == old(currentState)
      ensures old(currentState) != target ==> result.Some? && currentState == target
      ensures result.Some? ==> 1 <= result.value.size <= 8
      ensures result.Some? ==> result.value.bits < Pow2(result.value.size)
      ensures result.Some? ==> IsFirstRoute(old(currentState), target, Unpack(result.value.bits, result.value.size))
    {
      currentState, result := MoveFrom(currentState, target);
    }
  }

  /** A result that unpacks to the first route is the packed greedy route. */
  lemma DecodeFirstRoute(s: State, t: State, v: BitValue)
    requires v.bits < Pow2(v.size)
    requires IsFirstRoute(s, t, Unpack(v.bits, v.size))
    ensures v.size == |ShortestRoute(s, t)|
    ensures v.bits == Value(ShortestRoute(s, t))
  {
    FirstRouteIsShortestRoute(s, t, Unpack(v.bits, v.size));
    ValueUnpack(v.bits, v.size);
  }

  /** The greedy route from TLR to SelectIrScan, one step per state. */
  lemma RouteTlrToSelectIrScan()
    ensures ShortestRoute(TLR, SelectIrScan) == [0, 1, 1]
  {
    var t := SelectIrScan;
    var s0, s1, s2 := TLR, RTI, SelectDrScan;
    GreedyZero(s0, t);
    GreedyOne(s1, t);
    GreedyOne(s2, t);
    assert ShortestRoute(t, t) == [];
  }

  /**
   Moving from Test-Logic-Reset to Select-IR-Scan clocks 0, 1, 1, packed into the value 3.
   */
  lemma TlrToSelectIrScan(v: BitValue)
    requires v.bits < Pow2(v.size)
    requires IsFirstRoute(TLR, SelectIrScan, Unpack(v.bits, v.size))
    ensures v == BitValue(0x03, 3)
  {
    DecodeFirstRoute(TLR, SelectIrScan, v);
    RouteTlrToSelectIrScan();
    assert Value([0, 1, 1]) == 3 by {
      assert [0, 1, 1][..2] == [0, 1];
      assert [0, 1][..1] == [0];
      assert [0][..0] == [];
    }
  }

  /** The greedy route from SelectIrScan to TLR, one step per state. */
  lemma RouteSelectIrScanToTlr()
    ensures ShortestRoute(SelectIrScan, TLR) == [1]
  {
    var t := TLR;
    var s0 := SelectIrScan;
    GreedyOne(s0, t);
    assert ShortestRoute(t, t) == [];
  }

  /**
   Moving from Select-IR-Scan back to Test-Logic-Reset clocks 1, packed into the value 1.
   */
  lemma SelectIrScanToTlr(v: BitValue)
    requires v.bits < Pow2(v.size)
    requires IsFirstRoute(SelectIrScan, TLR, Unpack(v.bits, v.size))
    ensures v == BitValue(0x01, 1)
  {
    DecodeFirstRoute(SelectIrScan, TLR, v);
    RouteSelectIrScanToTlr();
    assert Value([1]) == 1 by {
      assert [1][..0] == [];
    }
  }

  /** The greedy route from TLR to ShiftDr, one step per state. */
  lemma RouteTlrToShiftDr()
    ensures ShortestRoute(TLR, ShiftDr) == [0, 1, 0, 0]
  {
    var t := ShiftDr;
    var s0, s1, s2, s3 := TLR, RTI, SelectDrScan, CaptureDr;
    GreedyZero(s0, t);
    GreedyOne(s1, t);
    GreedyZero(s2, t);
    GreedyZero(s3, t);
    assert ShortestRoute(t, t) == [];
  }

  /**
   Moving from Test-Logic-Reset to Shift-DR clocks 0, 1, 0, 0, packed into the value 4.
   */
  lemma TlrToShiftDr(v: BitValue)
    requires v.bits < Pow2(v.size)
    requires IsFirstRoute(TLR, ShiftDr, Unpack(v.bits, v.size))
    ensures v == BitValue(0x04, 4)
  {
    DecodeFirstRoute(TLR, ShiftDr, v);
    RouteTlrToShiftDr();
    assert Value([0, 1, 0, 0]) == 4 by {
      assert [0, 1, 0, 0][..3] == [0, 1, 0];
      assert [0, 1, 0][..2] == [0, 1];
      assert [0, 1][..1] == [0];
      assert [0][..0] == [];
    }
  }

  /** The greedy route from SelectDrScan to ShiftIr, one step per state. */
  lemma RouteSelectDrScanToShiftIr()
    ensures ShortestRoute(SelectDrScan, ShiftIr) == [1, 0, 0]
  {
    var t := ShiftIr;
    var s0, s1, s2 := SelectDrScan, SelectIrScan, CaptureIr;
    GreedyOne(s0, t);
    GreedyZero(s1, t);
    GreedyZero(s2, t);
    assert ShortestRoute(t, t) == [];
  }

  /** The greedy route from ShiftDr to ShiftIr, one step per state. */
  lemma RouteShiftDrToShiftIr()
    ensures ShortestRoute(ShiftDr, ShiftIr) == [1, 1, 1, 1, 0, 0]
  {
    var t := ShiftIr;
    var s0, s1, s2 := ShiftDr, Exit1Dr, UpdateDr;
    GreedyOne(s0, t);
    GreedyOne(s1, t);
    GreedyOne(s2, t);
    RouteSelectDrScanToShiftIr();
  }

  /**
   Moving from Shift-DR to Shift-IR clocks 1, 1, 1, 1, 0, 0, packed into the value 60.
   */
  lemma ShiftDrToShiftIr(v: BitValue)
    requires v.bits < Pow2(v.size)
    requires IsFirstRoute(ShiftDr, ShiftIr, Unpack(v.bits, v.size))
    ensures v == BitValue(0x3C, 6)
  {
    DecodeFirstRoute(ShiftDr, ShiftIr, v);
    RouteShiftDrToShiftIr();
    assert Value([1, 1, 1, 1, 0, 0]) == 60 by {
      assert [1, 1, 1, 1, 0, 0][..5] == [1, 1, 1, 1, 0];
      assert [1, 1, 1, 1, 0][..4] == [1, 1, 1, 1];
      assert [1, 1, 1, 1][..3] == [1, 1, 1];
      assert [1, 1, 1][..2] == [1, 1];
      assert [1, 1][..1] == [1];
      assert [1][..0] == [];
    }
  }

  /**
   The test sequence: a fresh object is at Test-Logic-Reset, and moving to
   Select-IR-Scan, Test-Logic-Reset, Shift-DR and Shift-IR in turn returns
   0b011 in 3 bits, 0b01 in 1, 0b0100 in 4 and 0b111100 in 6.
   */
  method BasicAssertions() returns (initial: State, results: seq<Option<BitValue>>)
    ensures initial == TLR
    ensures results == [Some(BitValue(0x03, 3)), Some(BitValue(0x01, 1)),
                        Some(BitValue(0x04, 4)), Some(BitValue(0x3C, 6))]
  {
    var jtag := new Jtag();
    initial := jtag.GetCurrentState();
    var r1 := jtag.Move(SelectIrScan);
    TlrToSelectIrScan(r1.value);
    var r2 := jtag.Move(TLR);
    SelectIrScanToTlr(r2.value);
    var r3 := jtag.Move(ShiftDr);
    TlrToShiftDr(r3.value);
    var r4 := jtag.Move(ShiftIr);
    ShiftDrToShiftIr(r4.value);
    results := [r1, r2, r3, r4];
  }
}
