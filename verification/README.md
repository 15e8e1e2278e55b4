# JTAG TAP navigator, modelled in Dafny

The repository is a header-only C++ helper for driving a JTAG Test Access
Port (TAP). It knows the sixteen states of the TAP controller and the
transition taken on each value of the TMS line. Given a target state, it:

- finds a path from the current state by breadth-first search;
- turns that path into the TMS values to clock, packed into a `uint8_t`
  most significant bit first, together with their count;
- moves its current state to the target.

A move to the state the object is already in returns nothing and changes
nothing.

The model follows the header's structure:

- `optional.dfy` holds `Optional`, the `std::optional` of the results.
- `tap_state.dfy` holds `TapState`. It defines:
  - the `JTAGState` enum as `State`;
  - the `_tree` transition table as `Successors`;
  - runs and walks of TMS strings;
  - `Tms`, which reads back the TMS value of every step of a path, first
    matching successor first.
- `tms_order.dfy` holds `TmsOrder`, which covers:
  - packing bit strings into numbers, MSB first (`Value`, `Unpack`);
  - the order in which the search queue meets the bit strings: `Code(n)`
    is the string of the n-th path dequeued;
  - `IsFirstRoute`: the route that comes first in that order, meaning the
    shortest one and, among routes of that length, the lexicographically
    least with 0 before 1.
- `tap_distance.dfy` holds `TapDistance`. It is an independent reference
  for the search:
  - a 16×16 distance table, checked against the transition table by the
    shortest-path equations;
  - the greedy route `ShortestRoute` built from that table.
- `navigate.dfy` holds `Navigate`, which is `_navigate`. It is a queue of
  whole paths without a visited set, exactly as written. The model proves
  that after n dequeues the queue holds the paths of `Code(n)` through
  `Code(2n)`. The `return std::nullopt` after an exhausted queue cannot be
  reached: every dequeued path that misses the goal pushes two extensions,
  so the queue never empties. The loop still ends, at the `return path`,
  because every state reaches every other state, and the route that does
  so bounds the number of rounds.
- `recreate.dfy` holds `Recreate`, which is `_recreate_path`. The byte is
  modelled explicitly as a value below 256: `bits <<= 1` drops the top bit
  and `bits |= p` fills the cleared bottom bit.
- `navigator.dfy` holds `Navigator`, which contains:
  - `move` as `MoveFrom`, on an explicit current state;
  - the `JTAG` class, whose `currentState` field starts at TLR;
  - `getCurrentState`;
  - the repository's test sequence, as `BasicAssertions`.

Every move produces at most 8 TMS values: every first route has at most 8
steps, and the route from PAUSE_DR to EXIT2_IR needs exactly 8. So the
`uint8_t` accumulator never loses a bit.

## Model

| member | source | states |
|---|---|---|
| TapState.SuccessorsDistinct | include/jtag.h:45-64 | the two entries of every table row are different states, so a step of a path matches at most one TMS value |
| TapState.WalkSnoc | include/jtag.h:83-86 | extending a path by the successor of its last state on a TMS value is the path of the string extended by that value |
| TapState.WalkIsWalk | include/jtag.h:83-86 | every path the search builds from the table is a walk: each consecutive pair is a transition of the table |
| TapState.TmsOfWalk | include/jtag.h:98-111 | reading back the TMS values of the states visited by a TMS string gives that string: the encoder inverts the walk |
| TapState.WalkOfTms | include/jtag.h:98-111 | every walk is the walk, from its first state, of the TMS values the encoder reads off it |
| TmsOrder.CodeIndex | include/jtag.h:75-87 | every TMS string is the string of exactly one queue position (Code after Index is the identity) |
| TmsOrder.IndexCode | include/jtag.h:75-87 | queue positions and strings correspond one to one (Index after Code is the identity) |
| TmsOrder.ExploredBeforeIndex | include/jtag.h:75-87 | a shorter string, or an equally long one that is lexicographically smaller with 0 before 1, is dequeued earlier |
| TmsOrder.IndexExploredBefore | include/jtag.h:75-87 | conversely, a string dequeued earlier is shorter, or as long and lexicographically smaller |
| TmsOrder.LexLessValue | include/jtag.h:105-106 | among strings of one length, the search order is the numeric order of the packed values |
| TmsOrder.UnpackValue | include/jtag.h:105-106 | unpacking the MSB-first packed value of a string with its length gives the string back |
| TmsOrder.ValueUnpack | include/jtag.h:105-106 | packing the bits unpacked from a number below 2^count gives the number back |
| TmsOrder.FirstRouteUnique | include/jtag.h:80-81 | at most one TMS string is the first route between two states |
| TmsOrder.FirstHitIsFirstRoute | include/jtag.h:75-81 | the first string in queue order that reaches the goal is the first route: shortest, and lexicographically least among the shortest |
| TapDistance.DistBellman | include/jtag.h:45-64 | the distance table agrees with the transition table: zero exactly at the target, otherwise one more than the nearer successor |
| TapDistance.DistLowerBound | include/jtag.h:45-64 | no TMS string shorter than the table distance leads from one state to another |
| TapDistance.ShortestRoute | include/jtag.h:45-64 | the greedy route reaches the target and its length is the table distance |
| TapDistance.ShortestRouteFirstAmong | include/jtag.h:75-87 | every TMS string that reaches the target is the greedy route or is explored after it |
| TapDistance.FirstRouteIsShortestRoute | include/jtag.h:66-91 | a string is the first route exactly when it is the greedy route, in both directions |
| TapDistance.Connected | include/jtag.h:45-64 | every state reaches every state within eight clocks, so some path in queue order ends at the goal and the loop ends by returning it |
| TapDistance.FirstRouteFitsByte | include/jtag.h:95-107 | the first route between any two states has at most 8 values, so its packed value is below 2^8 |
| TapDistance.PauseDrToExit2IrTakesEight | include/jtag.h:53-62 | the bound of 8 is reached: no string shorter than 8 leads from PAUSE_DR to EXIT2_IR, and the first route has exactly 8 |
| Navigate.FrontierStep | include/jtag.h:75-87 | one round of the loop turns the queue of paths for Code(n)..Code(2n) into the queue for Code(n+1)..Code(2n+2), and the front path ends at the state its string reaches |
| Navigate.FirstHit | include/jtag.h:80-81 | the path returned at the first hit is the walk of its own TMS values, and those values are the first route |
| Navigate.BreadthFirst | include/jtag.h:71-90 | the loop returns the n-th path in queue order, which reaches the goal, while none of the paths before it does |
| Navigate.NavigatePath | include/jtag.h:66-91 | no path when the goal is the current state; otherwise a path of table transitions that ends at the goal, is the walk of its TMS values, and whose TMS values are the first route |
| Recreate.ShiftInLowByte | include/jtag.h:105-106 | the uint8 shift-and-or on the low byte of a number is the low byte of the number shifted with the bit appended |
| Recreate.ShiftInValue | include/jtag.h:105-106 | shifting a bit into the byte holding the low bits of a string's value gives the low byte of the extended string's value |
| Recreate.UnpackLowByte | include/jtag.h:95-107 | at most 8 values survive the byte unchanged and unpack to themselves |
| Recreate.EncodeStep | include/jtag.h:99-109 | a step matched by the first TMS value p shifts p in and appends p to the values read so far |
| Recreate.SkipStep | include/jtag.h:103-110 | a step matched by no entry of the row adds no value |
| Recreate.RecreatePath | include/jtag.h:93-114 | the count is the number of steps that are transitions; the byte is the low 8 bits of their MSB-first value; with at most 8 steps it unpacks to exactly those values |
| Navigator.MoveFrom | include/jtag.h:119-127 | moving to the current state returns nothing and stays put. Any other target is reached, with 1 to 8 values that fit their count and unpack to the first route to the target |
| Navigator.Jtag.Move | include/jtag.h:119-127 | the same contract on the object: the current state changes to the target exactly when a result is returned |
| Navigator.DecodeFirstRoute | include/jtag.h:119-124 | a result that unpacks to the first route has the greedy route's length as its size and its packed value as its bits |
| Navigator.RouteTlrToSelectIrScan | tests/test_jtag.cpp:10 | the greedy route from TLR to SELECT_IR_SCAN is 0, 1, 1 |
| Navigator.RouteSelectIrScanToTlr | tests/test_jtag.cpp:15 | the greedy route from SELECT_IR_SCAN to TLR is 1 |
| Navigator.RouteTlrToShiftDr | tests/test_jtag.cpp:20 | the greedy route from TLR to SHIFT_DR is 0, 1, 0, 0 |
| Navigator.RouteSelectDrScanToShiftIr | tests/test_jtag.cpp:25 | the greedy route from SELECT_DR_SCAN to SHIFT_IR is 1, 0, 0 |
| Navigator.RouteShiftDrToShiftIr | tests/test_jtag.cpp:25 | the greedy route from SHIFT_DR to SHIFT_IR is 1, 1, 1, 1, 0, 0 |
| Navigator.TlrToSelectIrScan | tests/test_jtag.cpp:10-13 | the move from TLR to SELECT_IR_SCAN returns bits 0b011, size 3 |
| Navigator.SelectIrScanToTlr | tests/test_jtag.cpp:15-18 | the move from SELECT_IR_SCAN to TLR returns bits 0b01, size 1 |
| Navigator.TlrToShiftDr | tests/test_jtag.cpp:20-23 | the move from TLR to SHIFT_DR returns bits 0b0100, size 4 |
| Navigator.ShiftDrToShiftIr | tests/test_jtag.cpp:25-28 | the move from SHIFT_DR to SHIFT_IR returns bits 0b111100, size 6 |
| Navigator.BasicAssertions | tests/test_jtag.cpp:5-29 | a fresh object is at TLR, and the four moves of the test return (0b011, 3), (0b01, 1), (0b0100, 4) and (0b111100, 6) in turn |

## Left out

- C++ mechanics are not modelled: `std::map::at`, `std::list` as the
  queue, copies of vectors and the rvalue parameter of `move`. `_tree.at`
  cannot throw, because the table has a row for every state, so the model
  uses a total function and sequences.
- Recreate.RecreatePath: requires a nonempty path. On an empty vector,
  `path.size() - 1` wraps around. The search never returns an empty path,
  so this case never arises from `move`.
- `size_t` count: modelled as an unbounded natural. It is proved to stay
  at most 8, so wrap-around cannot occur.
- Navigator.Jtag.Move: its contract relates the state before and after the
  call. The same properties are stated on explicit states in
  Navigator.MoveFrom.
- `getCurrentState` and the default constructor are modelled by the
  `Jtag` class's function and constructor. They carry no property beyond
  returning the field and starting it at TLR.
- Time and memory of the search are not bounded: the queue of whole paths
  grows exponentially with the route length, and the model keeps it as
  written.
- The gtest framework: the test's expectations become the postconditions of
  Navigator.BasicAssertions.
