/**
 The path-to-bits encoder: packs the TMS value of every step of a path into
 a `uint8_t`, most significant bit first, and counts the steps.
 */
module Recreate {
  import opened TapState
  import opened TmsOrder

  /** The `uint8_t` accumulator. */
  type Byte = x: nat | x < 256

  /** The `BitValue` record: the packed TMS values and how many there are. */
  datatype BitValue = BitValue(bits: Byte, size: nat)

  /**
   `bits <<= 1; bits |= p` on a `uint8_t`: the shift doubles and drops the
   top bit, and the or fills the bottom bit the shift has cleared.
   */
  function ShiftIn(bits: Byte, p: Bit): Byte
  {
    ShiftedIsEven(bits);
    (2 * bits) % 256 + p
  }

  lemma ShiftedIsEven(bits: Byte)
    ensures (2 * bits) % 256 <= 254
  {
    if bits >= 128 {
      assert (2 * bits) % 256 == 2 * bits - 256;
    }
  }

  /** Euclidean remainder by 256, from a witness quotient. */
  lemma ModByte(x: int, k: int, m: int)
    requires x == 256 * k + m
    requires 0 <= m < 256
    ensures x % 256 == m
  {
  }

  /** Shifting a bit into the low byte of a number gives the low byte of the shifted number. */
  lemma ShiftInLowByte(v: nat, p: Bit)
    ensures ShiftIn(v % 256, p) == (2 * v + p) % 256
  {
    var q, r := v / 256, v % 256;
    assert v == 256 * q + r;
    if r < 128 {
      ModByte(2 * r, 0, 2 * r);
      ModByte(2 * v + p, 2 * q, 2 * r + p);
    } else {
      ModByte(2 * r, 1, 2 * r - 256);
      ModByte(2 * v + p, 2 * q + 1, 2 * r - 256 + p);
    }
  }

  /** Shifting a bit into the byte that holds the low bits of a value appends the bit to the value. */
  lemma ShiftInValue(bits: Byte, done: seq<Bit>, p: Bit)
    requires bits == Value(done) % 256
    ensures ShiftIn(bits, p) == Value(done + [p]) % 256
  {
    ValueSnoc(done, p);
    ShiftInLowByte(Value(done), p);
  }

  /** At most eight TMS values survive the byte and unpack to themselves. */
  lemma UnpackLowByte(tms: seq<Bit>)
    requires |tms| <= 8
    ensures Value(tms) % 256 == Value(tms)
    ensures Unpack(Value(tms) % 256, |tms|) == tms
  {
    var v := Value(tms);
    ValueFitsByte(tms);
    ModByte(v, 0, v);
    UnpackValue(tms);
  }

  /** The TMS values of a suffix start with the TMS value of its first step. */
  lemma TmsSuffix(path: seq<State>, i: nat)
    requires i + 1 < |path|
    ensures Tms(path[i..]) == StepBits(path[i], path[i + 1]) + Tms(path[i + 1..])
  {
    assert path[i..][1..] == path[i + 1..];
  }

  /**
   A step that is a transition of the table on TMS value `b` (the first such
   value) appends `b` to the values read so far.
   */
  lemma EncodeStep(path: seq<State>, i: nat, done: seq<Bit>, b: Bit)
    requires i + 1 < |path|
    requires Next(path[i], b) == path[i + 1]
    requires b == 1 ==> Next(path[i], 0) != path[i + 1]
    requires Tms(path) == done + Tms(path[i..])
    ensures Tms(path) == (done + [b]) + Tms(path[i + 1..])
  {
    TmsSuffix(path, i);
    StepBitsOf(path[i], path[i + 1], b);
    AppendStep(done, b, Tms(path[i + 1..]));
  }

  /** The TMS value of a step is the first value whose successor it is. */
  lemma StepBitsOf(a: State, c: State, b: Bit)
    requires Next(a, b) == c
    requires b == 1 ==> Next(a, 0) != c
    ensures StepBits(a, c) == [b]
  {
  }

  lemma AppendStep(done: seq<Bit>, b: Bit, rest: seq<Bit>)
    ensures done + ([b] + rest) == (done + [b]) + rest
  {
  }

  /** A step that is no transition of the table adds no TMS value. */
  lemma SkipStep(path: seq<State>, i: nat, done: seq<Bit>)
    requires i + 1 < |path|
    requires Next(path[i], 0) != path[i + 1] && Next(path[i], 1) != path[i + 1]
    requires Tms(path) == done + Tms(path[i..])
    ensures Tms(path) == done + Tms(path[i + 1..])
  {
    TmsSuffix(path, i);
    assert StepBits(path[i], path[i + 1]) == [];
    assert [] + Tms(path[i + 1..]) == Tms(path[i + 1..]);
  }

  /**
   The encoder. For every consecutive pair it looks for the first successor
   index leading to the next state and, when one is found, shifts that index
   into the byte and counts it; a pair that is not a transition adds nothing.
   The byte keeps only the last eight TMS values; when there are at most
   eight, unpacking it gives the TMS values back.
   */
  method RecreatePath(path: seq<State>) returns (v: BitValue)
    requires |path| >= 1
    ensures v.size == |Tms(path)|
    ensures v.bits == Value(Tms(path)) % 256
    ensures v.size <= 8 ==> Unpack(v.bits, v.size) == Tms(path)
  {
    var bits: Byte := 0;
    var count: nat := 0;
    ghost var done: seq<Bit> := [];
    var i := 0;
    assert path[0..] == path;
    while i < |path| - 1
      invariant 0 <= i <= |path| - 1
      invariant Tms(path) == done + Tms(path[i..])
      invariant count == |done|
      invariant bits == Value(done) % 256
    {
      var state, nextState := path[i], path[i + 1];
      var tree := Successors(state);
      if tree.0 == nextState {
        EncodeStep(path, i, done, 0);
        ShiftInValue(bits, done, 0);
        bits := ShiftIn(bits, 0);
        count := count + 1;
        done := done + [0];
      } else if tree.1 == nextState {
        EncodeStep(path, i, done, 1);
        ShiftInValue(bits, done, 1);
        bits := ShiftIn(bits, 1);
        count := count + 1;
        done := done + [1];
      } else {
        SkipStep(path, i, done);
      }
      i := i + 1;
    }
    assert Tms(path) == done;
    v := BitValue(bits, count);
    if count <= 8 {
      UnpackLowByte(done);
    }
  }
}
