/**
 TMS bit strings and the order in which the breadth-first search explores
 them. The search extends every path by successor 0 and then successor 1,
 and dequeues in FIFO order, so the n-th dequeued path follows the bit string
 `Code(n)`: the heap numbering in which the children of node n are 2n+1
 (bit 0) and 2n+2 (bit 1). That order is shortest first and, within one
 length, lexicographic with 0 before 1.
 */
module TmsOrder {
  import opened TapState

  function Pow2(k: nat): (p: nat)
    ensures p >= 1
  {
    if k == 0 then 1 else 2 * Pow2(k - 1)
  }

  /** The number whose binary digits, most significant first, are `tms`. */
  function Value(tms: seq<Bit>): nat
  {
    if tms == [] then 0 else 2 * Value(tms[..|tms| - 1]) + tms[|tms| - 1]
  }

  /** Appending a bit doubles the value and adds the bit. */
  lemma ValueSnoc(init: seq<Bit>, b: Bit)
    ensures Value(init + [b]) == 2 * Value(init) + b
  {
    assert (init + [b])[..|init|] == init;
  }

  /** The `count` low bits of `bits`, most significant first. */
  function Unpack(bits: nat, count: nat): (tms: seq<Bit>)
    ensures |tms| == count
  {
    if count == 0 then [] else Unpack(bits / 2, count - 1) + [bits % 2]
  }

  /** `a` precedes `b` in dictionary order with 0 before 1 (equal lengths). */
  predicate LexLess(a: seq<Bit>, b: seq<Bit>)
    decreases |a|
  {
    && a != [] && b != []
    && (a[0] < b[0] || (a[0] == b[0] && LexLess(a[1..], b[1..])))
  }

  /** `a` is explored before `b`: it is shorter, or as long and lexicographically smaller. */
  predicate ExploredBefore(a: seq<Bit>, b: seq<Bit>)
  {
    |a| < |b| || (|a| == |b| && LexLess(a, b))
  }

  /** The bit string followed by the n-th path taken off the search queue. */
  function Code(n: nat): (tms: seq<Bit>)
    decreases n
  {
    if n == 0 then [] else Code((n - 1) / 2) + [(n - 1) % 2]
  }

  /** The position of `tms` in the order of the search queue. */
  function Index(tms: seq<Bit>): nat
  {
    if tms == [] then 0 else 2 * Index(tms[..|tms| - 1]) + 1 + tms[|tms| - 1]
  }

  /** Shifting left and or-ing in a bit is undone by halving. */
  lemma HalveDouble(v: nat, b: Bit)
    ensures (2 * v + b) / 2 == v
    ensures (2 * v + b) % 2 == b
  {
  }

  /** The two paths pushed after the n-th one are its extensions by 0 and by 1. */
  lemma CodeChildren(n: nat)
    ensures Code(2 * n + 1) == Code(n) + [0]
    ensures Code(2 * n + 2) == Code(n) + [1]
  {
  }

  /** Every bit string is dequeued exactly once: `Code` and `Index` are inverse. */
  lemma {:induction false} CodeIndex(tms: seq<Bit>)
    ensures Code(Index(tms)) == tms
    decreases |tms|
  {
    if tms != [] {
      var init, last := tms[..|tms| - 1], tms[|tms| - 1];
      CodeIndex(init);
      HalveDouble(Index(init), last);
      assert init + [last] == tms;
    }
  }

  lemma {:induction false} IndexCode(n: nat)
    ensures Index(Code(n)) == n
    decreases n
  {
    if n != 0 {
      var c := Code(n);
      IndexCode((n - 1) / 2);
      assert c[..|c| - 1] == Code((n - 1) / 2);
    }
  }

  /** The value of a string of k bits is below 2^k. */
  lemma {:induction false} ValueBound(tms: seq<Bit>)
    ensures Value(tms) < Pow2(|tms|)
    decreases |tms|
  {
    if tms != [] {
      ValueBound(tms[..|tms| - 1]);
    }
  }

  /** A string of at most eight bits has a value below 2^8. */
  lemma ValueFitsByte(tms: seq<Bit>)
    requires |tms| <= 8
    ensures Value(tms) < Pow2(|tms|) <= 256
  {
    ValueBound(tms);
    PowMonotone(|tms|, 8);
    assert Pow2(8) == 256;
  }

  /** The queue index is 2^k - 1 plus the value of the k bits. */
  lemma {:induction false} IndexValue(tms: seq<Bit>)
    ensures Index(tms) == Pow2(|tms|) - 1 + Value(tms)
    decreases |tms|
  {
    if tms != [] {
      IndexValue(tms[..|tms| - 1]);
    }
  }

  /** Reading the value from the first (most significant) bit. */
  lemma {:induction false} ValueCons(b: Bit, rest: seq<Bit>)
    ensures Value([b] + rest) == b * Pow2(|rest|) + Value(rest)
    decreases |rest|
  {
    if rest != [] {
      var init, last := rest[..|rest| - 1], rest[|rest| - 1];
      assert ([b] + rest)[..|rest|] == [b] + init;
      ValueCons(b, init);
    }
  }

  /** Among strings of one length, dictionary order is numeric order. */
  lemma {:induction false} LexLessValue(a: seq<Bit>, b: seq<Bit>)
    requires |a| == |b|
    requires LexLess(a, b)
    ensures Value(a) < Value(b)
    decreases |a|
  {
    assert a == [a[0]] + a[1..] && b == [b[0]] + b[1..];
    ValueCons(a[0], a[1..]);
    ValueCons(b[0], b[1..]);
    if a[0] < b[0] {
      ValueBound(a[1..]);
    } else {
      LexLessValue(a[1..], b[1..]);
    }
  }

  /** The search order is the order of queue indices. */
  lemma ExploredBeforeIndex(a: seq<Bit>, b: seq<Bit>)
    requires ExploredBefore(a, b)
    ensures Index(a) < Index(b)
  {
    IndexValue(a);
    IndexValue(b);
    ValueBound(a);
    if |a| < |b| {
      PowMonotone(|a| + 1, |b|);
    } else {
      LexLessValue(a, b);
    }
  }

  lemma {:induction false} PowMonotone(i: nat, j: nat)
    requires i <= j
    ensures Pow2(i) <= Pow2(j)
    decreases j
  {
    if i < j {
      PowMonotone(i, j - 1);
    }
  }

  /** Unpacking the value of a bit string gives the bit string back. */
  lemma {:induction false} UnpackValue(tms: seq<Bit>)
    ensures Unpack(Value(tms), |tms|) == tms
    decreases |tms|
  {
    if tms != [] {
      var init, last := tms[..|tms| - 1], tms[|tms| - 1];
      var v := Value(init);
      assert Value(tms) == 2 * v + last;
      HalveDouble(v, last);
      UnpackValue(init);
      assert Unpack(Value(tms), |tms|) == Unpack(v, |init|) + [last];
      assert init + [last] == tms;
    }
  }

  /** Packing the bits unpacked from a number below 2^count gives the number back. */
  lemma {:induction false} ValueUnpack(bits: nat, count: nat)
    requires bits < Pow2(count)
    ensures Value(Unpack(bits, count)) == bits
    decreases count
  {
    if count > 0 {
      var u := Unpack(bits, count);
      ValueUnpack(bits / 2, count - 1);
      assert u[..|u| - 1] == Unpack(bits / 2, count - 1);
    }
  }

  /** Dictionary order is asymmetric: never both ways round. */
  lemma {:induction false} LexLessAsymmetric(a: seq<Bit>, b: seq<Bit>)
    requires LexLess(a, b)
    ensures !LexLess(b, a)
    decreases |a|
  {
    if a[0] == b[0] {
      LexLessAsymmetric(a[1..], b[1..]);
    }
  }

  /** Two different strings of one length are ordered one way or the other. */
  lemma {:induction false} LexTotal(a: seq<Bit>, b: seq<Bit>)
    requires |a| == |b|
    requires a != b
    ensures LexLess(a, b) || LexLess(b, a)
    decreases |a|
  {
    assert a == [a[0]] + a[1..] && b == [b[0]] + b[1..];
    if a[0] == b[0] {
      LexTotal(a[1..], b[1..]);
    }
  }

  /** A smaller queue index means explored earlier. */
  lemma IndexExploredBefore(a: seq<Bit>, b: seq<Bit>)
    requires Index(a) < Index(b)
    ensures ExploredBefore(a, b)
  {
    if a == b {
    } else if |a| == |b| {
      LexTotal(a, b);
      if LexLess(b, a) {
        ExploredBeforeIndex(b, a);
      }
    } else if |b| < |a| {
      ExploredBeforeIndex(b, a);
    }
  }

  /**
   `tms` leads from `s` to `t`, and every other string that does is explored
   after it: it is the shortest such string and, among the shortest, the
   lexicographically least with 0 before 1.
   */
  ghost predicate IsFirstRoute(s: State, t: State, tms: seq<Bit>)
  {
    && Run(s, tms) == t
    && forall other :: Run(s, other) == t ==> other == tms || ExploredBefore(tms, other)
  }

  /** At most one string is the first route. */
  lemma FirstRouteUnique(s: State, t: State, a: seq<Bit>, b: seq<Bit>)
    requires IsFirstRoute(s, t, a)
    requires IsFirstRoute(s, t, b)
    ensures a == b
  {
    if a != b {
      assert ExploredBefore(a, b) && ExploredBefore(b, a);
      if |a| == |b| {
        LexLessAsymmetric(a, b);
      }
    }
  }

  /** The first code in queue order that leads to `t` is the first route. */
  lemma FirstHitIsFirstRoute(s: State, t: State, n: nat)
    requires Run(s, Code(n)) == t
    requires forall k :: 0 <= k < n ==> Run(s, Code(k)) != t
    ensures IsFirstRoute(s, t, Code(n))
  {
    forall other | Run(s, other) == t
      ensures other == Code(n) || ExploredBefore(Code(n), other)
    {
      CodeIndex(other);
      IndexCode(n);
      if Index(other) == n {
      } else {
        IndexExploredBefore(Code(n), other);
      }
    }
  }
}
