/** 16-byte addresses as big-endian counters: their values, the increment, and ranges between two of them. */
module Addresses {
  import opened Modular

  newtype Byte = x: int | 0 <= x < 256

  /** An address in the 16-byte form that net.ParseIP returns; IPv4 uses section 2.5.5.2 of RFC 4291. */
  type Address = s: seq<Byte> | |s| == 16 witness seq(16, _ => 0 as Byte)

  // How many byte sequences have the length of s: 256^|s|.
  function Capacity(s: seq<Byte>): (p: nat)
    ensures p > 0
  {
    if s == [] then 1 else 256 * Capacity(s[..|s| - 1])
  }

  // The number a byte sequence stands for, most significant byte first.
  function Value(s: seq<Byte>): nat {
    if s == [] then 0 else 256 * Value(s[..|s| - 1]) + s[|s| - 1] as nat
  }

  function Zeros(n: nat): (r: seq<Byte>)
    ensures |r| == n
  {
    if n == 0 then [] else Zeros(n - 1) + [0]
  }

  const ZERO: Address := Zeros(16)

  /** How many addresses there are. */
  const SPACE: nat := Capacity(ZERO)

  lemma {:induction false} SameCapacity(s: seq<Byte>, t: seq<Byte>)
    requires |s| == |t|
    ensures Capacity(s) == Capacity(t)
  {
    if s == [] {
    } else {
      SameCapacity(s[..|s| - 1], t[..|t| - 1]);
    }
  }

  function Pow256(n: nat): nat {
    if n == 0 then 1 else 256 * Pow256(n - 1)
  }

  lemma {:induction false} CapacityIsPower(s: seq<Byte>)
    ensures Capacity(s) == Pow256(|s|)
  {
    if s == [] {
    } else {
      CapacityIsPower(s[..|s| - 1]);
    }
  }

  /** The address space has 2^128 elements. */
  lemma SpaceSize()
    ensures SPACE == 0x1_0000_0000_0000_0000_0000_0000_0000_0000
  {
    CapacityIsPower(ZERO);
    assert |ZERO| == 16;
    assert Pow256(2) == 0x1_0000;
    assert Pow256(4) == 0x1_0000_0000;
    assert Pow256(6) == 0x1_0000_0000_0000;
    assert Pow256(8) == 0x1_0000_0000_0000_0000;
    assert Pow256(10) == 0x1_0000_0000_0000_0000_0000;
    assert Pow256(12) == 0x1_0000_0000_0000_0000_0000_0000;
    assert Pow256(14) == 0x1_0000_0000_0000_0000_0000_0000_0000;
  }

  /** The bytes after one increment with carry. */
  function Increment(s: seq<Byte>): (t: seq<Byte>)
    ensures |t| == |s|
  {
    if s == [] then []
    else
      var last := |s| - 1;
      if s[last] == 255 then Increment(s[..last]) + [0] else s[..last] + [s[last] + 1]
  }

  lemma {:induction false} ValueBound(s: seq<Byte>)
    ensures Value(s) < Capacity(s)
  {
    if s == [] {
    } else {
      ValueBound(s[..|s| - 1]);
    }
  }

  lemma {:induction false} ValueInjective(s: seq<Byte>, t: seq<Byte>)
    requires |s| == |t|
    ensures Value(s) == Value(t) <==> s == t
  {
    if s == [] {
    } else if Value(s) == Value(t) {
      var last := |s| - 1;
      QuotientUnique(256, Value(s[..last]), s[last] as nat, Value(t[..last]), t[last] as nat);
      ValueInjective(s[..last], t[..last]);
      assert s == s[..last] + [s[last]] && t == t[..last] + [t[last]];
    }
  }

  // One increment adds one, and wraps to zero only from all-ones.
  lemma {:induction false} IncrementSteps(s: seq<Byte>)
    ensures Value(Increment(s)) == if Value(s) + 1 == Capacity(s) then 0 else Value(s) + 1
  {
    if s == [] {
    } else {
      var last := |s| - 1;
      ValueBound(s[..last]);
      if s[last] == 255 {
        IncrementSteps(s[..last]);
        assert Increment(s)[..last] == Increment(s[..last]);
      } else {
        assert Increment(s)[..last] == s[..last];
      }
    }
  }

  /** Incrementing in place, byte by byte from the right, is plus one modulo 256^n. */
  lemma IncrementValue(s: seq<Byte>)
    ensures Value(Increment(s)) == (Value(s) + 1) % Capacity(s)
  {
    IncrementSteps(s);
    ValueBound(s);
    WrapIsMod(Value(s), Value(Increment(s)), Capacity(s));
  }

  /** How many increments lead from one address to the other. */
  function Distance(from: Address, to: Address): (d: nat)
    ensures d < SPACE
  {
    (Value(to) - Value(from)) % SPACE
  }

  lemma DistanceZero(from: Address, to: Address)
    ensures Distance(from, to) == 0 <==> from == to
  {
    hide Value, Capacity;
    InSpace(from);
    InSpace(to);
    ValueInjective(from, to);
    SmallMod(Value(to) - Value(from), SPACE);
  }

  lemma DistanceStep(from: Address, to: Address)
    requires from != to
    ensures Distance(Increment(from), to) == Distance(from, to) - 1
  {
    hide Value, Capacity, Increment;
    DistanceZero(from, to);
    IncrementSteps(from);
    InSpace(from);
    SpaceIsLarge();
    var d := Value(to) - Value(from);
    ModStep(d, SPACE);
    if Value(from) + 1 == SPACE {
      assert Value(to) - Value(Increment(from)) == d - 1 + 1 * SPACE;
      ModShift(d - 1, SPACE, 1);
    }
  }

  lemma SpaceIsLarge()
    ensures SPACE > 1
  {
    assert SPACE == 256 * Capacity(ZERO[..15]);
  }

  lemma InSpace(a: Address)
    ensures Value(a) < SPACE && Capacity(a) == SPACE
  {
    ValueBound(a);
    SameCapacity(a, ZERO);
  }

  /** The addresses from start up to and including end, in increment order (around the end of the space). */
  function Range(start: Address, end: Address): (r: seq<Address>)
    decreases Distance(start, end)
  {
    if start == end then [end]
    else
      DistanceStep(start, end);
      [start] + Range(Increment(start), end)
  }

  lemma {:induction false} RangeLength(start: Address, end: Address)
    ensures |Range(start, end)| == Distance(start, end) + 1
    decreases Distance(start, end)
  {
    DistanceZero(start, end);
    if start == end {
    } else {
      DistanceStep(start, end);
      RangeLength(Increment(start), end);
    }
  }

  lemma RangeHead(start: Address, end: Address)
    ensures |Range(start, end)| > 0 && Range(start, end)[0] == start
  {
  }

  lemma RangeTail(start: Address, end: Address, i: nat)
    requires 0 < i < |Range(start, end)|
    ensures start != end && i - 1 < |Range(Increment(start), end)|
    ensures Range(start, end)[i] == Range(Increment(start), end)[i - 1]
  {
  }

  lemma {:induction false} RangeAt(start: Address, end: Address, i: nat)
    requires i < |Range(start, end)|
    ensures Value(Range(start, end)[i]) == (Value(start) + i) % SPACE
    decreases i
  {
    hide Value, Capacity, Range, Increment;
    InSpace(start);
    if i == 0 {
      RangeHead(start, end);
      ModUnique(Value(start), SPACE, 0, Value(start));
    } else {
      var next := Increment(start);
      RangeTail(start, end, i);
      RangeAt(next, end, i - 1);
      IncrementSteps(start);
      OffsetFromNext(Value(start), Value(next), SPACE, i - 1);
    }
  }

  /** A range has one more entry than its distance; entry i is start + i modulo 2^128. */
  lemma RangeClosedForm(start: Address, end: Address)
    ensures |Range(start, end)| == Distance(start, end) + 1
    ensures forall i :: 0 <= i < |Range(start, end)| ==> Value(Range(start, end)[i]) == (Value(start) + i) % SPACE
  {
    RangeLength(start, end);
    forall i | 0 <= i < |Range(start, end)| ensures Value(Range(start, end)[i]) == (Value(start) + i) % SPACE {
      RangeAt(start, end, i);
    }
  }

  /** No address occurs twice in a range. */
  lemma RangeInjective(start: Address, end: Address, i: nat, j: nat)
    requires i < |Range(start, end)| && j < |Range(start, end)|
    ensures Range(start, end)[i] == Range(start, end)[j] <==> i == j
  {
    hide Value, Capacity, Range;
    RangeLength(start, end);
    RangeAt(start, end, i);
    RangeAt(start, end, j);
    if Range(start, end)[i] == Range(start, end)[j] {
      OffsetsDiffer(Value(start), SPACE, i, j);
    }
  }

  /** A range begins with its start and ends with its end. */
  lemma {:induction false} RangeEnds(start: Address, end: Address)
    ensures var r := Range(start, end); r != [] && r[0] == start && r[|r| - 1] == end
    decreases Distance(start, end)
  {
    if start == end {
    } else {
      DistanceStep(start, end);
      RangeEnds(Increment(start), end);
    }
  }

  lemma DistanceBack(from: Address, to: Address)
    requires from != to
    ensures Distance(from, to) + Distance(to, from) == SPACE
  {
    hide Value, Capacity;
    InSpace(from);
    InSpace(to);
    ValueInjective(from, to);
    SmallMod(Value(to) - Value(from), SPACE);
    SmallMod(Value(from) - Value(to), SPACE);
  }

  /** Swapping the end points of a range is no error: it gives the rest of the address space, and both end points. */
  lemma ReversedRange(start: Address, end: Address)
    requires start != end
    ensures |Range(end, start)| == SPACE + 2 - |Range(start, end)|
  {
    RangeLength(start, end);
    RangeLength(end, start);
    DistanceBack(start, end);
  }

  lemma DistanceReaches(from: Address, to: Address)
    ensures (Value(from) + Distance(from, to)) % SPACE == Value(to)
  {
    InSpace(to);
    ReachedBack(Value(from), Value(to), SPACE);
  }

  // Entry i of a range is the address at distance i.
  lemma EntryDistance(start: Address, end: Address, i: nat, x: Address)
    requires i < |Range(start, end)|
    ensures x == Range(start, end)[i] <==> Distance(start, x) == i
  {
    hide Value, Capacity, Range, Distance;
    var y: Address := Range(start, end)[i];
    RangeLength(start, end);
    RangeAt(start, end, i);
    DistanceReaches(start, x);
    ValueInjective(x, y);
    OffsetsAgree(Value(start), SPACE, i, Distance(start, x));
  }

  /** Membership of a range is interval arithmetic modulo 2^128, for any x and any two end points. */
  lemma RangeMembership(start: Address, end: Address, x: Address)
    ensures x in Range(start, end) <==> Distance(start, x) < |Range(start, end)|
  {
    var r, d := Range(start, end), Distance(start, x);
    if d < |r| {
      EntryDistance(start, end, d, x);
    }
    if x in r {
      var i :| 0 <= i < |r| && r[i] == x;
      EntryDistance(start, end, i, x);
    }
  }
}
