/**
 * Floating memory addresses (2020 day 14, part 2): `find_next` and the
 * `Masked` iterator that enumerates every address a floating mask can
 * produce.
 *
 * An address is a 36-bit value; the model keeps it as its 36 bits, lowest
 * bit first, so `float & (1 << i) == 0` is `!float[i]`, `address | m` is
 * `address[i := true]` and `address &= !m` is `address[i := false]`.  The
 * floating mask is a `usize`, but only its low 36 bits are ever consulted,
 * so it is kept the same way.
 *
 * The floating bits of an address behave as a binary counter (`Counter`):
 * `find_next` adds one to it and leaves every other bit alone, and reports
 * `None` once the counter is all ones.
 */
module FloatingAddress {
  import opened Outcomes
  import opened Arithmetic

  /** The number of bits in an address. */
  const Len: nat := 36

  type Bits = s: seq<bool> | |s| == Len witness seq(36, _ => false)

  // ---------------------------------------------------------------------
  // find_next
  // ---------------------------------------------------------------------

  /**
   * What the loop of `find_next` returns when it resumes at bit `i` with
   * the current `address`.
   */
  function NextFrom(float: Bits, address: Bits, i: nat): Option<Bits>
    requires i <= Len
    decreases Len - i
  {
    if i == Len then None
    else if !float[i] then NextFrom(float, address, i + 1)
    else if !address[i] then Some(address[i := true])
    else NextFrom(float, address[i := false], i + 1)
  }

  /** The successor of `address` among the addresses `float` enumerates. */
  function Successor(float: Bits, address: Bits): Option<Bits>
  {
    NextFrom(float, address, 0)
  }

  /** `find_next`: walk the bits from the lowest, clearing floating ones
    * until a floating zero is found and set. */
  method FindNext(float: Bits, address: Bits) returns (r: Option<Bits>)
    ensures r == Successor(float, address)
    ensures r.None? <==> AllFloatingSet(float, address)
    ensures r.Some? ==> exists k :: LowestOpen(float, address, k) && r.value == Flip(float, address, k)
  {
    var a := address;
    for i := 0 to Len
      invariant NextFrom(float, a, i) == NextFrom(float, address, 0)
    {
      if !float[i] {
        // not a floating bit
      } else if !a[i] {
        NextMeaning(float, address);
        return Some(a[i := true]);
      } else {
        a := a[i := false];
      }
    }
    NextMeaning(float, address);
    return None;
  }

  // ---------------------------------------------------------------------
  // The closed form of find_next
  // ---------------------------------------------------------------------

  /** Every floating bit of `address` is set. */
  predicate AllFloatingSet(float: Bits, address: Bits)
  {
    forall j :: 0 <= j < Len && float[j] ==> address[j]
  }

  /** `k` is the lowest floating bit of `address` that is clear. */
  predicate LowestOpen(float: Bits, address: Bits, k: nat)
  {
    k < Len && float[k] && !address[k] &&
    forall j :: 0 <= j < k && float[j] ==> address[j]
  }

  /** `address` with bit `k` set and the floating bits below it cleared. */
  function Flip(float: Bits, address: Bits, k: nat): (r: Bits)
    requires k < Len && float[k]
    ensures r[k]
    ensures forall j :: 0 <= j < Len && !float[j] ==> r[j] == address[j]
    ensures forall j :: 0 <= j < k && float[j] ==> !r[j]
    ensures forall j :: k < j < Len ==> r[j] == address[j]
  {
    seq(Len, j requires 0 <= j < Len => if j == k then true else if j < k && float[j] then false else address[j])
  }

  /** `address` with the floating bits below `i` cleared. */
  function Cleared(float: Bits, address: Bits, i: nat): (r: Bits)
    ensures forall j :: 0 <= j < Len ==> r[j] == (if j < i && float[j] then false else address[j])
  {
    seq(Len, j requires 0 <= j < Len => if j < i && float[j] then false else address[j])
  }

  /** The lowest floating bit at or above `i` that is clear, if any. */
  function FirstOpen(float: Bits, address: Bits, i: nat): (r: Option<nat>)
    requires i <= Len
    ensures r.Some? ==> i <= r.value < Len && float[r.value] && !address[r.value]
    ensures r.Some? ==> forall j :: i <= j < r.value && float[j] ==> address[j]
    ensures r.None? <==> forall j :: i <= j < Len && float[j] ==> address[j]
    decreases Len - i
  {
    if i == Len then None
    else if float[i] && !address[i] then Some(i)
    else FirstOpen(float, address, i + 1)
  }

  /**
   * Resuming at bit `i` after the floating bits below it (all of them ones)
   * were cleared ends at the lowest clear floating bit at or above `i`.
   */
  lemma {:induction false} NextFromCleared(float: Bits, address: Bits, i: nat)
    requires i <= Len
    requires forall j :: 0 <= j < i && float[j] ==> address[j]
    ensures NextFrom(float, Cleared(float, address, i), i) ==
      match FirstOpen(float, address, i)
      case None => None
      case Some(k) => Some(Flip(float, address, k))
    decreases Len - i
  {
    var c := Cleared(float, address, i);
    if i == Len {
    } else if !float[i] {
      assert Cleared(float, address, i + 1) == c;
      NextFromCleared(float, address, i + 1);
    } else if !address[i] {
      assert c[i := true] == Flip(float, address, i);
    } else {
      assert c[i := false] == Cleared(float, address, i + 1);
      NextFromCleared(float, address, i + 1);
    }
  }

  /**
   * find_next leaves the bits outside `float` alone, sets the lowest clear
   * floating bit and clears the floating bits below it; it returns None
   * exactly when every floating bit is already set.
   */
  lemma NextMeaning(float: Bits, address: Bits)
    ensures Successor(float, address).None? <==> AllFloatingSet(float, address)
    ensures Successor(float, address).Some? ==>
      exists k :: LowestOpen(float, address, k) && Successor(float, address).value == Flip(float, address, k)
  {
    assert Cleared(float, address, 0) == address;
    NextFromCleared(float, address, 0);
    match FirstOpen(float, address, 0)
    case None =>
    case Some(k) =>
      assert LowestOpen(float, address, k);
  }

  /** No bit outside the floating mask ever changes. */
  lemma NextKeepsFixedBits(float: Bits, address: Bits)
    ensures Successor(float, address).Some? ==>
      forall j :: 0 <= j < Len && !float[j] ==> Successor(float, address).value[j] == address[j]
  {
    NextMeaning(float, address);
  }

  // ---------------------------------------------------------------------
  // The floating bits as a counter
  // ---------------------------------------------------------------------

  /** The number of floating bits below `n`. */
  function Floating(float: Bits, n: nat): (r: nat)
    requires n <= Len
    ensures r <= n
  {
    if n == 0 then 0 else Floating(float, n - 1) + (if float[n - 1] then 1 else 0)
  }

  /**
   * The number whose binary digits are the floating bits of `address`
   * below `n`, lowest first.
   */
  function Counter(float: Bits, address: Bits, n: nat): nat
    requires n <= Len
  {
    if n == 0 then 0
    else
      var bit := if float[n - 1] && address[n - 1] then Pow(2, Floating(float, n - 1)) else 0;
      Counter(float, address, n - 1) + bit
  }

  lemma {:induction false} CounterBound(float: Bits, address: Bits, n: nat)
    requires n <= Len
    ensures Counter(float, address, n) < Pow(2, Floating(float, n))
  {
    if n > 0 {
      CounterBound(float, address, n - 1);
    }
  }

  /** Below the lowest clear floating bit the counter is all ones, and
    * after `Flip` it is all zeros. */
  lemma {:induction false} FlipBelow(float: Bits, address: Bits, k: nat, n: nat)
    requires LowestOpen(float, address, k) && n <= k
    ensures Counter(float, address, n) + 1 == Pow(2, Floating(float, n))
    ensures Counter(float, Flip(float, address, k), n) == 0
  {
    if n > 0 {
      FlipBelow(float, address, k, n - 1);
    }
  }

  /** From bit `k` upwards, `Flip` adds exactly one to the counter. */
  lemma {:induction false} FlipAbove(float: Bits, address: Bits, k: nat, n: nat)
    requires LowestOpen(float, address, k) && k < n <= Len
    ensures Counter(float, Flip(float, address, k), n) == Counter(float, address, n) + 1
  {
    if n == k + 1 {
      FlipBelow(float, address, k, k);
    } else {
      FlipAbove(float, address, k, n - 1);
    }
  }

  /** When every floating bit is set the counter is at its maximum. */
  lemma {:induction false} AllSetCounter(float: Bits, address: Bits, n: nat)
    requires n <= Len && AllFloatingSet(float, address)
    ensures Counter(float, address, n) + 1 == Pow(2, Floating(float, n))
  {
    if n > 0 {
      AllSetCounter(float, address, n - 1);
    }
  }

  /** find_next is the counter's increment; it stops at the last value. */
  lemma NextIncrements(float: Bits, address: Bits)
    ensures Successor(float, address).Some? ==>
      Counter(float, Successor(float, address).value, Len) == Counter(float, address, Len) + 1
    ensures Successor(float, address).None? <==>
      Counter(float, address, Len) + 1 == Pow(2, Floating(float, Len))
  {
    NextMeaning(float, address);
    match Successor(float, address)
    case None =>
      AllSetCounter(float, address, Len);
    case Some(b) =>
      var k :| LowestOpen(float, address, k) && b == Flip(float, address, k);
      FlipAbove(float, address, k, Len);
      CounterBound(float, b, Len);
  }

  // ---------------------------------------------------------------------
  // The iterator
  // ---------------------------------------------------------------------

  /** Everything a `Masked` holding `Some(address)` yields, in order. */
  function Yields(float: Bits, address: Bits): seq<Bits>
    decreases Pow(2, Floating(float, Len)) - Counter(float, address, Len)
  {
    NextIncrements(float, address);
    CounterBound(float, address, Len);
    match Successor(float, address)
    case None => [address]
    case Some(b) => [address] + Yields(float, b)
  }

  /**
   * The iterator yields its first address and then one address per
   * counter value above it, each one more than the last, and then stops.
   */
  lemma {:induction false} YieldsCount(float: Bits, address: Bits)
    ensures |Yields(float, address)| == Pow(2, Floating(float, Len)) - Counter(float, address, Len)
    ensures forall i :: 0 <= i < |Yields(float, address)| ==>
      Counter(float, Yields(float, address)[i], Len) == Counter(float, address, Len) + i
    decreases Pow(2, Floating(float, Len)) - Counter(float, address, Len)
  {
    NextIncrements(float, address);
    CounterBound(float, address, Len);
    match Successor(float, address)
    case None =>
    case Some(b) =>
      YieldsCount(float, b);
  }

  /** Starting with all floating bits clear, each floating bit doubles the
    * number of addresses yielded. */
  lemma Doubling(float: Bits, first: Bits)
    requires forall j :: 0 <= j < Len && float[j] ==> !first[j]
    ensures |Yields(float, first)| == Pow(2, Floating(float, Len))
  {
    ClearCounter(float, first, Len);
    YieldsCount(float, first);
  }

  lemma {:induction false} ClearCounter(float: Bits, address: Bits, n: nat)
    requires n <= Len
    requires forall j :: 0 <= j < n && float[j] ==> !address[j]
    ensures Counter(float, address, n) == 0
  {
    if n > 0 {
      ClearCounter(float, address, n - 1);
    }
  }

  /** The `Masked` iterator. */
  class Masked {
    var float: Bits
    /** The address the next call returns, if any. */
    var next: Option<Bits>

    constructor(float: Bits, first: Bits)
      ensures this.float == float && next == Some(first)
    {
      this.float := float;
      next := Some(first);
    }

    /** What the iterator still yields: the pending address and its
      * successors. */
    ghost function Remaining(): seq<Bits>
      reads this
    {
      if next.None? then [] else Yields(float, next.value)
    }

    /** Return the pending address and replace it with its successor. */
    method Next() returns (r: Option<Bits>)
      modifies this
      ensures r == old(next) && float == old(float)
      ensures next == (if old(next).None? then None else Successor(float, old(next).value))
      ensures old(Remaining()) == (if r.None? then [] else [r.value] + Remaining())
    {
      if next.Some? {
        r := next;
        next := FindNext(float, next.value);
      } else {
        r := None;
      }
    }
  }
}
