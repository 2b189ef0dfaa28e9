/** The bus timestamp solver (2020/src/day13/part2.rs): the earliest time at
    which every bus leaves at its own delay after the first, found by the
    Chinese remainder construction. */
module BusSchedule {
  import opened Outcomes
  import opened Arithmetic

  // ---------------------------------------------------------------------
  // Division facts

  predicate Divides(d: nat, n: nat)
  {
    d > 0 && n % d == 0
  }

  // ---------------------------------------------------------------------
  // Primality

  predicate Prime(n: nat)
  {
    n >= 2 && forall d :: 2 <= d < n ==> !Divides(d, n)
  }

  /** An odd number has no even divisor. */
  lemma OddHasNoEvenDivisor(n: nat, d: nat)
    requires n % 2 == 1 && d % 2 == 0 && d > 0
    ensures !Divides(d, n)
  {
    if n % d == 0 {
      var k := n / d;
      assert n == d * k;
      assert d == 2 * (d / 2);
      assert n == 2 * ((d / 2) * k);
      MulMod(2, (d / 2) * k);
    }
  }

  /** A number with no divisor up to its square root has none at all. */
  lemma NoLargeDivisor(n: nat, i: nat)
    requires n >= 2 && i * i > n
    requires forall d :: 2 <= d < i ==> !Divides(d, n)
    ensures Prime(n)
  {
    forall d | 2 <= d < n
      ensures !Divides(d, n)
    {
      if d >= i && Divides(d, n) {
        var e := n / d;
        Cofactor(n, d);
        if e >= i {
          ProductAtLeast(d, e, i);
        }
      }
    }
  }

  /** The quotient by a divisor is a divisor too. */
  lemma Cofactor(n: nat, d: nat)
    requires n > 0 && Divides(d, n)
    ensures n == d * (n / d) && 0 < n / d && Divides(n / d, n)
  {
    var e := n / d;
    assert n == d * e by {
      DivBounds(n, d);
    }
    assert e > 0;
    assert n == e * d;
    MulMod(e, d);
  }

  lemma ProductAtLeast(d: nat, e: nat, i: nat)
    requires d >= i && e >= i
    ensures d * e >= i * i
  {
    MulMonotone(i, d, e);
    MulMonotone(i, e, i);
    assert e * i == i * e;
  }

  /** Trial division by 2 and then by odd numbers up to the square root. */
  method IsPrime(n: nat) returns (r: bool)
    ensures r == Prime(n)
  {
    if n < 2 {
      return false;
    }
    if n % 2 == 0 {
      if n != 2 {
        assert Divides(2, n);
      }
      return n == 2;
    }
    var i := 3;
    while i * i <= n
      invariant 3 <= i && i % 2 == 1
      invariant forall d :: 2 <= d < i ==> !Divides(d, n)
    {
      if n % i == 0 {
        assert i < n by {
          assert i * i >= 3 * i;
        }
        assert Divides(i, n);
        return false;
      }
      OddHasNoEvenDivisor(n, i + 1);
      i := i + 2;
    }
    NoLargeDivisor(n, i);
    r := true;
  }

  /** The primes below twenty. */
  lemma PrimesBelowTwenty(n: nat)
    requires n < 20
    ensures Prime(n) <==> n in {2, 3, 5, 7, 11, 13, 17, 19}
  {
    if n in {4, 6, 8, 10, 12, 14, 16, 18} {
      assert Divides(2, n);
    } else if n in {9, 15} {
      assert Divides(3, n);
    } else if n in {2, 3} {
      NoLargeDivisor(n, 2);
    } else if n >= 2 {
      assert !Divides(2, n) && !Divides(3, n) && !Divides(4, n);
      NoLargeDivisor(n, 5);
    }
  }

  // ---------------------------------------------------------------------
  // Multipliers

  datatype BusError = NoSolution | DivisionByZero

  /** `n` scales `multiplicand` onto `remainder` modulo `busId`. */
  predicate Scales(multiplicand: nat, busId: nat, remainder: nat, n: nat)
  {
    busId > 0 && (multiplicand * n) % busId == remainder
  }

  /** The first multiplier from `n` on, below `busId`. */
  function MultiplierFrom(multiplicand: nat, busId: nat, remainder: nat, n: nat): (r: Result<nat, BusError>)
    requires forall k :: 0 <= k < n ==> !Scales(multiplicand, busId, remainder, k)
    ensures r.Ok? ==> r.value < busId && Scales(multiplicand, busId, remainder, r.value)
    ensures r.Ok? ==> forall k :: 0 <= k < r.value ==> !Scales(multiplicand, busId, remainder, k)
    ensures r.Err? ==> r == Err(NoSolution)
    ensures r.Err? ==> forall k :: 0 <= k < busId ==> !Scales(multiplicand, busId, remainder, k)
    decreases busId - n
  {
    if n >= busId then Err(NoSolution)
    else if Scales(multiplicand, busId, remainder, n) then Ok(n)
    else MultiplierFrom(multiplicand, busId, remainder, n + 1)
  }

  /** The smallest multiplier below `busId`, or no solution. */
  function Multiplier(multiplicand: nat, busId: nat, remainder: nat): Result<nat, BusError>
  {
    MultiplierFrom(multiplicand, busId, remainder, 0)
  }

  method FindMultiplier(multiplicand: nat, busId: nat, remainder: nat) returns (r: Result<nat, BusError>)
    ensures r == Multiplier(multiplicand, busId, remainder)
  {
    for n := 0 to busId
      invariant forall k :: 0 <= k < n ==> !Scales(multiplicand, busId, remainder, k)
      invariant Multiplier(multiplicand, busId, remainder) == MultiplierFrom(multiplicand, busId, remainder, n)
    {
      if (multiplicand * n) % busId == remainder {
        return Ok(n);
      }
    }
    r := Err(NoSolution);
  }

  // ---------------------------------------------------------------------
  // Timestamps

  datatype BusRemainder = BusRemainder(id: nat, remainder: nat)

  function Ids(buses: seq<BusRemainder>): (r: seq<nat>)
    ensures |r| == |buses| && forall i :: 0 <= i < |buses| ==> r[i] == buses[i].id
  {
    seq(|buses|, i requires 0 <= i < |buses| => buses[i].id)
  }

  function Product(s: seq<nat>): nat
  {
    if s == [] then 1 else s[0] * Product(s[1..])
  }

  /** The sum of the terms of the first buses, each the product of the
      other ids times its multiplier. */
  function SumTerms(buses: seq<BusRemainder>, product: nat): Result<nat, BusError>
  {
    if buses == [] then Ok(0)
    else
      match SumTerms(buses[..|buses| - 1], product)
      case Err(e) => Err(e)
      case Ok(sum) =>
        var bus := buses[|buses| - 1];
        if bus.id == 0 then Err(DivisionByZero)
        else
          var multiplicand: nat := product / bus.id;
          match Multiplier(multiplicand, bus.id, bus.remainder)
          case Err(e) => Err(e)
          case Ok(n) => Ok(sum + Term(multiplicand, n))
  }

  function Term(multiplicand: nat, n: nat): nat
  {
    multiplicand * n
  }

  function Timestamp(buses: seq<BusRemainder>): Result<nat, BusError>
  {
    var product := Product(Ids(buses));
    match SumTerms(buses, product)
    case Err(e) => Err(e)
    case Ok(sum) => if product == 0 then Err(DivisionByZero) else Ok(sum % product)
  }

  lemma {:induction false} SumTermsStops(a: seq<BusRemainder>, b: seq<BusRemainder>, product: nat)
    requires SumTerms(a, product).Err?
    ensures SumTerms(a + b, product) == SumTerms(a, product)
    decreases |b|
  {
    if b == [] {
      assert a + b == a;
    } else {
      assert (a + b)[..|a + b| - 1] == a + b[..|b| - 1];
      SumTermsStops(a, b[..|b| - 1], product);
    }
  }

  method FindTimestamp(buses: seq<BusRemainder>) returns (r: Result<nat, BusError>)
    ensures r == Timestamp(buses)
  {
    var product := Product(Ids(buses));
    var sum := 0;
    for k := 0 to |buses|
      invariant SumTerms(buses[..k], product) == Ok(sum)
    {
      assert buses[..k + 1][..k] == buses[..k];
      var bus := buses[k];
      if bus.id == 0 {
        SumTermsStops(buses[..k + 1], buses[k + 1..], product);
        assert buses[..k + 1] + buses[k + 1..] == buses;
        return Err(DivisionByZero);
      }
      var multiplicand := product / bus.id;
      var multiplier := FindMultiplier(multiplicand, bus.id, bus.remainder);
      if multiplier.Err? {
        SumTermsStops(buses[..k + 1], buses[k + 1..], product);
        assert buses[..k + 1] + buses[k + 1..] == buses;
        return Err(multiplier.error);
      }
      var term := Term(multiplicand, multiplier.value);
      sum := sum + term;
    }
    assert buses[..|buses|] == buses;
    if product == 0 {
      return Err(DivisionByZero);
    }
    r := Ok(sum % product);
  }

  // ---------------------------------------------------------------------
  // Why the timestamp is right

  function Without(s: seq<nat>, i: nat): seq<nat>
    requires i < |s|
  {
    s[..i] + s[i + 1..]
  }

  /** Any entry can be taken out of a product as a factor. */
  lemma {:induction false} ProductFactor(s: seq<nat>, i: nat)
    requires i < |s|
    ensures Product(s) == s[i] * Product(Without(s, i))
    decreases i
  {
    if i == 0 {
      assert Without(s, i) == s[1..];
    } else {
      var tail := s[1..];
      var x, y, z := s[0], s[i], Product(Without(tail, i - 1));
      assert Product(tail) == y * z by {
        ProductFactor(tail, i - 1);
      }
      assert Product(Without(s, i)) == x * z by {
        WithoutCons(s, i);
      }
      Swap(x, y, z);
    }
  }

  lemma WithoutCons(s: seq<nat>, i: nat)
    requires 0 < i < |s|
    ensures Without(s, i) == [s[0]] + Without(s[1..], i - 1)
  {
    assert s[..i] == [s[0]] + s[1..][..i - 1];
    assert s[i + 1..] == s[1..][i..];
  }

  lemma Swap(x: int, y: int, z: int)
    ensures x * (y * z) == y * (x * z)
  {
  }

  /** Leaving bus `j` out of the product keeps every other id as a factor. */
  lemma OtherFactor(ids: seq<nat>, i: nat, j: nat)
    requires i < |ids| && j < |ids| && i != j && ids[i] > 0 && ids[j] > 0
    ensures Divides(ids[i], Product(ids) / ids[j])
  {
    var rest := Without(ids, j);
    ProductFactor(ids, j);
    MulMod(ids[j], Product(rest));
    var k := if i < j then i else i - 1;
    assert rest[k] == ids[i];
    ProductFactor(rest, k);
    MulMod(ids[i], Product(Without(rest, k)));
  }

  /** A multiple of `m`, scaled, is still a multiple of `m`. */
  lemma ScaledMultiple(a: nat, b: nat, m: nat)
    requires m > 0 && a % m == 0
    ensures (a * b) % m == 0
  {
    assert a == m * (a / m);
    assert a * b == m * ((a / m) * b);
    MulMod(m, (a / m) * b);
  }

  lemma {:induction false} SumTermsIds(buses: seq<BusRemainder>, product: nat)
    requires SumTerms(buses, product).Ok?
    ensures forall j :: 0 <= j < |buses| ==> buses[j].id > 0
    decreases |buses|
  {
    if buses != [] {
      SumTermsIds(buses[..|buses| - 1], product);
    }
  }

  /** When `id` divides every bus's multiplicand, it divides the sum. */
  lemma {:induction false} SumTermsZero(buses: seq<BusRemainder>, product: nat, id: nat)
    requires SumTerms(buses, product).Ok? && id > 0
    requires forall j :: 0 <= j < |buses| && buses[j].id > 0 ==> Divides(id, product / buses[j].id)
    ensures SumTerms(buses, product).value % id == 0
    decreases |buses|
  {
    if buses != [] {
      var init, bus := buses[..|buses| - 1], buses[|buses| - 1];
      SumTermsLast(buses, product);
      var sum := SumTerms(init, product).value;
      var multiplicand := product / bus.id;
      var n := Multiplier(multiplicand, bus.id, bus.remainder).value;
      assert sum % id == 0 by {
        assert forall j :: 0 <= j < |init| ==> init[j] == buses[j];
        SumTermsZero(init, product, id);
      }
      assert Term(multiplicand, n) % id == 0 by {
        assert Divides(id, multiplicand);
        ScaledMultiple(multiplicand, n, id);
      }
      ModAdd(sum, Term(multiplicand, n), id);
    }
  }

  /** A sum that succeeds is the sum of the buses before the last plus the
      last one's term. */
  lemma SumTermsLast(buses: seq<BusRemainder>, product: nat)
    requires buses != [] && SumTerms(buses, product).Ok?
    ensures var init, bus := buses[..|buses| - 1], buses[|buses| - 1];
      SumTerms(init, product).Ok? && bus.id > 0
      && Multiplier(product / bus.id, bus.id, bus.remainder).Ok?
      && SumTerms(buses, product).value
         == SumTerms(init, product).value + Term(product / bus.id, Multiplier(product / bus.id, bus.id, bus.remainder).value)
  {
  }

  /** The sum meets bus `i`'s remainder when every other multiplicand is a
      multiple of bus `i`'s id. */
  lemma {:induction false} SumTermsMod(buses: seq<BusRemainder>, product: nat, i: nat)
    requires SumTerms(buses, product).Ok? && i < |buses| && buses[i].id > 0
    requires forall j :: 0 <= j < |buses| && j != i && buses[j].id > 0 ==> Divides(buses[i].id, product / buses[j].id)
    ensures SumTerms(buses, product).value % buses[i].id == buses[i].remainder
    decreases |buses|
  {
    SumTermsIds(buses, product);
    var init, bus := buses[..|buses| - 1], buses[|buses| - 1];
    var sum := SumTerms(init, product).value;
    var multiplicand := product / bus.id;
    var n := Multiplier(multiplicand, bus.id, bus.remainder).value;
    var id := buses[i].id;
    if i == |buses| - 1 {
      SumTermsZero(init, product, id);
      ModAdd(sum, Term(multiplicand, n), id);
    } else {
      SumTermsMod(init, product, i);
      ScaledMultiple(multiplicand, n, id);
      ModAdd(Term(multiplicand, n), sum, id);
    }
  }

  /** A found timestamp is below the product of the ids and leaves each
      bus's remainder modulo its id. */
  lemma TimestampMeaning(buses: seq<BusRemainder>)
    requires Timestamp(buses).Ok?
    ensures Timestamp(buses).value < Product(Ids(buses))
    ensures forall i :: 0 <= i < |buses| ==>
      buses[i].id > 0 && Timestamp(buses).value % buses[i].id == buses[i].remainder
  {
    var ids := Ids(buses);
    var product := Product(ids);
    SumTermsIds(buses, product);
    var sum := SumTerms(buses, product).value;
    forall i | 0 <= i < |buses|
      ensures buses[i].id > 0 && Timestamp(buses).value % buses[i].id == buses[i].remainder
    {
      forall j | 0 <= j < |buses| && j != i
        ensures Divides(buses[i].id, product / buses[j].id)
      {
        OtherFactor(ids, i, j);
      }
      SumTermsMod(buses, product, i);
      ProductFactor(ids, i);
      ModOfMod(sum, ids[i], Product(Without(ids, i)));
    }
  }

  // ---------------------------------------------------------------------
  // Solving

  datatype BusDelay = BusDelay(id: nat, delay: nat)

  /** The remainder a timestamp must leave so that the bus leaves `delay`
      minutes later. */
  function RemainderOf(bus: BusDelay): nat
    requires bus.id > 0
  {
    if bus.id < bus.delay then (bus.id * bus.delay - bus.delay) % bus.id
    else (bus.id - bus.delay) % bus.id
  }

  lemma RemainderMeaning(bus: BusDelay)
    requires bus.id > 0
    ensures RemainderOf(bus) < bus.id
    ensures (RemainderOf(bus) + bus.delay) % bus.id == 0
  {
    if bus.id < bus.delay {
      LateBus(bus.id, bus.delay);
    } else {
      EarlyBus(bus.id, bus.delay);
    }
  }

  lemma LateBus(id: nat, delay: nat)
    requires 0 < id < delay
    ensures ((id * delay - delay) % id + delay) % id == 0
  {
    var product := id * delay;
    assert product >= delay by {
      MulMonotone(1, id, delay);
    }
    var x := product - delay;
    assert (x + delay) % id == 0 by {
      MulMod(id, delay);
    }
    ShiftedRemainder(id, delay, x);
  }

  lemma EarlyBus(id: nat, delay: nat)
    requires delay <= id && id > 0
    ensures ((id - delay) % id + delay) % id == 0
  {
    MulMod(id, 1);
    ShiftedRemainder(id, delay, id - delay);
  }

  /** Whatever `x` is, if `x + delay` is a multiple of `id` then so is
      `x % id + delay`. */
  lemma ShiftedRemainder(id: nat, delay: nat, x: nat)
    requires id > 0 && (x + delay) % id == 0
    ensures (x % id + delay) % id == 0
  {
    ModAdd(x, delay, id);
  }

  function Remainders(buses: seq<BusDelay>): (r: seq<BusRemainder>)
    requires forall i :: 0 <= i < |buses| ==> buses[i].id > 0
    ensures |r| == |buses|
    ensures forall i :: 0 <= i < |buses| ==> r[i] == BusRemainder(buses[i].id, RemainderOf(buses[i]))
  {
    seq(|buses|, i requires 0 <= i < |buses| => BusRemainder(buses[i].id, RemainderOf(buses[i])))
  }

  /** Every bus id must be prime. An answer is a time at which each bus
      leaves exactly its delay later, and the only failure is a bus with no
      multiplier. */
  function SolveBuses(buses: seq<BusDelay>): (r: Result<nat, BusError>)
    requires forall i :: 0 <= i < |buses| ==> Prime(buses[i].id)
    ensures r.Ok? ==>
              forall i :: 0 <= i < |buses| ==> buses[i].id > 0 && (r.value + buses[i].delay) % buses[i].id == 0
    ensures r.Err? ==> r == Err(NoSolution)
  {
    assert forall i :: 0 <= i < |buses| ==> buses[i].id > 0 by {
      forall i | 0 <= i < |buses| ensures buses[i].id > 0 {
        assert Prime(buses[i].id);
      }
    }
    var remainders := Remainders(buses);
    var found := Timestamp(remainders);
    assert found.Err? ==> found == Err(NoSolution) by {
      SumTermsFails(remainders, Product(Ids(remainders)));
      ProductPositive(Ids(remainders));
    }
    assert found.Ok? ==> forall i :: 0 <= i < |buses| ==> (found.value + buses[i].delay) % buses[i].id == 0 by {
      if found.Ok? {
        TimestampMeaning(remainders);
        forall i | 0 <= i < |buses|
          ensures (found.value + buses[i].delay) % buses[i].id == 0
        {
          RemainderMeaning(buses[i]);
          ModAdd(found.value, buses[i].delay, buses[i].id);
        }
      }
    }
    found
  }

  lemma {:induction false} SumTermsFails(buses: seq<BusRemainder>, product: nat)
    requires forall j :: 0 <= j < |buses| ==> buses[j].id > 0
    ensures SumTerms(buses, product).Err? ==> SumTerms(buses, product) == Err(NoSolution)
    decreases |buses|
  {
    if buses != [] {
      SumTermsFails(buses[..|buses| - 1], product);
    }
  }

  lemma {:induction false} ProductPositive(s: seq<nat>)
    requires forall j :: 0 <= j < |s| ==> s[j] > 0
    ensures Product(s) > 0
    decreases |s|
  {
    if s != [] {
      ProductPositive(s[1..]);
      var x, y := s[0], Product(s[1..]);
      assert x * y >= y;
    }
  }

  // ---------------------------------------------------------------------
  // Distinct prime ids: the timestamp exists and is the earliest

  /** Modulo a prime `p`, multiplying by any `a` strictly between 0 and `p`
      reaches every residue: the reason a multiplier is always found. */
  lemma {:induction false} ScalesOnto(p: nat, a: nat, r: nat)
    requires Prime(p) && 0 < a < p && r < p
    ensures exists n :: 0 <= n < p && (a * n) % p == r
    decreases a
  {
    if a == 1 {
      assert (a * r) % p == r;
    } else {
      var s, t := QuotientOfPrime(p, a);
      var r': nat := if r == 0 then 0 else p - r;
      ScalesOnto(p, t, r');
      var n': nat :| n' < p && (t * n') % p == r';
      var n := OntoStep(p, a, s, t, n', r, r');
    }
  }

  /** Dividing a prime by a number strictly between 1 and it leaves a
      remainder that is neither 0 nor as large as the divisor. */
  lemma QuotientOfPrime(p: nat, a: nat) returns (s: nat, t: nat)
    requires Prime(p) && 1 < a < p
    ensures p == a * s + t && 0 < t < a
  {
    assert !Divides(a, p);
    s, t := p / a, p % a;
  }

  /** The arithmetic of one step of `ScalesOnto`: with p == a*s + t and
      t*n' leaving -r, a times (s*n' mod p) leaves r. */
  lemma OntoStep(p: nat, a: nat, s: nat, t: nat, n': nat, r: nat, r': nat) returns (n: nat)
    requires p > 0 && p == a * s + t && r < p && r' == (if r == 0 then 0 else p - r)
    requires (t * n') % p == r'
    ensures n < p && (a * n) % p == r
  {
    var sn, tn := s * n', t * n';
    n := sn % p;
    var q1, q2 := sn / p, tn / p;
    assert sn == p * q1 + n;
    assert tn == p * q2 + r';
    var k := n' - q2 - a * q1;
    assert a * n == p * k - r' by {
      ScaleBack(a, sn, p, q1, n);
      SplitProduct(p, a, s, t, n');
    }
    if r == 0 {
      DivModUnique(a * n, p, k, 0);
    } else {
      DivModUnique(a * n, p, k - 1, r);
    }
  }

  /** a * n, where sn == p*q1 + n, is a * sn less a multiple of p. */
  lemma ScaleBack(a: int, sn: int, p: int, q1: int, n: int)
    requires sn == p * q1 + n
    ensures a * n == a * sn - p * (a * q1)
  {
    assert a * n == a * (sn - p * q1);
  }

  /** With p == a*s + t, a*s*n' is p*n' less t*n'. */
  lemma SplitProduct(p: int, a: int, s: int, t: int, n': int)
    requires p == a * s + t
    ensures a * (s * n') == p * n' - t * n'
  {
    assert a * (s * n') == (a * s) * n';
    assert (a * s) * n' == (p - t) * n';
  }

  /** Euclid's lemma: a prime dividing a product divides a factor. */
  lemma EuclidPrime(p: nat, x: nat, y: nat)
    requires Prime(p)
    ensures (x * y) % p == 0 ==> x % p == 0 || y % p == 0
  {
    var a := x % p;
    if (x * y) % p == 0 && a != 0 {
      ScalesOnto(p, a, 1);
      var n: nat :| n < p && (a * n) % p == 1;
      InverseCancels(p, x, y, a, n);
    }
  }

  /** If a == x mod p has an inverse n modulo p, then p dividing x*y
      divides y. */
  lemma InverseCancels(p: nat, x: nat, y: nat, a: nat, n: nat)
    requires p > 0 && a == x % p && (a * n) % p == 1 && (x * y) % p == 0
    ensures y % p == 0
  {
    var xy, an := x * y, a * n;
    var qx, k1, q := x / p, xy / p, an / p;
    assert x == p * qx + a;
    assert xy == p * k1;
    assert an == p * q + 1;
    assert a * y == p * (k1 - qx * y) by {
      assert xy == (p * qx + a) * y;
      assert (p * qx + a) * y == p * (qx * y) + a * y;
    }
    var k := n * (k1 - qx * y) - q * y;
    assert y == p * k by {
      assert an * y == (p * q + 1) * y == p * (q * y) + y;
      assert an * y == n * (a * y);
      assert n * (p * (k1 - qx * y)) == p * (n * (k1 - qx * y));
    }
    DivModUnique(y, p, k, 0);
  }

  /** A prime that divides a prime is that prime. */
  lemma PrimeDivisor(p: nat, q: nat)
    requires Prime(p) && Prime(q) && q % p == 0
    ensures p == q
  {
    DivBounds(q, p);
    assert q == p * (q / p) && q / p >= 1;
    MulMonotone(1, q / p, p);
    assert Divides(p, q);
  }

  /** No two ids are the same. */
  predicate Distinct(s: seq<nat>)
  {
    forall i, j :: 0 <= i < j < |s| ==> s[i] != s[j]
  }

  predicate AllPrime(s: seq<nat>)
  {
    forall i :: 0 <= i < |s| ==> Prime(s[i])
  }

  /** A prime does not divide a product of other primes. */
  lemma {:induction false} PrimeNotDividingProduct(p: nat, s: seq<nat>)
    requires Prime(p) && AllPrime(s) && forall i :: 0 <= i < |s| ==> s[i] != p
    ensures Product(s) % p != 0
    decreases |s|
  {
    if s == [] {
      DivModUnique(1, p, 0, 1);
    } else {
      PrimeNotDividingProduct(p, s[1..]);
      EuclidPrime(p, s[0], Product(s[1..]));
      if s[0] % p == 0 {
        PrimeDivisor(p, s[0]);
      }
    }
  }

  /** When distinct primes each divide `d`, so does their product. */
  lemma {:induction false} ProductDivides(ids: seq<nat>, d: nat)
    requires AllPrime(ids) && Distinct(ids)
    requires forall i :: 0 <= i < |ids| ==> d % ids[i] == 0
    ensures Product(ids) > 0 && d % Product(ids) == 0
    decreases |ids|
  {
    if ids == [] {
      DivModUnique(d, 1, d, 0);
    } else {
      var p, rest := ids[0], ids[1..];
      assert Prime(p);
      ProductDivides(rest, d);
      var q := Product(rest);
      var k := d / q;
      DivBounds(d, q);
      assert d == q * k;
      PrimeNotDividingProduct(p, rest);
      EuclidPrime(p, q, k);
      var j := k / p;
      DivBounds(k, p);
      Regroup(d, q, k, p, j);
      MulMod(p * q, j);
    }
  }

  /** d = q*k with k = p*j is d = (p*q)*j. */
  lemma Regroup(d: int, q: int, k: int, p: int, j: int)
    requires d == q * k && k == p * j
    ensures d == (p * q) * j
  {
    assert q * (p * j) == (p * q) * j;
  }

  /** Two times below the product of distinct prime ids that leave the
      same remainders are the same time. */
  lemma TimesUnique(ids: seq<nat>, x: nat, y: nat)
    requires AllPrime(ids) && Distinct(ids)
    requires x < Product(ids) && y < Product(ids)
    requires forall i :: 0 <= i < |ids| ==> x % ids[i] == y % ids[i]
    ensures x == y
  {
    var hi, lo := if x >= y then x else y, if x >= y then y else x;
    var d: nat := hi - lo;
    forall i | 0 <= i < |ids|
      ensures d % ids[i] == 0
    {
      var m := ids[i];
      assert Prime(m);
      DivBounds(hi, m);
      DivBounds(lo, m);
      assert d == m * (hi / m - lo / m);
      DivModUnique(d, m, hi / m - lo / m, 0);
    }
    ProductDivides(ids, d);
    DivModUnique(d, Product(ids), 0, d);
  }

  /** A multiplicand that a prime id does not divide has a multiplier for
      every remainder below the id. */
  lemma MultiplierExists(multiplicand: nat, busId: nat, remainder: nat)
    requires Prime(busId) && multiplicand % busId != 0 && remainder < busId
    ensures Multiplier(multiplicand, busId, remainder).Ok?
  {
    var a := multiplicand % busId;
    ScalesOnto(busId, a, remainder);
    var n: nat :| n < busId && (a * n) % busId == remainder;
    ScaleResidue(multiplicand, busId, n);
    assert Scales(multiplicand, busId, remainder, n);
  }

  /** Only the residue of a factor matters to the residue of a product. */
  lemma ScaleResidue(m: nat, p: nat, n: nat)
    requires p > 0
    ensures (m * n) % p == ((m % p) * n) % p
  {
    var mn, an := m * n, (m % p) * n;
    var q := m / p;
    assert mn == an + p * (q * n) by {
      assert m == p * q + m % p;
      assert (p * q + m % p) * n == p * (q * n) + (m % p) * n;
    }
    assert an == p * (an / p) + an % p;
    assert mn == p * (q * n + an / p) + an % p;
    DivModUnique(mn, p, q * n + an / p, an % p);
  }

  /** Leaving out one of distinct prime ids leaves primes that differ from it. */
  lemma WithoutOthers(ids: seq<nat>, i: nat)
    requires i < |ids| && AllPrime(ids) && Distinct(ids)
    ensures AllPrime(Without(ids, i)) && Distinct(Without(ids, i))
    ensures forall k :: 0 <= k < |Without(ids, i)| ==> Without(ids, i)[k] != ids[i]
  {
    var w := Without(ids, i);
    assert forall k :: 0 <= k < |w| ==> w[k] == if k < i then ids[k] else ids[k + 1];
  }

  /** With distinct prime ids, each bus's multiplicand is not a multiple of
      its own id. */
  lemma MultiplicandCoprime(ids: seq<nat>, i: nat) returns (m: nat)
    requires i < |ids| && AllPrime(ids) && Distinct(ids)
    ensures ids[i] > 0 && m == Product(ids) / ids[i] && m % ids[i] != 0
  {
    assert Prime(ids[i]);
    ProductFactor(ids, i);
    MulMod(ids[i], Product(Without(ids, i)));
    WithoutOthers(ids, i);
    PrimeNotDividingProduct(ids[i], Without(ids, i));
    m := Product(Without(ids, i));
  }

  /** Every bus finds its multiplier when the ids are distinct primes and
      the remainders are below them. */
  lemma {:induction false} SumTermsFound(buses: seq<BusRemainder>, ids: seq<nat>)
    requires |buses| <= |ids| && AllPrime(ids) && Distinct(ids)
    requires forall i :: 0 <= i < |buses| ==> buses[i].id == ids[i] && buses[i].remainder < ids[i]
    ensures SumTerms(buses, Product(ids)).Ok?
    decreases |buses|
  {
    if buses != [] {
      var k := |buses| - 1;
      var init := buses[..k];
      assert forall i :: 0 <= i < |init| ==> init[i] == buses[i];
      SumTermsFound(init, ids);
      var m := MultiplicandCoprime(ids, k);
      assert Prime(ids[k]);
      MultiplierExists(m, ids[k], buses[k].remainder);
    }
  }

  /** With distinct prime ids and remainders below them, a timestamp is
      always found. */
  lemma TimestampFound(buses: seq<BusRemainder>)
    requires AllPrime(Ids(buses)) && Distinct(Ids(buses))
    requires forall i :: 0 <= i < |buses| ==> buses[i].remainder < buses[i].id
    ensures Timestamp(buses).Ok?
  {
    var ids := Ids(buses);
    SumTermsFound(buses, ids);
    ProductDivides(ids, 0);
  }

  /** A time meets a bus's remainder exactly when the bus leaves its delay
      after it. */
  lemma MeetsRemainder(bus: BusDelay, x: nat)
    requires bus.id > 0
    ensures x % bus.id == RemainderOf(bus) <==> (x + bus.delay) % bus.id == 0
  {
    var m, d := bus.id, bus.delay;
    RemainderMeaning(bus);
    ModAdd(x, d, m);
    ShiftCancels(x % m, RemainderOf(bus), d, m);
  }

  /** Of the residues below `m`, only `r` is brought to 0 by adding `d`. */
  lemma ShiftCancels(u: nat, r: nat, d: nat, m: nat)
    requires m > 0 && u < m && r < m && (r + d) % m == 0
    ensures (u + d) % m == 0 <==> u == r
  {
    if (u + d) % m == 0 {
      var a, b := (u + d) / m, (r + d) / m;
      assert u + d == m * a && r + d == m * b;
      assert u - r == m * (a - b);
      assert a - b >= 1 ==> m * (a - b) >= m;
      assert b - a >= 1 ==> m * (b - a) >= m;
    }
  }

  /**
   * With distinct prime ids, `solve_buses` always answers, and its answer
   * is the earliest time at which every bus leaves exactly its delay
   * later: any such time, reduced modulo the product of the ids, is the
   * answer.
   */
  lemma SolveBusesEarliest(buses: seq<BusDelay>, x: nat)
    requires forall i :: 0 <= i < |buses| ==> buses[i].id > 0 && Prime(buses[i].id)
    requires Distinct(Ids(Remainders(buses)))
    requires forall i :: 0 <= i < |buses| ==> (x + buses[i].delay) % buses[i].id == 0
    ensures SolveBuses(buses).Ok? && Product(Ids(Remainders(buses))) > 0
    ensures SolveBuses(buses).value == x % Product(Ids(Remainders(buses))) <= x
  {
    var remainders := Remainders(buses);
    var ids := Ids(remainders);
    forall i | 0 <= i < |remainders| ensures remainders[i].remainder < remainders[i].id {
      RemainderMeaning(buses[i]);
    }
    TimestampFound(remainders);
    TimestampMeaning(remainders);
    var t := SolveBuses(buses).value;
    var product := Product(ids);
    ProductDivides(ids, 0);
    var y := x % product;
    DivBounds(x, product);
    forall i | 0 <= i < |ids|
      ensures t % ids[i] == y % ids[i]
    {
      ProductFactor(ids, i);
      ProductDivides(Without(ids, i), 0) by {
        WithoutOthers(ids, i);
      }
      ModOfMod(x, ids[i], Product(Without(ids, i)));
      MeetsRemainder(buses[i], x);
    }
    TimesUnique(ids, t, y);
  }

  /** With distinct prime ids, a time below the product of the ids at which
      every bus leaves exactly its delay later is the answer. */
  lemma SolveBusesIs(buses: seq<BusDelay>, t: nat)
    requires forall i :: 0 <= i < |buses| ==> buses[i].id > 0 && Prime(buses[i].id)
    requires Distinct(Ids(Remainders(buses)))
    requires t < Product(Ids(Remainders(buses)))
    requires forall i :: 0 <= i < |buses| ==> (t + buses[i].delay) % buses[i].id == 0
    ensures SolveBuses(buses) == Ok(t)
  {
    SolveBusesEarliest(buses, t);
    DivModUnique(t, Product(Ids(Remainders(buses))), 0, t);
  }

  /** No number from `lo` up to `hi` divides `n`. */
  function NoDivisorIn(n: nat, lo: nat, hi: nat): bool
    requires lo > 0
    decreases hi - lo
  {
    lo >= hi || (n % lo != 0 && NoDivisorIn(n, lo + 1, hi))
  }

  lemma {:induction false} NoDivisorInMeaning(n: nat, lo: nat, hi: nat)
    requires lo > 0 && NoDivisorIn(n, lo, hi)
    ensures forall d :: lo <= d < hi ==> !Divides(d, n)
    decreases hi - lo
  {
    if lo < hi {
      NoDivisorInMeaning(n, lo + 1, hi);
    }
  }

  /** Two adjacent ranges without divisors make one. */
  lemma {:induction false} NoDivisorInJoin(n: nat, lo: nat, mid: nat, hi: nat)
    requires 0 < lo <= mid <= hi && NoDivisorIn(n, lo, mid) && NoDivisorIn(n, mid, hi)
    ensures NoDivisorIn(n, lo, hi)
    decreases mid - lo
  {
    if lo < mid {
      NoDivisorInJoin(n, lo + 1, mid, hi);
    }
  }

  /** Trial division up to the square root shows a number prime. */
  lemma PrimeByTrial(n: nat, i: nat)
    requires n >= 2 && i >= 2 && i * i > n && NoDivisorIn(n, 2, i)
    ensures Prime(n)
  {
    NoDivisorInMeaning(n, 2, i);
    NoLargeDivisor(n, i);
  }

  // ---------------------------------------------------------------------
  // Examples

  /** Remainders 2, 2, 1 modulo 3, 4, 5 meet at 26. */
  lemma Example26(buses: seq<BusRemainder>)
    requires buses == [BusRemainder(3, 2), BusRemainder(4, 2), BusRemainder(5, 1)]
    ensures Timestamp(buses) == Ok(26)
  {
    assert Ids(buses) == [3, 4, 5];
    assert Product([5]) == 5;
    assert Product([4, 5]) == 20;
    assert Product(Ids(buses)) == 60;
    assert Multiplier(20, 3, 2) == Ok(1) by {
      assert !Scales(20, 3, 2, 0);
    }
    assert Multiplier(15, 4, 2) == Ok(2) by {
      assert !Scales(15, 4, 2, 0);
      assert !Scales(15, 4, 2, 1);
    }
    assert Multiplier(12, 5, 1) == Ok(3) by {
      assert !Scales(12, 5, 1, 0);
      assert !Scales(12, 5, 1, 1);
      assert !Scales(12, 5, 1, 2);
    }
    assert buses[..2][..1] == buses[..1];
    assert buses[..3][..2] == buses[..2];
    assert buses[..1][..0] == [];
    assert SumTerms(buses[..1], 60) == Ok(20);
    assert SumTerms(buses[..2], 60) == Ok(50);
    assert buses[..3] == buses;
    assert SumTerms(buses, 60) == Ok(86);
  }

  /** 67, 7, 59 and 61 are distinct primes whose product is 1687931. */
  lemma SampleIds(ids: seq<nat>)
    requires ids == [67, 7, 59, 61]
    ensures AllPrime(ids) && Distinct(ids) && Product(ids) == 1687931
  {
    assert NoDivisorIn(67, 2, 9) && NoDivisorIn(7, 2, 3);
    assert NoDivisorIn(59, 2, 8) && NoDivisorIn(61, 2, 8);
    PrimeByTrial(67, 9);
    PrimeByTrial(7, 3);
    PrimeByTrial(59, 8);
    PrimeByTrial(61, 8);
    assert ids[1..] == [7, 59, 61] && ids[1..][1..] == [59, 61] && ids[1..][1..][1..] == [61];
    assert Product([61]) == 61;
    assert Product([59, 61]) == 3599;
    assert Product([7, 59, 61]) == 25193;
  }

  /** 67,7,59,61 first line up at 754018. */
  lemma Example754018(buses: seq<BusDelay>)
    requires buses == [BusDelay(67, 0), BusDelay(7, 1), BusDelay(59, 2), BusDelay(61, 3)]
    ensures forall i :: 0 <= i < |buses| ==> Prime(buses[i].id)
    ensures SolveBuses(buses) == Ok(754018)
  {
    SampleIds(Ids(Remainders(buses)));
    SolveBusesIs(buses, 754018);
  }

  /** 67,x,7,59,61 first line up at 779210. */
  lemma Example779210(buses: seq<BusDelay>)
    requires buses == [BusDelay(67, 0), BusDelay(7, 2), BusDelay(59, 3), BusDelay(61, 4)]
    ensures forall i :: 0 <= i < |buses| ==> Prime(buses[i].id)
    ensures SolveBuses(buses) == Ok(779210)
  {
    SampleIds(Ids(Remainders(buses)));
    SolveBusesIs(buses, 779210);
  }

  /** 67,7,x,59,61 first line up at 1261476. */
  lemma Example1261476(buses: seq<BusDelay>)
    requires buses == [BusDelay(67, 0), BusDelay(7, 1), BusDelay(59, 3), BusDelay(61, 4)]
    ensures forall i :: 0 <= i < |buses| ==> Prime(buses[i].id)
    ensures SolveBuses(buses) == Ok(1261476)
  {
    SampleIds(Ids(Remainders(buses)));
    SolveBusesIs(buses, 1261476);
  }

  /** 1789, 37, 47 and 1889 are distinct primes whose product is 5876813119. */
  lemma LargeSampleIds(ids: seq<nat>)
    requires ids == [1789, 37, 47, 1889]
    ensures AllPrime(ids) && Distinct(ids) && Product(ids) == 5876813119
  {
    Prime1789();
    Prime1889();
    assert NoDivisorIn(37, 2, 7) && NoDivisorIn(47, 2, 7);
    PrimeByTrial(37, 7);
    PrimeByTrial(47, 7);
    assert ids[1..] == [37, 47, 1889] && ids[1..][1..] == [47, 1889] && ids[1..][1..][1..] == [1889];
    assert Product([1889]) == 1889;
    assert Product([47, 1889]) == 88783;
    assert Product([37, 47, 1889]) == 3284971;
  }

  /** Trial division by 2 to 42 shows 1789 prime. */
  lemma Prime1789()
    ensures Prime(1789)
  {
    assert NoDivisorIn(1789, 2, 12) && NoDivisorIn(1789, 12, 22) && NoDivisorIn(1789, 22, 32) && NoDivisorIn(1789, 32, 43);
    NoDivisorInJoin(1789, 2, 12, 22);
    NoDivisorInJoin(1789, 2, 22, 32);
    NoDivisorInJoin(1789, 2, 32, 43);
    PrimeByTrial(1789, 43);
  }

  /** Trial division by 2 to 43 shows 1889 prime. */
  lemma Prime1889()
    ensures Prime(1889)
  {
    assert NoDivisorIn(1889, 2, 12) && NoDivisorIn(1889, 12, 22) && NoDivisorIn(1889, 22, 32) && NoDivisorIn(1889, 32, 44);
    NoDivisorInJoin(1889, 2, 12, 22);
    NoDivisorInJoin(1889, 2, 22, 32);
    NoDivisorInJoin(1889, 2, 32, 44);
    PrimeByTrial(1889, 44);
  }

  /** 1789,37,47,1889 first line up at 1202161486. */
  lemma Example1202161486(buses: seq<BusDelay>)
    requires buses == [BusDelay(1789, 0), BusDelay(37, 1), BusDelay(47, 2), BusDelay(1889, 3)]
    ensures forall i :: 0 <= i < |buses| ==> Prime(buses[i].id)
    ensures SolveBuses(buses) == Ok(1202161486)
  {
    LargeSampleIds(Ids(Remainders(buses)));
    SolveBusesIs(buses, 1202161486);
  }

  /** Buses 17, x, 13, 19 first line up at 3417. */
  lemma Example3417(buses: seq<BusDelay>)
    requires buses == [BusDelay(17, 0), BusDelay(13, 2), BusDelay(19, 3)]
    ensures forall i :: 0 <= i < |buses| ==> Prime(buses[i].id)
    ensures SolveBuses(buses) == Ok(3417)
  {
    PrimesBelowTwenty(17);
    PrimesBelowTwenty(13);
    PrimesBelowTwenty(19);
    var remainders := Remainders(buses);
    assert remainders == [BusRemainder(17, 0), BusRemainder(13, 11), BusRemainder(19, 16)];
    Timestamp3417(remainders);
  }

  lemma Timestamp3417(remainders: seq<BusRemainder>)
    requires remainders == [BusRemainder(17, 0), BusRemainder(13, 11), BusRemainder(19, 16)]
    ensures Timestamp(remainders) == Ok(3417)
  {
    assert Product(Ids(remainders)) == 4199 by {
      assert Ids(remainders) == [17, 13, 19];
      assert Product([19]) == 19;
      assert Product([13, 19]) == 247;
    }
    Terms3417(remainders);
  }

  lemma Terms3417(remainders: seq<BusRemainder>)
    requires remainders == [BusRemainder(17, 0), BusRemainder(13, 11), BusRemainder(19, 16)]
    ensures SumTerms(remainders, 4199) == Ok(3417)
  {
    var two := remainders[..2];
    Terms323(two);
    assert 4199 / 19 == 221 && 323 + 221 * 14 == 3417;
    Multiplier221();
    SumTermsStep(remainders, 4199, 323, 14);
  }

  lemma Terms323(two: seq<BusRemainder>)
    requires two == [BusRemainder(17, 0), BusRemainder(13, 11)]
    ensures SumTerms(two, 4199) == Ok(323)
  {
    var first := two[..1];
    assert SumTerms(first, 4199) == Ok(0) by {
      assert first[..0] == [];
      assert 4199 / 17 == 247;
      assert Multiplier(247, 17, 0) == Ok(0);
      SumTermsStep(first, 4199, 0, 0);
    }
    assert 4199 / 13 == 323;
    assert Multiplier(323, 13, 11) == Ok(1) by {
      assert !Scales(323, 13, 11, 0);
    }
    SumTermsStep(two, 4199, 0, 1);
  }

  /** One more bus adds its term to the sum of the ones before it. */
  lemma SumTermsStep(buses: seq<BusRemainder>, product: nat, sum: nat, n: nat)
    requires buses != [] && buses[|buses| - 1].id > 0
    requires SumTerms(buses[..|buses| - 1], product) == Ok(sum)
    requires Multiplier(product / buses[|buses| - 1].id, buses[|buses| - 1].id, buses[|buses| - 1].remainder) == Ok(n)
    ensures SumTerms(buses, product) == Ok(sum + product / buses[|buses| - 1].id * n)
  {
    var bus := buses[|buses| - 1];
    assert Term(product / bus.id, n) == product / bus.id * n;
  }

  lemma Multiplier221()
    ensures Multiplier(221, 19, 16) == Ok(14)
  {
    forall k | 0 <= k < 14 ensures !Scales(221, 19, 16, k) {
      assert (221 * k) % 19 == (12 * k) % 19 by {
        AddMultiple(12 * k, 19, 11 * k);
      }
    }
    assert MultiplierFrom(221, 19, 16, 14) == Ok(14);
    MultiplierSkips(221, 19, 16, 0, 14);
  }

  /** The search passes over multipliers that do not scale. */
  lemma {:induction false} MultiplierSkips(multiplicand: nat, busId: nat, remainder: nat, n: nat, m: nat)
    requires n <= m <= busId
    requires forall k :: 0 <= k < m ==> !Scales(multiplicand, busId, remainder, k)
    ensures MultiplierFrom(multiplicand, busId, remainder, n) == MultiplierFrom(multiplicand, busId, remainder, m)
    decreases m - n
  {
    if n < m {
      MultiplierSkips(multiplicand, busId, remainder, n + 1, m);
    }
  }
}
