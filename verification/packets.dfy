/** The packet decoder of 2021/src/bin/day16.rs: hexadecimal text becomes a
    stream of bits, from which packets are read and evaluated. */
module Packets {
  import opened Outcomes
  import opened Arithmetic

  type Bits = seq<bool>

  datatype PacketError =
    | BadHexDigit(c: char)
    | MoreBitsExpected
    | NeedsOperands(typeId: nat)
    | NeedsTwoOperands(typeId: nat)
    | BadOperator(typeId: nat)

  function Pow2(n: nat): (r: nat)
    ensures r >= 1
  {
    if n == 0 then 1 else 2 * Pow2(n - 1)
  }

  function Bit(b: bool): nat
  {
    if b then 1 else 0
  }

  /** The number `bs` spells, most significant bit first; it is below
      2 to the number of bits. */
  function BitsValue(bs: Bits): (r: nat)
    ensures r < Pow2(|bs|)
    decreases |bs|
  {
    if bs == [] then 0 else 2 * BitsValue(bs[..|bs| - 1]) + Bit(bs[|bs| - 1])
  }

  /** The low `width` bits of `v`, most significant first. */
  function ToBits(v: nat, width: nat): (r: Bits)
    ensures |r| == width
    ensures v < Pow2(width) ==> BitsValue(r) == v
  {
    if width == 0 then []
    else
      var r := ToBits(v / 2, width - 1) + [v % 2 == 1];
      assert r[..|r| - 1] == ToBits(v / 2, width - 1);
      r
  }

  /** Writing out the value of some bits gives back the same bits. */
  lemma {:induction false} ToBitsOfValue(bs: Bits)
    ensures ToBits(BitsValue(bs), |bs|) == bs
    decreases |bs|
  {
    if bs != [] {
      var init, last := bs[..|bs| - 1], bs[|bs| - 1];
      var v := BitsValue(bs);
      assert v / 2 == BitsValue(init) && v % 2 == Bit(last) by {
        DivModUnique(v, 2, BitsValue(init), Bit(last));
      }
      assert ToBits(v, |bs|) == ToBits(v / 2, |init|) + [v % 2 == 1];
      assert (v % 2 == 1) == last;
      ToBitsOfValue(init);
      assert init + [last] == bs;
    }
  }

  lemma {:induction false} BitsConcat(a: Bits, b: Bits)
    ensures BitsValue(a + b) == BitsValue(a) * Pow2(|b|) + BitsValue(b)
    decreases |b|
  {
    if b == [] {
      assert a + b == a;
    } else {
      var init := b[..|b| - 1];
      var last := Bit(b[|b| - 1]);
      assert (a + b)[..|a + b| - 1] == a + init;
      BitsConcat(a, init);
      assert (a + b)[|a + b| - 1] == b[|b| - 1];
      assert BitsValue(a + b) == 2 * BitsValue(a + init) + last;
      assert BitsValue(b) == 2 * BitsValue(init) + last;
      Regroup(BitsValue(a), Pow2(|init|), BitsValue(init), last);
    }
  }

  lemma Regroup(x: nat, p: nat, y: nat, l: nat)
    ensures 2 * (x * p + y) + l == x * (2 * p) + (2 * y + l)
  {
    assert x * (2 * p) == x * (p + p) == x * p + x * p;
  }

  lemma Concat4(a: Bits, b: Bits)
    requires |b| == 4
    ensures BitsValue(a + b) == 16 * BitsValue(a) + BitsValue(b)
  {
    BitsConcat(a, b);
    assert Pow2(4) == 16;
  }

  lemma DigitSum(d: nat)
    requires d < 16
    ensures 8 * (d / 8 % 2) + 4 * (d / 4 % 2) + 2 * (d / 2 % 2) + d % 2 == d
  {
  }

  lemma FourBits(x: Bits)
    requires |x| == 4
    ensures BitsValue(x) == 8 * Bit(x[0]) + 4 * Bit(x[1]) + 2 * Bit(x[2]) + Bit(x[3])
  {
    var x1, x2, x3 := x[..1], x[..2], x[..3];
    assert x1[..0] == [] && x2[..1] == x1 && x3[..2] == x2 && x[..|x| - 1] == x3;
    assert BitsValue(x1) == Bit(x[0]);
    assert BitsValue(x2) == 2 * Bit(x[0]) + Bit(x[1]);
    assert BitsValue(x3) == 4 * Bit(x[0]) + 2 * Bit(x[1]) + Bit(x[2]);
  }

  // ---------------------------------------------------------------------
  // Hexadecimal text

  /** The value of a hexadecimal digit, in either case. */
  function HexDigit(c: char): (r: Option<nat>)
    ensures r.Some? ==> r.value < 16
  {
    if '0' <= c <= '9' then Some(c as int - '0' as int)
    else if 'a' <= c <= 'f' then Some(c as int - 'a' as int + 10)
    else if 'A' <= c <= 'F' then Some(c as int - 'A' as int + 10)
    else None
  }

  /** The four bits of a digit: bit 3 first, bit 0 last. */
  function NibbleBits(d: nat): (r: Bits)
    ensures |r| == 4
  {
    seq(4, k requires 0 <= k < 4 => (d / Pow2(3 - k)) % 2 == 1)
  }

  /** A digit's four bits are its binary form. */
  lemma NibbleValue(d: nat)
    requires d < 16
    ensures BitsValue(NibbleBits(d)) == d
  {
    var x := NibbleBits(d);
    FourBits(x);
    NibbleBit(d, 0, 8);
    NibbleBit(d, 1, 4);
    NibbleBit(d, 2, 2);
    NibbleBit(d, 3, 1);
    assert d / 1 == d by {
      DivModUnique(d, 1, d, 0);
    }
    DigitSum(d);
  }

  /** Bit `k` of a digit's four bits is the digit's bit of weight `w`. */
  lemma NibbleBit(d: nat, k: nat, w: nat)
    requires k < 4 && w == Pow2(3 - k)
    ensures Bit(NibbleBits(d)[k]) == d / w % 2
  {
  }

  /** The bits of hexadecimal text, four per digit; the first character that
      is not a digit is an error. */
  function HexBits(s: string): (r: Result<Bits, PacketError>)
    ensures r.Ok? ==> |r.value| == 4 * |s|
    ensures r.Ok? <==> forall k :: 0 <= k < |s| ==> HexDigit(s[k]).Some?
    decreases |s|
  {
    if s == [] then Ok([])
    else
      var init := s[..|s| - 1];
      assert forall k :: 0 <= k < |init| ==> init[k] == s[k];
      match HexBits(init)
      case Err(e) => Err(e)
      case Ok(bits) =>
        match HexDigit(s[|s| - 1])
        case None => Err(BadHexDigit(s[|s| - 1]))
        case Some(d) => Ok(bits + NibbleBits(d))
  }

  /** The number hexadecimal text spells, a character that is not a digit
      counting as 0. */
  function HexNumber(s: string): nat
    decreases |s|
  {
    if s == [] then 0
    else 16 * HexNumber(s[..|s| - 1]) + (match HexDigit(s[|s| - 1]) case Some(d) => d case None => 0)
  }

  /** The bits of hexadecimal text spell the number the text spells. */
  lemma {:induction false} HexValue(s: string)
    requires HexBits(s).Ok?
    ensures BitsValue(HexBits(s).value) == HexNumber(s)
    decreases |s|
  {
    if s != [] {
      var init := s[..|s| - 1];
      HexSnoc(s);
      HexValue(init);
      var d := HexDigit(s[|s| - 1]).value;
      Concat4(HexBits(init).value, NibbleBits(d));
      NibbleValue(d);
    }
  }

  lemma HexSnoc(s: string)
    requires s != [] && HexBits(s).Ok?
    ensures HexBits(s[..|s| - 1]).Ok? && HexDigit(s[|s| - 1]).Some?
    ensures HexBits(s).value == HexBits(s[..|s| - 1]).value + NibbleBits(HexDigit(s[|s| - 1]).value)
  {
  }

  /** Reads hexadecimal text digit by digit, four bits per digit. */
  method ParseHex(s: string) returns (r: Result<Bits, PacketError>)
    ensures r == HexBits(s)
  {
    var bits: Bits := [];
    for i := 0 to |s|
      invariant HexBits(s[..i]) == Ok(bits)
    {
      assert s[..i + 1][..i] == s[..i];
      var digit := HexDigit(s[i]);
      if digit.None? {
        HexStops(s[..i + 1], s[i + 1..]);
        assert s[..i + 1] + s[i + 1..] == s;
        return Err(BadHexDigit(s[i]));
      }
      assert HexBits(s[..i + 1]) == Ok(bits + NibbleBits(digit.value));
      bits := AppendNibble(bits, digit.value);
    }
    assert s[..|s|] == s;
    r := Ok(bits);
  }

  /** Appends a digit's four bits, most significant first. */
  method AppendNibble(bits: Bits, d: nat) returns (r: Bits)
    ensures r == bits + NibbleBits(d)
  {
    r := bits;
    for k := 0 to 4
      invariant r == bits + NibbleBits(d)[..k]
    {
      var j := 3 - k;
      r := r + [(d / Pow2(j)) % 2 == 1];
      assert NibbleBits(d)[..k + 1] == NibbleBits(d)[..k] + [(d / Pow2(j)) % 2 == 1];
    }
    assert NibbleBits(d)[..4] == NibbleBits(d);
  }

  lemma {:induction false} HexStops(a: string, b: string)
    requires HexBits(a).Err?
    ensures HexBits(a + b) == HexBits(a)
    decreases |b|
  {
    if b == [] {
      assert a + b == a;
    } else {
      assert (a + b)[..|a + b| - 1] == a + b[..|b| - 1];
      HexStops(a, b[..|b| - 1]);
    }
  }

  // ---------------------------------------------------------------------
  // The bit stream

  /** A value read from the front of some bits, and the bits after it. */
  datatype Decoded<T> = Decoded(value: T, rest: Bits)

  /** The first `count` bits as a number, or nothing when there are fewer. */
  function ReadBits(bs: Bits, count: nat): (r: Option<Decoded<nat>>)
    ensures r.None? <==> |bs| < count
    ensures r.Some? ==> r.value.rest == bs[count..] && r.value.value == BitsValue(bs[..count])
  {
    if |bs| < count then None else Some(Decoded(BitsValue(bs[..count]), bs[count..]))
  }

  /** Reading a number written out in `width` bits gives it back. */
  lemma ReadToBits(v: nat, width: nat, rest: Bits)
    requires v < Pow2(width)
    ensures ReadBits(ToBits(v, width) + rest, width) == Some(Decoded(v, rest))
  {
    var bs := ToBits(v, width) + rest;
    assert bs[..width] == ToBits(v, width);
    assert bs[width..] == rest;
  }

  /** The bits not yet consumed. */
  class BitStream {
    var rest: Bits

    constructor (bits: Bits)
      ensures rest == bits
    {
      rest := bits;
    }

    method Next() returns (r: Option<bool>)
      modifies this
      ensures old(rest) == [] ==> r == None && rest == []
      ensures old(rest) != [] ==> r == Some(old(rest)[0]) && rest == old(rest)[1..]
    {
      if rest == [] {
        return None;
      }
      r := Some(rest[0]);
      rest := rest[1..];
    }
  }

  /** Shifts `count` bits into a number; running out consumes what is left
      and gives nothing. */
  method TryParseBits(bits: BitStream, count: nat) returns (r: Option<nat>)
    modifies bits
    ensures ReadBits(old(bits.rest), count).None? ==> r == None && bits.rest == []
    ensures ReadBits(old(bits.rest), count).Some? ==>
      r == Some(ReadBits(old(bits.rest), count).value.value) && bits.rest == ReadBits(old(bits.rest), count).value.rest
  {
    ghost var start := bits.rest;
    var result := 0;
    for i := 0 to count
      invariant i <= |start| && bits.rest == start[i..] && result == BitsValue(start[..i])
    {
      var bit := bits.Next();
      if bit.None? {
        return None;
      }
      assert start[..i + 1][..i] == start[..i];
      result := 2 * result + Bit(bit.value);
    }
    r := Some(result);
  }

  method ParseBits(bits: BitStream, count: nat) returns (r: Result<nat, PacketError>)
    modifies bits
    ensures ReadBits(old(bits.rest), count).None? ==> r == Err(MoreBitsExpected)
    ensures ReadBits(old(bits.rest), count).Some? ==>
      r == Ok(ReadBits(old(bits.rest), count).value.value) && bits.rest == ReadBits(old(bits.rest), count).value.rest
  {
    var value := TryParseBits(bits, count);
    if value.None? {
      return Err(MoreBitsExpected);
    }
    r := Ok(value.value);
  }

  /** Takes the next `count` bits as they are. */
  method TakeBits(bits: BitStream, count: nat) returns (r: Result<Bits, PacketError>)
    modifies bits
    ensures |old(bits.rest)| < count ==> r == Err(MoreBitsExpected)
    ensures |old(bits.rest)| >= count ==> r == Ok(old(bits.rest)[..count]) && bits.rest == old(bits.rest)[count..]
  {
    ghost var start := bits.rest;
    var result: Bits := [];
    for i := 0 to count
      invariant i <= |start| && bits.rest == start[i..] && result == start[..i]
    {
      var bit := ParseBits(bits, 1);
      if bit.Err? {
        return Err(bit.error);
      }
      assert start[i..][..1] == [start[i]];
      assert [start[i]][..0] == [];
      result := result + [bit.value != 0];
      assert start[..i + 1] == start[..i] + [start[i]];
    }
    r := Ok(result);
  }

  // ---------------------------------------------------------------------
  // Decoding, as functions on bits

  /** A literal's groups of five bits, each adding its low four bits to
      `acc`, up to and including the first group whose leading bit is 0. */
  function LiteralFrom(acc: nat, bs: Bits): (r: Result<Decoded<nat>, PacketError>)
    ensures r.Ok? ==> |r.value.rest| < |bs|
    decreases |bs|
  {
    match ReadBits(bs, 5)
    case None => Err(MoreBitsExpected)
    case Some(Decoded(group, rest)) =>
      var value := 16 * acc + group % 16;
      if group >= 16 then LiteralFrom(value, rest) else Ok(Decoded(value, rest))
  }

  function DecodeLiteral(bs: Bits): (r: Result<Decoded<nat>, PacketError>)
    ensures r.Ok? ==> |r.value.rest| < |bs|
  {
    LiteralFrom(0, bs)
  }

  /** Prepends `values` to a decoded list. */
  function Prefixed(values: seq<nat>, d: Result<Decoded<seq<nat>>, PacketError>): Result<Decoded<seq<nat>>, PacketError>
  {
    match d
    case Err(e) => Err(e)
    case Ok(Decoded(vs, rest)) => Ok(Decoded(values + vs, rest))
  }

  /** A packet after its version: a type ID, then a literal or operands. */
  function DecodePacket(bs: Bits): (r: Result<Decoded<nat>, PacketError>)
    ensures r.Ok? ==> |r.value.rest| < |bs|
    decreases |bs|
  {
    match ReadBits(bs, 3)
    case None => Err(MoreBitsExpected)
    case Some(Decoded(typeId, rest)) =>
      if typeId == 4 then DecodeLiteral(rest)
      else
        match DecodeOperands(rest)
        case Err(e) => Err(e)
        case Ok(Decoded(operands, after)) =>
          match Operate(typeId, operands)
          case Err(e) => Err(e)
          case Ok(v) => Ok(Decoded(v, after))
  }

  /** The operands of an operator: after a 0, a 15-bit size and that many
      bits of packets; after a 1, an 11-bit count and that many packets. */
  function DecodeOperands(bs: Bits): (r: Result<Decoded<seq<nat>>, PacketError>)
    ensures r.Ok? ==> |r.value.rest| < |bs|
    decreases |bs|
  {
    match ReadBits(bs, 1)
    case None => Err(MoreBitsExpected)
    case Some(Decoded(lengthType, rest)) =>
      if lengthType == 0 then
        match ReadBits(rest, 15)
        case None => Err(MoreBitsExpected)
        case Some(Decoded(size, kids)) =>
          if |kids| < size then Err(MoreBitsExpected)
          else
            match DecodePackets(kids[..size])
            case Err(e) => Err(e)
            case Ok(Decoded(values, _)) => Ok(Decoded(values, kids[size..]))
      else
        match ReadBits(rest, 11)
        case None => Err(MoreBitsExpected)
        case Some(Decoded(count, packets)) => DecodeCount(packets, count)
  }

  /** `count` packets, each after its version. */
  function DecodeCount(bs: Bits, count: nat): (r: Result<Decoded<seq<nat>>, PacketError>)
    ensures r.Ok? ==> |r.value.rest| <= |bs|
    decreases |bs|
  {
    if count == 0 then Ok(Decoded([], bs))
    else
      match ReadBits(bs, 3)
      case None => Err(MoreBitsExpected)
      case Some(Decoded(_, rest)) =>
        match DecodePacket(rest)
        case Err(e) => Err(e)
        case Ok(Decoded(v, after)) => Prefixed([v], DecodeCount(after, count - 1))
  }

  /** Packets, each after its version, until fewer than three bits remain. */
  function DecodePackets(bs: Bits): (r: Result<Decoded<seq<nat>>, PacketError>)
    ensures r.Ok? ==> r.value.rest == []
    decreases |bs|
  {
    match ReadBits(bs, 3)
    case None => Ok(Decoded([], []))
    case Some(Decoded(_, rest)) =>
      match DecodePacket(rest)
      case Err(e) => Err(e)
      case Ok(Decoded(v, after)) => Prefixed([v], DecodePackets(after))
  }

  function Sum(xs: seq<nat>): nat
  {
    if xs == [] then 0 else xs[0] + Sum(xs[1..])
  }

  function Product(xs: seq<nat>): nat
  {
    if xs == [] then 1 else xs[0] * Product(xs[1..])
  }

  /** The least operand: one of them, and no greater than any. */
  function Min(xs: seq<nat>): (m: nat)
    requires xs != []
    ensures m in xs && forall x :: x in xs ==> m <= x
  {
    if |xs| == 1 then xs[0]
    else
      var m := Min(xs[1..]);
      assert forall x :: x in xs ==> x == xs[0] || x in xs[1..];
      if xs[0] <= m then xs[0] else m
  }

  /** The greatest operand: one of them, and no less than any. */
  function Max(xs: seq<nat>): (m: nat)
    requires xs != []
    ensures m in xs && forall x :: x in xs ==> x <= m
  {
    if |xs| == 1 then xs[0]
    else
      var m := Max(xs[1..]);
      assert forall x :: x in xs ==> x == xs[0] || x in xs[1..];
      if xs[0] >= m then xs[0] else m
  }

  /** What an operator computes from its operands: sum, product, minimum,
      maximum, or a 0/1 comparison of exactly two operands. */
  function Operate(typeId: nat, operands: seq<nat>): (r: Result<nat, PacketError>)
    ensures (typeId == 2 || typeId == 3) && operands == [] ==> r == Err(NeedsOperands(typeId))
    ensures 5 <= typeId <= 7 && |operands| != 2 ==> r == Err(NeedsTwoOperands(typeId))
    ensures typeId == 5 && |operands| == 2 ==> (r == Ok(1) <==> operands[0] > operands[1])
    ensures typeId == 6 && |operands| == 2 ==> (r == Ok(1) <==> operands[0] < operands[1])
    ensures typeId == 7 && |operands| == 2 ==> (r == Ok(1) <==> operands[0] == operands[1])
    ensures 5 <= typeId <= 7 && r.Ok? ==> r.value <= 1
    ensures r.Err? <==> (typeId == 4 || typeId > 7 || ((typeId == 2 || typeId == 3) && operands == [])
                         || (5 <= typeId <= 7 && |operands| != 2))
  {
    match typeId
    case 0 => Ok(Sum(operands))
    case 1 => Ok(Product(operands))
    case 2 => if operands == [] then Err(NeedsOperands(typeId)) else Ok(Min(operands))
    case 3 => if operands == [] then Err(NeedsOperands(typeId)) else Ok(Max(operands))
    case 5 => if |operands| == 2 then Ok(if operands[0] > operands[1] then 1 else 0) else Err(NeedsTwoOperands(typeId))
    case 6 => if |operands| == 2 then Ok(if operands[0] < operands[1] then 1 else 0) else Err(NeedsTwoOperands(typeId))
    case 7 => if |operands| == 2 then Ok(if operands[0] == operands[1] then 1 else 0) else Err(NeedsTwoOperands(typeId))
    case _ => Err(BadOperator(typeId))
  }

  lemma PrefixedNothing(d: Result<Decoded<seq<nat>>, PacketError>)
    ensures Prefixed([], d) == d
  {
    if d.Ok? {
      assert [] + d.value.value == d.value.value;
    }
  }

  lemma PrefixedTwice(a: seq<nat>, b: seq<nat>, d: Result<Decoded<seq<nat>>, PacketError>)
    ensures Prefixed(a, Prefixed(b, d)) == Prefixed(a + b, d)
  {
    if d.Ok? {
      assert a + (b + d.value.value) == a + b + d.value.value;
    }
  }

  /** The outcome of a method agrees with a decoding: the same value and the
      same bits left, or the same error. */
  ghost predicate Agrees<T>(r: Result<T, PacketError>, rest: Bits, d: Result<Decoded<T>, PacketError>)
  {
    match d
    case Ok(Decoded(v, after)) => r == Ok(v) && rest == after
    case Err(e) => r == Err(e)
  }

  // ---------------------------------------------------------------------
  // Evaluation, consuming the stream

  /** Reads the groups of a literal. */
  method EvalLiteral(bits: BitStream) returns (r: Result<nat, PacketError>)
    modifies bits
    ensures Agrees(r, bits.rest, DecodeLiteral(old(bits.rest)))
  {
    ghost var start := bits.rest;
    var nybble := ParseBits(bits, 5);
    if nybble.Err? {
      return Err(nybble.error);
    }
    var group := nybble.value;
    var result := group % 16;
    while group >= 16
      invariant LiteralFrom(0, start) == (if group >= 16 then LiteralFrom(result, bits.rest) else Ok(Decoded(result, bits.rest)))
      decreases |bits.rest|
    {
      nybble := ParseBits(bits, 5);
      if nybble.Err? {
        return Err(nybble.error);
      }
      group := nybble.value;
      result := 16 * result + group % 16;
    }
    r := Ok(result);
  }

  /** Evaluates a packet whose version has already been read. */
  method EvalPacket(bits: BitStream) returns (r: Result<nat, PacketError>)
    modifies bits
    ensures Agrees(r, bits.rest, DecodePacket(old(bits.rest)))
    decreases |bits.rest|, 1
  {
    var typeId := ParseBits(bits, 3);
    if typeId.Err? {
      return Err(typeId.error);
    }
    if typeId.value == 4 {
      r := EvalLiteral(bits);
      return;
    }
    var operands := EvalOperands(bits);
    if operands.Err? {
      return Err(operands.error);
    }
    r := Operate(typeId.value, operands.value);
  }

  /** Evaluates the operands of an operator. */
  method EvalOperands(bits: BitStream) returns (r: Result<seq<nat>, PacketError>)
    modifies bits
    ensures Agrees(r, bits.rest, DecodeOperands(old(bits.rest)))
    decreases |bits.rest|, 0
  {
    ghost var s0 := bits.rest;
    var lengthType := ParseBits(bits, 1);
    if lengthType.Err? {
      return Err(lengthType.error);
    }
    if lengthType.value == 0 {
      var size := ParseBits(bits, 15);
      if size.Err? {
        return Err(size.error);
      }
      var kids := TakeBits(bits, size.value);
      if kids.Err? {
        return Err(kids.error);
      }
      var kidStream := new BitStream(kids.value);
      r := EvalPackets(kidStream);
      return;
    }
    var count := ParseBits(bits, 11);
    if count.Err? {
      return Err(count.error);
    }
    assert DecodeOperands(s0) == DecodeCount(bits.rest, count.value);
    r := EvalCount(bits, count.value);
  }

  /** Evaluates `count` packets, each after its version. */
  method EvalCount(bits: BitStream, count: nat) returns (r: Result<seq<nat>, PacketError>)
    modifies bits
    ensures Agrees(r, bits.rest, DecodeCount(old(bits.rest), count))
    decreases |bits.rest|, 2
  {
    ghost var start := bits.rest;
    var operands: seq<nat> := [];
    PrefixedNothing(DecodeCount(start, count));
    for i := 0 to count
      invariant |bits.rest| <= |start|
      invariant DecodeCount(start, count) == Prefixed(operands, DecodeCount(bits.rest, count - i))
    {
      var version := ParseBits(bits, 3);
      if version.Err? {
        return Err(version.error);
      }
      var value := EvalPacket(bits);
      if value.Err? {
        return Err(value.error);
      }
      PrefixedTwice(operands, [value.value], DecodeCount(bits.rest, count - i - 1));
      operands := operands + [value.value];
    }
    assert operands + [] == operands;
    r := Ok(operands);
  }

  /** Evaluates packets until fewer than three bits remain. */
  method EvalPackets(bits: BitStream) returns (r: Result<seq<nat>, PacketError>)
    modifies bits
    ensures Agrees(r, bits.rest, DecodePackets(old(bits.rest)))
    decreases |bits.rest|, 2
  {
    ghost var start := bits.rest;
    var results: seq<nat> := [];
    PrefixedNothing(DecodePackets(start));
    while true
      invariant |bits.rest| <= |start|
      invariant DecodePackets(start) == Prefixed(results, DecodePackets(bits.rest))
      decreases |bits.rest|
    {
      var version := TryParseBits(bits, 3);
      if version.None? {
        assert results + [] == results;
        return Ok(results);
      }
      var value := EvalPacket(bits);
      if value.Err? {
        return Err(value.error);
      }
      PrefixedTwice(results, [value.value], DecodePackets(bits.rest));
      results := results + [value.value];
    }
  }

  /** The value of the outermost packet: its version, then the packet. */
  function SolveBits(bits: Bits): Result<nat, PacketError>
  {
    match ReadBits(bits, 3)
    case None => Err(MoreBitsExpected)
    case Some(Decoded(_, rest)) =>
      match DecodePacket(rest)
      case Err(e) => Err(e)
      case Ok(Decoded(v, _)) => Ok(v)
  }

  /** Evaluates the outermost packet of the transmission. */
  method Solve(bits: Bits) returns (r: Result<nat, PacketError>)
    ensures r == SolveBits(bits)
  {
    var stream := new BitStream(bits);
    var version := ParseBits(stream, 3);
    if version.Err? {
      return Err(version.error);
    }
    r := EvalPacket(stream);
  }

  // ---------------------------------------------------------------------
  // Packets as data, and what they are worth

  /** A packet: its version, then a literal given by its groups of four
      bits, or an operator whose operands are announced by count or by size
      in bits. */
  datatype Packet =
    | Literal(version: nat, groups: seq<nat>)
    | Operator(version: nat, typeId: nat, byCount: bool, subs: seq<Packet>)

  /** The groups of a literal, each continuing the number `acc`. */
  function GroupsValue(acc: nat, groups: seq<nat>): nat
    decreases |groups|
  {
    if groups == [] then acc else GroupsValue(16 * acc + groups[0] % 16, groups[1..])
  }

  /** What a packet is worth; operands are evaluated in order and the first
      failure is the packet's failure. */
  function Value(p: Packet): Result<nat, PacketError>
  {
    match p
    case Literal(_, groups) => Ok(GroupsValue(0, groups))
    case Operator(_, typeId, _, subs) =>
      match Values(subs)
      case Err(e) => Err(e)
      case Ok(vs) => Operate(typeId, vs)
  }

  function Values(subs: seq<Packet>): Result<seq<nat>, PacketError>
  {
    if subs == [] then Ok([])
    else
      match Value(subs[0])
      case Err(e) => Err(e)
      case Ok(v) =>
        match Values(subs[1..])
        case Err(e) => Err(e)
        case Ok(vs) => Ok([v] + vs)
  }

  /** Each group after a bit saying whether another group follows. */
  function EncodeGroups(groups: seq<nat>): Bits
    decreases |groups|
  {
    if groups == [] then [] else [|groups| > 1] + ToBits(groups[0], 4) + EncodeGroups(groups[1..])
  }

  /** The bits of a packet, version first. */
  function Encode(p: Packet): Bits
    decreases p, 1
  {
    ToBits(p.version, 3) + Body(p)
  }

  /** The bits of a packet after its version. */
  function Body(p: Packet): Bits
    decreases p, 0
  {
    match p
    case Literal(_, groups) => ToBits(4, 3) + EncodeGroups(groups)
    case Operator(_, typeId, byCount, subs) => ToBits(typeId, 3) + EncodeOperands(byCount, subs)
  }

  /** The operands of an operator: a count or a size, then the packets. */
  function EncodeOperands(byCount: bool, subs: seq<Packet>): Bits
    decreases subs, 1
  {
    var body := EncodeAll(subs);
    if byCount then [true] + ToBits(|subs|, 11) + body else [false] + ToBits(|body|, 15) + body
  }

  function EncodeAll(subs: seq<Packet>): Bits
    decreases subs, 0
  {
    if subs == [] then [] else Encode(subs[0]) + EncodeAll(subs[1..])
  }

  /** A packet that can be written: three-bit versions and type IDs, at
      least one four-bit group, and a count or size that fits its field. */
  predicate WellFormed(p: Packet)
  {
    p.version < 8 &&
    match p
    case Literal(_, groups) => groups != [] && forall i :: 0 <= i < |groups| ==> groups[i] < 16
    case Operator(_, typeId, byCount, subs) =>
      typeId < 8 && typeId != 4 && (forall i :: 0 <= i < |subs| ==> WellFormed(subs[i]))
      && (if byCount then |subs| < Pow2(11) else |EncodeAll(subs)| < Pow2(15))
  }

  function Lift<T>(r: Result<T, PacketError>, rest: Bits): Result<Decoded<T>, PacketError>
  {
    match r
    case Ok(v) => Ok(Decoded(v, rest))
    case Err(e) => Err(e)
  }

  lemma ReadGroup(more: bool, g: nat, rest: Bits)
    requires g < 16
    ensures ReadBits([more] + ToBits(g, 4) + rest, 5) == Some(Decoded((16 * Bit(more) + g) as nat, rest))
  {
    var head := [more] + ToBits(g, 4);
    var bs := head + rest;
    assert bs[..5] == head && bs[5..] == rest;
    Concat4([more], ToBits(g, 4));
    assert [more][..0] == [];
  }

  /** One group of a literal: its low four bits join the number, and its
      high bit says whether another group follows. */
  lemma LiteralStep(acc: nat, more: bool, g: nat, after: Bits)
    requires g < 16
    ensures LiteralFrom(acc, [more] + ToBits(g, 4) + after) ==
      if more then LiteralFrom(16 * acc + g, after) else Ok(Decoded(16 * acc + g, after))
  {
    var group := 16 * Bit(more) + g;
    ReadGroup(more, g, after);
    assert group % 16 == g by {
      DivModUnique(group, 16, Bit(more), g);
    }
  }

  /** Decoding the groups of a literal gives back the number they spell. */
  lemma {:induction false} DecodeGroups(acc: nat, groups: seq<nat>, rest: Bits)
    requires groups != [] && forall i :: 0 <= i < |groups| ==> groups[i] < 16
    ensures LiteralFrom(acc, EncodeGroups(groups) + rest) == Ok(Decoded(GroupsValue(acc, groups), rest))
    decreases |groups|
  {
    var more, g := |groups| > 1, groups[0];
    var after := EncodeGroups(groups[1..]) + rest;
    assert EncodeGroups(groups) + rest == [more] + ToBits(g, 4) + after by {
      var head := [more] + ToBits(g, 4);
      assert EncodeGroups(groups) == head + EncodeGroups(groups[1..]);
      Assoc(head, EncodeGroups(groups[1..]), rest);
    }
    LiteralStep(acc, more, g, after);
    assert GroupsValue(acc, groups) == GroupsValue(16 * acc + g, groups[1..]) by {
      DivModUnique(g, 16, 0, g);
    }
    if more {
      DecodeGroups(16 * acc + g, groups[1..], rest);
    } else {
      assert groups[1..] == [];
    }
  }

  /** Decoding the bits of a well-formed packet after its version, whatever
      follows them, consumes exactly those bits and gives the packet's
      value, or the error evaluating it meets. */
  lemma {:induction false} DecodeBody(p: Packet, rest: Bits)
    requires WellFormed(p)
    ensures DecodePacket(Body(p) + rest) == Lift(Value(p), rest)
    decreases p, 3
  {
    if p.Literal? {
      DecodeLiteralBody(p, rest);
    } else {
      DecodeOperatorBody(p, rest);
    }
  }

  lemma DecodeLiteralBody(p: Packet, rest: Bits)
    requires p.Literal? && WellFormed(p)
    ensures DecodePacket(Body(p) + rest) == Ok(Decoded(GroupsValue(0, p.groups), rest))
  {
    var groups := EncodeGroups(p.groups);
    assert Body(p) + rest == ToBits(4, 3) + (groups + rest);
    ReadToBits(4, 3, groups + rest);
    DecodeGroups(0, p.groups, rest);
  }

  lemma {:induction false} DecodeOperatorBody(p: Packet, rest: Bits)
    requires p.Operator? && WellFormed(p)
    ensures DecodePacket(Body(p) + rest) == Lift(Value(p), rest)
    decreases p, 2
  {
    var operands := EncodeOperands(p.byCount, p.subs);
    assert Body(p) + rest == ToBits(p.typeId, 3) + (operands + rest);
    ReadToBits(p.typeId, 3, operands + rest);
    DecodeEncodeOperands(p.byCount, p.subs, rest);
  }

  lemma {:induction false} DecodeEncodeOperands(byCount: bool, subs: seq<Packet>, rest: Bits)
    requires forall i :: 0 <= i < |subs| ==> WellFormed(subs[i])
    requires if byCount then |subs| < Pow2(11) else |EncodeAll(subs)| < Pow2(15)
    ensures DecodeOperands(EncodeOperands(byCount, subs) + rest) == Lift(Values(subs), rest)
    decreases subs, 2
  {
    if byCount {
      OperandsByCount(subs, rest);
    } else {
      OperandsBySize(subs, rest);
    }
  }

  lemma {:induction false} OperandsByCount(subs: seq<Packet>, rest: Bits)
    requires (forall i :: 0 <= i < |subs| ==> WellFormed(subs[i])) && |subs| < Pow2(11)
    ensures DecodeOperands([true] + ToBits(|subs|, 11) + EncodeAll(subs) + rest) == Lift(Values(subs), rest)
    decreases subs, 1
  {
    var body := EncodeAll(subs) + rest;
    assert [true] + ToBits(|subs|, 11) + EncodeAll(subs) + rest == ToBits(1, 1) + (ToBits(|subs|, 11) + body);
    ReadToBits(1, 1, ToBits(|subs|, 11) + body);
    ReadToBits(|subs|, 11, body);
    DecodeCountEncode(subs, rest);
  }

  lemma {:induction false} OperandsBySize(subs: seq<Packet>, rest: Bits)
    requires (forall i :: 0 <= i < |subs| ==> WellFormed(subs[i])) && |EncodeAll(subs)| < Pow2(15)
    ensures DecodeOperands([false] + ToBits(|EncodeAll(subs)|, 15) + EncodeAll(subs) + rest) == Lift(Values(subs), rest)
    decreases subs, 1
  {
    DecodeSized(EncodeAll(subs), rest);
    DecodePacketsEncode(subs);
  }

  /** The decoded packets of `d`, now followed by `rest`. */
  function Refollowed(d: Result<Decoded<seq<nat>>, PacketError>, rest: Bits): Result<Decoded<seq<nat>>, PacketError>
  {
    match d
    case Err(e) => Err(e)
    case Ok(Decoded(values, _)) => Ok(Decoded(values, rest))
  }

  /** Operands given by size decode the sized bits on their own and leave
      whatever follows them. */
  lemma DecodeSized(body: Bits, rest: Bits)
    requires |body| < Pow2(15)
    ensures DecodeOperands([false] + ToBits(|body|, 15) + body + rest) == Refollowed(DecodePackets(body), rest)
  {
    var size := |body|;
    var sized := ToBits(size, 15) + (body + rest);
    var bs := [false] + ToBits(size, 15) + body + rest;
    assert bs == ToBits(0, 1) + sized by {
      assert ToBits(0, 1) == [false];
      Regroup3([false], ToBits(size, 15), body, rest);
    }
    assert ReadBits(bs, 1) == Some(Decoded(0, sized)) by {
      ReadToBits(0, 1, sized);
    }
    assert ReadBits(sized, 15) == Some(Decoded(size, body + rest)) by {
      ReadToBits(size, 15, body + rest);
    }
    assert (body + rest)[..size] == body && (body + rest)[size..] == rest;
  }

  /** Evaluating a list of packets is evaluating the first and then the
      others. */
  lemma ValuesCons(subs: seq<Packet>, rest: Bits)
    requires subs != [] && Value(subs[0]).Ok?
    ensures Lift(Values(subs), rest) == Prefixed([Value(subs[0]).value], Lift(Values(subs[1..]), rest))
  {
  }

  /** The first of some packets starts with its version. */
  lemma SplitFirst(subs: seq<Packet>, rest: Bits)
    requires subs != [] && subs[0].version < 8
    ensures ReadBits(EncodeAll(subs) + rest, 3) == Some(Decoded(subs[0].version, Body(subs[0]) + (EncodeAll(subs[1..]) + rest)))
  {
    var version, body, others := ToBits(subs[0].version, 3), Body(subs[0]), EncodeAll(subs[1..]);
    assert EncodeAll(subs) == version + body + others;
    Regroup3(version, body, others, rest);
    ReadToBits(subs[0].version, 3, body + (others + rest));
  }

  lemma Assoc(a: Bits, b: Bits, c: Bits)
    ensures a + b + c == a + (b + c)
  {
  }

  lemma Regroup3(a: Bits, b: Bits, c: Bits, d: Bits)
    ensures a + b + c + d == a + (b + (c + d))
  {
  }

  lemma WellFormedTail(subs: seq<Packet>)
    requires subs != [] && forall i :: 0 <= i < |subs| ==> WellFormed(subs[i])
    ensures forall i :: 0 <= i < |subs| - 1 ==> WellFormed(subs[1..][i])
  {
    assert forall i :: 0 <= i < |subs| - 1 ==> subs[1..][i] == subs[i + 1];
  }

  /** Counted packets decode to their values in order. */
  lemma {:induction false} DecodeCountEncode(subs: seq<Packet>, rest: Bits)
    requires forall i :: 0 <= i < |subs| ==> WellFormed(subs[i])
    ensures DecodeCount(EncodeAll(subs) + rest, |subs|) == Lift(Values(subs), rest)
    decreases subs, 0
  {
    if subs != [] {
      var bs, after := EncodeAll(subs) + rest, EncodeAll(subs[1..]) + rest;
      SplitFirst(subs, rest);
      DecodeBody(subs[0], after);
      if Value(subs[0]).Ok? {
        WellFormedTail(subs);
        DecodeCountEncode(subs[1..], rest);
        assert DecodeCount(bs, |subs|) == Prefixed([Value(subs[0]).value], DecodeCount(after, |subs[1..]|));
        ValuesCons(subs, rest);
      } else {
        assert DecodeCount(bs, |subs|) == Err(Value(subs[0]).error);
      }
    } else {
      assert EncodeAll(subs) + rest == rest;
    }
  }

  /** Packets filling a size exactly decode to their values in order. */
  lemma {:induction false} DecodePacketsEncode(subs: seq<Packet>)
    requires forall i :: 0 <= i < |subs| ==> WellFormed(subs[i])
    ensures DecodePackets(EncodeAll(subs)) == Lift(Values(subs), [])
    decreases subs, 0
  {
    if subs != [] {
      var bs, after := EncodeAll(subs), EncodeAll(subs[1..]);
      SplitFirst(subs, []);
      assert bs + [] == bs && after + [] == after;
      assert ReadBits(bs, 3) == Some(Decoded(subs[0].version, Body(subs[0]) + after));
      DecodeBody(subs[0], after);
      if Value(subs[0]).Ok? {
        WellFormedTail(subs);
        DecodePacketsEncode(subs[1..]);
        assert DecodePackets(bs) == Prefixed([Value(subs[0]).value], DecodePackets(after));
        ValuesCons(subs, []);
      } else {
        assert DecodePackets(bs) == Err(Value(subs[0]).error);
      }
    } else {
      assert EncodeAll(subs) == [];
      assert ReadBits([], 3) == None;
    }
  }

  /** The answer for a transmission holding one well-formed packet, and
      any padding after it, is that packet's value. */
  lemma SolveEncode(p: Packet, padding: Bits)
    requires WellFormed(p)
    ensures SolveBits(Encode(p) + padding) == Value(p)
  {
    ReadVersion(p, padding);
    DecodeBody(p, padding);
    SolveLifted(Encode(p) + padding, p.version, Body(p) + padding, Value(p), padding);
  }

  lemma ReadVersion(p: Packet, padding: Bits)
    requires p.version < 8
    ensures ReadBits(Encode(p) + padding, 3) == Some(Decoded(p.version, Body(p) + padding))
  {
    assert Encode(p) + padding == ToBits(p.version, 3) + (Body(p) + padding);
    ReadToBits(p.version, 3, Body(p) + padding);
  }

  lemma SolveLifted(bits: Bits, version: nat, rest: Bits, r: Result<nat, PacketError>, padding: Bits)
    requires ReadBits(bits, 3) == Some(Decoded(version, rest))
    requires DecodePacket(rest) == Lift(r, padding)
    ensures SolveBits(bits) == r
  {
  }
}
