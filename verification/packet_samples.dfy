/** The transmissions of the tests of 2021/src/bin/day16.rs, worked through
    the decoder of `Packets`: the values they evaluate to. */
module PacketSamples {
  import opened Outcomes
  import opened Arithmetic
  import opened Packets
  import opened PacketText

  // ---------------------------------------------------------------------
  // Packets

  /** Bits that spell a packet followed by `zeros` clear bits hold that
      packet's value. */
  lemma SolvesPadded(bits: Bits, p: Packet, zeros: nat, m: nat)
    requires WellFormed(p) && m == Pow2(zeros)
    requires |bits| == |Encode(p)| + zeros && BitsValue(bits) == BitsValue(Encode(p)) * m
    ensures SolveBits(bits) == Value(p)
  {
    var padding := ToBits(0, zeros);
    BitsConcat(Encode(p), padding);
    BitsInjective(bits, Encode(p) + padding);
    SolveEncode(p, padding);
  }

  /** Bits of value `x` followed by bits of value `y`. */
  lemma JoinValue(a: Bits, x: nat, b: Bits, y: nat)
    requires BitsValue(a) == x && BitsValue(b) == y
    ensures BitsValue(a + b) == x * Pow2(|b|) + y
  {
    BitsConcat(a, b);
  }

  /** `JoinValue` with the power of two and the sum given. */
  lemma JoinAt(a: Bits, x: int, b: Bits, y: int, m: int, z: int)
    requires BitsValue(a) == x && BitsValue(b) == y && m == Pow2(|b|) && z == x * m + y
    ensures BitsValue(a + b) == z
  {
    BitsConcat(a, b);
  }

  /** A version and a type ID, three bits each. */
  lemma HeadValue(version: nat, typeId: nat)
    requires version < 8 && typeId < 8
    ensures BitsValue(ToBits(version, 3) + ToBits(typeId, 3)) == 8 * version + typeId
  {
    Pow2Byte();
    JoinAt(ToBits(version, 3), version, ToBits(typeId, 3), typeId, 8, 8 * version + typeId);
  }

  /** The bits of a single group. */
  lemma OneGroup(g: nat)
    requires g < 16
    ensures |EncodeGroups([g])| == 5 && BitsValue(EncodeGroups([g])) == g && GroupsValue(0, [g]) == g
  {
    var gs := [g];
    assert gs[1..] == [];
    assert EncodeGroups(gs) == [false] + ToBits(g, 4) + [];
    assert [false] + ToBits(g, 4) + [] == [false] + ToBits(g, 4);
    Concat4([false], ToBits(g, 4));
    assert [false][..0] == [];
    assert g % 16 == g by {
      DivModUnique(g, 16, 0, g);
    }
  }

  /** A literal of one group. */
  lemma SingleGroup(p: Packet, version: nat, g: nat)
    requires p == Literal(version, [g]) && version < 8 && g < 16
    ensures WellFormed(p) && Value(p) == Ok(g)
    ensures |Encode(p)| == 11 && BitsValue(Encode(p)) == 32 * (8 * version + 4) + g
  {
    OneGroup(g);
    var v, t, gs := ToBits(version, 3), ToBits(4, 3), EncodeGroups([g]);
    assert Encode(p) == v + (t + gs);
    Assoc(v, t, gs);
    HeadValue(version, 4);
    Pow2Byte();
    JoinAt(v + t, 8 * version + 4, gs, g, 32, 32 * (8 * version + 4) + g);
  }

  /** The flag and the version and type ID before it. */
  lemma FlagValue(version: nat, typeId: nat, flag: bool)
    requires version < 8 && typeId < 8
    ensures BitsValue(ToBits(version, 3) + ToBits(typeId, 3) + [flag]) == 16 * version + 2 * typeId + Bit(flag)
  {
    HeadValue(version, typeId);
    Pow2Byte();
    assert [flag][..0] == [];
    JoinAt(ToBits(version, 3) + ToBits(typeId, 3), 8 * version + typeId, [flag], Bit(flag), 2, 16 * version + 2 * typeId + Bit(flag));
  }

  /** The bits of an operator packet in the order they are written. */
  lemma OperatorLayout(p: Packet, size: Bits)
    requires p.Operator?
    requires size == if p.byCount then ToBits(|p.subs|, 11) else ToBits(|EncodeAll(p.subs)|, 15)
    ensures Encode(p) == ToBits(p.version, 3) + ToBits(p.typeId, 3) + [p.byCount] + size + EncodeAll(p.subs)
    ensures |Encode(p)| == 7 + |size| + |EncodeAll(p.subs)|
  {
    var v, t, flag, body := ToBits(p.version, 3), ToBits(p.typeId, 3), [p.byCount], EncodeAll(p.subs);
    var ops := EncodeOperands(p.byCount, p.subs);
    assert Encode(p) == v + (t + ops);
    assert ops == flag + size + body;
    Assoc(v, t, ops);
    Assoc(v + t, flag + size, body);
    Assoc(v + t, flag, size);
  }

  /** An operator packet whose operands are known: whether it is well
      formed, its value, its length and the number its bits spell. */
  lemma OperatorCode(version: nat, typeId: nat, byCount: bool, subs: seq<Packet>, w: nat, x: int, values: seq<nat>,
                     n: nat, width: nat, m: int, sv: nat, head: int, top: int, mw: int, y: int)
    requires version < 8 && typeId < 8 && typeId != 4 && forall i :: 0 <= i < |subs| ==> WellFormed(subs[i])
    requires |EncodeAll(subs)| == w && BitsValue(EncodeAll(subs)) == x
    requires Values(subs) == Ok(values) && Operate(typeId, values) == Ok(n)
    requires width == (if byCount then 11 else 15) && m == Pow2(width)
    requires sv == (if byCount then |subs| else w) && sv < m
    requires head == 16 * version + 2 * typeId + Bit(byCount) && top == head * m + sv
    requires mw == Pow2(w) && y == top * mw + x
    ensures WellFormed(Operator(version, typeId, byCount, subs)) && Value(Operator(version, typeId, byCount, subs)) == Ok(n)
    ensures |Encode(Operator(version, typeId, byCount, subs))| == 7 + width + w
    ensures BitsValue(Encode(Operator(version, typeId, byCount, subs))) == y
  {
    var p := Operator(version, typeId, byCount, subs);
    OperatorMeaning(p, w, values, n, width, m, sv);
    var size := ToBits(sv, width);
    OperatorLayout(p, size);
    FrontValue(version, typeId, byCount, size, sv, m, head, top);
    JoinAt(ToBits(version, 3) + ToBits(typeId, 3) + [byCount] + size, top, EncodeAll(subs), x, mw, y);
  }

  /** The number spelt by the head and the size field of an operator packet. */
  lemma FrontValue(version: nat, typeId: nat, byCount: bool, size: Bits, sv: int, m: int, head: int, top: int)
    requires version < 8 && typeId < 8 && BitsValue(size) == sv && m == Pow2(|size|)
    requires head == 16 * version + 2 * typeId + Bit(byCount) && top == head * m + sv
    ensures BitsValue(ToBits(version, 3) + ToBits(typeId, 3) + [byCount] + size) == top
  {
    FlagValue(version, typeId, byCount);
    JoinAt(ToBits(version, 3) + ToBits(typeId, 3) + [byCount], head, size, sv, m, top);
  }

  lemma OperatorMeaning(p: Packet, w: nat, values: seq<nat>, n: nat, width: nat, m: int, sv: nat)
    requires p.Operator? && p.version < 8 && p.typeId < 8 && p.typeId != 4
    requires forall i :: 0 <= i < |p.subs| ==> WellFormed(p.subs[i])
    requires |EncodeAll(p.subs)| == w && Values(p.subs) == Ok(values) && Operate(p.typeId, values) == Ok(n)
    requires width == (if p.byCount then 11 else 15) && m == Pow2(width)
    requires sv == (if p.byCount then |p.subs| else w) && sv < m
    ensures WellFormed(p) && Value(p) == Ok(n)
  {
  }

  /** Two packets in a row. */
  lemma PairEncode(a: Packet, b: Packet)
    ensures EncodeAll([a, b]) == Encode(a) + Encode(b)
  {
    assert [a, b][1..] == [b] && [b][1..] == [];
    assert EncodeAll([b]) == Encode(b) + [] == Encode(b);
  }

  lemma PairValues(a: Packet, b: Packet, na: nat, nb: nat)
    requires Value(a) == Ok(na) && Value(b) == Ok(nb)
    ensures Values([a, b]) == Ok([na, nb])
  {
    assert [a, b][1..] == [b] && [b][1..] == [];
    assert Values([b]) == Ok([nb] + []) && [nb] + [] == [nb] && [na] + [nb] == [na, nb];
  }

  lemma PairWellFormed(a: Packet, b: Packet)
    requires WellFormed(a) && WellFormed(b)
    ensures forall i :: 0 <= i < |[a, b]| ==> WellFormed([a, b][i])
  {
    forall i | 0 <= i < |[a, b]|
      ensures WellFormed([a, b][i])
    {
      if i == 0 {
        assert [a, b][i] == a;
      } else {
        assert [a, b][i] == b;
      }
    }
  }

  lemma TripleWellFormed(a: Packet, b: Packet, c: Packet)
    requires WellFormed(a) && WellFormed(b) && WellFormed(c)
    ensures forall i :: 0 <= i < |[a, b, c]| ==> WellFormed([a, b, c][i])
  {
    forall i | 0 <= i < |[a, b, c]|
      ensures WellFormed([a, b, c][i])
    {
      if i == 0 {
        assert [a, b, c][i] == a;
      } else if i == 1 {
        assert [a, b, c][i] == b;
      } else {
        assert [a, b, c][i] == c;
      }
    }
  }

  /** Three packets in a row. */
  lemma TripleEncode(a: Packet, b: Packet, c: Packet)
    ensures EncodeAll([a, b, c]) == Encode(a) + (Encode(b) + Encode(c))
  {
    PairEncode(b, c);
    assert [a, b, c][1..] == [b, c];
  }

  lemma TripleValues(a: Packet, b: Packet, c: Packet, na: nat, nb: nat, nc: nat)
    requires Value(a) == Ok(na) && Value(b) == Ok(nb) && Value(c) == Ok(nc)
    ensures Values([a, b, c]) == Ok([na, nb, nc])
  {
    PairValues(b, c, nb, nc);
    assert [a, b, c][1..] == [b, c] && [na] + [nb, nc] == [na, nb, nc];
  }

  /** An operator over two packets. */
  lemma PairOperator(version: nat, typeId: nat, byCount: bool, a: Packet, b: Packet, na: nat, nb: nat, n: nat,
                     w: int, x: int, width: int, m: int, sv: int, head: int, top: int, mw: int, y: int)
    requires version < 8 && typeId < 8 && typeId != 4
    requires WellFormed(a) && WellFormed(b) && Value(a) == Ok(na) && Value(b) == Ok(nb)
    requires |Encode(a)| + |Encode(b)| == w && BitsValue(Encode(a) + Encode(b)) == x
    requires Operate(typeId, [na, nb]) == Ok(n)
    requires width == (if byCount then 11 else 15) && m == Pow2(width)
    requires sv == (if byCount then 2 else w) && sv < m
    requires head == 16 * version + 2 * typeId + Bit(byCount) && top == head * m + sv
    requires mw == Pow2(w) && y == top * mw + x
    ensures WellFormed(Operator(version, typeId, byCount, [a, b]))
    ensures Value(Operator(version, typeId, byCount, [a, b])) == Ok(n)
    ensures |Encode(Operator(version, typeId, byCount, [a, b]))| == 7 + width + w
    ensures BitsValue(Encode(Operator(version, typeId, byCount, [a, b]))) == y
  {
    PairEncode(a, b);
    PairValues(a, b, na, nb);
    PairWellFormed(a, b);
    OperatorCode(version, typeId, byCount, [a, b], w, x, [na, nb], n, width, m, sv, head, top, mw, y);
  }

  /** An operator over three packets. */
  lemma TripleOperator(version: nat, typeId: nat, byCount: bool, a: Packet, b: Packet, c: Packet, na: nat, nb: nat, nc: nat,
                       n: nat, w: int, x: int, width: int, m: int, sv: int, head: int, top: int, mw: int, y: int)
    requires version < 8 && typeId < 8 && typeId != 4
    requires WellFormed(a) && WellFormed(b) && WellFormed(c)
    requires Value(a) == Ok(na) && Value(b) == Ok(nb) && Value(c) == Ok(nc)
    requires |Encode(a)| + |Encode(b)| + |Encode(c)| == w && BitsValue(Encode(a) + (Encode(b) + Encode(c))) == x
    requires Operate(typeId, [na, nb, nc]) == Ok(n)
    requires width == (if byCount then 11 else 15) && m == Pow2(width)
    requires sv == (if byCount then 3 else w) && sv < m
    requires head == 16 * version + 2 * typeId + Bit(byCount) && top == head * m + sv
    requires mw == Pow2(w) && y == top * mw + x
    ensures WellFormed(Operator(version, typeId, byCount, [a, b, c]))
    ensures Value(Operator(version, typeId, byCount, [a, b, c])) == Ok(n)
    ensures |Encode(Operator(version, typeId, byCount, [a, b, c]))| == 7 + width + w
    ensures BitsValue(Encode(Operator(version, typeId, byCount, [a, b, c]))) == y
  {
    TripleEncode(a, b, c);
    TripleValues(a, b, c, na, nb, nc);
    TripleWellFormed(a, b, c);
    OperatorCode(version, typeId, byCount, [a, b, c], w, x, [na, nb, nc], n, width, m, sv, head, top, mw, y);
  }

  /** Three runs of bits in a row. */
  lemma TripleBits(a: Bits, xa: int, b: Bits, xb: int, c: Bits, xc: int, mc: int, yc: int, mbc: int, x: int)
    requires BitsValue(a) == xa && BitsValue(b) == xb && BitsValue(c) == xc
    requires mc == Pow2(|c|) && yc == xb * mc + xc && mbc == Pow2(|b + c|) && x == xa * mbc + yc
    ensures BitsValue(a + (b + c)) == x
  {
    JoinAt(b, xb, c, xc, mc, yc);
    JoinAt(a, xa, b + c, yc, mbc, x);
  }

  /** The operations over two operands. */
  lemma PairFolds(a: nat, b: nat)
    ensures Sum([a, b]) == a + b && Product([a, b]) == a * b
    ensures Min([a, b]) == (if a <= b then a else b) && Max([a, b]) == (if a >= b then a else b)
  {
    assert [a, b][1..] == [b] && [b][1..] == [];
    assert Sum([b]) == b && Product([b]) == b && Min([b]) == b && Max([b]) == b;
  }

  /** The operations over three operands. */
  lemma TripleFolds(a: nat, b: nat, c: nat)
    ensures Sum([a, b, c]) == a + b + c && Product([a, b, c]) == a * (b * c)
    ensures Min([a, b, c]) == (if a <= b && a <= c then a else if b <= c then b else c)
    ensures Max([a, b, c]) == (if a >= b && a >= c then a else if b >= c then b else c)
  {
    PairFolds(b, c);
    assert [a, b, c][1..] == [b, c];
  }

  /** `C200B40A82` finds the sum of 1 and 2 (2021/src/bin/day16.rs:266). */
  lemma SumSample(s: string)
    requires s == "C200B40A82"
    ensures HexBits(s).Ok? && SolveBits(HexBits(s).value) == Ok(3)
  {
    SumText(s);
    var k := [6, 0, 6, 1, 2, 2];
    var q2 := Literal(k[4], [k[5]]);
    var q1 := Literal(k[2], [k[3]]);
    var p := Operator(k[0], k[1], true, [q1, q2]);
    SumPacket(p, q1, q2, [6, 0, 6, 1, 2, 2]);
    Pow2Byte();
    SolvesPadded(HexBits(s).value, p, 0, 1);
  }

  lemma SumText(s: string)
    requires s == "C200B40A82"
    ensures HexBits(s).Ok? && |HexBits(s).value| == 40 && BitsValue(HexBits(s).value) == 833235454594
  {
    Pow2Fields();
    Pow2Byte();
    assert s == "C200" + "B40A" + "82";
    HexQuad("C200", 12, 2, 0, 0);
    HexQuad("B40A", 11, 4, 0, 10);
    HexJoinAt("C200", 49664, "B40A", 46090, 65536, 3254825994);
    HexPair("82", 8, 2);
    HexJoinAt("C200" + "B40A", 3254825994, "82", 130, 256, 833235454594);
    HexText(s, 833235454594);
  }

  lemma SumPacket(p: Packet, q1: Packet, q2: Packet, k: seq<nat>)
    requires k == [6, 0, 6, 1, 2, 2]
    requires p == Operator(k[0], k[1], true, [q1, q2])
    requires q1 == Literal(k[2], [k[3]])
    requires q2 == Literal(k[4], [k[5]])
    ensures WellFormed(p) && Value(p) == Ok(3)
    ensures |Encode(p)| == 40 && BitsValue(Encode(p)) == 833235454594
  {
    Pow2Fields();
    Pow2Byte();
    Pow2Add(5, 1, 32, 2);
    Pow2Add(16, 6, 65536, 64);
    SingleGroup(q1, k[2], k[3]);
    SingleGroup(q2, k[4], k[5]);
    PairFolds(1, 2);
    JoinAt(Encode(q1), 1665, Encode(q2), 642, 2048, 3410562);
    PairOperator(6, 0, true, q1, q2, 1, 2, 3, 22, 3410562, 11, 2048, 2, 97, 198658, 4194304, 833235454594);
  }

  /** `04005AC33890` finds the product of 6 and 9 (2021/src/bin/day16.rs:267). */
  lemma ProductSample(s: string)
    requires s == "04005AC33890"
    ensures HexBits(s).Ok? && SolveBits(HexBits(s).value) == Ok(54)
  {
    ProductText(s);
    var k := [0, 1, 5, 6, 3, 9];
    var q2 := Literal(k[4], [k[5]]);
    var q1 := Literal(k[2], [k[3]]);
    var p := Operator(k[0], k[1], false, [q1, q2]);
    ProductPacket(p, q1, q2, [0, 1, 5, 6, 3, 9]);
    Pow2Byte();
    SolvesPadded(HexBits(s).value, p, 4, 16);
  }

  lemma ProductText(s: string)
    requires s == "04005AC33890"
    ensures HexBits(s).Ok? && |HexBits(s).value| == 48 && BitsValue(HexBits(s).value) == 4399569254544
  {
    Pow2Fields();
    assert s == "0400" + "5AC3" + "3890";
    HexQuad("0400", 0, 4, 0, 0);
    HexQuad("5AC3", 5, 10, 12, 3);
    HexJoinAt("0400", 1024, "5AC3", 23235, 65536, 67132099);
    HexQuad("3890", 3, 8, 9, 0);
    HexJoinAt("0400" + "5AC3", 67132099, "3890", 14480, 65536, 4399569254544);
    HexText(s, 4399569254544);
  }

  lemma ProductPacket(p: Packet, q1: Packet, q2: Packet, k: seq<nat>)
    requires k == [0, 1, 5, 6, 3, 9]
    requires p == Operator(k[0], k[1], false, [q1, q2])
    requires q1 == Literal(k[2], [k[3]])
    requires q2 == Literal(k[4], [k[5]])
    ensures WellFormed(p) && Value(p) == Ok(54)
    ensures |Encode(p)| == 44 && BitsValue(Encode(p)) == 274973078409
  {
    Pow2Fields();
    Pow2Byte();
    Pow2Add(5, 1, 32, 2);
    Pow2Add(16, 6, 65536, 64);
    SingleGroup(q1, k[2], k[3]);
    SingleGroup(q2, k[4], k[5]);
    PairFolds(6, 9);
    JoinAt(Encode(q1), 1414, Encode(q2), 905, 2048, 2896777);
    PairOperator(0, 1, false, q1, q2, 6, 9, 54, 22, 2896777, 15, 32768, 22, 2, 65558, 4194304, 274973078409);
  }

  /** `880086C3E88112` finds the minimum of 7, 8 and 9 (2021/src/bin/day16.rs:268). */
  lemma MinimumSample(s: string)
    requires s == "880086C3E88112"
    ensures HexBits(s).Ok? && SolveBits(HexBits(s).value) == Ok(7)
  {
    MinimumText(s);
    var k := [4, 2, 5, 7, 6, 8, 0, 9];
    var q3 := Literal(k[6], [k[7]]);
    var q2 := Literal(k[4], [k[5]]);
    var q1 := Literal(k[2], [k[3]]);
    var p := Operator(k[0], k[1], false, [q1, q2, q3]);
    MinimumPacket(p, q1, q2, q3, [4, 2, 5, 7, 6, 8, 0, 9]);
    Pow2Byte();
    SolvesPadded(HexBits(s).value, p, 1, 2);
  }

  lemma MinimumText(s: string)
    requires s == "880086C3E88112"
    ensures HexBits(s).Ok? && |HexBits(s).value| == 56 && BitsValue(HexBits(s).value) == 38281175645061394
  {
    Pow2Fields();
    Pow2Byte();
    assert s == "8800" + "86C3" + "E881" + "12";
    HexQuad("8800", 8, 8, 0, 0);
    HexQuad("86C3", 8, 6, 12, 3);
    HexJoinAt("8800", 34816, "86C3", 34499, 65536, 2281735875);
    HexQuad("E881", 14, 8, 8, 1);
    HexJoinAt("8800" + "86C3", 2281735875, "E881", 59521, 65536, 149535842363521);
    HexPair("12", 1, 2);
    HexJoinAt("8800" + "86C3" + "E881", 149535842363521, "12", 18, 256, 38281175645061394);
    HexText(s, 38281175645061394);
  }

  lemma MinimumPacket(p: Packet, q1: Packet, q2: Packet, q3: Packet, k: seq<nat>)
    requires k == [4, 2, 5, 7, 6, 8, 0, 9]
    requires p == Operator(k[0], k[1], false, [q1, q2, q3])
    requires q1 == Literal(k[2], [k[3]])
    requires q2 == Literal(k[4], [k[5]])
    requires q3 == Literal(k[6], [k[7]])
    ensures WellFormed(p) && Value(p) == Ok(7)
    ensures |Encode(p)| == 55 && BitsValue(Encode(p)) == 19140587822530697
  {
    Pow2Fields();
    Pow2Byte();
    Pow2Add(16, 1, 65536, 2);
    Pow2Add(16, 17, 65536, 131072);
    Pow2Add(17, 5, 131072, 32);
    SingleGroup(q1, k[2], k[3]);
    SingleGroup(q2, k[4], k[5]);
    SingleGroup(q3, k[6], k[7]);
    TripleFolds(7, 8, 9);
    TripleBits(Encode(q1), 1415, Encode(q2), 1672, Encode(q3), 137, 2048, 3424393, 4194304, 5938364553);
    TripleOperator(4, 2, false, q1, q2, q3, 7, 8, 9, 7, 33, 5938364553, 15, 32768, 33, 68, 2228257, 8589934592, 19140587822530697);
  }

  /** `CE00C43D881120` finds the maximum of 7, 8 and 9 (2021/src/bin/day16.rs:269). */
  lemma MaximumSample(s: string)
    requires s == "CE00C43D881120"
    ensures HexBits(s).Ok? && SolveBits(HexBits(s).value) == Ok(9)
  {
    MaximumText(s);
    var k := [6, 3, 0, 7, 5, 8, 0, 9];
    var q3 := Literal(k[6], [k[7]]);
    var q2 := Literal(k[4], [k[5]]);
    var q1 := Literal(k[2], [k[3]]);
    var p := Operator(k[0], k[1], true, [q1, q2, q3]);
    MaximumPacket(p, q1, q2, q3, [6, 3, 0, 7, 5, 8, 0, 9]);
    Pow2Byte();
    SolvesPadded(HexBits(s).value, p, 5, 32);
  }

  lemma MaximumText(s: string)
    requires s == "CE00C43D881120"
    ensures HexBits(s).Ok? && |HexBits(s).value| == 56 && BitsValue(HexBits(s).value) == 57984688048312608
  {
    Pow2Fields();
    Pow2Byte();
    assert s == "CE00" + "C43D" + "8811" + "20";
    HexQuad("CE00", 12, 14, 0, 0);
    HexQuad("C43D", 12, 4, 3, 13);
    HexJoinAt("CE00", 52736, "C43D", 50237, 65536, 3456156733);
    HexQuad("8811", 8, 8, 1, 1);
    HexJoinAt("CE00" + "C43D", 3456156733, "8811", 34833, 65536, 226502687688721);
    HexPair("20", 2, 0);
    HexJoinAt("CE00" + "C43D" + "8811", 226502687688721, "20", 32, 256, 57984688048312608);
    HexText(s, 57984688048312608);
  }

  lemma MaximumPacket(p: Packet, q1: Packet, q2: Packet, q3: Packet, k: seq<nat>)
    requires k == [6, 3, 0, 7, 5, 8, 0, 9]
    requires p == Operator(k[0], k[1], true, [q1, q2, q3])
    requires q1 == Literal(k[2], [k[3]])
    requires q2 == Literal(k[4], [k[5]])
    requires q3 == Literal(k[6], [k[7]])
    ensures WellFormed(p) && Value(p) == Ok(9)
    ensures |Encode(p)| == 51 && BitsValue(Encode(p)) == 1812021501509769
  {
    Pow2Fields();
    Pow2Byte();
    Pow2Add(16, 1, 65536, 2);
    Pow2Add(16, 17, 65536, 131072);
    Pow2Add(17, 5, 131072, 32);
    SingleGroup(q1, k[2], k[3]);
    SingleGroup(q2, k[4], k[5]);
    SingleGroup(q3, k[6], k[7]);
    TripleFolds(7, 8, 9);
    TripleBits(Encode(q1), 135, Encode(q2), 1416, Encode(q3), 137, 2048, 2900105, 4194304, 569131145);
    TripleOperator(6, 3, true, q1, q2, q3, 7, 8, 9, 9, 33, 569131145, 11, 2048, 3, 103, 210947, 8589934592, 1812021501509769);
  }

  /** `D8005AC2A8F0` gives 1, because 5 is less than 15 (2021/src/bin/day16.rs:270). */
  lemma LessSample(s: string)
    requires s == "D8005AC2A8F0"
    ensures HexBits(s).Ok? && SolveBits(HexBits(s).value) == Ok(1)
  {
    LessText(s);
    var k := [6, 6, 5, 5, 2, 15];
    var q2 := Literal(k[4], [k[5]]);
    var q1 := Literal(k[2], [k[3]]);
    var p := Operator(k[0], k[1], false, [q1, q2]);
    LessPacket(p, q1, q2, [6, 6, 5, 5, 2, 15]);
    Pow2Byte();
    SolvesPadded(HexBits(s).value, p, 4, 16);
  }

  lemma LessText(s: string)
    requires s == "D8005AC2A8F0"
    ensures HexBits(s).Ok? && |HexBits(s).value| == 48 && BitsValue(HexBits(s).value) == 237496034306288
  {
    Pow2Fields();
    assert s == "D800" + "5AC2" + "A8F0";
    HexQuad("D800", 13, 8, 0, 0);
    HexQuad("5AC2", 5, 10, 12, 2);
    HexJoinAt("D800", 55296, "5AC2", 23234, 65536, 3623901890);
    HexQuad("A8F0", 10, 8, 15, 0);
    HexJoinAt("D800" + "5AC2", 3623901890, "A8F0", 43248, 65536, 237496034306288);
    HexText(s, 237496034306288);
  }

  lemma LessPacket(p: Packet, q1: Packet, q2: Packet, k: seq<nat>)
    requires k == [6, 6, 5, 5, 2, 15]
    requires p == Operator(k[0], k[1], false, [q1, q2])
    requires q1 == Literal(k[2], [k[3]])
    requires q2 == Literal(k[4], [k[5]])
    ensures WellFormed(p) && Value(p) == Ok(1)
    ensures |Encode(p)| == 44 && BitsValue(Encode(p)) == 14843502144143
  {
    Pow2Fields();
    Pow2Byte();
    Pow2Add(5, 1, 32, 2);
    Pow2Add(16, 6, 65536, 64);
    SingleGroup(q1, k[2], k[3]);
    SingleGroup(q2, k[4], k[5]);
    PairFolds(5, 15);
    JoinAt(Encode(q1), 1413, Encode(q2), 655, 2048, 2894479);
    PairOperator(6, 6, false, q1, q2, 5, 15, 1, 22, 2894479, 15, 32768, 22, 108, 3538966, 4194304, 14843502144143);
  }

  /** `F600BC2D8F` gives 0, because 5 is not greater than 15 (2021/src/bin/day16.rs:271). */
  lemma GreaterSample(s: string)
    requires s == "F600BC2D8F"
    ensures HexBits(s).Ok? && SolveBits(HexBits(s).value) == Ok(0)
  {
    GreaterText(s);
    var k := [7, 5, 7, 5, 5, 15];
    var q2 := Literal(k[4], [k[5]]);
    var q1 := Literal(k[2], [k[3]]);
    var p := Operator(k[0], k[1], true, [q1, q2]);
    GreaterPacket(p, q1, q2, [7, 5, 7, 5, 5, 15]);
    Pow2Byte();
    SolvesPadded(HexBits(s).value, p, 0, 1);
  }

  lemma GreaterText(s: string)
    requires s == "F600BC2D8F"
    ensures HexBits(s).Ok? && |HexBits(s).value| == 40 && BitsValue(HexBits(s).value) == 1056574287247
  {
    Pow2Fields();
    Pow2Byte();
    assert s == "F600" + "BC2D" + "8F";
    HexQuad("F600", 15, 6, 0, 0);
    HexQuad("BC2D", 11, 12, 2, 13);
    HexJoinAt("F600", 62976, "BC2D", 48173, 65536, 4127243309);
    HexPair("8F", 8, 15);
    HexJoinAt("F600" + "BC2D", 4127243309, "8F", 143, 256, 1056574287247);
    HexText(s, 1056574287247);
  }

  lemma GreaterPacket(p: Packet, q1: Packet, q2: Packet, k: seq<nat>)
    requires k == [7, 5, 7, 5, 5, 15]
    requires p == Operator(k[0], k[1], true, [q1, q2])
    requires q1 == Literal(k[2], [k[3]])
    requires q2 == Literal(k[4], [k[5]])
    ensures WellFormed(p) && Value(p) == Ok(0)
    ensures |Encode(p)| == 40 && BitsValue(Encode(p)) == 1056574287247
  {
    Pow2Fields();
    Pow2Byte();
    Pow2Add(5, 1, 32, 2);
    Pow2Add(16, 6, 65536, 64);
    SingleGroup(q1, k[2], k[3]);
    SingleGroup(q2, k[4], k[5]);
    PairFolds(5, 15);
    JoinAt(Encode(q1), 1925, Encode(q2), 1423, 2048, 3943823);
    PairOperator(7, 5, true, q1, q2, 5, 15, 0, 22, 3943823, 11, 2048, 2, 123, 251906, 4194304, 1056574287247);
  }

  /** `9C005AC2F8F0` gives 0, because 5 is not equal to 15 (2021/src/bin/day16.rs:272). */
  lemma EqualSample(s: string)
    requires s == "9C005AC2F8F0"
    ensures HexBits(s).Ok? && SolveBits(HexBits(s).value) == Ok(0)
  {
    EqualText(s);
    var k := [4, 7, 5, 5, 7, 15];
    var q2 := Literal(k[4], [k[5]]);
    var q1 := Literal(k[2], [k[3]]);
    var p := Operator(k[0], k[1], false, [q1, q2]);
    EqualPacket(p, q1, q2, [4, 7, 5, 5, 7, 15]);
    Pow2Byte();
    SolvesPadded(HexBits(s).value, p, 4, 16);
  }

  lemma EqualText(s: string)
    requires s == "9C005AC2F8F0"
    ensures HexBits(s).Ok? && |HexBits(s).value| == 48 && BitsValue(HexBits(s).value) == 171525336660208
  {
    Pow2Fields();
    assert s == "9C00" + "5AC2" + "F8F0";
    HexQuad("9C00", 9, 12, 0, 0);
    HexQuad("5AC2", 5, 10, 12, 2);
    HexJoinAt("9C00", 39936, "5AC2", 23234, 65536, 2617268930);
    HexQuad("F8F0", 15, 8, 15, 0);
    HexJoinAt("9C00" + "5AC2", 2617268930, "F8F0", 63728, 65536, 171525336660208);
    HexText(s, 171525336660208);
  }

  lemma EqualPacket(p: Packet, q1: Packet, q2: Packet, k: seq<nat>)
    requires k == [4, 7, 5, 5, 7, 15]
    requires p == Operator(k[0], k[1], false, [q1, q2])
    requires q1 == Literal(k[2], [k[3]])
    requires q2 == Literal(k[4], [k[5]])
    ensures WellFormed(p) && Value(p) == Ok(0)
    ensures |Encode(p)| == 44 && BitsValue(Encode(p)) == 10720333541263
  {
    Pow2Fields();
    Pow2Byte();
    Pow2Add(5, 1, 32, 2);
    Pow2Add(16, 6, 65536, 64);
    SingleGroup(q1, k[2], k[3]);
    SingleGroup(q2, k[4], k[5]);
    PairFolds(5, 15);
    JoinAt(Encode(q1), 1413, Encode(q2), 1935, 2048, 2895759);
    PairOperator(4, 7, false, q1, q2, 5, 15, 0, 22, 2895759, 15, 32768, 22, 78, 2555926, 4194304, 10720333541263);
  }

  /** `9C0141080250320F1802104A08` gives 1, because 1 + 3 equals 2 * 2 (2021/src/bin/day16.rs:273). */
  lemma NestedSample(s: string)
    requires s == "9C0141080250320F1802104A08"
    ensures HexBits(s).Ok? && SolveBits(HexBits(s).value) == Ok(1)
  {
    NestedText(s);
    var k := [4, 7, 2, 0, 2, 1, 4, 3, 6, 1, 0, 2, 2, 2];
    var q6 := Literal(k[12], [k[13]]);
    var q5 := Literal(k[10], [k[11]]);
    var q4 := Operator(k[8], k[9], true, [q5, q6]);
    var q3 := Literal(k[6], [k[7]]);
    var q2 := Literal(k[4], [k[5]]);
    var q1 := Operator(k[2], k[3], true, [q2, q3]);
    var p := Operator(k[0], k[1], false, [q1, q4]);
    NestedOperand1(q1, q2, q3, [2, 0, 2, 1, 4, 3]);
    NestedOperand2(q4, q5, q6, [6, 1, 0, 2, 2, 2]);
    NestedPacket(p, q1, q4, [4, 7]);
    Pow2Byte();
    SolvesPadded(HexBits(s).value, p, 2, 4);
  }

  lemma NestedText(s: string)
    requires s == "9C0141080250320F1802104A08"
    ensures HexBits(s).Ok? && |HexBits(s).value| == 104 && BitsValue(HexBits(s).value) == 12359981455234937009530175769096
  {
    var head, tail := "9C0141080250", "320F1802104A08";
    assert s == head + tail;
    NestedTextHead(head);
    NestedTextTail(tail);
    Pow2Fields();
    Pow2Byte();
    Pow2Add(16, 8, 65536, 256);
    Pow2Add(16, 24, 65536, 16777216);
    Pow2Add(16, 40, 65536, 1099511627776);
    HexJoinAt(head, 171529199944272, tail, 14090344623786504, 72057594037927936, 12359981455234937009530175769096);
    HexText(s, 12359981455234937009530175769096);
  }

  lemma NestedTextHead(s: string)
    requires s == "9C0141080250"
    ensures HexNumber(s) == 171529199944272 && forall k :: 0 <= k < |s| ==> HexDigit(s[k]).Some?
  {
    Pow2Fields();
    assert s == "9C01" + "4108" + "0250";
    HexQuad("9C01", 9, 12, 0, 1);
    HexQuad("4108", 4, 1, 0, 8);
    HexJoinAt("9C01", 39937, "4108", 16648, 65536, 2617327880);
    HexQuad("0250", 0, 2, 5, 0);
    HexJoinAt("9C01" + "4108", 2617327880, "0250", 592, 65536, 171529199944272);
  }

  lemma NestedTextTail(s: string)
    requires s == "320F1802104A08"
    ensures HexNumber(s) == 14090344623786504 && forall k :: 0 <= k < |s| ==> HexDigit(s[k]).Some?
  {
    Pow2Fields();
    Pow2Byte();
    assert s == "320F" + "1802" + "104A" + "08";
    HexQuad("320F", 3, 2, 0, 15);
    HexQuad("1802", 1, 8, 0, 2);
    HexJoinAt("320F", 12815, "1802", 6146, 65536, 839849986);
    HexQuad("104A", 1, 0, 4, 10);
    HexJoinAt("320F" + "1802", 839849986, "104A", 4170, 65536, 55040408686666);
    HexPair("08", 0, 8);
    HexJoinAt("320F" + "1802" + "104A", 55040408686666, "08", 8, 256, 14090344623786504);
  }

  lemma NestedOperand1(q1: Packet, q2: Packet, q3: Packet, k: seq<nat>)
    requires k == [2, 0, 2, 1, 4, 3]
    requires q1 == Operator(k[0], k[1], true, [q2, q3])
    requires q2 == Literal(k[2], [k[3]])
    requires q3 == Literal(k[4], [k[5]])
    ensures WellFormed(q1) && Value(q1) == Ok(4)
    ensures |Encode(q1)| == 40 && BitsValue(Encode(q1)) == 283477544067
  {
    Pow2Fields();
    Pow2Byte();
    Pow2Add(5, 1, 32, 2);
    Pow2Add(16, 6, 65536, 64);
    SingleGroup(q2, k[2], k[3]);
    SingleGroup(q3, k[4], k[5]);
    PairFolds(1, 3);
    JoinAt(Encode(q2), 641, Encode(q3), 1155, 2048, 1313923);
    PairOperator(2, 0, true, q2, q3, 1, 3, 4, 22, 1313923, 11, 2048, 2, 33, 67586, 4194304, 283477544067);
  }

  lemma NestedOperand2(q4: Packet, q5: Packet, q6: Packet, k: seq<nat>)
    requires k == [6, 1, 0, 2, 2, 2]
    requires q4 == Operator(k[0], k[1], true, [q5, q6])
    requires q5 == Literal(k[2], [k[3]])
    requires q6 == Literal(k[4], [k[5]])
    ensures WellFormed(q4) && Value(q4) == Ok(4)
    ensures |Encode(q4)| == 40 && BitsValue(Encode(q4)) == 850412180098
  {
    Pow2Fields();
    Pow2Byte();
    Pow2Add(5, 1, 32, 2);
    Pow2Add(16, 6, 65536, 64);
    SingleGroup(q5, k[2], k[3]);
    SingleGroup(q6, k[4], k[5]);
    PairFolds(2, 2);
    JoinAt(Encode(q5), 130, Encode(q6), 642, 2048, 266882);
    PairOperator(6, 1, true, q5, q6, 2, 2, 4, 22, 266882, 11, 2048, 2, 99, 202754, 4194304, 850412180098);
  }

  lemma NestedPacket(p: Packet, q1: Packet, q4: Packet, k: seq<nat>)
    requires k == [4, 7]
    requires p == Operator(k[0], k[1], false, [q1, q4])
    requires WellFormed(q1) && Value(q1) == Ok(4)
    requires |Encode(q1)| == 40 && BitsValue(Encode(q1)) == 283477544067
    requires WellFormed(q4) && Value(q4) == Ok(4)
    requires |Encode(q4)| == 40 && BitsValue(Encode(q4)) == 850412180098
    ensures WellFormed(p) && Value(p) == Ok(1)
    ensures |Encode(p)| == 102 && BitsValue(Encode(p)) == 3089995363808734252382543942274
  {
    Pow2Fields();
    Pow2Add(16, 16, 65536, 65536);
    Pow2Add(16, 32, 65536, 4294967296);
    Pow2Add(16, 48, 65536, 281474976710656);
    Pow2Add(16, 64, 65536, 18446744073709551616);
    Pow2Byte();
    Pow2Add(32, 8, 4294967296, 256);
    PairFolds(4, 4);
    JoinAt(Encode(q1), 283477544067, Encode(q4), 850412180098, 1099511627776, 311686855915900353385090);
    PairOperator(4, 7, false, q1, q4, 4, 4, 1, 80, 311686855915900353385090, 15, 32768, 80, 78, 2555984, 1208925819614629174706176, 3089995363808734252382543942274);
  }
}
