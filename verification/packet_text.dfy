/** The texts of the tests of 2021/src/bin/day16.rs: the bits that
    hexadecimal text spells, and the '0's and '1's `bit_string` shows for
    them. */
module PacketText {
  import opened Outcomes
  import opened Arithmetic
  import opened Packets

  // ---------------------------------------------------------------------
  // Powers of two

  lemma {:induction false} Pow2Sum(m: nat, n: nat)
    ensures Pow2(m + n) == Pow2(m) * Pow2(n)
    decreases n
  {
    if n > 0 {
      Pow2Sum(m, n - 1);
      assert Pow2(m + n) == 2 * Pow2(m + n - 1);
    }
  }

  lemma Pow2Add(m: nat, n: nat, a: int, b: int)
    requires Pow2(m) == a && Pow2(n) == b
    ensures Pow2(m + n) == a * b
  {
    Pow2Sum(m, n);
  }

  lemma Pow2Next(n: nat, a: nat)
    requires Pow2(n) == a
    ensures Pow2(n + 1) == 2 * a
  {
  }

  /** The powers of two up to a byte. */
  lemma Pow2Byte()
    ensures Pow2(0) == 1 && Pow2(1) == 2 && Pow2(2) == 4 && Pow2(3) == 8
    ensures Pow2(4) == 16 && Pow2(5) == 32 && Pow2(8) == 256
  {
    Pow2Next(0, 1);
    Pow2Next(1, 2);
    Pow2Next(2, 4);
    Pow2Next(3, 8);
    Pow2Next(4, 16);
    Pow2Add(4, 4, 16, 16);
  }

  /** The widths of the count and size fields, and of four hexadecimal
      digits. */
  lemma Pow2Fields()
    ensures Pow2(11) == 2048 && Pow2(15) == 32768 && Pow2(16) == 65536
  {
    Pow2Byte();
    Pow2Add(8, 3, 256, 8);
    Pow2Add(11, 4, 2048, 16);
    Pow2Add(8, 8, 256, 256);
  }

  // ---------------------------------------------------------------------
  // Text

  /** `bit_string`: a '1' for each set bit and a '0' for each clear one. */
  function BitString(bits: Bits): (r: string)
    ensures |r| == |bits|
    ensures forall k :: 0 <= k < |bits| ==> (r[k] == '0' || r[k] == '1') && (r[k] == '1' <==> bits[k])
  {
    seq(|bits|, k requires 0 <= k < |bits| => if bits[k] then '1' else '0')
  }

  /** A text of '0's and '1's. */
  predicate IsBinary(t: string)
  {
    forall k :: 0 <= k < |t| ==> t[k] == '0' || t[k] == '1'
  }

  /** The number a text of '0's and '1's spells, most significant first. */
  function BinaryNumber(t: string): nat
    decreases |t|
  {
    if t == [] then 0 else 2 * BinaryNumber(t[..|t| - 1]) + Digit(t[|t| - 1])
  }

  /** Bits of the same length and value are the same bits. */
  lemma BitsInjective(a: Bits, b: Bits)
    requires |a| == |b| && BitsValue(a) == BitsValue(b)
    ensures a == b
  {
    ToBitsOfValue(a);
    ToBitsOfValue(b);
  }

  /** The text of '0's and '1's that spells the value of some bits, in as
      many characters, is their `bit_string`. */
  lemma {:induction false} BitStringIs(bits: Bits, t: string)
    requires |t| == |bits| && IsBinary(t) && BinaryNumber(t) == BitsValue(bits)
    ensures BitString(bits) == t
    decreases |t|
  {
    if t != [] {
      var n := |t| - 1;
      var x, y := Bit(bits[n]), Digit(t[n]);
      assert 2 * BitsValue(bits[..n]) + x == 2 * BinaryNumber(t[..n]) + y;
      assert IsBinary(t[..n]);
      BitStringIs(bits[..n], t[..n]);
      assert BitString(bits) == BitString(bits[..n]) + [t[n]];
      assert t == t[..n] + [t[n]];
    }
  }

  /** What a binary digit counts for. */
  function Digit(c: char): nat
  {
    if c == '1' then 1 else 0
  }

  /** A binary digit more doubles what the text before it spells and adds
      the digit. */
  lemma BinaryPrefix(t: string, i: nat)
    requires i < |t|
    ensures BinaryNumber(t[..i + 1]) == 2 * BinaryNumber(t[..i]) + Digit(t[i])
  {
    assert t[..i + 1][..i] == t[..i];
  }

  /** The number eight binary digits spell. */
  lemma Octet(t: string)
    requires |t| == 8
    ensures BinaryNumber(t) == 128 * Digit(t[0]) + 64 * Digit(t[1]) + 32 * Digit(t[2]) + 16 * Digit(t[3])
                               + 8 * Digit(t[4]) + 4 * Digit(t[5]) + 2 * Digit(t[6]) + Digit(t[7])
  {
    assert t[..0] == [];
    BinaryPrefix(t, 0);
    BinaryPrefix(t, 1);
    BinaryPrefix(t, 2);
    BinaryPrefix(t, 3);
    BinaryPrefix(t, 4);
    BinaryPrefix(t, 5);
    BinaryPrefix(t, 6);
    BinaryPrefix(t, 7);
    assert t[..8] == t;
  }

  /** Binary text followed by more binary text. */
  lemma {:induction false} BinaryJoin(a: string, x: nat, b: string, y: nat, m: nat, z: nat)
    requires BinaryNumber(a) == x && BinaryNumber(b) == y && m == Pow2(|b|) && z == x * m + y
    ensures BinaryNumber(a + b) == z
    decreases |b|
  {
    if b == [] {
      assert a + b == a;
    } else {
      var init := b[..|b| - 1];
      var d := Digit(b[|b| - 1]);
      assert (a + b)[..|a + b| - 1] == a + init;
      assert (a + b)[|a + b| - 1] == b[|b| - 1];
      BinaryJoin(a, x, init, BinaryNumber(init), Pow2(|init|), x * Pow2(|init|) + BinaryNumber(init));
      ShiftBit(x, Pow2(|init|), BinaryNumber(init), d);
    }
  }

  /** `BinaryJoin`, keeping the text binary. */
  lemma BinaryJoinAt(a: string, x: nat, b: string, y: nat, m: nat, z: nat)
    requires IsBinary(a) && IsBinary(b)
    requires BinaryNumber(a) == x && BinaryNumber(b) == y && m == Pow2(|b|) && z == x * m + y
    ensures IsBinary(a + b) && BinaryNumber(a + b) == z
  {
    BinaryJoin(a, x, b, y, m, z);
  }

  lemma ShiftBit(x: nat, m: nat, h: nat, d: nat)
    ensures 2 * (x * m + h) + d == x * (2 * m) + (2 * h + d)
  {
  }

  /** One more hexadecimal digit of a text multiplies what the text before
      it spells by sixteen and adds the digit. */
  lemma HexPrefix(s: string, i: nat, d: nat)
    requires i < |s| && HexDigit(s[i]) == Some(d)
    ensures HexNumber(s[..i + 1]) == 16 * HexNumber(s[..i]) + d
  {
    assert s[..i + 1][..i] == s[..i];
  }

  /** Four digits of hexadecimal text. */
  lemma HexQuad(s: string, d0: nat, d1: nat, d2: nat, d3: nat)
    requires |s| == 4 && HexDigit(s[0]) == Some(d0) && HexDigit(s[1]) == Some(d1)
    requires HexDigit(s[2]) == Some(d2) && HexDigit(s[3]) == Some(d3)
    ensures HexNumber(s) == 4096 * d0 + 256 * d1 + 16 * d2 + d3
    ensures forall k :: 0 <= k < |s| ==> HexDigit(s[k]).Some?
  {
    assert s[..0] == [];
    HexPrefix(s, 0, d0);
    HexPrefix(s, 1, d1);
    HexPrefix(s, 2, d2);
    HexPrefix(s, 3, d3);
    assert s[..4] == s;
    forall k | 0 <= k < |s|
      ensures HexDigit(s[k]).Some?
    {
      assert k == 0 || k == 1 || k == 2 || k == 3;
    }
  }

  /** Two digits of hexadecimal text. */
  lemma HexPair(s: string, d0: nat, d1: nat)
    requires |s| == 2 && HexDigit(s[0]) == Some(d0) && HexDigit(s[1]) == Some(d1)
    ensures HexNumber(s) == 16 * d0 + d1
    ensures forall k :: 0 <= k < |s| ==> HexDigit(s[k]).Some?
  {
    assert s[..0] == [];
    HexPrefix(s, 0, d0);
    HexPrefix(s, 1, d1);
    assert s[..2] == s;
    forall k | 0 <= k < |s|
      ensures HexDigit(s[k]).Some?
    {
      assert k == 0 || k == 1;
    }
  }

  /** Hexadecimal text followed by more hexadecimal text. */
  lemma {:induction false} HexJoin(a: string, x: nat, b: string, y: nat)
    requires HexNumber(a) == x && forall k :: 0 <= k < |a| ==> HexDigit(a[k]).Some?
    requires HexNumber(b) == y && forall k :: 0 <= k < |b| ==> HexDigit(b[k]).Some?
    ensures HexNumber(a + b) == x * Pow2(4 * |b|) + y
    ensures forall k :: 0 <= k < |a + b| ==> HexDigit((a + b)[k]).Some?
    decreases |b|
  {
    if b == [] {
      assert a + b == a;
    } else {
      var init := b[..|b| - 1];
      assert (a + b)[..|a + b| - 1] == a + init;
      assert (a + b)[|a + b| - 1] == b[|b| - 1];
      HexJoin(a, x, init, HexNumber(init));
      var d := match HexDigit(b[|b| - 1]) case Some(d) => d case None => 0;
      Pow2Nibble(4 * |init|);
      ShiftDigit(x, Pow2(4 * |init|), HexNumber(init), d);
    }
  }

  /** `HexJoin` with the power of two and the sum given. */
  lemma HexJoinAt(a: string, x: nat, b: string, y: nat, m: nat, z: nat)
    requires HexNumber(a) == x && forall k :: 0 <= k < |a| ==> HexDigit(a[k]).Some?
    requires HexNumber(b) == y && forall k :: 0 <= k < |b| ==> HexDigit(b[k]).Some?
    requires m == Pow2(4 * |b|) && z == x * m + y
    ensures HexNumber(a + b) == z
    ensures forall k :: 0 <= k < |a + b| ==> HexDigit((a + b)[k]).Some?
  {
    HexJoin(a, x, b, y);
  }

  lemma Pow2Nibble(n: nat)
    ensures Pow2(n + 4) == 16 * Pow2(n)
  {
    assert Pow2(n + 4) == 2 * Pow2(n + 3) && Pow2(n + 3) == 2 * Pow2(n + 2) && Pow2(n + 2) == 2 * Pow2(n + 1);
  }

  lemma ShiftDigit(x: nat, m: nat, h: nat, d: nat)
    ensures 16 * (x * m + h) + d == x * (16 * m) + (16 * h + d)
  {
  }

  /** Hexadecimal text of known value, read as bits. */
  lemma HexText(s: string, n: nat)
    requires HexNumber(s) == n && forall k :: 0 <= k < |s| ==> HexDigit(s[k]).Some?
    ensures HexBits(s).Ok? && |HexBits(s).value| == 4 * |s| && BitsValue(HexBits(s).value) == n
  {
    HexValue(s);
  }

  /** The bits of `D2FE28`, as `bit_string` shows them (2021/src/bin/day16.rs:289). */
  lemma ParseLiteralSample(s: string, t: string)
    requires s == "D2FE28"
    requires t == "110100101111111000101000"
    ensures HexBits(s).Ok? && BitString(HexBits(s).value) == t
  {
    ParseLiteralText(s);
    ParseLiteralBinary(t);
    BitStringIs(HexBits(s).value, t);
  }

  lemma ParseLiteralText(s: string)
    requires s == "D2FE28"
    ensures HexBits(s).Ok? && |HexBits(s).value| == 24 && BitsValue(HexBits(s).value) == 13827624
  {
    Pow2Byte();
    assert s == "D2FE" + "28";
    HexQuad("D2FE", 13, 2, 15, 14);
    HexPair("28", 2, 8);
    HexJoinAt("D2FE", 54014, "28", 40, 256, 13827624);
    HexText(s, 13827624);
  }

  lemma ParseLiteralBinary(t: string)
    requires t == "110100101111111000101000"
    ensures IsBinary(t) && BinaryNumber(t) == 13827624
  {
    var a, b := "1101001011111110", "00101000";
    ParseLiteralBinarySplit(t);
    ParseLiteralBinary16(a);
    Octet(b);
    assert IsBinary(b);
    Pow2Byte();
    BinaryJoinAt(a, 54014, b, 40, 256, 13827624);
  }

  lemma ParseLiteralBinarySplit(t: string)
    requires t == "110100101111111000101000"
    ensures t == "1101001011111110" + "00101000"
  {
  }

  lemma ParseLiteralBinary16(t: string)
    requires t == "1101001011111110"
    ensures IsBinary(t) && BinaryNumber(t) == 54014
  {
    var a, b := "11010010", "11111110";
    ParseLiteralBinary16Split(t);
    Octet(a);
    assert IsBinary(a);
    Octet(b);
    assert IsBinary(b);
    Pow2Byte();
    BinaryJoinAt(a, 210, b, 254, 256, 54014);
  }

  lemma ParseLiteralBinary16Split(t: string)
    requires t == "1101001011111110"
    ensures t == "11010010" + "11111110"
  {
  }

  /** The bits of `38006F45291200`, as `bit_string` shows them (2021/src/bin/day16.rs:290-293). */
  lemma ParseByLengthSample(s: string, t: string)
    requires s == "38006F45291200"
    requires t == "00111000000000000110111101000101001010010001001000000000"
    ensures HexBits(s).Ok? && BitString(HexBits(s).value) == t
  {
    ParseByLengthText(s);
    ParseByLengthBinary(t);
    BitStringIs(HexBits(s).value, t);
  }

  lemma ParseByLengthText(s: string)
    requires s == "38006F45291200"
    ensures HexBits(s).Ok? && |HexBits(s).value| == 56 && BitsValue(HexBits(s).value) == 15763076597486080
  {
    Pow2Fields();
    Pow2Byte();
    assert s == "3800" + "6F45" + "2912" + "00";
    HexQuad("3800", 3, 8, 0, 0);
    HexQuad("6F45", 6, 15, 4, 5);
    HexJoinAt("3800", 14336, "6F45", 28485, 65536, 939552581);
    HexQuad("2912", 2, 9, 1, 2);
    HexJoinAt("3800" + "6F45", 939552581, "2912", 10514, 65536, 61574517958930);
    HexPair("00", 0, 0);
    HexJoinAt("3800" + "6F45" + "2912", 61574517958930, "00", 0, 256, 15763076597486080);
    HexText(s, 15763076597486080);
  }

  lemma ParseByLengthBinary(t: string)
    requires t == "00111000000000000110111101000101001010010001001000000000"
    ensures IsBinary(t) && BinaryNumber(t) == 15763076597486080
  {
    var a, b := "001110000000000001101111010001010010100100010010", "00000000";
    ParseByLengthBinarySplit(t);
    ParseByLengthBinary48(a);
    Octet(b);
    assert IsBinary(b);
    Pow2Byte();
    BinaryJoinAt(a, 61574517958930, b, 0, 256, 15763076597486080);
  }

  lemma ParseByLengthBinarySplit(t: string)
    requires t == "00111000000000000110111101000101001010010001001000000000"
    ensures t == "001110000000000001101111010001010010100100010010" + "00000000"
  {
  }

  lemma ParseByLengthBinary48(t: string)
    requires t == "001110000000000001101111010001010010100100010010"
    ensures IsBinary(t) && BinaryNumber(t) == 61574517958930
  {
    var a, b := "0011100000000000011011110100010100101001", "00010010";
    ParseByLengthBinary48Split(t);
    ParseByLengthBinary40(a);
    Octet(b);
    assert IsBinary(b);
    Pow2Byte();
    BinaryJoinAt(a, 240525460777, b, 18, 256, 61574517958930);
  }

  lemma ParseByLengthBinary48Split(t: string)
    requires t == "001110000000000001101111010001010010100100010010"
    ensures t == "0011100000000000011011110100010100101001" + "00010010"
  {
  }

  lemma ParseByLengthBinary40(t: string)
    requires t == "0011100000000000011011110100010100101001"
    ensures IsBinary(t) && BinaryNumber(t) == 240525460777
  {
    var a, b := "00111000000000000110111101000101", "00101001";
    ParseByLengthBinary40Split(t);
    ParseByLengthBinary32(a);
    Octet(b);
    assert IsBinary(b);
    Pow2Byte();
    BinaryJoinAt(a, 939552581, b, 41, 256, 240525460777);
  }

  lemma ParseByLengthBinary40Split(t: string)
    requires t == "0011100000000000011011110100010100101001"
    ensures t == "00111000000000000110111101000101" + "00101001"
  {
  }

  lemma ParseByLengthBinary32(t: string)
    requires t == "00111000000000000110111101000101"
    ensures IsBinary(t) && BinaryNumber(t) == 939552581
  {
    var a, b := "001110000000000001101111", "01000101";
    ParseByLengthBinary32Split(t);
    ParseByLengthBinary24(a);
    Octet(b);
    assert IsBinary(b);
    Pow2Byte();
    BinaryJoinAt(a, 3670127, b, 69, 256, 939552581);
  }

  lemma ParseByLengthBinary32Split(t: string)
    requires t == "00111000000000000110111101000101"
    ensures t == "001110000000000001101111" + "01000101"
  {
  }

  lemma ParseByLengthBinary24(t: string)
    requires t == "001110000000000001101111"
    ensures IsBinary(t) && BinaryNumber(t) == 3670127
  {
    var a, b := "0011100000000000", "01101111";
    ParseByLengthBinary24Split(t);
    ParseByLengthBinary16(a);
    Octet(b);
    assert IsBinary(b);
    Pow2Byte();
    BinaryJoinAt(a, 14336, b, 111, 256, 3670127);
  }

  lemma ParseByLengthBinary24Split(t: string)
    requires t == "001110000000000001101111"
    ensures t == "0011100000000000" + "01101111"
  {
  }

  lemma ParseByLengthBinary16(t: string)
    requires t == "0011100000000000"
    ensures IsBinary(t) && BinaryNumber(t) == 14336
  {
    var a, b := "00111000", "00000000";
    ParseByLengthBinary16Split(t);
    Octet(a);
    assert IsBinary(a);
    Octet(b);
    assert IsBinary(b);
    Pow2Byte();
    BinaryJoinAt(a, 56, b, 0, 256, 14336);
  }

  lemma ParseByLengthBinary16Split(t: string)
    requires t == "0011100000000000"
    ensures t == "00111000" + "00000000"
  {
  }

  /** The bits of `EE00D40C823060`, as `bit_string` shows them (2021/src/bin/day16.rs:294-297). */
  lemma ParseByCountSample(s: string, t: string)
    requires s == "EE00D40C823060"
    requires t == "11101110000000001101010000001100100000100011000001100000"
    ensures HexBits(s).Ok? && BitString(HexBits(s).value) == t
  {
    ParseByCountText(s);
    ParseByCountBinary(t);
    BitStringIs(HexBits(s).value, t);
  }

  lemma ParseByCountText(s: string)
    requires s == "EE00D40C823060"
    ensures HexBits(s).Ok? && |HexBits(s).value| == 56 && BitsValue(HexBits(s).value) == 66991955200061536
  {
    Pow2Fields();
    Pow2Byte();
    assert s == "EE00" + "D40C" + "8230" + "60";
    HexQuad("EE00", 14, 14, 0, 0);
    HexQuad("D40C", 13, 4, 0, 12);
    HexJoinAt("EE00", 60928, "D40C", 54284, 65536, 3993031692);
    HexQuad("8230", 8, 2, 3, 0);
    HexJoinAt("EE00" + "D40C", 3993031692, "8230", 33328, 65536, 261687325000240);
    HexPair("60", 6, 0);
    HexJoinAt("EE00" + "D40C" + "8230", 261687325000240, "60", 96, 256, 66991955200061536);
    HexText(s, 66991955200061536);
  }

  lemma ParseByCountBinary(t: string)
    requires t == "11101110000000001101010000001100100000100011000001100000"
    ensures IsBinary(t) && BinaryNumber(t) == 66991955200061536
  {
    var a, b := "111011100000000011010100000011001000001000110000", "01100000";
    ParseByCountBinarySplit(t);
    ParseByCountBinary48(a);
    Octet(b);
    assert IsBinary(b);
    Pow2Byte();
    BinaryJoinAt(a, 261687325000240, b, 96, 256, 66991955200061536);
  }

  lemma ParseByCountBinarySplit(t: string)
    requires t == "11101110000000001101010000001100100000100011000001100000"
    ensures t == "111011100000000011010100000011001000001000110000" + "01100000"
  {
  }

  lemma ParseByCountBinary48(t: string)
    requires t == "111011100000000011010100000011001000001000110000"
    ensures IsBinary(t) && BinaryNumber(t) == 261687325000240
  {
    var a, b := "1110111000000000110101000000110010000010", "00110000";
    ParseByCountBinary48Split(t);
    ParseByCountBinary40(a);
    Octet(b);
    assert IsBinary(b);
    Pow2Byte();
    BinaryJoinAt(a, 1022216113282, b, 48, 256, 261687325000240);
  }

  lemma ParseByCountBinary48Split(t: string)
    requires t == "111011100000000011010100000011001000001000110000"
    ensures t == "1110111000000000110101000000110010000010" + "00110000"
  {
  }

  lemma ParseByCountBinary40(t: string)
    requires t == "1110111000000000110101000000110010000010"
    ensures IsBinary(t) && BinaryNumber(t) == 1022216113282
  {
    var a, b := "11101110000000001101010000001100", "10000010";
    ParseByCountBinary40Split(t);
    ParseByCountBinary32(a);
    Octet(b);
    assert IsBinary(b);
    Pow2Byte();
    BinaryJoinAt(a, 3993031692, b, 130, 256, 1022216113282);
  }

  lemma ParseByCountBinary40Split(t: string)
    requires t == "1110111000000000110101000000110010000010"
    ensures t == "11101110000000001101010000001100" + "10000010"
  {
  }

  lemma ParseByCountBinary32(t: string)
    requires t == "11101110000000001101010000001100"
    ensures IsBinary(t) && BinaryNumber(t) == 3993031692
  {
    var a, b := "111011100000000011010100", "00001100";
    ParseByCountBinary32Split(t);
    ParseByCountBinary24(a);
    Octet(b);
    assert IsBinary(b);
    Pow2Byte();
    BinaryJoinAt(a, 15597780, b, 12, 256, 3993031692);
  }

  lemma ParseByCountBinary32Split(t: string)
    requires t == "11101110000000001101010000001100"
    ensures t == "111011100000000011010100" + "00001100"
  {
  }

  lemma ParseByCountBinary24(t: string)
    requires t == "111011100000000011010100"
    ensures IsBinary(t) && BinaryNumber(t) == 15597780
  {
    var a, b := "1110111000000000", "11010100";
    ParseByCountBinary24Split(t);
    ParseByCountBinary16(a);
    Octet(b);
    assert IsBinary(b);
    Pow2Byte();
    BinaryJoinAt(a, 60928, b, 212, 256, 15597780);
  }

  lemma ParseByCountBinary24Split(t: string)
    requires t == "111011100000000011010100"
    ensures t == "1110111000000000" + "11010100"
  {
  }

  lemma ParseByCountBinary16(t: string)
    requires t == "1110111000000000"
    ensures IsBinary(t) && BinaryNumber(t) == 60928
  {
    var a, b := "11101110", "00000000";
    ParseByCountBinary16Split(t);
    Octet(a);
    assert IsBinary(a);
    Octet(b);
    assert IsBinary(b);
    Pow2Byte();
    BinaryJoinAt(a, 238, b, 0, 256, 60928);
  }

  lemma ParseByCountBinary16Split(t: string)
    requires t == "1110111000000000"
    ensures t == "11101110" + "00000000"
  {
  }

  /** The bits of `620080001611562C8802118E34`, as `bit_string` shows them (2021/src/bin/day16.rs:298-302). */
  lemma ParseNestedSample(s: string, t: string)
    requires s == "620080001611562C8802118E34"
    requires t == "01100010000000001000000000000000000101100001000101010110001011001000100000000010000100011000111000110100"
    ensures HexBits(s).Ok? && BitString(HexBits(s).value) == t
  {
    ParseNestedText(s);
    ParseNestedBinary(t);
    BitStringIs(HexBits(s).value, t);
  }

  lemma ParseNestedText(s: string)
    requires s == "620080001611562C8802118E34"
    ensures HexBits(s).Ok? && |HexBits(s).value| == 104 && BitsValue(HexBits(s).value) == 7764514669309893361232583429684
  {
    var head, tail := "620080001611", "562C8802118E34";
    assert s == head + tail;
    ParseNestedTextHead(head);
    ParseNestedTextTail(tail);
    Pow2Fields();
    Pow2Byte();
    Pow2Add(16, 8, 65536, 256);
    Pow2Add(16, 24, 65536, 16777216);
    Pow2Add(16, 40, 65536, 1099511627776);
    HexJoinAt(head, 107754287011345, tail, 24255810658995764, 72057594037927936, 7764514669309893361232583429684);
    HexText(s, 7764514669309893361232583429684);
  }

  lemma ParseNestedTextHead(s: string)
    requires s == "620080001611"
    ensures HexNumber(s) == 107754287011345 && forall k :: 0 <= k < |s| ==> HexDigit(s[k]).Some?
  {
    Pow2Fields();
    assert s == "6200" + "8000" + "1611";
    HexQuad("6200", 6, 2, 0, 0);
    HexQuad("8000", 8, 0, 0, 0);
    HexJoinAt("6200", 25088, "8000", 32768, 65536, 1644199936);
    HexQuad("1611", 1, 6, 1, 1);
    HexJoinAt("6200" + "8000", 1644199936, "1611", 5649, 65536, 107754287011345);
  }

  lemma ParseNestedTextTail(s: string)
    requires s == "562C8802118E34"
    ensures HexNumber(s) == 24255810658995764 && forall k :: 0 <= k < |s| ==> HexDigit(s[k]).Some?
  {
    Pow2Fields();
    Pow2Byte();
    assert s == "562C" + "8802" + "118E" + "34";
    HexQuad("562C", 5, 6, 2, 12);
    HexQuad("8802", 8, 8, 0, 2);
    HexJoinAt("562C", 22060, "8802", 34818, 65536, 1445758978);
    HexQuad("118E", 1, 1, 8, 14);
    HexJoinAt("562C" + "8802", 1445758978, "118E", 4494, 65536, 94749260386702);
    HexPair("34", 3, 4);
    HexJoinAt("562C" + "8802" + "118E", 94749260386702, "34", 52, 256, 24255810658995764);
  }

  lemma ParseNestedBinary(t: string)
    requires t == "01100010000000001000000000000000000101100001000101010110001011001000100000000010000100011000111000110100"
    ensures IsBinary(t) && BinaryNumber(t) == 7764514669309893361232583429684
  {
    var a, b := "011000100000000010000000000000000001011000010001010101100010110010001000000000100001000110001110", "00110100";
    ParseNestedBinarySplit(t);
    ParseNestedBinary96(a);
    Octet(b);
    assert IsBinary(b);
    Pow2Byte();
    BinaryJoinAt(a, 30330135426991770942314779022, b, 52, 256, 7764514669309893361232583429684);
  }

  lemma ParseNestedBinarySplit(t: string)
    requires t == "01100010000000001000000000000000000101100001000101010110001011001000100000000010000100011000111000110100"
    ensures t == "011000100000000010000000000000000001011000010001010101100010110010001000000000100001000110001110" + "00110100"
  {
  }

  lemma ParseNestedBinary96(t: string)
    requires t == "011000100000000010000000000000000001011000010001010101100010110010001000000000100001000110001110"
    ensures IsBinary(t) && BinaryNumber(t) == 30330135426991770942314779022
  {
    var a, b := "0110001000000000100000000000000000010110000100010101011000101100100010000000001000010001", "10001110";
    ParseNestedBinary96Split(t);
    ParseNestedBinary88(a);
    Octet(b);
    assert IsBinary(b);
    Pow2Byte();
    BinaryJoinAt(a, 118477091511686605243417105, b, 142, 256, 30330135426991770942314779022);
  }

  lemma ParseNestedBinary96Split(t: string)
    requires t == "011000100000000010000000000000000001011000010001010101100010110010001000000000100001000110001110"
    ensures t == "0110001000000000100000000000000000010110000100010101011000101100100010000000001000010001" + "10001110"
  {
  }

  lemma ParseNestedBinary88(t: string)
    requires t == "0110001000000000100000000000000000010110000100010101011000101100100010000000001000010001"
    ensures IsBinary(t) && BinaryNumber(t) == 118477091511686605243417105
  {
    var a, b := "01100010000000001000000000000000000101100001000101010110001011001000100000000010", "00010001";
    ParseNestedBinary88Split(t);
    ParseNestedBinary80(a);
    Octet(b);
    assert IsBinary(b);
    Pow2Byte();
    BinaryJoinAt(a, 462801138717525801732098, b, 17, 256, 118477091511686605243417105);
  }

  lemma ParseNestedBinary88Split(t: string)
    requires t == "0110001000000000100000000000000000010110000100010101011000101100100010000000001000010001"
    ensures t == "01100010000000001000000000000000000101100001000101010110001011001000100000000010" + "00010001"
  {
  }

  lemma ParseNestedBinary80(t: string)
    requires t == "01100010000000001000000000000000000101100001000101010110001011001000100000000010"
    ensures IsBinary(t) && BinaryNumber(t) == 462801138717525801732098
  {
    var a, b := "011000100000000010000000000000000001011000010001010101100010110010001000", "00000010";
    ParseNestedBinary80Split(t);
    ParseNestedBinary72(a);
    Octet(b);
    assert IsBinary(b);
    Pow2Byte();
    BinaryJoinAt(a, 1807816948115335163016, b, 2, 256, 462801138717525801732098);
  }

  lemma ParseNestedBinary80Split(t: string)
    requires t == "01100010000000001000000000000000000101100001000101010110001011001000100000000010"
    ensures t == "011000100000000010000000000000000001011000010001010101100010110010001000" + "00000010"
  {
  }

  lemma ParseNestedBinary72(t: string)
    requires t == "011000100000000010000000000000000001011000010001010101100010110010001000"
    ensures IsBinary(t) && BinaryNumber(t) == 1807816948115335163016
  {
    var a, b := "0110001000000000100000000000000000010110000100010101011000101100", "10001000";
    ParseNestedBinary72Split(t);
    ParseNestedBinary64(a);
    Octet(b);
    assert IsBinary(b);
    Pow2Byte();
    BinaryJoinAt(a, 7061784953575527980, b, 136, 256, 1807816948115335163016);
  }

  lemma ParseNestedBinary72Split(t: string)
    requires t == "011000100000000010000000000000000001011000010001010101100010110010001000"
    ensures t == "0110001000000000100000000000000000010110000100010101011000101100" + "10001000"
  {
  }

  lemma ParseNestedBinary64(t: string)
    requires t == "0110001000000000100000000000000000010110000100010101011000101100"
    ensures IsBinary(t) && BinaryNumber(t) == 7061784953575527980
  {
    var a, b := "01100010000000001000000000000000000101100001000101010110", "00101100";
    ParseNestedBinary64Split(t);
    ParseNestedBinary56(a);
    Octet(b);
    assert IsBinary(b);
    Pow2Byte();
    BinaryJoinAt(a, 27585097474904406, b, 44, 256, 7061784953575527980);
  }

  lemma ParseNestedBinary64Split(t: string)
    requires t == "0110001000000000100000000000000000010110000100010101011000101100"
    ensures t == "01100010000000001000000000000000000101100001000101010110" + "00101100"
  {
  }

  lemma ParseNestedBinary56(t: string)
    requires t == "01100010000000001000000000000000000101100001000101010110"
    ensures IsBinary(t) && BinaryNumber(t) == 27585097474904406
  {
    var a, b := "011000100000000010000000000000000001011000010001", "01010110";
    ParseNestedBinary56Split(t);
    ParseNestedBinary48(a);
    Octet(b);
    assert IsBinary(b);
    Pow2Byte();
    BinaryJoinAt(a, 107754287011345, b, 86, 256, 27585097474904406);
  }

  lemma ParseNestedBinary56Split(t: string)
    requires t == "01100010000000001000000000000000000101100001000101010110"
    ensures t == "011000100000000010000000000000000001011000010001" + "01010110"
  {
  }

  lemma ParseNestedBinary48(t: string)
    requires t == "011000100000000010000000000000000001011000010001"
    ensures IsBinary(t) && BinaryNumber(t) == 107754287011345
  {
    var a, b := "0110001000000000100000000000000000010110", "00010001";
    ParseNestedBinary48Split(t);
    ParseNestedBinary40(a);
    Octet(b);
    assert IsBinary(b);
    Pow2Byte();
    BinaryJoinAt(a, 420915183638, b, 17, 256, 107754287011345);
  }

  lemma ParseNestedBinary48Split(t: string)
    requires t == "011000100000000010000000000000000001011000010001"
    ensures t == "0110001000000000100000000000000000010110" + "00010001"
  {
  }

  lemma ParseNestedBinary40(t: string)
    requires t == "0110001000000000100000000000000000010110"
    ensures IsBinary(t) && BinaryNumber(t) == 420915183638
  {
    var a, b := "01100010000000001000000000000000", "00010110";
    ParseNestedBinary40Split(t);
    ParseNestedBinary32(a);
    Octet(b);
    assert IsBinary(b);
    Pow2Byte();
    BinaryJoinAt(a, 1644199936, b, 22, 256, 420915183638);
  }

  lemma ParseNestedBinary40Split(t: string)
    requires t == "0110001000000000100000000000000000010110"
    ensures t == "01100010000000001000000000000000" + "00010110"
  {
  }

  lemma ParseNestedBinary32(t: string)
    requires t == "01100010000000001000000000000000"
    ensures IsBinary(t) && BinaryNumber(t) == 1644199936
  {
    var a, b := "011000100000000010000000", "00000000";
    ParseNestedBinary32Split(t);
    ParseNestedBinary24(a);
    Octet(b);
    assert IsBinary(b);
    Pow2Byte();
    BinaryJoinAt(a, 6422656, b, 0, 256, 1644199936);
  }

  lemma ParseNestedBinary32Split(t: string)
    requires t == "01100010000000001000000000000000"
    ensures t == "011000100000000010000000" + "00000000"
  {
  }

  lemma ParseNestedBinary24(t: string)
    requires t == "011000100000000010000000"
    ensures IsBinary(t) && BinaryNumber(t) == 6422656
  {
    var a, b := "0110001000000000", "10000000";
    ParseNestedBinary24Split(t);
    ParseNestedBinary16(a);
    Octet(b);
    assert IsBinary(b);
    Pow2Byte();
    BinaryJoinAt(a, 25088, b, 128, 256, 6422656);
  }

  lemma ParseNestedBinary24Split(t: string)
    requires t == "011000100000000010000000"
    ensures t == "0110001000000000" + "10000000"
  {
  }

  lemma ParseNestedBinary16(t: string)
    requires t == "0110001000000000"
    ensures IsBinary(t) && BinaryNumber(t) == 25088
  {
    var a, b := "01100010", "00000000";
    ParseNestedBinary16Split(t);
    Octet(a);
    assert IsBinary(a);
    Octet(b);
    assert IsBinary(b);
    Pow2Byte();
    BinaryJoinAt(a, 98, b, 0, 256, 25088);
  }

  lemma ParseNestedBinary16Split(t: string)
    requires t == "0110001000000000"
    ensures t == "01100010" + "00000000"
  {
  }

}
