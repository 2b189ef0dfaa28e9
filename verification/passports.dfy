/** Passport validation (2020/src/bin/day4.rs): a passport is a map from
    field key to text, checked first for the presence of seven keys and
    then against a criterion per field. */
module Passports {
  import opened Outcomes
  import opened Arithmetic

  type Passport = map<string, string>

  // ---------------------------------------------------------------------
  // Positional digits

  /** The two digit sets the criteria use: "0123456789" and, for colours,
      "0123456789abcdef". */
  datatype Base = Decimal | Hex

  function Radix(b: Base): nat
  {
    match b
    case Decimal => 10
    case Hex => 16
  }

  predicate IsDigit(b: Base, c: char)
  {
    '0' <= c <= '9' || (b == Hex && 'a' <= c <= 'f')
  }

  predicate AllDigits(s: string, b: Base)
  {
    forall i :: 0 <= i < |s| ==> IsDigit(b, s[i])
  }

  /** The character for digit `k`. */
  function DigitChar(b: Base, k: nat): (c: char)
    requires k < Radix(b)
    ensures IsDigit(b, c)
  {
    if k < 10 then ('0' as int + k) as char else ('a' as int + k - 10) as char
  }

  /** The value of digit `c`, which only `c` denotes. */
  function DigitValue(b: Base, c: char): (r: nat)
    requires IsDigit(b, c)
    ensures r < Radix(b) && DigitChar(b, r) == c
  {
    if '0' <= c <= '9' then c as int - '0' as int else c as int - 'a' as int + 10
  }

  lemma DigitCharValue(b: Base, k: nat)
    requires k < Radix(b)
    ensures DigitValue(b, DigitChar(b, k)) == k
  {
  }

  /** The number written by the digits `s`, most significant first. */
  function Value(s: string, b: Base): nat
    requires AllDigits(s, b)
    decreases |s|
  {
    if s == [] then 0 else Value(s[..|s| - 1], b) * Radix(b) + DigitValue(b, s[|s| - 1])
  }

  /** The last `w` digits of `n`, padded with zeros. */
  function Fixed(n: nat, w: nat, b: Base): (s: string)
    ensures |s| == w && AllDigits(s, b)
    decreases w
  {
    if w == 0 then []
    else
      DivBounds(n, Radix(b));
      Fixed(n / Radix(b), w - 1, b) + [DigitChar(b, n % Radix(b))]
  }

  lemma {:induction false} ValueBound(s: string, b: Base)
    requires AllDigits(s, b)
    ensures Value(s, b) < Pow(Radix(b), |s|)
    decreases |s|
  {
    if s != [] {
      var init := s[..|s| - 1];
      ValueBound(init, b);
      var r, v, p := Radix(b), Value(init, b), Pow(Radix(b), |s| - 1);
      MulMonotone(v + 1, p, r);
      MulSucc(v, r);
    }
  }

  /** Writing `n` in `w` digits keeps exactly its value modulo `radix^w`. */
  lemma {:induction false} ValueFixed(n: nat, w: nat, b: Base)
    ensures Value(Fixed(n, w, b), b) == n % Pow(Radix(b), w)
    decreases w
  {
    if w > 0 {
      var s, r := Fixed(n, w, b), Radix(b);
      DivBounds(n, r);
      assert s[..w - 1] == Fixed(n / r, w - 1, b);
      ValueFixed(n / r, w - 1, b);
      DigitCharValue(b, n % r);
      DigitStep(n, r, Pow(r, w - 1));
    }
  }

  /** Every string of digits is the fixed-width text of its own value. */
  lemma {:induction false} FixedValue(s: string, b: Base)
    requires AllDigits(s, b)
    ensures Fixed(Value(s, b), |s|, b) == s
    decreases |s|
  {
    if s != [] {
      var init := s[..|s| - 1];
      DivModUnique(Value(s, b), Radix(b), Value(init, b), DigitValue(b, s[|s| - 1]));
      FixedValue(init, b);
      assert s == init + [s[|s| - 1]];
    }
  }

  // ---------------------------------------------------------------------
  // Parsing a u32

  const U32Limit: nat := 0x1_0000_0000

  /** Rust's `str::parse::<u32>`: an optional leading '+', then one or more
      decimal digits whose value fits in 32 bits. */
  function ParseU32(s: string): (r: Option<nat>)
    ensures r.Some? ==> r.value < U32Limit
    ensures r.Some? ==> s != [] && s != "+"
  {
    if s == [] then None
    else
      var digits := if s[0] == '+' then s[1..] else s;
      if digits != [] && AllDigits(digits, Decimal) && Value(digits, Decimal) < U32Limit
      then Some(Value(digits, Decimal))
      else None
  }

  /** The decimal text of a number, padded to any width, parses back to
      the number, with or without a leading '+'. */
  lemma ParseFixed(n: nat, w: nat)
    requires w > 0 && n < Pow(10, w) && n < U32Limit
    ensures ParseU32(Fixed(n, w, Decimal)) == Some(n)
    ensures ParseU32("+" + Fixed(n, w, Decimal)) == Some(n)
  {
    var s := Fixed(n, w, Decimal);
    ValueFixed(n, w, Decimal);
    DivModUnique(n, Pow(10, w), 0, n);
    assert Value(s, Decimal) == n;
    assert IsDigit(Decimal, s[0]);
    assert ParseU32(s) == Some(n);
    assert ("+" + s)[1..] == s;
  }

  /** A parsed number is the value of the digits after an optional '+'. */
  lemma ParseMeaning(s: string)
    requires ParseU32(s).Some?
    ensures var digits := if s[0] == '+' then s[1..] else s;
      digits != [] && AllDigits(digits, Decimal)
      && Fixed(ParseU32(s).value, |digits|, Decimal) == digits
  {
    var digits := if s[0] == '+' then s[1..] else s;
    FixedValue(digits, Decimal);
  }

  // ---------------------------------------------------------------------
  // Field criteria

  /** Exactly four characters that parse to a number in `lo..=hi`. */
  predicate FourDigitsInRange(s: string, lo: nat, hi: nat)
  {
    |s| == 4 && ParseU32(s).Some? && lo <= ParseU32(s).value <= hi
  }

  /** For four-digit bounds, a valid field is exactly the four-digit text
      of a number in range: a leading '+' leaves only three digits. */
  lemma FourDigitsMeaning(s: string, lo: nat, hi: nat)
    requires 1000 <= lo && hi < 10000
    ensures FourDigitsInRange(s, lo, hi)
       <==> exists n: nat :: lo <= n <= hi && s == Fixed(n, 4, Decimal)
  {
    if FourDigitsInRange(s, lo, hi) {
      assert s[0] != '+' by {
        if s[0] == '+' {
          PlusThreeDigits(s);
        }
      }
      ParseMeaning(s);
    }
    if n: nat :| lo <= n <= hi && s == Fixed(n, 4, Decimal) {
      assert Pow(10, 4) == 10000;
      ParseFixed(n, 4);
    }
  }

  /** A leading '+' leaves three digits, too few to reach 1000. */
  lemma PlusThreeDigits(s: string)
    requires |s| == 4 && s[0] == '+' && ParseU32(s).Some?
    ensures ParseU32(s).value < 1000
  {
    ValueBound(s[1..], Decimal);
    assert Pow(10, 3) == 1000;
  }

  function ByrIsValid(s: string): (r: bool)
    ensures r <==> exists n: nat :: 1920 <= n <= 2002 && s == Fixed(n, 4, Decimal)
  {
    FourDigitsMeaning(s, 1920, 2002);
    FourDigitsInRange(s, 1920, 2002)
  }

  function IyrIsValid(s: string): (r: bool)
    ensures r <==> exists n: nat :: 2010 <= n <= 2020 && s == Fixed(n, 4, Decimal)
  {
    FourDigitsMeaning(s, 2010, 2020);
    FourDigitsInRange(s, 2010, 2020)
  }

  function EyrIsValid(s: string): (r: bool)
    ensures r <==> exists n: nat :: 2020 <= n <= 2030 && s == Fixed(n, 4, Decimal)
  {
    FourDigitsMeaning(s, 2020, 2030);
    FourDigitsInRange(s, 2020, 2030)
  }

  /** `ParseU32(s)` is some number in `lo..=hi`. */
  predicate ParsesWithin(s: string, lo: nat, hi: nat)
  {
    ParseU32(s).Some? && lo <= ParseU32(s).value <= hi
  }

  /** A height: a number followed by the unit "cm" (150 to 193) or "in"
      (59 to 76). */
  function HgtIsValid(s: string): (r: bool)
    ensures r ==> |s| > 2 && s[|s| - 2..] in {"cm", "in"}
  {
    |s| > 2 &&
      var num, unit := s[..|s| - 2], s[|s| - 2..];
      if unit == "cm" then ParsesWithin(num, 150, 193)
      else if unit == "in" then ParsesWithin(num, 59, 76)
      else false
  }

  /** Text followed by a unit is a valid height exactly when the text
      parses to a number in that unit's range. */
  lemma HgtUnits(num: string)
    requires num != []
    ensures HgtIsValid(num + "cm") <==> ParsesWithin(num, 150, 193)
    ensures HgtIsValid(num + "in") <==> ParsesWithin(num, 59, 76)
  {
    assert (num + "cm")[..|num|] == num && (num + "cm")[|num|..] == "cm";
    assert (num + "in")[..|num|] == num && (num + "in")[|num|..] == "in";
  }

  /** A number written in any width, with or without '+', then a unit, is a
      valid height exactly when the number is in that unit's range; without
      a unit it is no height at all. */
  lemma HgtMeaning(n: nat, w: nat, plus: bool)
    requires w > 0 && n < Pow(10, w) && n < U32Limit
    ensures var num := (if plus then "+" else "") + Fixed(n, w, Decimal);
      (HgtIsValid(num + "cm") <==> 150 <= n <= 193)
      && (HgtIsValid(num + "in") <==> 59 <= n <= 76)
      && !HgtIsValid(num)
  {
    var digits := Fixed(n, w, Decimal);
    var num := (if plus then "+" else "") + digits;
    ParseFixed(n, w);
    if plus {
      assert num == "+" + digits;
    } else {
      assert num == digits;
    }
    HgtUnits(num);
    assert num[|num| - 1] == digits[w - 1];
    NoUnit(num);
  }

  /** Text ending in a digit carries no unit. */
  lemma NoUnit(s: string)
    requires s != [] && IsDigit(Decimal, s[|s| - 1])
    ensures !HgtIsValid(s)
  {
    if |s| > 2 {
      var unit := s[|s| - 2..];
      assert unit[1] == s[|s| - 1];
      assert unit != "cm" && unit != "in";
    }
  }

  /** A hair colour: '#' then six lower-case hexadecimal digits. */
  function HclIsValid(s: string): (r: bool)
    ensures r <==> exists n: nat :: n < Pow(16, 6) && s == "#" + Fixed(n, 6, Hex)
  {
    HclMeaning(s);
    |s| == 7 && s[0] == '#' && AllDigits(s[1..], Hex)
  }

  lemma HclMeaning(s: string)
    ensures (|s| == 7 && s[0] == '#' && AllDigits(s[1..], Hex))
       <==> exists n: nat :: n < Pow(16, 6) && s == "#" + Fixed(n, 6, Hex)
  {
    if |s| == 7 && s[0] == '#' && AllDigits(s[1..], Hex) {
      var n := Value(s[1..], Hex);
      ValueBound(s[1..], Hex);
      FixedValue(s[1..], Hex);
      assert s == "#" + s[1..];
      assert s == "#" + Fixed(n, 6, Hex);
    }
    if n: nat :| n < Pow(16, 6) && s == "#" + Fixed(n, 6, Hex) {
      assert s[1..] == Fixed(n, 6, Hex);
    }
  }

  const EyeColors: seq<string> := ["amb", "blu", "brn", "gry", "grn", "hzl", "oth"]

  /** An eye colour: one of seven three-letter codes. */
  function EclIsValid(s: string): (r: bool)
    ensures r ==> |s| == 3
  {
    s in EyeColors
  }

  /** A passport id: exactly nine decimal digits, leading zeros allowed. */
  function PidIsValid(s: string): (r: bool)
    ensures r <==> exists n: nat :: n < Pow(10, 9) && s == Fixed(n, 9, Decimal)
  {
    PidMeaning(s);
    |s| == 9 && AllDigits(s, Decimal)
  }

  lemma PidMeaning(s: string)
    ensures (|s| == 9 && AllDigits(s, Decimal))
       <==> exists n: nat :: n < Pow(10, 9) && s == Fixed(n, 9, Decimal)
  {
    if |s| == 9 && AllDigits(s, Decimal) {
      ValueBound(s, Decimal);
      FixedValue(s, Decimal);
    }
  }

  // ---------------------------------------------------------------------
  // Passports

  /** The seven required fields, in the order they are checked. */
  datatype Field = Byr | Iyr | Eyr | Hgt | Hcl | Ecl | Pid

  const Keys: seq<string> := ["byr", "iyr", "eyr", "hgt", "hcl", "ecl", "pid"]

  function Key(f: Field): string
  {
    match f
    case Byr => "byr"
    case Iyr => "iyr"
    case Eyr => "eyr"
    case Hgt => "hgt"
    case Hcl => "hcl"
    case Ecl => "ecl"
    case Pid => "pid"
  }

  /** Value `v` meets the criterion of field `f`. */
  predicate Meets(f: Field, v: string)
  {
    match f
    case Byr => ByrIsValid(v)
    case Iyr => IyrIsValid(v)
    case Eyr => EyrIsValid(v)
    case Hgt => HgtIsValid(v)
    case Hcl => HclIsValid(v)
    case Ecl => EclIsValid(v)
    case Pid => PidIsValid(v)
  }

  /** Part one: every required key is present, whatever its value and
      whatever other keys there are. */
  predicate IsValid1(p: Passport)
    ensures IsValid1(p) <==> forall f :: Key(f) in p
  {
    KeysPresent(p);
    forall i :: 0 <= i < |Keys| ==> Keys[i] in p
  }

  /** Listing the seven keys is naming each field's key. */
  lemma KeysPresent(p: Passport)
    ensures (forall i :: 0 <= i < |Keys| ==> Keys[i] in p) <==> forall f :: Key(f) in p
  {
    assert Keys == [Key(Byr), Key(Iyr), Key(Eyr), Key(Hgt), Key(Hcl), Key(Ecl), Key(Pid)];
    if forall i :: 0 <= i < |Keys| ==> Keys[i] in p {
      forall f
        ensures Key(f) in p
      {
        match f
        case Byr => assert Keys[0] in p;
        case Iyr => assert Keys[1] in p;
        case Eyr => assert Keys[2] in p;
        case Hgt => assert Keys[3] in p;
        case Hcl => assert Keys[4] in p;
        case Ecl => assert Keys[5] in p;
        case Pid => assert Keys[6] in p;
      }
    }
  }

  /** The value under `key` exists and meets `criterion`. */
  predicate HasValid(p: Passport, key: string, criterion: string -> bool)
  {
    key in p && criterion(p[key])
  }

  /** Part two: every required field is present and meets its criterion;
      the chain of checks is one check per field. */
  predicate IsValid2(p: Passport)
    ensures IsValid2(p) <==> forall f :: FieldValid(p, f)
  {
    HasValidByr(p);
    HasValidIyr(p);
    HasValidEyr(p);
    HasValidHgt(p);
    HasValidHcl(p);
    HasValidEcl(p);
    HasValidPid(p);
    AllSevenMeaning(p);
    HasValid(p, "byr", ByrIsValid)
      && HasValid(p, "iyr", IyrIsValid)
      && HasValid(p, "eyr", EyrIsValid)
      && HasValid(p, "hgt", HgtIsValid)
      && HasValid(p, "hcl", HclIsValid)
      && HasValid(p, "ecl", EclIsValid)
      && HasValid(p, "pid", PidIsValid)
  }

  /** Field `f` is present and meets its criterion. */
  predicate FieldValid(p: Passport, f: Field)
  {
    Key(f) in p && Meets(f, p[Key(f)])
  }

  /** Each field in turn. */
  predicate AllSeven(p: Passport)
  {
    FieldValid(p, Byr) && FieldValid(p, Iyr) && FieldValid(p, Eyr) && FieldValid(p, Hgt)
      && FieldValid(p, Hcl) && FieldValid(p, Ecl) && FieldValid(p, Pid)
  }

  lemma AllSevenMeaning(p: Passport)
    ensures AllSeven(p) <==> forall f :: FieldValid(p, f)
  {
    if AllSeven(p) {
      forall f
        ensures FieldValid(p, f)
      {
        match f
        case Byr =>
        case Iyr =>
        case Eyr =>
        case Hgt =>
        case Hcl =>
        case Ecl =>
        case Pid =>
      }
    }
  }

  lemma HasValidByr(p: Passport) ensures FieldValid(p, Byr) == HasValid(p, "byr", ByrIsValid) {}
  lemma HasValidIyr(p: Passport) ensures FieldValid(p, Iyr) == HasValid(p, "iyr", IyrIsValid) {}
  lemma HasValidEyr(p: Passport) ensures FieldValid(p, Eyr) == HasValid(p, "eyr", EyrIsValid) {}
  lemma HasValidHgt(p: Passport) ensures FieldValid(p, Hgt) == HasValid(p, "hgt", HgtIsValid) {}
  lemma HasValidHcl(p: Passport) ensures FieldValid(p, Hcl) == HasValid(p, "hcl", HclIsValid) {}
  lemma HasValidEcl(p: Passport) ensures FieldValid(p, Ecl) == HasValid(p, "ecl", EclIsValid) {}
  lemma HasValidPid(p: Passport) ensures FieldValid(p, Pid) == HasValid(p, "pid", PidIsValid) {}

  /** A passport valid under the field criteria has every required key. */
  lemma Valid2HasKeys()
    ensures forall p :: IsValid2(p) ==> IsValid1(p)
  {
    forall p, f | IsValid2(p)
      ensures Key(f) in p
    {
      assert FieldValid(p, f);
    }
  }

  /** The number of passports `valid` accepts: all of them exactly when each
      is accepted, none exactly when none is. */
  function CountValid(passports: seq<Passport>, valid: Passport -> bool): (r: nat)
    ensures r <= |passports|
    ensures r == |passports| <==> forall i :: 0 <= i < |passports| ==> valid(passports[i])
    ensures r == 0 <==> forall i :: 0 <= i < |passports| ==> !valid(passports[i])
    decreases |passports|
  {
    if passports == [] then 0
    else
      var init := passports[..|passports| - 1];
      assert forall i :: 0 <= i < |init| ==> init[i] == passports[i];
      var last := if valid(passports[|passports| - 1]) then 1 else 0;
      CountValid(init, valid) + last
  }

  /** A criterion that accepts no more passports than another counts no more. */
  lemma {:induction false} CountStricter(passports: seq<Passport>, strict: Passport -> bool, loose: Passport -> bool)
    requires forall p :: strict(p) ==> loose(p)
    ensures CountValid(passports, strict) <= CountValid(passports, loose)
    decreases |passports|
  {
    if passports != [] {
      CountStricter(passports[..|passports| - 1], strict, loose);
    }
  }

  /** Part one counts the passports with every required key. */
  function SolvePart1(passports: seq<Passport>): (r: nat)
    ensures r <= |passports|
    ensures r == |passports| <==> forall i, f :: 0 <= i < |passports| ==> Key(f) in passports[i]
  {
    CountValid(passports, IsValid1)
  }

  /** Part two counts the passports whose every field is valid, which is
      never more than part one counts. */
  function SolvePart2(passports: seq<Passport>): (r: nat)
    ensures r <= SolvePart1(passports)
    ensures r == |passports| <==> forall i, f :: 0 <= i < |passports| ==> FieldValid(passports[i], f)
  {
    Valid2HasKeys();
    CountStricter(passports, IsValid2, IsValid1);
    CountValid(passports, IsValid2)
  }

  // ---------------------------------------------------------------------
  // Examples

  lemma YearExamples()
    ensures ByrIsValid("2002") && !ByrIsValid("2003")
  {
    assert "2002" == Fixed(2002, 4, Decimal);
    assert "2003" == Fixed(2003, 4, Decimal);
    ParseFixed(2002, 4);
    ParseFixed(2003, 4);
  }

  lemma HeightExamples(cm190: string, in60: string, in190: string, bare190: string)
    requires cm190 == "190cm" && in60 == "60in" && in190 == "190in" && bare190 == "190"
    ensures HgtIsValid(in60) && HgtIsValid(cm190)
    ensures !HgtIsValid(in190) && !HgtIsValid(bare190)
  {
    SixtyInches(in60);
    NinetyHeights(cm190, in190, bare190);
  }

  lemma SixtyInches(in60: string)
    requires in60 == "60in"
    ensures HgtIsValid(in60)
  {
    var sixty := Fixed(60, 2, Decimal);
    assert sixty == "60";
    assert in60 == ("" + sixty) + "in";
    assert Pow(10, 2) == 100;
    HgtMeaning(60, 2, false);
  }

  lemma NinetyHeights(cm190: string, in190: string, bare190: string)
    requires cm190 == "190cm" && in190 == "190in" && bare190 == "190"
    ensures HgtIsValid(cm190) && !HgtIsValid(in190) && !HgtIsValid(bare190)
  {
    var ninety := Fixed(190, 3, Decimal);
    assert ninety == "190";
    assert "" + ninety == ninety;
    assert cm190 == ninety + "cm" && in190 == ninety + "in" && bare190 == ninety;
    assert Pow(10, 3) == 1000;
    HgtMeaning(190, 3, false);
  }


  lemma HairExamples(good: string, badDigit: string, noHash: string)
    requires good == "#123abc" && badDigit == "#123abz" && noHash == "123abc"
    ensures HclIsValid(good) && !HclIsValid(badDigit) && !HclIsValid(noHash)
  {
    assert AllDigits(good[1..], Hex);
    assert !IsDigit(Hex, badDigit[6]);
    assert noHash[0] != '#';
  }

  lemma EyeExamples(brown: string, wat: string)
    requires brown == "brn" && wat == "wat"
    ensures EclIsValid(brown) && !EclIsValid(wat)
  {
    assert brown == EyeColors[2];
    assert forall i :: 0 <= i < |EyeColors| ==> EyeColors[i][0] != 'w';
  }

  lemma IdExamples(nine: string, ten: string)
    requires nine == "000000001" && ten == "0123456789"
    ensures PidIsValid(nine) && !PidIsValid(ten)
  {
    assert nine == Fixed(1, 9, Decimal);
  }
}
