/** The almanac maps of 2023/day5/src/map.rs: lines that shift one range of
    numbers by a delta, applied to single numbers and to whole ranges. */
module RangeMap {
  import opened Outcomes

  /** The half-open range start..end. */
  datatype Range = Range(start: int, end: int)

  predicate Contains(r: Range, x: int)
  {
    r.start <= x < r.end
  }

  predicate IsEmpty(r: Range)
  {
    !(r.start < r.end)
  }

  function Len(r: Range): nat
  {
    if r.start < r.end then r.end - r.start else 0
  }

  /** Some range of `rs` contains `x`. */
  predicate InRanges(rs: seq<Range>, x: int)
  {
    exists i :: 0 <= i < |rs| && Contains(rs[i], x)
  }

  lemma InRangesConcat(a: seq<Range>, b: seq<Range>, x: int)
    ensures InRanges(a + b, x) <==> InRanges(a, x) || InRanges(b, x)
  {
    if InRanges(a + b, x) {
      var i :| 0 <= i < |a + b| && Contains((a + b)[i], x);
      if i >= |a| {
        assert Contains(b[i - |a|], x);
      }
    }
    if InRanges(b, x) {
      var i :| 0 <= i < |b| && Contains(b[i], x);
      assert Contains((a + b)[|a| + i], x);
    }
    if InRanges(a, x) {
      var i :| 0 <= i < |a| && Contains(a[i], x);
      assert Contains((a + b)[i], x);
    }
  }

  /** A line of a map: numbers in `source` move by `delta`. */
  datatype MapLine = MapLine(delta: int, source: Range)

  function TryApply(line: MapLine, x: int): (r: Option<int>)
    ensures r.Some? <==> Contains(line.source, x)
    ensures r.Some? ==> r.value == x + line.delta
  {
    if Contains(line.source, x) then Some(x + line.delta) else None
  }

  /** The range moved by the line's delta. */
  function Shift(line: MapLine, r: Range): (s: Range)
    ensures Len(s) == Len(r)
    ensures forall x :: Contains(r, x) <==> Contains(s, x + line.delta)
  {
    Range(r.start + line.delta, r.end + line.delta)
  }

  /** Splits `source` into the parts the line leaves alone and the part it
      moves, already moved. */
  function ApplyRange(line: MapLine, source: Range): (r: (seq<Range>, Option<Range>))
    ensures IsEmpty(source) ==> r == ([], None)
  {
    if IsEmpty(source) then ([], None)
    else
      var start, end := line.source.start, line.source.end;
      var overlapsStart := Contains(line.source, source.start);
      var overlapsEnd := Contains(line.source, source.end - 1);
      if overlapsStart && overlapsEnd then ([], Some(Shift(line, source)))
      else if overlapsStart then ([Range(end, source.end)], Some(Shift(line, Range(source.start, end))))
      else if overlapsEnd then ([Range(source.start, start)], Some(Shift(line, Range(start, source.end))))
      else if Contains(source, start) && Contains(source, end) then
        ([Range(source.start, start), Range(end, source.end)], Some(Shift(line, Range(start, end))))
      else ([source], None)
  }

  /** The moved part contains `y`. */
  predicate Targets(t: Option<Range>, y: int)
  {
    t.Some? && Contains(t.value, y)
  }

  /** Each number of `source` is either left alone, in one of the parts
      returned, or moved, into the moved part; nothing else is returned. */
  lemma ApplyRangeMeaning(line: MapLine, source: Range, x: int)
    ensures InRanges(ApplyRange(line, source).0, x) <==> Contains(source, x) && !Contains(line.source, x)
    ensures Targets(ApplyRange(line, source).1, x + line.delta) <==> Contains(source, x) && Contains(line.source, x)
  {
    var r := ApplyRange(line, source);
    if Contains(source, x) && !Contains(line.source, x) {
      if |r.0| == 2 && Contains(r.0[1], x) {
        assert InRanges(r.0, x);
      } else {
        assert Contains(r.0[0], x);
      }
    }
  }

  function SumLen(rs: seq<Range>): nat
  {
    if rs == [] then 0 else Len(rs[0]) + SumLen(rs[1..])
  }

  /** For a line whose range does not run backwards, the parts returned are
      as long as `source`. */
  lemma ApplyRangeLength(line: MapLine, source: Range)
    requires line.source.start <= line.source.end
    ensures SumLen(ApplyRange(line, source).0)
          + (if ApplyRange(line, source).1.Some? then Len(ApplyRange(line, source).1.value) else 0)
          == Len(source)
  {
    var r := ApplyRange(line, source);
    if |r.0| == 2 {
      assert SumLen(r.0) == Len(r.0[0]) + Len(r.0[1]) by {
        assert r.0[1..][1..] == [];
      }
    } else if |r.0| == 1 {
      assert r.0[1..] == [];
    }
  }

  /** The line applied to each source in turn: what it leaves alone and
      what it moves. */
  function ApplyRanges(line: MapLine, sources: seq<Range>): (seq<Range>, seq<Range>)
    decreases |sources|
  {
    if sources == [] then ([], [])
    else
      var (left, moved) := ApplyRanges(line, sources[..|sources| - 1]);
      var (newLeft, target) := ApplyRange(line, sources[|sources| - 1]);
      (left + newLeft, moved + if target.Some? then [target.value] else [])
  }

  method LineApplyRanges(line: MapLine, sources: seq<Range>) returns (left: seq<Range>, moved: seq<Range>)
    ensures (left, moved) == ApplyRanges(line, sources)
  {
    left, moved := [], [];
    for i := 0 to |sources|
      invariant (left, moved) == ApplyRanges(line, sources[..i])
    {
      assert sources[..i + 1][..i] == sources[..i];
      var (newLeft, target) := ApplyRange(line, sources[i]);
      left := left + newLeft;
      if target.Some? {
        moved := moved + [target.value];
      } else {
        assert moved + [] == moved;
      }
    }
    assert sources[..|sources|] == sources;
  }

  /** The numbers a line leaves alone and those it moves, over many
      sources. */
  lemma {:induction false} ApplyRangesMeaning(line: MapLine, sources: seq<Range>, x: int)
    ensures InRanges(ApplyRanges(line, sources).0, x) <==> InRanges(sources, x) && !Contains(line.source, x)
    ensures InRanges(ApplyRanges(line, sources).1, x + line.delta) <==> InRanges(sources, x) && Contains(line.source, x)
    decreases |sources|
  {
    if sources != [] {
      var init, last := sources[..|sources| - 1], sources[|sources| - 1];
      ApplyRangesMeaning(line, init, x);
      ApplyRangeMeaning(line, last, x);
      var (left, moved) := ApplyRanges(line, init);
      var (newLeft, target) := ApplyRange(line, last);
      InRangesConcat(left, newLeft, x);
      var t := if target.Some? then [target.value] else [];
      InRangesConcat(moved, t, x + line.delta);
      InRangesConcat(init, [last], x);
      assert init + [last] == sources;
      assert InRanges(t, x + line.delta) <==> Targets(target, x + line.delta) by {
        if Targets(target, x + line.delta) {
          assert Contains(t[0], x + line.delta);
        }
      }
      assert InRanges([last], x) <==> Contains(last, x) by {
        if Contains(last, x) {
          assert Contains([last][0], x);
        }
      }
    }
  }

  // ---------------------------------------------------------------------
  // Maps

  datatype Map = Map(lines: seq<MapLine>)

  /** Where `x` goes: moved by the first line that contains it, else left
      where it is. */
  function Lookup(lines: seq<MapLine>, x: int): (r: int)
    ensures lines == [] ==> r == x
  {
    if lines == [] then x
    else
      match TryApply(lines[0], x)
      case Some(target) => target
      case None => Lookup(lines[1..], x)
  }

  /** The first line containing `x` moves it; before it, none does. */
  lemma {:induction false} LookupFirst(lines: seq<MapLine>, x: int, k: nat)
    requires k < |lines| && Contains(lines[k].source, x)
    requires forall j :: 0 <= j < k ==> !Contains(lines[j].source, x)
    ensures Lookup(lines, x) == x + lines[k].delta
  {
    if k > 0 {
      LookupFirst(lines[1..], x, k - 1);
    }
  }

  /** A number no line contains stays where it is. */
  lemma {:induction false} LookupNone(lines: seq<MapLine>, x: int)
    requires forall j :: 0 <= j < |lines| ==> !Contains(lines[j].source, x)
    ensures Lookup(lines, x) == x
  {
    if lines != [] {
      LookupNone(lines[1..], x);
    }
  }

  method Apply(m: Map, x: int) returns (r: int)
    ensures r == Lookup(m.lines, x)
  {
    for i := 0 to |m.lines|
      invariant Lookup(m.lines, x) == Lookup(m.lines[i..], x)
    {
      var target := TryApply(m.lines[i], x);
      if target.Some? {
        return target.value;
      }
      assert m.lines[i..][1..] == m.lines[i + 1..];
    }
    r := x;
  }

  /** The ranges the lines give, in the order the source collects them:
      each line's moved parts, then what no line moved. */
  function MapRanges(lines: seq<MapLine>, sources: seq<Range>): seq<Range>
    decreases |lines|
  {
    if lines == [] then sources
    else
      var (left, moved) := ApplyRanges(lines[0], sources);
      moved + MapRanges(lines[1..], left)
  }

  method MapApplyRanges(m: Map, sources0: seq<Range>) returns (targets: seq<Range>)
    ensures targets == MapRanges(m.lines, sources0)
  {
    targets := [];
    var sources := sources0;
    for i := 0 to |m.lines|
      invariant targets + MapRanges(m.lines[i..], sources) == MapRanges(m.lines, sources0)
    {
      var left, moved := LineApplyRanges(m.lines[i], sources);
      assert m.lines[i..][1..] == m.lines[i + 1..];
      sources := left;
      targets := targets + moved;
    }
    targets := targets + sources;
  }

  /** Mapping ranges gives exactly the numbers that mapping each number of
      the ranges gives. */
  lemma {:induction false} MapRangesMeaning(lines: seq<MapLine>, sources: seq<Range>, y: int)
    ensures InRanges(MapRanges(lines, sources), y) <==> exists x :: InRanges(sources, x) && Lookup(lines, x) == y
    decreases |lines|
  {
    if lines == [] {
      if InRanges(sources, y) {
        assert Lookup(lines, y) == y;
      }
    } else {
      var line := lines[0];
      var (left, moved) := ApplyRanges(line, sources);
      var rest := MapRanges(lines[1..], left);
      InRangesConcat(moved, rest, y);
      MapRangesMeaning(lines[1..], left, y);
      ApplyRangesMeaning(line, sources, y - line.delta);
      if exists x :: InRanges(sources, x) && Lookup(lines, x) == y {
        var x :| InRanges(sources, x) && Lookup(lines, x) == y;
        ApplyRangesMeaning(line, sources, x);
        if !Contains(line.source, x) {
          assert InRanges(left, x) && Lookup(lines[1..], x) == y;
        }
      }
      if InRanges(rest, y) {
        var x :| InRanges(left, x) && Lookup(lines[1..], x) == y;
        ApplyRangesMeaning(line, sources, x);
        assert InRanges(sources, x) && Lookup(lines, x) == y;
      }
      if InRanges(moved, y) {
        assert InRanges(sources, y - line.delta) && Lookup(lines, y - line.delta) == y;
      }
    }
  }

  // ---------------------------------------------------------------------
  // Reading a line

  datatype LineError =
    | BadTargetStart    // target range start should be a number
    | MissingSourceStart
    | BadSourceStart
    | MissingLength
    | BadLength

  const I64Min: int := -0x8000_0000_0000_0000
  const I64Max: int := 0x7fff_ffff_ffff_ffff

  predicate IsDigit(c: char)
  {
    '0' as int <= c as int <= '9' as int
  }

  /** The value of a string of decimal digits. */
  function DigitsValue(s: string): nat
    requires forall k :: 0 <= k < |s| ==> IsDigit(s[k])
    decreases |s|
  {
    if s == [] then 0
    else
      assert IsDigit(s[|s| - 1]);
      10 * DigitsValue(s[..|s| - 1]) + (s[|s| - 1] as int - '0' as int)
  }

  /** A 64-bit signed integer in decimal: an optional sign and at least one
      digit, within range. */
  function ParseI64(s: string): (r: Option<int>)
    ensures r.Some? ==> I64Min <= r.value <= I64Max
  {
    var negative := |s| > 0 && s[0] == '-';
    var digits := if |s| > 0 && (s[0] == '-' || s[0] == '+') then s[1..] else s;
    if digits == [] || exists k :: 0 <= k < |digits| && !IsDigit(digits[k]) then None
    else
      var v: int := if negative then -(DigitsValue(digits) as int) else DigitsValue(digits);
      if I64Min <= v <= I64Max then Some(v) else None
  }

  /** The first word of `s` and, after the first space, the rest. */
  function SplitWord(s: string): (r: (string, Option<string>))
    ensures r.1.None? ==> r.0 == s && ' ' !in s
    ensures r.1.Some? ==> s == r.0 + " " + r.1.value && ' ' !in r.0
  {
    if ' ' !in s then (s, None)
    else if s[0] == ' ' then ("", Some(s[1..]))
    else
      var (word, rest) := SplitWord(s[1..]);
      ([s[0]] + word, rest)
  }

  /** `s` is the words `t` and `src`, neither holding a space, and the rest
      `l`, joined by single spaces. */
  predicate ThreeWords(s: string, t: string, src: string, l: string)
  {
    ' ' !in t && ' ' !in src && s == t + " " + (src + " " + l)
  }

  /** A map line: target start, source start and length, separated by
      single spaces; the length is the whole rest of the line. A line that
      parses is three numbers so separated, giving delta = target - source
      and the range source..source + length. */
  function ParseLine(s: string): (r: Result<MapLine, LineError>)
    ensures r.Ok? ==>
              exists t, src, l :: ThreeWords(s, t, src, l)
                && ParseI64(t).Some? && ParseI64(src).Some? && ParseI64(l).Some?
                && r.value == MapLine(ParseI64(t).value - ParseI64(src).value,
                                      Range(ParseI64(src).value, ParseI64(src).value + ParseI64(l).value))
  {
    var (w1, rest1) := SplitWord(s);
    var target := ParseI64(w1);
    if target.None? then Err(BadTargetStart)
    else if rest1.None? then Err(MissingSourceStart)
    else
      var (w2, rest2) := SplitWord(rest1.value);
      var source := ParseI64(w2);
      if source.None? then Err(BadSourceStart)
      else if rest2.None? then Err(MissingLength)
      else
        var length := ParseI64(rest2.value);
        if length.None? then Err(BadLength)
        else
          assert ThreeWords(s, w1, w2, rest2.value);
          Ok(MapLine(target.value - source.value, Range(source.value, source.value + length.value)))
  }

  /** A map: a heading line, then one map line per line; the first bad line
      is the error. */
  function ParseMap(lines: seq<string>): Result<Map, LineError>
  {
    if lines == [] then Ok(Map([]))
    else
      match ParseLines(lines[1..])
      case Ok(ls) => Ok(Map(ls))
      case Err(e) => Err(e)
  }

  function ParseLines(lines: seq<string>): (r: Result<seq<MapLine>, LineError>)
    ensures r.Ok? ==> |r.value| == |lines|
  {
    if lines == [] then Ok([])
    else
      match ParseLine(lines[0])
      case Err(e) => Err(e)
      case Ok(line) =>
        match ParseLines(lines[1..])
        case Err(e) => Err(e)
        case Ok(rest) => Ok([line] + rest)
  }

  // ---------------------------------------------------------------------
  // Writing a line

  function DigitChar(d: nat): char
    requires d < 10
  {
    ('0' as int + d) as char
  }

  /** The decimal digits of `n`. */
  function NatText(n: nat): (s: string)
    ensures s != [] && forall k :: 0 <= k < |s| ==> IsDigit(s[k])
  {
    if n < 10 then [DigitChar(n)] else NatText(n / 10) + [DigitChar(n % 10)]
  }

  lemma {:induction false} NatTextValue(n: nat)
    ensures DigitsValue(NatText(n)) == n
  {
    if n >= 10 {
      NatTextValue(n / 10);
      var s := NatText(n);
      assert s[..|s| - 1] == NatText(n / 10);
    }
  }

  function IntText(x: int): string
  {
    if x < 0 then "-" + NatText(-x) else NatText(x)
  }

  lemma IntTextParses(x: int)
    requires I64Min <= x <= I64Max
    ensures ParseI64(IntText(x)) == Some(x)
    ensures ' ' !in IntText(x)
  {
    var s := IntText(x);
    if x < 0 {
      NatTextValue(-x);
      assert s[1..] == NatText(-x);
    } else {
      NatTextValue(x);
    }
  }

  /** The text of a map line. */
  function LineText(target: int, source: int, length: int): string
  {
    IntText(target) + " " + IntText(source) + " " + IntText(length)
  }

  /** Reading the text of a line gives delta = target - source and the
      range source..source + length. */
  lemma ParseLineText(target: int, source: int, length: int)
    requires I64Min <= target <= I64Max && I64Min <= source <= I64Max && I64Min <= length <= I64Max
    ensures ParseLine(LineText(target, source, length))
         == Ok(MapLine(target - source, Range(source, source + length)))
  {
    var t, s, l := IntText(target), IntText(source), IntText(length);
    assert LineText(target, source, length) == t + " " + (s + " " + l);
    IntTextParses(target);
    IntTextParses(source);
    IntTextParses(length);
    ParseWords(t, s, l, target, source, length);
  }

  /** Three words, each read as a number, separated by single spaces. */
  lemma ParseWords(t: string, s: string, l: string, target: int, source: int, length: int)
    requires ' ' !in t && ' ' !in s
    requires ParseI64(t) == Some(target) && ParseI64(s) == Some(source) && ParseI64(l) == Some(length)
    ensures ParseLine(t + " " + (s + " " + l)) == Ok(MapLine(target - source, Range(source, source + length)))
  {
    SplitAtSpace(t, s + " " + l);
    SplitAtSpace(s, l);
  }

  lemma {:induction false} SplitAtSpace(word: string, rest: string)
    requires ' ' !in word
    ensures SplitWord(word + " " + rest) == (word, Some(rest))
    decreases |word|
  {
    if word == [] {
      assert word + " " + rest == [' '] + rest;
    } else {
      SplitAtSpace(word[1..], rest);
      assert (word + " " + rest)[1..] == word[1..] + " " + rest;
      assert [word[0]] + word[1..] == word;
    }
  }
}
