/** The seat layout cells of the ferry waiting area
    (2020/src/day11/grid/spot.rs): parsing a cell and its next state. */
module Seats {
  import opened Outcomes

  /** The state of one position in the grid. */
  datatype Spot = Floor | Empty | Occupied

  datatype ParseError = BadSpot(c: char)

  /** The character each spot is drawn with. */
  function SpotChar(s: Spot): char
  {
    match s
    case Floor => '.'
    case Empty => 'L'
    case Occupied => '#'
  }

  /** The spot drawn as `c`; any other character is an error naming it. */
  function FromChar(c: char): (r: Result<Spot, ParseError>)
    ensures r.Ok? <==> c in ".L#"
    ensures r.Ok? ==> SpotChar(r.value) == c
    ensures r.Err? ==> r.error == BadSpot(c)
  {
    match c
    case '.' => Ok(Floor)
    case 'L' => Ok(Empty)
    case '#' => Ok(Occupied)
    case _ => Err(BadSpot(c))
  }

  /** Every spot parses back from its own character. */
  lemma FromSpotChar(s: Spot)
    ensures FromChar(SpotChar(s)) == Ok(s)
  {
  }

  /** The state of a spot after one round, given the number `n` of its
      occupied neighbours. */
  function Next(s: Spot, n: nat): (r: Spot)
    ensures s == Floor ==> r == Floor
    ensures r != s ==>
      (s == Empty && n == 0 && r == Occupied) || (s == Occupied && n > 3 && r == Empty)
  {
    match s
    case Empty => if n == 0 then Occupied else s
    case Occupied => if n > 3 then Empty else s
    case Floor => s
  }

  /** A spot changes at most once under a fixed neighbour count: a second
      round with the same count leaves it alone. */
  lemma NextIdempotent(s: Spot, n: nat)
    ensures Next(Next(s, n), n) == Next(s, n)
  {
  }

  /** A spot changes exactly when an empty seat has no occupied neighbour
      or an occupied seat has more than three. */
  lemma NextChanges(s: Spot, n: nat)
    ensures Next(s, n) != s <==> (s == Empty && n == 0) || (s == Occupied && n > 3)
  {
  }

  /** `line[i]` is the first character that is not a spot. */
  predicate FirstBad(line: string, i: int)
  {
    0 <= i < |line| && line[i] !in ".L#" && forall j :: 0 <= j < i ==> line[j] in ".L#"
  }

  /** The spots of one line of text; the first bad character is the error. */
  function ParseLine(line: string): (r: Result<seq<Spot>, ParseError>)
    ensures r.Ok? ==> |r.value| == |line|
    ensures r.Ok? ==> forall i :: 0 <= i < |line| ==> FromChar(line[i]) == Ok(r.value[i])
    ensures r.Err? ==>
      exists i :: FirstBad(line, i) && r.error == BadSpot(line[i])
  {
    if line == [] then Ok([])
    else
      match FromChar(line[0])
      case Err(e) => Err(e)
      case Ok(spot) =>
        match ParseLine(line[1..])
        case Err(e) =>
          var i :| FirstBad(line[1..], i) && e == BadSpot(line[1..][i]);
          assert FirstBad(line, i + 1);
          Err(e)
        case Ok(rest) => Ok([spot] + rest)
  }

  /** The text of a row of spots. */
  function LineText(row: seq<Spot>): (s: string)
    ensures |s| == |row| && forall i :: 0 <= i < |row| ==> s[i] == SpotChar(row[i])
  {
    seq(|row|, i requires 0 <= i < |row| => SpotChar(row[i]))
  }

  /** Parsing the text of a row gives the row back. */
  lemma ParseLineText(row: seq<Spot>)
    ensures ParseLine(LineText(row)) == Ok(row)
  {
    var r := ParseLine(LineText(row));
    forall i | 0 <= i < |row|
      ensures FromChar(LineText(row)[i]) == Ok(row[i])
    {
      FromSpotChar(row[i]);
    }
    assert r.Ok? ==> r.value == row;
  }
}
