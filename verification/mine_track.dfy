/** The track of the mine carts (2018/13/day13/track.py): segment glyphs and
    the builder that turns text into rows of segments. */
module MineTrack {
  import opened Outcomes

  /** The kinds of track cell, in declaration order. */
  datatype Segment = CurveLeft | CurveRight | Intersection | Space | Horizontal | Vertical

  /** The glyph each segment is written with. */
  function SegmentGlyph(s: Segment): char
  {
    match s
    case CurveLeft => '\\'
    case CurveRight => '/'
    case Intersection => '+'
    case Space => ' '
    case Horizontal => '-'
    case Vertical => '|'
  }

  /** The segments in the order the enumeration yields them. */
  const Members: seq<Segment> := [CurveLeft, CurveRight, Intersection, Space, Horizontal, Vertical]

  /** The first member of `members` whose glyph is `c`. */
  function FindMember(members: seq<Segment>, c: char): (r: Option<Segment>)
    ensures r.Some? ==> r.value in members && SegmentGlyph(r.value) == c
    ensures r.None? ==> forall s :: s in members ==> SegmentGlyph(s) != c
  {
    if members == [] then None
    else if SegmentGlyph(members[0]) == c then Some(members[0])
    else FindMember(members[1..], c)
  }

  /** The glyphs a track may be drawn with: segments and carts. */
  predicate IsTrackGlyph(c: char)
  {
    c == '\\' || c == '/' || c == '+' || c == ' ' || c == '-' || c == '|'
    || c == '<' || c == '>' || c == '^' || c == 'v'
  }

  /** The segment under glyph `c`: a segment glyph stands for itself, a cart
      glyph for the straight segment it rides on, anything else for nothing. */
  function ParseTrackEntry(c: char): (r: Option<Segment>)
    ensures forall s: Segment :: SegmentGlyph(s) == c ==> r == Some(s)
    ensures c == '<' || c == '>' ==> r == Some(Horizontal)
    ensures c == '^' || c == 'v' ==> r == Some(Vertical)
    ensures r.None? <==> !IsTrackGlyph(c)
  {
    var m := FindMember(Members, c);
    if m.Some? then m
    else if c in "<>" then Some(Horizontal)
    else if c in "^v" then Some(Vertical)
    else
      assert forall k :: 0 <= k < |Members| ==> SegmentGlyph(Members[k]) != c;
      None
  }

  type Track = seq<seq<Segment>>

  datatype TrackError = BadCharacter | IncompleteRow

  /** The builder's state: the finished rows and the row being filled. */
  datatype Progress = Progress(rows: seq<seq<Segment>>, row: seq<Segment>)

  /** The effect of appending one character to the builder. */
  function AppendChar(p: Progress, c: char): Result<Progress, TrackError>
  {
    var segment := ParseTrackEntry(c);
    if segment.Some? then Ok(Progress(p.rows, p.row + [segment.value]))
    else if c == '\n' then Ok(Progress(p.rows + [p.row], []))
    else Err(BadCharacter)
  }

  /** The effect of appending every character of `text`, in order; the first
      bad character stops the build. */
  function AppendText(p: Progress, text: string): Result<Progress, TrackError>
    decreases |text|
  {
    if text == [] then Ok(p)
    else
      match AppendText(p, text[..|text| - 1])
      case Err(e) => Err(e)
      case Ok(q) => AppendChar(q, text[|text| - 1])
  }

  /** The track built from `text`: every row must be closed by a newline. */
  function ParseTrack(text: string): Result<Track, TrackError>
  {
    match AppendText(Progress([], []), text)
    case Err(e) => Err(e)
    case Ok(p) => if p.row != [] then Err(IncompleteRow) else Ok(p.rows)
  }

  /** Accumulates segments row by row; a newline closes the current row. */
  class TrackBuilder {
    var rows: seq<seq<Segment>>
    var row: seq<Segment>

    constructor ()
      ensures rows == [] && row == []
    {
      rows := [];
      row := [];
    }

    /** Appends a segment to the current row, or closes it on a newline;
        any other character is refused and changes nothing. */
    method Append(character: char) returns (r: Result<(), TrackError>)
      modifies this
      ensures r.Ok? <==> AppendChar(old(Progress(rows, row)), character).Ok?
      ensures r.Ok? ==> AppendChar(old(Progress(rows, row)), character) == Ok(Progress(rows, row))
      ensures r.Err? ==> r.error == BadCharacter && rows == old(rows) && row == old(row)
    {
      var segment := ParseTrackEntry(character);
      if segment.Some? {
        row := row + [segment.value];
        r := Ok(());
      } else if character == '\n' {
        rows := rows + [row];
        row := [];
        r := Ok(());
      } else {
        r := Err(BadCharacter);
      }
    }

    /** The finished track; an unfinished last row is an error. */
    method Build() returns (r: Result<Track, TrackError>)
      ensures row != [] ==> r == Err(IncompleteRow)
      ensures row == [] ==> r == Ok(rows)
    {
      if row != [] {
        r := Err(IncompleteRow);
      } else {
        r := Ok(rows);
      }
    }
  }

  /** Feeds `text` to a fresh builder, one character at a time, and builds. */
  method BuildTrack(text: string) returns (r: Result<Track, TrackError>)
    ensures r == ParseTrack(text)
  {
    var builder := new TrackBuilder();
    for i := 0 to |text|
      invariant AppendText(Progress([], []), text[..i]) == Ok(Progress(builder.rows, builder.row))
    {
      assert text[..i + 1][..i] == text[..i];
      var appended := builder.Append(text[i]);
      if appended.Err? {
        AppendTextStops(Progress([], []), text[..i + 1], text[i + 1..]);
        assert text[..i + 1] + text[i + 1..] == text;
        return Err(appended.error);
      }
    }
    assert text[..|text|] == text;
    r := builder.Build();
  }

  /** Once a bad character is met, the rest of the text does not matter. */
  lemma {:induction false} AppendTextStops(p: Progress, a: string, b: string)
    requires AppendText(p, a).Err?
    ensures AppendText(p, a + b) == AppendText(p, a)
    decreases |b|
  {
    if b != [] {
      assert (a + b)[..|a + b| - 1] == a + b[..|b| - 1];
      AppendTextStops(p, a, b[..|b| - 1]);
    } else {
      assert a + b == a;
    }
  }

  /** Appending text in two pieces is appending the pieces in turn. */
  lemma {:induction false} AppendTextConcat(p: Progress, a: string, b: string)
    requires AppendText(p, a).Ok?
    ensures AppendText(p, a + b) == AppendText(AppendText(p, a).value, b)
    decreases |b|
  {
    if b == [] {
      assert a + b == a;
    } else {
      assert (a + b)[..|a + b| - 1] == a + b[..|b| - 1];
      AppendTextConcat(p, a, b[..|b| - 1]);
    }
  }

  /** The text of one row of segments. */
  function RowText(row: seq<Segment>): (s: string)
    ensures |s| == |row|
    ensures forall j :: 0 <= j < |row| ==> s[j] == SegmentGlyph(row[j])
  {
    seq(|row|, j requires 0 <= j < |row| => SegmentGlyph(row[j]))
  }

  /** The text of a track: each row's glyphs followed by a newline. */
  function TrackText(track: Track): string
    decreases |track|
  {
    if track == [] then [] else RowText(track[0]) + "\n" + TrackText(track[1..])
  }

  lemma {:induction false} AppendRowText(rows: seq<seq<Segment>>, row: seq<Segment>)
    ensures AppendText(Progress(rows, []), RowText(row)) == Ok(Progress(rows, row))
    decreases |row|
  {
    if row != [] {
      var init, last := row[..|row| - 1], row[|row| - 1];
      var text := RowText(row);
      assert text[..|text| - 1] == RowText(init);
      AppendRowText(rows, init);
      assert AppendText(Progress(rows, []), text) == AppendChar(Progress(rows, init), SegmentGlyph(last));
      assert ParseTrackEntry(SegmentGlyph(last)) == Some(last);
      assert init + [last] == row;
    }
  }

  /** One row of glyphs and its newline append exactly that row. */
  lemma AppendLine(rows: seq<seq<Segment>>, row: seq<Segment>)
    ensures AppendText(Progress(rows, []), RowText(row) + "\n") == Ok(Progress(rows + [row], []))
  {
    AppendRowText(rows, row);
    AppendTextConcat(Progress(rows, []), RowText(row), "\n");
    assert AppendText(Progress(rows, row), "\n") == AppendChar(Progress(rows, row), '\n');
  }

  /** Building the text of a track gives back the same track: one row per
      newline, in order. */
  lemma ParseTrackText(track: Track)
    ensures ParseTrack(TrackText(track)) == Ok(track)
  {
    AppendTrackText([], track);
    assert [] + track == track;
  }

  lemma {:induction false} AppendTrackText(rows: seq<seq<Segment>>, track: Track)
    ensures AppendText(Progress(rows, []), TrackText(track)) == Ok(Progress(rows + track, []))
    decreases |track|
  {
    if track == [] {
      assert rows + track == rows;
    } else {
      AppendFirstRow(rows, track);
      AppendTrackText(rows + [track[0]], track[1..]);
      MoveFirst(rows, track);
    }
  }

  lemma MoveFirst<T>(a: seq<T>, b: seq<T>)
    requires b != []
    ensures a + [b[0]] + b[1..] == a + b
  {
    assert b == [b[0]] + b[1..];
  }

  lemma AppendFirstRow(rows: seq<seq<Segment>>, track: Track)
    requires track != []
    ensures AppendText(Progress(rows, []), TrackText(track))
         == AppendText(Progress(rows + [track[0]], []), TrackText(track[1..]))
  {
    AppendLine(rows, track[0]);
    AppendTextConcat(Progress(rows, []), RowText(track[0]) + "\n", TrackText(track[1..]));
  }

  /** Text whose last line lacks its newline is refused as an incomplete row. */
  lemma IncompleteLastRow(track: Track, row: seq<Segment>)
    requires row != []
    ensures ParseTrack(TrackText(track) + RowText(row)) == Err(IncompleteRow)
  {
    AppendTrackText([], track);
    assert [] + track == track;
    AppendTextConcat(Progress([], []), TrackText(track), RowText(row));
    AppendRowText(track, row);
  }
}
