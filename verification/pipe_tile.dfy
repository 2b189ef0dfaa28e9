/** The tiles of the pipe maze (2023/day10/src/tile.rs): which directions
    each tile connects, looked up in a 32-bit mask. */
module PipeTile {
  import opened Outcomes
  import opened PipeDirection
  import opened Arithmetic

  /** The eight tiles, numbered 0 to 7 in declaration order. */
  datatype Tile = Vertical | Horizontal | NorthEast | NorthWest | SouthWest | SouthEast | Ground | Start

  function TileIndex(t: Tile): (r: nat)
    ensures r < 8
  {
    match t
    case Vertical => 0
    case Horizontal => 1
    case NorthEast => 2
    case NorthWest => 3
    case SouthWest => 4
    case SouthEast => 5
    case Ground => 6
    case Start => 7
  }

  /** The byte each tile is drawn with. */
  function TileByte(t: Tile): Byte
  {
    match t
    case Vertical => '|' as Byte
    case Horizontal => '-' as Byte
    case NorthEast => 'L' as Byte
    case NorthWest => 'J' as Byte
    case SouthWest => '7' as Byte
    case SouthEast => 'F' as Byte
    case Ground => '.' as Byte
    case Start => 'S' as Byte
  }

  /** The tile drawn as byte `c`; any other byte is refused (the source
      panics). */
  function FromAscii(c: Byte): (r: Option<Tile>)
    ensures r.Some? ==> TileByte(r.value) == c
    ensures r.None? ==> forall t :: TileByte(t) != c
  {
    if c == '|' as Byte then Some(Vertical)
    else if c == '-' as Byte then Some(Horizontal)
    else if c == 'L' as Byte then Some(NorthEast)
    else if c == 'J' as Byte then Some(NorthWest)
    else if c == '7' as Byte then Some(SouthWest)
    else if c == 'F' as Byte then Some(SouthEast)
    else if c == '.' as Byte then Some(Ground)
    else if c == 'S' as Byte then Some(Start)
    else None
  }

  /** Every tile is read back from its own byte. */
  lemma FromTileByte(t: Tile)
    ensures FromAscii(TileByte(t)) == Some(t)
  {
  }

  /** Bit `4 * tile + direction` of this mask says whether the tile opens
      that way. */
  const OpenMask: bv32 := 0xF06C93A5

  /** Bit `k` of the mask. */
  predicate MaskBit(k: nat)
    requires k < 32
  {
    OpenMask & (1 << k) != 0
  }

  predicate IsOpenTo(t: Tile, d: Direction)
  {
    MaskBit(TileIndex(t) * 4 + Index(d))
  }

  /** The mask bit by bit, lowest first: 1010 0101 1100 1001 0011 0110 0000 1111;
      bit `4 * tile + direction` belongs to one direction of one tile. */
  lemma NorthBits()
    ensures MaskBit(0) && !MaskBit(4) && MaskBit(8) && MaskBit(12)
    ensures !MaskBit(16) && !MaskBit(20) && !MaskBit(24) && MaskBit(28)
  {
  }

  lemma EastBits()
    ensures !MaskBit(1) && MaskBit(5) && MaskBit(9) && !MaskBit(13)
    ensures !MaskBit(17) && MaskBit(21) && !MaskBit(25) && MaskBit(29)
  {
  }

  lemma SouthBits()
    ensures MaskBit(2) && !MaskBit(6) && !MaskBit(10) && !MaskBit(14)
    ensures MaskBit(18) && MaskBit(22) && !MaskBit(26) && MaskBit(30)
  {
  }

  lemma WestBits()
    ensures !MaskBit(3) && MaskBit(7) && !MaskBit(11) && MaskBit(15)
    ensures MaskBit(19) && !MaskBit(23) && !MaskBit(27) && MaskBit(31)
  {
  }

  /** The directions each tile connects, as the tile's shape draws them. */
  function Openings(t: Tile): set<Direction>
  {
    match t
    case Vertical => {North, South}
    case Horizontal => {East, West}
    case NorthEast => {North, East}
    case NorthWest => {North, West}
    case SouthWest => {South, West}
    case SouthEast => {East, South}
    case Ground => {}
    case Start => {North, East, South, West}
  }

  /** The mask encodes exactly the drawn openings. */
  lemma IsOpenToMeaning(t: Tile, d: Direction)
    ensures IsOpenTo(t, d) <==> d in Openings(t)
  {
    match d
    case North => OpenToNorth(t);
    case East => OpenToEast(t);
    case South => OpenToSouth(t);
    case West => OpenToWest(t);
  }

  lemma OpenToNorth(t: Tile)
    ensures IsOpenTo(t, North) <==> North in Openings(t)
  {
    NorthBits();
    match t
    case Vertical =>
    case Horizontal =>
    case NorthEast =>
    case NorthWest =>
    case SouthWest =>
    case SouthEast =>
    case Ground =>
    case Start =>
  }

  lemma OpenToEast(t: Tile)
    ensures IsOpenTo(t, East) <==> East in Openings(t)
  {
    EastBits();
    match t
    case Vertical =>
    case Horizontal =>
    case NorthEast =>
    case NorthWest =>
    case SouthWest =>
    case SouthEast =>
    case Ground =>
    case Start =>
  }

  lemma OpenToSouth(t: Tile)
    ensures IsOpenTo(t, South) <==> South in Openings(t)
  {
    SouthBits();
    match t
    case Vertical =>
    case Horizontal =>
    case NorthEast =>
    case NorthWest =>
    case SouthWest =>
    case SouthEast =>
    case Ground =>
    case Start =>
  }

  lemma OpenToWest(t: Tile)
    ensures IsOpenTo(t, West) <==> West in Openings(t)
  {
    WestBits();
    match t
    case Vertical =>
    case Horizontal =>
    case NorthEast =>
    case NorthWest =>
    case SouthWest =>
    case SouthEast =>
    case Ground =>
    case Start =>
  }

  /** A pipe piece connects two opposite or adjacent sides; the ground
      connects none and the start all four. */
  lemma OpeningCounts(t: Tile)
    ensures |Openings(t)| == if t == Ground then 0 else if t == Start then 4 else 2
  {
  }

  /** Straight pipes open to opposite sides, bends to sides a quarter turn
      apart. */
  lemma PipeShapes(t: Tile, d: Direction)
    requires d in Openings(t)
    ensures t == Vertical || t == Horizontal ==> Reverse(d) in Openings(t)
    ensures t in {NorthEast, NorthWest, SouthWest, SouthEast} ==>
      (Left(d) in Openings(t)) != (Right(d) in Openings(t))
  {
  }
}
