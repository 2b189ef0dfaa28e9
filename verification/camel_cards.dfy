/** Hands of camel cards (2023/day7/src/hand.rs, with the cards of
    2023/day7/src/card.rs): classifying five cards by how many of each they
    hold, letting jokers stand in for the best card, and ordering hands. */
module CamelCards {
  import opened Outcomes

  // ---------------------------------------------------------------------
  // Cards

  /** Cards from weakest to strongest; a joker is weaker than a two. */
  datatype Card = Joker | Two | Three | Four | Five | Six | Seven | Eight | Nine
                | Ten | Jack | Queen | King | Ace

  function CardRank(c: Card): nat
  {
    match c
    case Joker => 0  case Two => 1  case Three => 2  case Four => 3
    case Five => 4  case Six => 5  case Seven => 6  case Eight => 7
    case Nine => 8  case Ten => 9  case Jack => 10  case Queen => 11
    case King => 12  case Ace => 13
  }

  lemma CardRankInjective(a: Card, b: Card)
    ensures CardRank(a) == CardRank(b) <==> a == b
  {
  }

  /** The card a character names; J is a jack, and no character names a
      joker. */
  function FromAscii(c: char): (r: Option<Card>)
    ensures r != Some(Joker)
  {
    match c
    case '2' => Some(Two)  case '3' => Some(Three)  case '4' => Some(Four)
    case '5' => Some(Five)  case '6' => Some(Six)  case '7' => Some(Seven)
    case '8' => Some(Eight)  case '9' => Some(Nine)  case 'T' => Some(Ten)
    case 'J' => Some(Jack)  case 'Q' => Some(Queen)  case 'K' => Some(King)
    case 'A' => Some(Ace)
    case _ => None
  }

  /** The character of a card other than the joker. */
  function CardChar(c: Card): char
    requires c != Joker
  {
    match c
    case Two => '2'  case Three => '3'  case Four => '4'  case Five => '5'
    case Six => '6'  case Seven => '7'  case Eight => '8'  case Nine => '9'
    case Ten => 'T'  case Jack => 'J'  case Queen => 'Q'  case King => 'K'
    case Ace => 'A'
  }

  lemma FromAsciiCardChar(c: Card)
    requires c != Joker
    ensures FromAscii(CardChar(c)) == Some(c)
  {
  }

  /** Under the joker rule a jack is a joker. */
  function CardWithJokers(c: Card): (r: Card)
    ensures c == Jack ==> r == Joker
    ensures c != Jack ==> r == c
  {
    match c
    case Jack => Joker
    case _ => c
  }

  // ---------------------------------------------------------------------
  // Hands

  type Cards = s: seq<Card> | |s| == 5 witness [Joker, Joker, Joker, Joker, Joker]

  datatype Hand = Hand(cards: Cards)

  /** How many times `c` occurs in `s`. */
  function Count(s: seq<Card>, c: Card): nat
  {
    multiset(s)[c]
  }

  /** The first position of a card the hand holds. */
  function FirstPosition(s: seq<Card>, c: Card): (r: nat)
    requires c in s
    ensures r < |s| && s[r] == c
    ensures forall i :: 0 <= i < r ==> s[i] != c
  {
    if s[0] == c then 0 else 1 + FirstPosition(s[1..], c)
  }

  /** How many of the first `n` cards have their first occurrence at `k`. */
  function Tally(s: seq<Card>, n: nat, k: nat): nat
    requires n <= |s|
  {
    if n == 0 then 0
    else Tally(s, n - 1, k) + (if FirstPosition(s, s[n - 1]) == k then 1 else 0)
  }

  /** The count array the hand fills: each card is counted at the first
      position of its kind, so every other position stays 0. */
  function Counts(s: Cards): (r: seq<nat>)
    ensures |r| == 5
  {
    seq(5, k requires 0 <= k < 5 => Tally(s, |s|, k))
  }

  /** Counting the cards of a hand into the array of five counts. */
  method FillCounts(s: Cards) returns (counts: array<nat>)
    ensures fresh(counts) && counts[..] == Counts(s)
  {
    counts := new nat[5](_ => 0);
    for i := 0 to 5
      invariant forall k :: 0 <= k < 5 ==> counts[k] == Tally(s, i, k)
    {
      var p := FirstPosition(s, s[i]);
      counts[p] := counts[p] + 1;
    }
  }

  /** Position `k` holds the number of copies of its card when it is the
      first of its kind, else 0. */
  lemma {:induction false} TallyMeaning(s: seq<Card>, n: nat, k: nat)
    requires n <= |s| && k < |s|
    ensures Tally(s, n, k) == if FirstPosition(s, s[k]) == k then Count(s[..n], s[k]) else 0
  {
    if n > 0 {
      TallyMeaning(s, n - 1, k);
      assert s[..n] == s[..n - 1] + [s[n - 1]];
      assert FirstPosition(s, s[n - 1]) == k <==> s[n - 1] == s[k] && FirstPosition(s, s[k]) == k;
    }
  }

  lemma CountsMeaning(s: Cards, k: nat)
    requires k < 5
    ensures Counts(s)[k] == if FirstPosition(s, s[k]) == k then Count(s, s[k]) else 0
  {
    TallyMeaning(s, 5, k);
    assert s[..5] == s;
  }

  function Sum(s: seq<nat>): nat
  {
    if s == [] then 0 else s[0] + Sum(s[1..])
  }

  lemma Sum5(s: seq<nat>)
    requires |s| == 5
    ensures Sum(s) == s[0] + s[1] + s[2] + s[3] + s[4]
  {
    var t1 := s[1..];
    var t2 := t1[1..];
    var t3 := t2[1..];
    var t4 := t3[1..];
    assert t4[1..] == [];
    assert Sum(t4) == s[4];
    assert Sum(t3) == s[3] + s[4];
    assert Sum(t2) == s[2] + s[3] + s[4];
    assert Sum(t1) == s[1] + s[2] + s[3] + s[4];
  }

  /** Over all positions, the tallies of the first `n` cards add up to `n`. */
  lemma {:induction false} TallySum(s: Cards, n: nat)
    requires n <= 5
    ensures Tally(s, n, 0) + Tally(s, n, 1) + Tally(s, n, 2) + Tally(s, n, 3) + Tally(s, n, 4) == n
  {
    if n > 0 {
      TallySum(s, n - 1);
      var p := FirstPosition(s, s[n - 1]);
      assert p < 5;
    }
  }

  /** The counts add up to the five cards of the hand. */
  lemma CountsSum(s: Cards)
    ensures Sum(Counts(s)) == 5
  {
    Sum5(Counts(s));
    TallySum(s, 5);
  }

  // ---------------------------------------------------------------------
  // The sorted counts

  predicate Ascending(s: seq<nat>)
  {
    forall i, j :: 0 <= i < j < |s| ==> s[i] <= s[j]
  }

  predicate Descending(s: seq<nat>)
  {
    forall i, j :: 0 <= i < j < |s| ==> s[i] >= s[j]
  }

  function Insert(x: nat, s: seq<nat>): (r: seq<nat>)
    requires Ascending(s)
    ensures Ascending(r) && multiset(r) == multiset(s) + multiset{x} && |r| == |s| + 1
  {
    if s == [] || x <= s[0] then [x] + s
    else
      var rest := Insert(x, s[1..]);
      InsertAfter(x, s, rest);
      [s[0]] + rest
  }

  /** Putting the head of `s` back in front of `x` inserted into the tail. */
  lemma InsertAfter(x: nat, s: seq<nat>, rest: seq<nat>)
    requires Ascending(s) && s != [] && s[0] < x
    requires Ascending(rest) && multiset(rest) == multiset(s[1..]) + multiset{x}
    ensures Ascending([s[0]] + rest) && multiset([s[0]] + rest) == multiset(s) + multiset{x}
  {
    assert s == [s[0]] + s[1..];
    forall i | 0 <= i < |rest|
      ensures s[0] <= rest[i]
    {
      assert rest[i] in multiset(rest);
    }
  }

  lemma InsertSum(x: nat, s: seq<nat>)
    requires Ascending(s)
    ensures Sum(Insert(x, s)) == x + Sum(s)
  {
    if s != [] && x > s[0] {
      InsertSum(x, s[1..]);
    }
  }

  /** The counts in ascending order, as the library sort leaves them. */
  function Sort(s: seq<nat>): (r: seq<nat>)
    ensures Ascending(r) && multiset(r) == multiset(s) && |r| == |s|
  {
    if s == [] then []
    else
      assert s == [s[0]] + s[1..];
      Insert(s[0], Sort(s[1..]))
  }

  lemma SortSum(s: seq<nat>)
    ensures Sum(Sort(s)) == Sum(s)
  {
    if s != [] {
      SortSum(s[1..]);
      InsertSum(s[0], Sort(s[1..]));
    }
  }

  function Reverse(s: seq<nat>): (r: seq<nat>)
    ensures |r| == |s| && forall i :: 0 <= i < |s| ==> r[i] == s[|s| - 1 - i]
  {
    if s == [] then [] else Reverse(s[1..]) + [s[0]]
  }

  lemma ReverseKeeps(s: seq<nat>)
    ensures multiset(Reverse(s)) == multiset(s)
    ensures Ascending(s) ==> Descending(Reverse(s))
  {
    if s != [] {
      ReverseKeeps(s[1..]);
      assert s == [s[0]] + s[1..];
    }
  }

  /** The counts, largest first. */
  function Pattern(s: Cards): seq<nat>
  {
    Reverse(Sort(Counts(s)))
  }

  lemma PatternFacts(s: Cards)
    ensures Splits(Pattern(s))
    ensures multiset(Pattern(s)) == multiset(Counts(s))
  {
    var sorted := Sort(Counts(s));
    ReverseKeeps(sorted);
    SortSum(Counts(s));
    CountsSum(s);
    Sum5(sorted);
  }

  // ---------------------------------------------------------------------
  // Hand types

  datatype HandType = HighCard | OnePair | TwoPair | ThreeOfAKind | FullHouse | FourOfAKind | FiveOfAKind

  function TypeRank(t: HandType): nat
  {
    match t
    case HighCard => 0  case OnePair => 1  case TwoPair => 2  case ThreeOfAKind => 3
    case FullHouse => 4  case FourOfAKind => 5  case FiveOfAKind => 6
  }

  /** The type a pattern of counts names; any other pattern is unreachable. */
  function Shape(p: seq<nat>): Option<HandType>
  {
    if p == [5, 0, 0, 0, 0] then Some(FiveOfAKind)
    else if p == [4, 1, 0, 0, 0] then Some(FourOfAKind)
    else if p == [3, 2, 0, 0, 0] then Some(FullHouse)
    else if p == [3, 1, 1, 0, 0] then Some(ThreeOfAKind)
    else if p == [2, 2, 1, 0, 0] then Some(TwoPair)
    else if p == [2, 1, 1, 1, 0] then Some(OnePair)
    else if p == [1, 1, 1, 1, 1] then Some(HighCard)
    else None
  }

  /** Five counts, largest first, that add up to five: the seven ways of
      splitting five. */
  predicate Splits(p: seq<nat>)
  {
    |p| == 5 && Descending(p) && p[0] + p[1] + p[2] + p[3] + p[4] == 5
  }

  lemma SplitsOfFive(p: seq<nat>)
    requires Splits(p)
    ensures p == [5, 0, 0, 0, 0] || p == [4, 1, 0, 0, 0] || p == [3, 2, 0, 0, 0]
         || p == [3, 1, 1, 0, 0] || p == [2, 2, 1, 0, 0] || p == [2, 1, 1, 1, 0]
         || p == [1, 1, 1, 1, 1]
  {
    assert p[0] >= p[1] >= p[2] >= p[3] >= p[4];
    assert p == [p[0], p[1], p[2], p[3], p[4]];
  }

  /** Every split of five names a type, and a joker count that is one of its
      parts never reaches the unreachable case of the joker table. */
  lemma ShapeTotal(p: seq<nat>, jokers: nat)
    requires Splits(p) && (jokers == 0 || jokers in p)
    ensures Shape(p).Some? && Upgrade(Shape(p).value, jokers).Some?
  {
    SplitsOfFive(p);
  }

  /** The type a split names, by its largest part. */
  lemma ShapeByLead(p: seq<nat>)
    requires Splits(p)
    ensures Shape(p) == Some(FiveOfAKind) <==> p[0] == 5
    ensures Shape(p) == Some(FourOfAKind) <==> p[0] == 4
    ensures Shape(p) in {Some(FullHouse), Some(ThreeOfAKind)} <==> p[0] == 3
    ensures Shape(p) in {Some(TwoPair), Some(OnePair)} <==> p[0] == 2
    ensures Shape(p) == Some(HighCard) <==> p[0] == 1
  {
    SplitsOfFive(p);
  }

  /** The type jokers raise a hand to; a joker count that cannot go with
      the type is unreachable. Jokers never lower a hand. */
  function Upgrade(t: HandType, jokers: nat): (r: Option<HandType>)
    ensures r.Some? ==> TypeRank(r.value) >= TypeRank(t)
    ensures jokers == 0 ==> r == Some(t)
  {
    if jokers == 0 then Some(t)
    else
      match (t, jokers)
      case (FiveOfAKind, 5) => Some(FiveOfAKind)
      case (FourOfAKind, 4) => Some(FiveOfAKind)
      case (FourOfAKind, 1) => Some(FiveOfAKind)
      case (FullHouse, 3) => Some(FiveOfAKind)
      case (FullHouse, 2) => Some(FiveOfAKind)
      case (ThreeOfAKind, 3) => Some(FourOfAKind)
      case (ThreeOfAKind, 1) => Some(FourOfAKind)
      case (TwoPair, 2) => Some(FourOfAKind)
      case (TwoPair, 1) => Some(FullHouse)
      case (OnePair, 2) => Some(ThreeOfAKind)
      case (OnePair, 1) => Some(ThreeOfAKind)
      case (HighCard, 1) => Some(OnePair)
      case _ => None
  }

  /** A joker count above zero is one of the counts in the pattern. */
  lemma JokersInPattern(s: Cards)
    ensures Count(s, Joker) > 0 ==> Count(s, Joker) in Pattern(s)
  {
    if Count(s, Joker) > 0 {
      var k := FirstPosition(s, Joker);
      CountsMeaning(s, k);
      PatternFacts(s);
      assert Counts(s)[k] in multiset(Counts(s));
    }
  }

  /** The type of a hand: the type its pattern names, raised by its jokers.
      The classification never reaches either unreachable case. */
  function Classify(h: Hand): (r: Option<HandType>)
    ensures r.Some?
    ensures Count(h.cards, Joker) == 0 ==> r == Shape(Pattern(h.cards))
  {
    PatternFacts(h.cards);
    JokersInPattern(h.cards);
    ShapeTotal(Pattern(h.cards), Count(h.cards, Joker));
    match Shape(Pattern(h.cards))
    case None => None
    case Some(before) => Upgrade(before, Count(h.cards, Joker))
  }

  /** The type of a hand. */
  function TypeOf(h: Hand): HandType
  {
    Classify(h).value
  }

  /** Counts the cards, sorts the counts largest first, names the pattern
      and lets the jokers raise it. */
  method HandTypeOf(h: Hand) returns (t: HandType)
    ensures t == TypeOf(h)
  {
    var counts := FillCounts(h.cards);
    var pattern := Reverse(Sort(counts[..]));
    assert pattern == Pattern(h.cards);
    PatternFacts(h.cards);
    var jokers := Count(h.cards, Joker);
    JokersInPattern(h.cards);
    ShapeTotal(pattern, jokers);
    var before := Shape(pattern);
    if before.None? {
      assert false;
    }
    var after := Upgrade(before.value, jokers);
    if after.None? {
      assert false;
    }
    t := after.value;
  }

  // ---------------------------------------------------------------------
  // The largest group

  function MaxOf(xs: seq<nat>): (r: nat)
    requires xs != []
    ensures forall i :: 0 <= i < |xs| ==> xs[i] <= r
    ensures exists i :: 0 <= i < |xs| && xs[i] == r
  {
    if |xs| == 1 then xs[0]
    else
      var rest := MaxOf(xs[1..]);
      assert forall i :: 1 <= i < |xs| ==> xs[i] == xs[1..][i - 1];
      if xs[0] >= rest then xs[0] else rest
  }

  /** The number of copies of the most common card. */
  function LargestGroup(s: Cards): nat
  {
    MaxOf(seq(5, i requires 0 <= i < 5 => Count(s, s[i])))
  }

  /** The pattern starts with the largest group. */
  lemma PatternLeads(s: Cards)
    ensures Pattern(s)[0] == LargestGroup(s)
  {
    var p := Pattern(s);
    var groups := seq(5, i requires 0 <= i < 5 => Count(s, s[i]));
    PatternFacts(s);
    forall i | 0 <= i < 5
      ensures groups[i] <= p[0]
    {
      var k := FirstPosition(s, s[i]);
      CountsMeaning(s, k);
      assert Counts(s)[k] in multiset(p);
    }
    assert p[0] in multiset(Counts(s));
    var k :| 0 <= k < 5 && Counts(s)[k] == p[0];
    CountsMeaning(s, k);
    assert p[0] <= groups[k];
  }

  /** Before jokers, the type is fixed by the largest group: five, four,
      three (full house or three of a kind), two (two pair or one pair),
      or one. */
  lemma TypeByLargestGroup(s: Cards)
    ensures Shape(Pattern(s)) == Some(FiveOfAKind) <==> LargestGroup(s) == 5
    ensures Shape(Pattern(s)) == Some(FourOfAKind) <==> LargestGroup(s) == 4
    ensures Shape(Pattern(s)) in {Some(FullHouse), Some(ThreeOfAKind)} <==> LargestGroup(s) == 3
    ensures Shape(Pattern(s)) in {Some(TwoPair), Some(OnePair)} <==> LargestGroup(s) == 2
    ensures Shape(Pattern(s)) == Some(HighCard) <==> LargestGroup(s) == 1
  {
    PatternLeads(s);
    PatternFacts(s);
    ShapeByLead(Pattern(s));
  }

  // ---------------------------------------------------------------------
  // Jokers

  /** The hand read under the joker rule. */
  function JokerHand(h: Hand): (r: Hand)
    ensures forall i :: 0 <= i < 5 ==> r.cards[i] == CardWithJokers(h.cards[i])
  {
    Hand(seq(5, i requires 0 <= i < 5 => CardWithJokers(h.cards[i])))
  }

  /** Turns every jack of the hand into a joker, in place. */
  method WithJokers(h: Hand) returns (r: Hand)
    ensures r == JokerHand(h)
  {
    var cards := new Card[5](i requires 0 <= i < 5 => h.cards[i]);
    for i := 0 to 5
      invariant forall k :: 0 <= k < i ==> cards[k] == CardWithJokers(h.cards[k])
      invariant forall k :: i <= k < 5 ==> cards[k] == h.cards[k]
    {
      cards[i] := CardWithJokers(cards[i]);
    }
    r := Hand(cards[..]);
  }

  /** Two hands whose cards match at the same positions. */
  predicate SameGrouping(s: Cards, t: Cards)
  {
    forall i, j :: 0 <= i < 5 && 0 <= j < 5 ==> (s[i] == s[j] <==> t[i] == t[j])
  }

  lemma SameFirstPosition(s: Cards, t: Cards, j: nat)
    requires SameGrouping(s, t) && j < 5
    ensures FirstPosition(s, s[j]) == FirstPosition(t, t[j])
  {
    var a, b := FirstPosition(s, s[j]), FirstPosition(t, t[j]);
    assert t[a] == t[j] && s[b] == s[j];
  }

  lemma {:induction false} SameTally(s: Cards, t: Cards, n: nat, k: nat)
    requires SameGrouping(s, t) && n <= 5
    ensures Tally(s, n, k) == Tally(t, n, k)
  {
    if n > 0 {
      SameTally(s, t, n - 1, k);
      SameFirstPosition(s, t, n - 1);
    }
  }

  /** Hands grouped alike have the same pattern of counts. */
  lemma SamePattern(s: Cards, t: Cards)
    requires SameGrouping(s, t)
    ensures Pattern(s) == Pattern(t)
  {
    forall k | 0 <= k < 5
      ensures Counts(s)[k] == Counts(t)[k]
    {
      SameTally(s, t, 5, k);
    }
    assert Counts(s) == Counts(t);
  }

  /** Reading a hand without jokers under the joker rule never lowers its
      type. */
  lemma JokersNeverLower(h: Hand)
    requires Joker !in h.cards
    ensures TypeRank(TypeOf(JokerHand(h))) >= TypeRank(TypeOf(h))
  {
    var j := JokerHand(h);
    assert SameGrouping(h.cards, j.cards);
    SamePattern(h.cards, j.cards);
    assert Count(h.cards, Joker) == 0;
  }

  // ---------------------------------------------------------------------
  // Ordering

  datatype Ordering = Less | Equal | Greater

  function Flip(o: Ordering): Ordering
  {
    match o
    case Less => Greater
    case Equal => Equal
    case Greater => Less
  }

  function CompareNat(a: nat, b: nat): (r: Ordering)
    ensures r == Less <==> a < b
    ensures r == Equal <==> a == b
  {
    if a < b then Less else if a == b then Equal else Greater
  }

  /** Cards compared position by position, by rank. */
  function CompareCards(a: seq<Card>, b: seq<Card>): Ordering
    requires |a| == |b|
  {
    if a == [] then Equal
    else if CardRank(a[0]) != CardRank(b[0]) then CompareNat(CardRank(a[0]), CardRank(b[0]))
    else CompareCards(a[1..], b[1..])
  }

  /** Hands order by type, then by their cards from the first; they are
      Equal exactly when they hold the same cards. */
  function Compare(a: Hand, b: Hand): (r: Ordering)
    ensures r == Equal <==> a.cards == b.cards
  {
    CompareCardsEqual(a.cards, b.cards);
    var byType := CompareNat(TypeRank(TypeOf(a)), TypeRank(TypeOf(b)));
    if byType != Equal then byType else CompareCards(a.cards, b.cards)
  }

  lemma {:induction false} CompareCardsEqual(a: seq<Card>, b: seq<Card>)
    requires |a| == |b|
    ensures CompareCards(a, b) == Equal <==> a == b
    ensures CompareCards(b, a) == Flip(CompareCards(a, b))
  {
    if a != [] {
      CardRankInjective(a[0], b[0]);
      CompareCardsEqual(a[1..], b[1..]);
      assert a == [a[0]] + a[1..] && b == [b[0]] + b[1..];
    }
  }

  lemma {:induction false} CompareCardsTransitive(a: seq<Card>, b: seq<Card>, c: seq<Card>)
    requires |a| == |b| == |c|
    requires CompareCards(a, b) == Less && CompareCards(b, c) == Less
    ensures CompareCards(a, c) == Less
  {
    if CardRank(a[0]) == CardRank(b[0]) && CardRank(b[0]) == CardRank(c[0]) {
      CompareCardsTransitive(a[1..], b[1..], c[1..]);
    }
  }

  lemma CompareFlip(a: Hand, b: Hand)
    ensures Compare(b, a) == Flip(Compare(a, b))
  {
    CompareCardsEqual(a.cards, b.cards);
  }

  lemma CompareTransitive(a: Hand, b: Hand, c: Hand)
    requires Compare(a, b) == Less && Compare(b, c) == Less
    ensures Compare(a, c) == Less
  {
    if TypeOf(a) == TypeOf(b) && TypeOf(b) == TypeOf(c) {
      CompareCardsTransitive(a.cards, b.cards, c.cards);
    }
  }

  // ---------------------------------------------------------------------
  // Parsing

  /** The cards the characters name, or None at the first bad one. */
  function ParseCards(s: string): (r: Option<seq<Card>>)
    ensures r.Some? ==> |r.value| == |s| && forall i :: 0 <= i < |s| ==> FromAscii(s[i]) == Some(r.value[i])
    ensures r.None? ==> exists i :: 0 <= i < |s| && FromAscii(s[i]).None?
  {
    if s == [] then Some([])
    else
      match FromAscii(s[0])
      case None => None
      case Some(c) =>
        match ParseCards(s[1..])
        case None => None
        case Some(rest) => Some([c] + rest)
  }

  /** The hand named by the first five characters; fewer characters, or a
      bad one among them, is an error. */
  function ParseHand(s: string): (r: Option<Hand>)
    ensures r.Some? ==> Joker !in r.value.cards
    ensures r.None? <==> |s| < 5 || ParseCards(s[..5]).None?
  {
    if |s| < 5 then None
    else
      match ParseCards(s[..5])
      case None => None
      case Some(cards) => Some(Hand(cards))
  }

  /** The characters of a hand without jokers. */
  function HandText(h: Hand): string
    requires Joker !in h.cards
  {
    seq(5, i requires 0 <= i < 5 => CardChar(h.cards[i]))
  }

  lemma {:induction false} ParseCardsText(cards: seq<Card>)
    requires Joker !in cards
    ensures ParseCards(seq(|cards|, i requires 0 <= i < |cards| => CardChar(cards[i]))) == Some(cards)
  {
    var text := seq(|cards|, i requires 0 <= i < |cards| => CardChar(cards[i]));
    if cards != [] {
      ParseCardsText(cards[1..]);
      assert text[1..] == seq(|cards| - 1, i requires 0 <= i < |cards| - 1 => CardChar(cards[1..][i]));
      FromAsciiCardChar(cards[0]);
      assert cards == [cards[0]] + cards[1..];
    }
  }

  /** Writing a hand and reading it back gives the same hand. */
  lemma ParseHandText(h: Hand)
    requires Joker !in h.cards
    ensures ParseHand(HandText(h)) == Some(h)
  {
    ParseCardsText(h.cards);
    assert HandText(h)[..5] == HandText(h);
  }

  // ---------------------------------------------------------------------
  // Sorted counts name the type

  /** Only one order of a multiset is largest first. */
  lemma {:induction false} DescendingUnique(p: seq<nat>, q: seq<nat>)
    requires Descending(p) && Descending(q) && multiset(p) == multiset(q)
    ensures p == q
    decreases |p|
  {
    assert |p| == |multiset(p)| == |q|;
    if p != [] {
      assert p[0] in multiset(q) && q[0] in multiset(p);
      assert p[0] == q[0];
      assert p == [p[0]] + p[1..] && q == [q[0]] + q[1..];
      assert multiset(p) == multiset{p[0]} + multiset(p[1..]);
      assert multiset(q) == multiset{q[0]} + multiset(q[1..]);
      forall x
        ensures multiset(p[1..])[x] == multiset(q[1..])[x]
      {
        assert multiset(p)[x] == multiset(q)[x];
      }
      assert multiset(p[1..]) == multiset(q[1..]);
      DescendingUnique(p[1..], q[1..]);
    }
  }

  /** The pattern of a hand is its counts, largest first. */
  lemma PatternIs(s: Cards, p: seq<nat>)
    requires Descending(p) && multiset(p) == multiset(Counts(s))
    ensures Pattern(s) == p
  {
    PatternFacts(s);
    DescendingUnique(Pattern(s), p);
  }

  /** The type of a hand without jokers whose counts, largest first, are
      `p`. */
  lemma TypeFromPattern(h: Hand, counts: seq<nat>, p: seq<nat>)
    requires Counts(h.cards) == counts
    requires Descending(p) && multiset(p) == multiset(counts)
    requires Count(h.cards, Joker) == 0
    ensures Shape(p).Some? && TypeOf(h) == Shape(p).value
  {
    PatternIs(h.cards, p);
    assert Classify(h) == Shape(p);
  }

  // ---------------------------------------------------------------------
  // The hands of the tests

  /** The number of copies of a card among five, position by position. */
  lemma CountFive(s: Cards, c: Card)
    ensures Count(s, c) == (if s[0] == c then 1 else 0) + (if s[1] == c then 1 else 0) + (if s[2] == c then 1 else 0)
                         + (if s[3] == c then 1 else 0) + (if s[4] == c then 1 else 0)
  {
    assert s == [s[0]] + [s[1]] + [s[2]] + [s[3]] + [s[4]];
  }

  /** The counts of a hand, one position at a time. */
  lemma CountsAre(s: Cards, c: seq<nat>)
    requires |c| == 5
    requires forall k :: 0 <= k < 5 ==> c[k] == if FirstPosition(s, s[k]) == k then Count(s, s[k]) else 0
    ensures Counts(s) == c
  {
    forall k | 0 <= k < 5
      ensures Counts(s)[k] == c[k]
    {
      CountsMeaning(s, k);
    }
  }

  /** Exchanging two entries keeps the multiset of counts. */
  lemma Swapped(c: seq<nat>, i: int, j: int, d: seq<nat>)
    requires 0 <= i < |c| && 0 <= j < |c| && |d| == |c| && d[i] == c[j] && d[j] == c[i]
    requires forall k :: 0 <= k < |c| && k != i && k != j ==> d[k] == c[k]
    ensures multiset(d) == multiset(c)
  {
    if i != j {
      var e := c[i := c[j]];
      assert d == e[j := c[i]];
      assert multiset(e) == multiset(c) - multiset{c[i]} + multiset{c[j]};
      assert multiset(d) == multiset(e) - multiset{c[j]} + multiset{c[i]};
    } else {
      assert d == c;
    }
  }

  /** The type of a hand whose counts, largest first, are `p`: the type
      `p` names, raised by the jokers of the hand. */
  lemma TypeOfPattern(h: Hand, p: seq<nat>, jokers: nat, before: HandType, t: HandType)
    requires Pattern(h.cards) == p && Count(h.cards, Joker) == jokers
    requires Shape(p) == Some(before) && Upgrade(before, jokers) == Some(t)
    ensures TypeOf(h) == t
  {
  }

  /** The rows of the joker table. */
  lemma JokerTable()
    ensures Upgrade(FiveOfAKind, 5) == Some(FiveOfAKind)
    ensures Upgrade(FourOfAKind, 4) == Some(FiveOfAKind) && Upgrade(FourOfAKind, 1) == Some(FiveOfAKind)
    ensures Upgrade(FullHouse, 3) == Some(FiveOfAKind) && Upgrade(FullHouse, 2) == Some(FiveOfAKind)
    ensures Upgrade(ThreeOfAKind, 3) == Some(FourOfAKind) && Upgrade(ThreeOfAKind, 1) == Some(FourOfAKind)
    ensures Upgrade(TwoPair, 2) == Some(FourOfAKind) && Upgrade(TwoPair, 1) == Some(FullHouse)
    ensures Upgrade(OnePair, 2) == Some(ThreeOfAKind) && Upgrade(OnePair, 1) == Some(ThreeOfAKind)
    ensures Upgrade(HighCard, 1) == Some(OnePair)
  {
  }

  lemma NamesOnePair(p: seq<nat>)
    requires p == [2, 1, 1, 1, 0]
    ensures Descending(p) && Shape(p) == Some(OnePair)
  {
  }

  lemma NamesTwoPair(p: seq<nat>)
    requires p == [2, 2, 1, 0, 0]
    ensures Descending(p) && Shape(p) == Some(TwoPair)
  {
  }

  lemma NamesThreeOfAKind(p: seq<nat>)
    requires p == [3, 1, 1, 0, 0]
    ensures Descending(p) && Shape(p) == Some(ThreeOfAKind)
  {
  }

  lemma Counts32T3K(s: Cards)
    requires s == [Three, Two, Ten, Three, King]
    ensures Counts(s) == [2, 1, 1, 0, 1] && Count(s, Joker) == 0
  {
    CountFive(s, Three);
    CountFive(s, Two);
    CountFive(s, Ten);
    CountFive(s, King);
    CountFive(s, Joker);
    assert FirstPosition(s, s[3]) == 0;
    CountsAre(s, [2, 1, 1, 0, 1]);
  }

  lemma Permuted32T3K(c: seq<nat>, p: seq<nat>)
    requires c == [2, 1, 1, 0, 1] && p == [2, 1, 1, 1, 0]
    ensures multiset(p) == multiset(c)
  {
    Swapped(c, 3, 4, p);
  }

  lemma Type32T3K(h: Hand)
    requires h.cards == [Three, Two, Ten, Three, King]
    ensures TypeOf(h) == OnePair
  {
    Counts32T3K(h.cards);
    Permuted32T3K([2, 1, 1, 0, 1], [2, 1, 1, 1, 0]);
    NamesOnePair([2, 1, 1, 1, 0]);
    PatternIs(h.cards, [2, 1, 1, 1, 0]);
    TypeOfPattern(h, [2, 1, 1, 1, 0], 0, OnePair, OnePair);
  }

  lemma CountsKK677(s: Cards)
    requires s == [King, King, Six, Seven, Seven]
    ensures Counts(s) == [2, 0, 1, 2, 0] && Count(s, Joker) == 0
  {
    CountFive(s, King);
    CountFive(s, Six);
    CountFive(s, Seven);
    CountFive(s, Joker);
    assert FirstPosition(s, s[1]) == 0;
    assert FirstPosition(s, s[4]) == 3;
    CountsAre(s, [2, 0, 1, 2, 0]);
  }

  lemma PermutedKK677(c: seq<nat>, p: seq<nat>)
    requires c == [2, 0, 1, 2, 0] && p == [2, 2, 1, 0, 0]
    ensures multiset(p) == multiset(c)
  {
    Swapped(c, 1, 3, p);
  }

  lemma TypeKK677(h: Hand)
    requires h.cards == [King, King, Six, Seven, Seven]
    ensures TypeOf(h) == TwoPair
  {
    CountsKK677(h.cards);
    PermutedKK677([2, 0, 1, 2, 0], [2, 2, 1, 0, 0]);
    NamesTwoPair([2, 2, 1, 0, 0]);
    PatternIs(h.cards, [2, 2, 1, 0, 0]);
    TypeOfPattern(h, [2, 2, 1, 0, 0], 0, TwoPair, TwoPair);
  }

  lemma CountsKTJJT(s: Cards)
    requires s == [King, Ten, Jack, Jack, Ten]
    ensures Counts(s) == [1, 2, 2, 0, 0] && Count(s, Joker) == 0
  {
    CountFive(s, King);
    CountFive(s, Ten);
    CountFive(s, Jack);
    CountFive(s, Joker);
    assert FirstPosition(s, s[3]) == 2;
    assert FirstPosition(s, s[4]) == 1;
    CountsAre(s, [1, 2, 2, 0, 0]);
  }

  lemma PermutedKTJJT(c: seq<nat>, p: seq<nat>)
    requires c == [1, 2, 2, 0, 0] && p == [2, 2, 1, 0, 0]
    ensures multiset(p) == multiset(c)
  {
    var m0 := c[0 := c[1]][1 := c[0]];
    Swapped(c, 0, 1, m0);
    Swapped(m0, 1, 2, p);
  }

  lemma TypeKTJJT(h: Hand)
    requires h.cards == [King, Ten, Jack, Jack, Ten]
    ensures TypeOf(h) == TwoPair
  {
    CountsKTJJT(h.cards);
    PermutedKTJJT([1, 2, 2, 0, 0], [2, 2, 1, 0, 0]);
    NamesTwoPair([2, 2, 1, 0, 0]);
    PatternIs(h.cards, [2, 2, 1, 0, 0]);
    TypeOfPattern(h, [2, 2, 1, 0, 0], 0, TwoPair, TwoPair);
  }

  lemma CountsKTXXT(s: Cards)
    requires s == [King, Ten, Joker, Joker, Ten]
    ensures Counts(s) == [1, 2, 2, 0, 0] && Count(s, Joker) == 2
  {
    CountFive(s, King);
    CountFive(s, Ten);
    CountFive(s, Joker);
    assert FirstPosition(s, s[3]) == 2;
    assert FirstPosition(s, s[4]) == 1;
    CountsAre(s, [1, 2, 2, 0, 0]);
  }

  lemma TypeKTXXT(h: Hand)
    requires h.cards == [King, Ten, Joker, Joker, Ten]
    ensures TypeOf(h) == FourOfAKind
  {
    CountsKTXXT(h.cards);
    PermutedKTJJT([1, 2, 2, 0, 0], [2, 2, 1, 0, 0]);
    NamesTwoPair([2, 2, 1, 0, 0]);
    PatternIs(h.cards, [2, 2, 1, 0, 0]);
    JokerTable();
    TypeOfPattern(h, [2, 2, 1, 0, 0], 2, TwoPair, FourOfAKind);
  }

  lemma CountsT55J5(s: Cards)
    requires s == [Ten, Five, Five, Jack, Five]
    ensures Counts(s) == [1, 3, 0, 1, 0] && Count(s, Joker) == 0
  {
    CountFive(s, Ten);
    CountFive(s, Five);
    CountFive(s, Jack);
    CountFive(s, Joker);
    assert FirstPosition(s, s[2]) == 1;
    assert FirstPosition(s, s[4]) == 1;
    CountsAre(s, [1, 3, 0, 1, 0]);
  }

  lemma PermutedT55J5(c: seq<nat>, p: seq<nat>)
    requires c == [1, 3, 0, 1, 0] && p == [3, 1, 1, 0, 0]
    ensures multiset(p) == multiset(c)
  {
    var m0 := c[0 := c[1]][1 := c[0]];
    Swapped(c, 0, 1, m0);
    Swapped(m0, 2, 3, p);
  }

  lemma TypeT55J5(h: Hand)
    requires h.cards == [Ten, Five, Five, Jack, Five]
    ensures TypeOf(h) == ThreeOfAKind
  {
    CountsT55J5(h.cards);
    PermutedT55J5([1, 3, 0, 1, 0], [3, 1, 1, 0, 0]);
    NamesThreeOfAKind([3, 1, 1, 0, 0]);
    PatternIs(h.cards, [3, 1, 1, 0, 0]);
    TypeOfPattern(h, [3, 1, 1, 0, 0], 0, ThreeOfAKind, ThreeOfAKind);
  }

  lemma CountsT55X5(s: Cards)
    requires s == [Ten, Five, Five, Joker, Five]
    ensures Counts(s) == [1, 3, 0, 1, 0] && Count(s, Joker) == 1
  {
    CountFive(s, Ten);
    CountFive(s, Five);
    CountFive(s, Joker);
    assert FirstPosition(s, s[2]) == 1;
    assert FirstPosition(s, s[4]) == 1;
    CountsAre(s, [1, 3, 0, 1, 0]);
  }

  lemma TypeT55X5(h: Hand)
    requires h.cards == [Ten, Five, Five, Joker, Five]
    ensures TypeOf(h) == FourOfAKind
  {
    CountsT55X5(h.cards);
    PermutedT55J5([1, 3, 0, 1, 0], [3, 1, 1, 0, 0]);
    NamesThreeOfAKind([3, 1, 1, 0, 0]);
    PatternIs(h.cards, [3, 1, 1, 0, 0]);
    JokerTable();
    TypeOfPattern(h, [3, 1, 1, 0, 0], 1, ThreeOfAKind, FourOfAKind);
  }

  lemma CountsQQQJA(s: Cards)
    requires s == [Queen, Queen, Queen, Jack, Ace]
    ensures Counts(s) == [3, 0, 0, 1, 1] && Count(s, Joker) == 0
  {
    CountFive(s, Queen);
    CountFive(s, Jack);
    CountFive(s, Ace);
    CountFive(s, Joker);
    assert FirstPosition(s, s[1]) == 0;
    assert FirstPosition(s, s[2]) == 0;
    CountsAre(s, [3, 0, 0, 1, 1]);
  }

  lemma PermutedQQQJA(c: seq<nat>, p: seq<nat>)
    requires c == [3, 0, 0, 1, 1] && p == [3, 1, 1, 0, 0]
    ensures multiset(p) == multiset(c)
  {
    var m0 := c[1 := c[3]][3 := c[1]];
    Swapped(c, 1, 3, m0);
    Swapped(m0, 2, 4, p);
  }

  lemma TypeQQQJA(h: Hand)
    requires h.cards == [Queen, Queen, Queen, Jack, Ace]
    ensures TypeOf(h) == ThreeOfAKind
  {
    CountsQQQJA(h.cards);
    PermutedQQQJA([3, 0, 0, 1, 1], [3, 1, 1, 0, 0]);
    NamesThreeOfAKind([3, 1, 1, 0, 0]);
    PatternIs(h.cards, [3, 1, 1, 0, 0]);
    TypeOfPattern(h, [3, 1, 1, 0, 0], 0, ThreeOfAKind, ThreeOfAKind);
  }

  lemma CountsQQQXA(s: Cards)
    requires s == [Queen, Queen, Queen, Joker, Ace]
    ensures Counts(s) == [3, 0, 0, 1, 1] && Count(s, Joker) == 1
  {
    CountFive(s, Queen);
    CountFive(s, Joker);
    CountFive(s, Ace);
    assert FirstPosition(s, s[1]) == 0;
    assert FirstPosition(s, s[2]) == 0;
    CountsAre(s, [3, 0, 0, 1, 1]);
  }

  lemma TypeQQQXA(h: Hand)
    requires h.cards == [Queen, Queen, Queen, Joker, Ace]
    ensures TypeOf(h) == FourOfAKind
  {
    CountsQQQXA(h.cards);
    PermutedQQQJA([3, 0, 0, 1, 1], [3, 1, 1, 0, 0]);
    NamesThreeOfAKind([3, 1, 1, 0, 0]);
    PatternIs(h.cards, [3, 1, 1, 0, 0]);
    JokerTable();
    TypeOfPattern(h, [3, 1, 1, 0, 0], 1, ThreeOfAKind, FourOfAKind);
  }

  /** The hand `32T3K` of test `hand_type` (2023/day7/src/hand.rs:144): its type, and its type
      under the joker rule. */
  lemma Hand32T3KSample(s: string)
    requires s == "32T3K"
    ensures ParseHand(s).Some? && TypeOf(ParseHand(s).value) == OnePair
    ensures ParseHand(s).value.cards == [Three, Two, Ten, Three, King]
    ensures TypeOf(JokerHand(ParseHand(s).value)) == OnePair
  {
    assert s[..5] == s;
    var h := ParseHand(s).value;
    Type32T3K(h);
    Jokers32T3K(h);
    Type32T3K(JokerHand(h));
  }

  lemma Jokers32T3K(h: Hand)
    requires h.cards == [Three, Two, Ten, Three, King]
    ensures JokerHand(h).cards == [Three, Two, Ten, Three, King]
  {
  }

  /** The hand `KK677` of test `hand_type` (2023/day7/src/hand.rs:145): its type, and its type
      under the joker rule. */
  lemma HandKK677Sample(s: string)
    requires s == "KK677"
    ensures ParseHand(s).Some? && TypeOf(ParseHand(s).value) == TwoPair
    ensures ParseHand(s).value.cards == [King, King, Six, Seven, Seven]
    ensures TypeOf(JokerHand(ParseHand(s).value)) == TwoPair
  {
    assert s[..5] == s;
    var h := ParseHand(s).value;
    TypeKK677(h);
    JokersKK677(h);
    TypeKK677(JokerHand(h));
  }

  lemma JokersKK677(h: Hand)
    requires h.cards == [King, King, Six, Seven, Seven]
    ensures JokerHand(h).cards == [King, King, Six, Seven, Seven]
  {
  }

  /** The hand `KTJJT` of test `hand_type` (2023/day7/src/hand.rs:146): its type, and its type
      under the joker rule. */
  lemma HandKTJJTSample(s: string)
    requires s == "KTJJT"
    ensures ParseHand(s).Some? && TypeOf(ParseHand(s).value) == TwoPair
    ensures ParseHand(s).value.cards == [King, Ten, Jack, Jack, Ten]
    ensures TypeOf(JokerHand(ParseHand(s).value)) == FourOfAKind
  {
    assert s[..5] == s;
    var h := ParseHand(s).value;
    TypeKTJJT(h);
    JokersKTJJT(h);
    TypeKTXXT(JokerHand(h));
  }

  lemma JokersKTJJT(h: Hand)
    requires h.cards == [King, Ten, Jack, Jack, Ten]
    ensures JokerHand(h).cards == [King, Ten, Joker, Joker, Ten]
  {
  }

  /** The hand `T55J5` of test `hand_type` (2023/day7/src/hand.rs:147): its type, and its type
      under the joker rule. */
  lemma HandT55J5Sample(s: string)
    requires s == "T55J5"
    ensures ParseHand(s).Some? && TypeOf(ParseHand(s).value) == ThreeOfAKind
    ensures ParseHand(s).value.cards == [Ten, Five, Five, Jack, Five]
    ensures TypeOf(JokerHand(ParseHand(s).value)) == FourOfAKind
  {
    assert s[..5] == s;
    var h := ParseHand(s).value;
    TypeT55J5(h);
    JokersT55J5(h);
    TypeT55X5(JokerHand(h));
  }

  lemma JokersT55J5(h: Hand)
    requires h.cards == [Ten, Five, Five, Jack, Five]
    ensures JokerHand(h).cards == [Ten, Five, Five, Joker, Five]
  {
  }

  /** The hand `QQQJA` of test `hand_type` (2023/day7/src/hand.rs:148): its type, and its type
      under the joker rule. */
  lemma HandQQQJASample(s: string)
    requires s == "QQQJA"
    ensures ParseHand(s).Some? && TypeOf(ParseHand(s).value) == ThreeOfAKind
    ensures ParseHand(s).value.cards == [Queen, Queen, Queen, Jack, Ace]
    ensures TypeOf(JokerHand(ParseHand(s).value)) == FourOfAKind
  {
    assert s[..5] == s;
    var h := ParseHand(s).value;
    TypeQQQJA(h);
    JokersQQQJA(h);
    TypeQQQXA(JokerHand(h));
  }

  lemma JokersQQQJA(h: Hand)
    requires h.cards == [Queen, Queen, Queen, Jack, Ace]
    ensures JokerHand(h).cards == [Queen, Queen, Queen, Joker, Ace]
  {
  }

  /** Cards that agree up to position `k` and differ there by rank compare
      by that position. */
  lemma {:induction false} CardsLessAt(a: seq<Card>, b: seq<Card>, k: nat)
    requires |a| == |b| && k < |a| && CardRank(a[k]) < CardRank(b[k])
    requires forall i :: 0 <= i < k ==> a[i] == b[i]
    ensures CompareCards(a, b) == Less
    decreases k
  {
    if k > 0 {
      CardsLessAt(a[1..], b[1..], k - 1);
    }
  }

  /** A hand of a lower type is ordered first. */
  lemma LessByType(a: Hand, b: Hand, ta: HandType, tb: HandType)
    requires TypeOf(a) == ta && TypeOf(b) == tb && TypeRank(ta) < TypeRank(tb)
    ensures Compare(a, b) == Less
  {
  }

  /** Of two hands of one type, the one with the lower cards is ordered first. */
  lemma LessByCards(a: Hand, b: Hand, t: HandType)
    requires TypeOf(a) == t && TypeOf(b) == t && CompareCards(a.cards, b.cards) == Less
    ensures Compare(a, b) == Less
  {
  }

  /** Two hands of test `hand_cmp` (2023/day7/src/hand.rs:118-126): `32T3K`
      is one pair and `KK677` two pair, so `32T3K` is ordered first. */
  lemma HandCmpTypeSample(a: string, b: string)
    requires a == "32T3K" && b == "KK677"
    ensures ParseHand(a).Some? && ParseHand(b).Some?
    ensures Compare(ParseHand(a).value, ParseHand(b).value) == Less
  {
    Hand32T3KSample(a);
    HandKK677Sample(b);
    Order32T3K(ParseHand(a).value, ParseHand(b).value);
  }

  /** The hands `32T3K` and `KK677` in the order of their types. */
  lemma Order32T3K(x: Hand, y: Hand)
    requires x.cards == [Three, Two, Ten, Three, King] && y.cards == [King, King, Six, Seven, Seven]
    ensures Compare(x, y) == Less
  {
    Type32T3K(x);
    TypeKK677(y);
    LessByType(x, y, OnePair, TwoPair);
  }

  /** Two hands of test `hand_cmp` (2023/day7/src/hand.rs:118-126): `KTJJT`
      and `KK677` are both two pair, and the ten in second place orders
      `KTJJT` first. */
  lemma HandCmpSample(a: string, b: string)
    requires a == "KTJJT" && b == "KK677"
    ensures ParseHand(a).Some? && ParseHand(b).Some?
    ensures Compare(ParseHand(a).value, ParseHand(b).value) == Less
  {
    HandKTJJTSample(a);
    HandKK677Sample(b);
    OrderKTJJT(ParseHand(a).value, ParseHand(b).value);
  }

  /** The hands `KTJJT` and `KK677`: one type, ordered by their cards. */
  lemma OrderKTJJT(x: Hand, y: Hand)
    requires x.cards == [King, Ten, Jack, Jack, Ten] && y.cards == [King, King, Six, Seven, Seven]
    ensures Compare(x, y) == Less
  {
    TypeKTJJT(x);
    TypeKK677(y);
    CardsKTJJT(x.cards, y.cards);
    LessByCards(x, y, TwoPair);
  }

  /** The cards of `KTJJT` before those of `KK677`: a ten is below a king. */
  lemma CardsKTJJT(a: seq<Card>, b: seq<Card>)
    requires a == [King, Ten, Jack, Jack, Ten] && b == [King, King, Six, Seven, Seven]
    ensures CompareCards(a, b) == Less
  {
    CardsLessAt(a, b, 1);
  }

  /** Two hands of test `hand_cmp_with_jokers` (2023/day7/src/hand.rs:129-139):
      under the joker rule `QQQJA` and `KTJJT` are both four of a kind, and
      the queen in first place orders `QQQJA` first. */
  lemma HandCmpJokersSample(a: string, b: string)
    requires a == "QQQJA" && b == "KTJJT"
    ensures ParseHand(a).Some? && ParseHand(b).Some?
    ensures Compare(JokerHand(ParseHand(a).value), JokerHand(ParseHand(b).value)) == Less
  {
    HandQQQJASample(a);
    HandKTJJTSample(b);
    JokersQQQJA(ParseHand(a).value);
    JokersKTJJT(ParseHand(b).value);
    OrderQQQXA(JokerHand(ParseHand(a).value), JokerHand(ParseHand(b).value));
  }

  /** The jokered hands `QQQJA` and `KTJJT`: one type, ordered by their cards. */
  lemma OrderQQQXA(x: Hand, y: Hand)
    requires x.cards == [Queen, Queen, Queen, Joker, Ace] && y.cards == [King, Ten, Joker, Joker, Ten]
    ensures Compare(x, y) == Less
  {
    TypeQQQXA(x);
    TypeKTXXT(y);
    CardsQQQXA(x.cards, y.cards);
    LessByCards(x, y, FourOfAKind);
  }

  /** The cards of jokered `QQQJA` before those of jokered `KTJJT`: a queen
      is below a king. */
  lemma CardsQQQXA(a: seq<Card>, b: seq<Card>)
    requires a == [Queen, Queen, Queen, Joker, Ace] && b == [King, Ten, Joker, Joker, Ten]
    ensures CompareCards(a, b) == Less
  {
    CardsLessAt(a, b, 0);
  }
}
