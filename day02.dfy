/** Day 2, "Rock Paper Scissors" (2022/rust/src/bin/02.rs): each line of the
    strategy guide names the opponent's move and a second column, read as my
    move in part 1 and as the outcome I should reach in part 2; a round
    scores my shape plus the outcome. */
module Day02RockPaperScissors {
  import opened Outcomes
  import opened Text

  datatype Move = Rock | Paper | Scissors

  datatype Outcome = Loss | Draw | Win

  /** The score of the shape I play. */
  function MoveScore(m: Move): (n: nat)
    ensures 1 <= n <= 3
    ensures n == Index(m) + 1
  {
    match m
    case Rock => 1
    case Paper => 2
    case Scissors => 3
  }

  /** The score of the outcome of a round. */
  function OutcomeScore(o: Outcome): (n: nat)
    ensures n <= 6 && n % 3 == 0
    ensures (n == 0 <==> o == Loss) && (n == 3 <==> o == Draw) && (n == 6 <==> o == Win)
  {
    match o
    case Loss => 0
    case Draw => 3
    case Win => 6
  }

  /** `Move::try_from`: the opponent's letters A/B/C and the guide's X/Y/Z. */
  function ParseMove(s: string): (r: Answer<Move>)
    ensures r.Ok? <==> s in {"A", "B", "C", "X", "Y", "Z"}
    ensures r.Err? ==> r.error == "Incorrect move: '" + s + "'"
    ensures r == Ok(Rock) <==> s == "A" || s == "X"
    ensures r == Ok(Paper) <==> s == "B" || s == "Y"
    ensures r == Ok(Scissors) <==> s == "C" || s == "Z"
  {
    if s == "A" || s == "X" then Ok(Rock)
    else if s == "B" || s == "Y" then Ok(Paper)
    else if s == "C" || s == "Z" then Ok(Scissors)
    else Err("Incorrect move: '" + s + "'")
  }

  /** `Outcome::try_from`: X/Y/Z for lose, draw and win. */
  function ParseOutcome(s: string): (r: Answer<Outcome>)
    ensures r.Ok? <==> s in {"X", "Y", "Z"}
    ensures r.Err? ==> r.error == "Incorrect outcome: '" + s + "'"
    ensures r == Ok(Loss) <==> s == "X"
    ensures r == Ok(Draw) <==> s == "Y"
    ensures r == Ok(Win) <==> s == "Z"
  {
    if s == "X" then Ok(Loss)
    else if s == "Y" then Ok(Draw)
    else if s == "Z" then Ok(Win)
    else Err("Incorrect outcome: '" + s + "'")
  }

  /** `Outcome::from((me, opp))`: the outcome of a round for the player of
      `me`, as the table in the source lists it. */
  function OutcomeOf(me: Move, opp: Move): (o: Outcome)
    ensures o == Draw <==> me == opp
  {
    if me == opp then Draw
    else match (me, opp)
      case (Rock, Scissors) => Win
      case (Paper, Rock) => Win
      case (Scissors, Paper) => Win
      case _ => Loss
  }

  /** `Move::from((opp, outcome))`: the move that reaches `outcome` against
      `opp`. */
  function MoveFor(opp: Move, outcome: Outcome): (me: Move)
    ensures OutcomeOf(me, opp) == outcome
  {
    match outcome
    case Loss => (match opp case Rock => Scissors case Paper => Rock case Scissors => Paper)
    case Draw => opp
    case Win => (match opp case Rock => Paper case Paper => Scissors case Scissors => Rock)
  }

  // An independent account of the game: the shapes in a cycle, each beating
  // the one before it.

  function Index(m: Move): (i: nat)
    ensures i < 3
  {
    match m
    case Rock => 0
    case Paper => 1
    case Scissors => 2
  }

  /** `me` beats `opp` when it comes right after it in the cycle. */
  predicate Beats(me: Move, opp: Move) {
    (Index(me) - Index(opp)) % 3 == 1
  }

  /** The table of `Outcome::from` is the cyclic rule. */
  lemma OutcomeIsCyclic(me: Move, opp: Move)
    ensures OutcomeOf(me, opp) == if me == opp then Draw else if Beats(me, opp) then Win else Loss
  {
  }

  /** For two different shapes, exactly one of them wins the round and the
      other loses it. */
  lemma WinLossAntisymmetric(a: Move, b: Move)
    requires a != b
    ensures OutcomeOf(a, b) == Win <==> OutcomeOf(b, a) == Loss
    ensures OutcomeOf(a, b) == Loss <==> OutcomeOf(b, a) == Win
    ensures OutcomeOf(a, b) != Draw
  {
  }

  /** `Move::from` picks the only move that reaches the outcome. */
  lemma MoveForUnique(me: Move, opp: Move)
    ensures MoveFor(opp, OutcomeOf(me, opp)) == me
  {
  }

  /** The score of a round. */
  function RoundScore(me: Move, outcome: Outcome): (n: nat)
    ensures 1 <= n <= 9
    ensures n == MoveScore(me) + OutcomeScore(outcome)
  {
    MoveScore(me) + OutcomeScore(outcome)
  }

  /** A round's score tells the shape and the outcome apart. */
  lemma RoundScoreDecodes(me: Move, o: Outcome, me': Move, o': Outcome)
    requires RoundScore(me, o) == RoundScore(me', o')
    ensures me == me' && o == o'
  {
  }

  // ---------------------------------------------------------------------
  // `score_tournament` and the two ways of reading a line.
  // ---------------------------------------------------------------------

  /** How a line's two columns become my move and the outcome of the round. */
  type Game = (string, string) -> Answer<(Move, Outcome)>

  /** Part 1: the second column is my move. */
  function Part1Game(opp: string, me: string): (r: Answer<(Move, Outcome)>)
    ensures r.Ok? <==> ParseMove(opp).Ok? && ParseMove(me).Ok?
    ensures r.Ok? ==> r.value == (ParseMove(me).value, OutcomeOf(ParseMove(me).value, ParseMove(opp).value))
    ensures r.Err? ==> r.error == (if ParseMove(opp).Err? then ParseMove(opp) else ParseMove(me)).error
  {
    match ParseMove(opp)
    case Err(e) => Err(e)
    case Ok(o) =>
      match ParseMove(me)
      case Err(e) => Err(e)
      case Ok(m) => Ok((m, OutcomeOf(m, o)))
  }

  /** Part 2: the second column is the outcome to reach. */
  function Part2Game(opp: string, outcome: string): (r: Answer<(Move, Outcome)>)
    ensures r.Ok? <==> ParseMove(opp).Ok? && ParseOutcome(outcome).Ok?
    ensures r.Err? ==> r.error == (if ParseMove(opp).Err? then ParseMove(opp).error else ParseOutcome(outcome).error)
  {
    match ParseMove(opp)
    case Err(e) => Err(e)
    case Ok(o) =>
      match ParseOutcome(outcome)
      case Err(e) => Err(e)
      case Ok(want) => Ok((MoveFor(o, want), want))
  }

  /** In part 2 the outcome scored is the outcome the chosen move reaches,
      as in part 1. */
  lemma Part2Reaches(opp: string, outcome: string)
    requires Part2Game(opp, outcome).Ok?
    ensures var (me, o) := Part2Game(opp, outcome).value;
      && o == ParseOutcome(outcome).value
      && OutcomeOf(me, ParseMove(opp).value) == o
  {
  }

  /** `str::split_once(' ')`: the text before the first space and after it. */
  function SplitOnce(s: string): (r: Option<(string, string)>)
    ensures r.None? <==> ' ' !in s
    ensures r.Some? ==> s == r.value.0 + [' '] + r.value.1 && ' ' !in r.value.0
  {
    if s == [] then None
    else if s[0] == ' ' then
      assert s == [] + [' '] + s[1..];
      Some(([], s[1..]))
    else match SplitOnce(s[1..])
      case None => None
      case Some((a, b)) =>
        assert s == ([s[0]] + a) + [' '] + b;
        Some(([s[0]] + a, b))
  }

  const NoSpace := "Failed to split the line"

  /** One line of `score_tournament`: nothing for a blank line, otherwise
      the score of the round the game reads from its two columns. */
  function Round(line: string, game: Game): (r: Answer<Option<nat>>)
    ensures r.Ok? && r.value.Some? ==> 1 <= r.value.value <= 9
    ensures r == Ok(None) <==> IsBlank(line)
  {
    var l := Trim(line);
    if l == [] then Ok(None)
    else match SplitOnce(l)
      case None => Err(NoSpace)
      case Some((a, b)) =>
        match game(a, b)
        case Err(e) => Err(e)
        case Ok((me, outcome)) => Ok(Some(RoundScore(me, outcome)))
  }

  /** The total of all rounds, or the error of the first line that fails. */
  function Tournament(lines: seq<string>, game: Game): (r: Answer<nat>)
  {
    if lines == [] then Ok(0)
    else match Round(lines[0], game)
      case Err(e) => Err(e)
      case Ok(score) =>
        match Tournament(lines[1..], game)
        case Err(e) => Err(e)
        case Ok(rest) => Ok(rest + (if score.Some? then score.value else 0))
  }

  /** Every round scores between 1 and 9 points, and blank lines none. */
  lemma {:induction false} TournamentBounds(lines: seq<string>, game: Game)
    requires Tournament(lines, game).Ok?
    ensures NonBlankCount(lines) <= Tournament(lines, game).value <= 9 * NonBlankCount(lines)
  {
    if lines != [] {
      TournamentBounds(lines[1..], game);
    }
  }

  /** The tournament fails exactly when some line fails. */
  lemma {:induction false} TournamentFails(lines: seq<string>, game: Game)
    ensures Tournament(lines, game).Err? <==> exists k :: 0 <= k < |lines| && Round(lines[k], game).Err?
  {
    if lines != [] {
      TournamentFails(lines[1..], game);
      if exists k :: 0 <= k < |lines| && Round(lines[k], game).Err? {
        var k :| 0 <= k < |lines| && Round(lines[k], game).Err?;
        if k > 0 {
          assert lines[1..][k - 1] == lines[k];
        }
      }
      if exists k :: 0 <= k < |lines[1..]| && Round(lines[1..][k], game).Err? {
        var k :| 0 <= k < |lines[1..]| && Round(lines[1..][k], game).Err?;
        assert lines[1..][k] == lines[k + 1];
      }
    }
  }

  /** A line with content but no space fails the tournament. */
  lemma NoSpaceFails(line: string, game: Game)
    requires !IsBlank(line) && ' ' !in Trim(line)
    ensures Round(line, game) == Err(NoSpace)
  {
  }

  /** The loop of `score_tournament`. */
  method ScoreTournament(lines: seq<string>, game: Game) returns (r: Answer<nat>)
    ensures r == Tournament(lines, game)
  {
    var sum: nat := 0;
    for i := 0 to |lines|
      invariant Tournament(lines, game) == AddTo(sum, Tournament(lines[i..], game))
    {
      TournamentStep(lines, i, game);
      var l := Trim(lines[i]);
      if l == [] {
        AddToTwice(sum, 0, Tournament(lines[i + 1..], game));
        continue;
      }
      var split := SplitOnce(l);
      if split.None? {
        return Err(NoSpace);
      }
      var (a, b) := split.value;
      var round := game(a, b);
      if round.Err? {
        return Err(round.error);
      }
      var (me, outcome) := round.value;
      var score := MoveScore(me) + OutcomeScore(outcome);
      AddToTwice(sum, score, Tournament(lines[i + 1..], game));
      sum := sum + score;
    }
    assert lines[|lines|..] == [];
    r := Ok(sum);
  }

  /** The tournament from line `i` on: the error of line `i`, or its score
      added to the tournament from line `i + 1` on. */
  lemma TournamentStep(lines: seq<string>, i: nat, game: Game)
    requires i < |lines|
    ensures Round(lines[i], game).Err? ==> Tournament(lines[i..], game) == Err(Round(lines[i], game).error)
    ensures Round(lines[i], game).Ok? ==>
      Tournament(lines[i..], game) == AddTo(Points(Round(lines[i], game).value), Tournament(lines[i + 1..], game))
  {
    assert lines[i..][0] == lines[i] && lines[i..][1..] == lines[i + 1..];
  }

  function Points(score: Option<nat>): nat {
    if score.Some? then score.value else 0
  }

  lemma AddToTwice(a: nat, b: nat, r: Answer<nat>)
    ensures AddTo(a, AddTo(b, r)) == AddTo(a + b, r)
  {
  }

  method Part1(lines: seq<string>) returns (r: Answer<nat>)
    ensures r == Tournament(lines, Part1Game)
  {
    r := ScoreTournament(lines, Part1Game);
  }

  method Part2(lines: seq<string>) returns (r: Answer<nat>)
    ensures r == Tournament(lines, Part2Game)
  {
    r := ScoreTournament(lines, Part2Game);
  }

  /** The example strategy guide read as moves scores 15. */
  lemma SampleGuidePart1()
    ensures Tournament(["A Y", "B X", "C Z"], Part1Game) == Ok(15)
  {
    SampleRoundsPart1();
    SampleChain(Part1Game, 8, 1, 6);
  }

  /** The example strategy guide read as outcomes scores 12. */
  lemma SampleGuidePart2()
    ensures Tournament(["A Y", "B X", "C Z"], Part2Game) == Ok(12)
  {
    SampleRoundsPart2();
    SampleChain(Part2Game, 4, 1, 7);
  }

  lemma SampleChain(game: Game, x: nat, y: nat, z: nat)
    requires Round("A Y", game) == Ok(Some(x))
    requires Round("B X", game) == Ok(Some(y))
    requires Round("C Z", game) == Ok(Some(z))
    ensures Tournament(["A Y", "B X", "C Z"], game) == Ok(x + y + z)
  {
    ThreeRounds("A Y", "B X", "C Z", game, x, y, z);
  }

  lemma ThreeRounds(l1: string, l2: string, l3: string, game: Game, x: nat, y: nat, z: nat)
    requires Round(l1, game) == Ok(Some(x))
    requires Round(l2, game) == Ok(Some(y))
    requires Round(l3, game) == Ok(Some(z))
    ensures Tournament([l1, l2, l3], game) == Ok(x + y + z)
  {
    var ls := [l1, l2, l3];
    assert ls[1..][1..] == ls[2..] && ls[2..][1..] == [];
    TournamentCons(ls[2..], game, z, 0);
    TournamentCons(ls[1..], game, y, z);
    TournamentCons(ls, game, x, z + y);
  }

  lemma TournamentCons(lines: seq<string>, game: Game, score: nat, total: nat)
    requires lines != [] && Round(lines[0], game) == Ok(Some(score)) && Tournament(lines[1..], game) == Ok(total)
    ensures Tournament(lines, game) == Ok(total + score)
  {
  }

  lemma SampleRoundsPart1()
    ensures Round("A Y", Part1Game) == Ok(Some(8))
    ensures Round("B X", Part1Game) == Ok(Some(1))
    ensures Round("C Z", Part1Game) == Ok(Some(6))
  {
    SampleFirst();
    SampleSecond();
    SampleThird();
  }

  lemma SampleRoundsPart2()
    ensures Round("A Y", Part2Game) == Ok(Some(4))
    ensures Round("B X", Part2Game) == Ok(Some(1))
    ensures Round("C Z", Part2Game) == Ok(Some(7))
  {
    SampleFirst();
    SampleSecond();
    SampleThird();
  }

  lemma SampleFirst()
    ensures Round("A Y", Part1Game) == Ok(Some(8)) && Round("A Y", Part2Game) == Ok(Some(4))
  {
    SampleRound("A Y", "A", "Y", Part1Game);
    SampleRound("A Y", "A", "Y", Part2Game);
  }

  lemma SampleSecond()
    ensures Round("B X", Part1Game) == Ok(Some(1)) && Round("B X", Part2Game) == Ok(Some(1))
  {
    SampleRound("B X", "B", "X", Part1Game);
    SampleRound("B X", "B", "X", Part2Game);
  }

  lemma SampleThird()
    ensures Round("C Z", Part1Game) == Ok(Some(6)) && Round("C Z", Part2Game) == Ok(Some(7))
  {
    SampleRound("C Z", "C", "Z", Part1Game);
    SampleRound("C Z", "C", "Z", Part2Game);
  }

  /** A three-character line `a b` is the round that the game reads from `a`
      and `b`. */
  lemma SampleRound(line: string, a: string, b: string, game: Game)
    requires |line| == 3 && line[1] == ' ' && a == [line[0]] && b == [line[2]]
    requires !IsWhitespace(line[0]) && !IsWhitespace(line[2])
    ensures Round(line, game) == match game(a, b)
      case Err(e) => Err(e)
      case Ok((me, outcome)) => Ok(Some(RoundScore(me, outcome)))
  {
    assert line[1..][1..] == b;
    assert line[1..] == [' '] + b;
    assert TrimStart(line) == line;
    assert line[..2][..1] == a;
    assert Trim(line) == line;
    assert SplitOnce(line) == Some((a, b));
  }
}
