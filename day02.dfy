/** Day 2: a strategy guide for rock, paper, scissors, scored by the shape you play and
  * the outcome of each round. */
module Day02 {
  import opened Wrappers
  import opened Text

  datatype Shape = Rock | Paper | Scissors

  datatype Outcome = Win | Lose | Draw

  /** Each shape's place in the cycle in which every shape defeats the one before it. */
  function Ord(m: Shape): nat
  {
    match m
    case Rock => 0
    case Paper => 1
    case Scissors => 2
  }

  // ---------------------------------------------------------------------
  // Scoring a round.

  /** The outcome for the response against the initial move, by the source's table. */
  function Play(response: Shape, initial: Shape): (o: Outcome)
    ensures o == Draw <==> response == initial
    ensures o == Win <==> (Ord(response) + 3 - Ord(initial)) % 3 == 1
    ensures o == Lose <==> (Ord(response) + 3 - Ord(initial)) % 3 == 2
  {
    match (response, initial)
    case (Rock, Rock) => Draw
    case (Paper, Paper) => Draw
    case (Scissors, Scissors) => Draw
    case (Rock, Scissors) => Win
    case (Scissors, Paper) => Win
    case (Paper, Rock) => Win
    case (Rock, Paper) => Lose
    case (Scissors, Rock) => Lose
    case (Paper, Scissors) => Lose
  }

  /** selection_score: 1, 2 or 3 for the shape played. */
  function SelectionScore(response: Shape): (s: nat)
    ensures s == Ord(response) + 1
  {
    match response
    case Rock => 1
    case Paper => 2
    case Scissors => 3
  }

  function OutcomeScore(o: Outcome): nat
  {
    match o
    case Win => 6
    case Lose => 0
    case Draw => 3
  }

  /** game_score: 6 for a win, 3 for a draw, 0 for a loss, which is three times the
    * response's distance ahead of the initial move in the cycle, plus one. */
  function GameScore(response: Shape, initial: Shape): (s: nat)
    ensures s == 3 * ((Ord(response) + 4 - Ord(initial)) % 3)
  {
    OutcomeScore(Play(response, initial))
  }

  /** A round's two game scores, one from each player's side, always add up to 6. */
  lemma GameScoreSymmetric(a: Shape, b: Shape)
    ensures GameScore(a, b) + GameScore(b, a) == 6
  {
    match (a, b)
    case (Rock, Paper) =>
    case (Rock, Scissors) =>
    case (Paper, Scissors) =>
    case _ =>
  }

  /** total_score: the shape's score plus the outcome's. */
  function TotalScore(response: Shape, initial: Shape): (s: nat)
    ensures 1 <= s <= 9
  {
    SelectionScore(response) + GameScore(response, initial)
  }

  /** The total score of a round tells which shape was played and how the round ended. */
  lemma TotalScoreDetermines(r1: Shape, i1: Shape, r2: Shape, i2: Shape)
    requires TotalScore(r1, i1) == TotalScore(r2, i2)
    ensures r1 == r2 && Play(r1, i1) == Play(r2, i2)
  {
    assert (TotalScore(r1, i1) - 1) % 3 == Ord(r1);
    assert (TotalScore(r2, i2) - 1) % 3 == Ord(r2);
  }

  /** force_outcome: the response that gives the demanded outcome. */
  function ForceOutcome(initial: Shape, o: Outcome): (response: Shape)
    ensures Play(response, initial) == o
  {
    match (initial, o)
    case (Rock, Win) => Paper
    case (Rock, Lose) => Scissors
    case (Rock, Draw) => Rock
    case (Paper, Win) => Scissors
    case (Paper, Lose) => Rock
    case (Paper, Draw) => Paper
    case (Scissors, Win) => Rock
    case (Scissors, Lose) => Paper
    case (Scissors, Draw) => Scissors
  }

  /** The forced response is the only one giving that outcome. */
  lemma ForceOutcomeUnique(initial: Shape, o: Outcome, response: Shape)
    requires Play(response, initial) == o
    ensures response == ForceOutcome(initial, o)
  {
    var f := ForceOutcome(initial, o);
    assert (Ord(response) + 3 - Ord(initial)) % 3 == (Ord(f) + 3 - Ord(initial)) % 3;
  }

  /** A forced round scores the demanded outcome's points plus the forced shape's. */
  lemma ForcedTotal(initial: Shape, o: Outcome)
    ensures TotalScore(ForceOutcome(initial, o), initial) == SelectionScore(ForceOutcome(initial, o)) + OutcomeScore(o)
  {
  }

  // ---------------------------------------------------------------------
  // The letters of the strategy guide. An unknown letter is the source's panic.

  function ParseInitial(s: string): (r: Option<Shape>)
    ensures r.Some? <==> s == "A" || s == "B" || s == "C"
  {
    if s == "A" then Some(Rock)
    else if s == "B" then Some(Paper)
    else if s == "C" then Some(Scissors)
    else None
  }

  function ParseResponse(s: string): (r: Option<Shape>)
    ensures r.Some? <==> s == "X" || s == "Y" || s == "Z"
  {
    if s == "X" then Some(Rock)
    else if s == "Y" then Some(Paper)
    else if s == "Z" then Some(Scissors)
    else None
  }

  function ParseOutcome(s: string): (r: Option<Outcome>)
    ensures r.Some? <==> s == "X" || s == "Y" || s == "Z"
  {
    if s == "X" then Some(Lose)
    else if s == "Y" then Some(Draw)
    else if s == "Z" then Some(Win)
    else None
  }

  function InitialLetter(m: Shape): string
  {
    match m
    case Rock => "A"
    case Paper => "B"
    case Scissors => "C"
  }

  function ResponseLetter(m: Shape): string
  {
    match m
    case Rock => "X"
    case Paper => "Y"
    case Scissors => "Z"
  }

  function OutcomeLetter(o: Outcome): string
  {
    match o
    case Lose => "X"
    case Draw => "Y"
    case Win => "Z"
  }

  /** The letters decode to exactly the shapes and outcomes they are written for. */
  lemma LettersRoundTrip(m: Shape, o: Outcome, s: string)
    ensures ParseInitial(InitialLetter(m)) == Some(m)
    ensures ParseResponse(ResponseLetter(m)) == Some(m)
    ensures ParseOutcome(OutcomeLetter(o)) == Some(o)
    ensures ParseInitial(s).Some? ==> InitialLetter(ParseInitial(s).value) == s
    ensures ParseResponse(s).Some? ==> ResponseLetter(ParseResponse(s).value) == s
    ensures ParseOutcome(s).Some? ==> OutcomeLetter(ParseOutcome(s).value) == s
  {
    match m {
      case Rock => assert InitialLetter(m)[0] == 'A' && ResponseLetter(m)[0] == 'X';
      case Paper => assert InitialLetter(m)[0] == 'B' && ResponseLetter(m)[0] == 'Y';
      case Scissors => assert InitialLetter(m)[0] == 'C' && ResponseLetter(m)[0] == 'Z';
    }
    match o {
      case Lose => assert OutcomeLetter(o)[0] == 'X';
      case Draw => assert OutcomeLetter(o)[0] == 'Y';
      case Win => assert OutcomeLetter(o)[0] == 'Z';
    }
  }

  // ---------------------------------------------------------------------
  // Reading the guide: one round per line, the first two whitespace-separated words.

  /** A line of part one: the initial move and the response. Words after the second are
    * ignored; a missing word is the unwrap's panic. */
  function ParseRound(line: string): Option<(Shape, Shape)>
  {
    var ws := Words(line);
    if |ws| < 2 then None
    else
      var i := ParseInitial(ws[0]);
      var r := ParseResponse(ws[1]);
      if i.None? || r.None? then None else Some((i.value, r.value))
  }

  /** A line of part two: the initial move and the demanded outcome. */
  function ParseGame(line: string): Option<(Shape, Outcome)>
  {
    var ws := Words(line);
    if |ws| < 2 then None
    else
      var i := ParseInitial(ws[0]);
      var o := ParseOutcome(ws[1]);
      if i.None? || o.None? then None else Some((i.value, o.value))
  }

  /** A round written as the guide writes it reads back as that round. */
  lemma ParseRoundRender(initial: Shape, response: Shape)
    ensures ParseRound(InitialLetter(initial) + " " + ResponseLetter(response)) == Some((initial, response))
  {
    LettersRoundTrip(initial, Draw, []);
    LettersRoundTrip(response, Draw, []);
    WordsOfTwo(InitialLetter(initial), ResponseLetter(response));
  }

  /** A game written as the guide writes it reads back as that game. */
  lemma ParseGameRender(initial: Shape, o: Outcome)
    ensures ParseGame(InitialLetter(initial) + " " + OutcomeLetter(o)) == Some((initial, o))
  {
    LettersRoundTrip(initial, o, []);
    WordsOfTwo(InitialLetter(initial), OutcomeLetter(o));
  }

  // ---------------------------------------------------------------------
  // The answers.

  /** The sum of the rounds' total scores; each round is `(initial, response)`. */
  function Score(rounds: seq<(Shape, Shape)>): nat
  {
    if rounds == [] then 0
    else Score(rounds[..|rounds| - 1]) + TotalScore(rounds[|rounds| - 1].1, rounds[|rounds| - 1].0)
  }

  /** Every round scores between 1 and 9. */
  lemma {:induction false} ScoreBounds(rounds: seq<(Shape, Shape)>)
    ensures |rounds| <= Score(rounds) <= 9 * |rounds|
  {
    if rounds != [] {
      ScoreBounds(rounds[..|rounds| - 1]);
    }
  }

  /** The rounds of part two, with each response forced to the demanded outcome. */
  function Forced(games: seq<(Shape, Outcome)>): (r: seq<(Shape, Shape)>)
    ensures |r| == |games|
    ensures forall k :: 0 <= k < |games| ==>
      r[k].0 == games[k].0 && Play(r[k].1, r[k].0) == games[k].1
  {
    seq(|games|, k requires 0 <= k < |games| => (games[k].0, ForceOutcome(games[k].0, games[k].1)))
  }

  /** The part-two score counts each demanded outcome's points, plus the forced shapes. */
  function OutcomePoints(games: seq<(Shape, Outcome)>): nat
  {
    if games == [] then 0 else OutcomePoints(games[..|games| - 1]) + OutcomeScore(games[|games| - 1].1)
  }

  function ShapePoints(rounds: seq<(Shape, Shape)>): nat
  {
    if rounds == [] then 0 else ShapePoints(rounds[..|rounds| - 1]) + SelectionScore(rounds[|rounds| - 1].1)
  }

  lemma {:induction false} ForcedScore(games: seq<(Shape, Outcome)>)
    ensures Score(Forced(games)) == OutcomePoints(games) + ShapePoints(Forced(games))
  {
    if games != [] {
      var init := games[..|games| - 1];
      ForcedScore(init);
      assert Forced(games)[..|games| - 1] == Forced(init);
    }
  }

  /** part_one: the total score when the second column is the response to play. */
  method PartOne(lines: seq<string>) returns (r: Option<nat>)
    ensures r.Some? <==> ParseAll(lines, ParseRound).Some?
    ensures r.Some? ==> r.value == Score(ParseAll(lines, ParseRound).value)
  {
    var rounds := ParseLines(lines, ParseRound);
    if rounds.None? {
      return None;
    }
    var score := SumScores(rounds.value);
    return Some(score);
  }

  /** The scoring loop of part one. */
  method SumScores(rounds: seq<(Shape, Shape)>) returns (score: nat)
    ensures score == Score(rounds)
  {
    score := 0;
    for k := 0 to |rounds|
      invariant score == Score(rounds[..k])
    {
      assert rounds[..k + 1][..k] == rounds[..k];
      var (initial, response) := rounds[k];
      score := score + TotalScore(response, initial);
    }
    assert rounds[..|rounds|] == rounds;
  }

  /** part_two: the total score when the second column is the outcome to bring about. */
  method PartTwo(lines: seq<string>) returns (r: Option<nat>)
    ensures r.Some? <==> ParseAll(lines, ParseGame).Some?
    ensures r.Some? ==> r.value == Score(Forced(ParseAll(lines, ParseGame).value))
  {
    var games := ParseLines(lines, ParseGame);
    if games.None? {
      return None;
    }
    var score := 0;
    for k := 0 to |games.value|
      invariant score == Score(Forced(games.value)[..k])
    {
      assert Forced(games.value)[..k + 1][..k] == Forced(games.value)[..k];
      var (initial, outcome) := games.value[k];
      var response := ForceOutcome(initial, outcome);
      score := score + TotalScore(response, initial);
    }
    assert Forced(games.value)[..|games.value|] == Forced(games.value);
    return Some(score);
  }

  /** The puzzle's example guide reads as three rounds in part one, and they score 15. */
  lemma ExampleOne(a: string, b: string, c: string)
    requires a == "A Y" && b == "B X" && c == "C Z"
    ensures ParseAll([a, b, c], ParseRound) == Some([(Rock, Paper), (Paper, Rock), (Scissors, Scissors)])
    ensures Score(ParseAll([a, b, c], ParseRound).value) == 15
  {
    ExampleRoundLines(a, b, c);
    ParseThree(a, b, c, ParseRound, (Rock, Paper), (Paper, Rock), (Scissors, Scissors));
    ScoreThree((Rock, Paper), (Paper, Rock), (Scissors, Scissors));
  }

  /** The same guide reads as three games in part two, and they score 12. */
  lemma ExampleTwo(a: string, b: string, c: string)
    requires a == "A Y" && b == "B X" && c == "C Z"
    ensures ParseAll([a, b, c], ParseGame) == Some([(Rock, Draw), (Paper, Lose), (Scissors, Win)])
    ensures Score(Forced(ParseAll([a, b, c], ParseGame).value)) == 12
  {
    ExampleGameLines(a, b, c);
    ParseThree(a, b, c, ParseGame, (Rock, Draw), (Paper, Lose), (Scissors, Win));
    var f := Forced([(Rock, Draw), (Paper, Lose), (Scissors, Win)]);
    assert f == [(Rock, Rock), (Paper, Rock), (Scissors, Rock)];
    ScoreThree((Rock, Rock), (Paper, Rock), (Scissors, Rock));
  }

  /** Three lines that parse one by one parse together, in order. */
  lemma ParseThree<T>(a: string, b: string, c: string, parse: string -> Option<T>, x: T, y: T, z: T)
    requires parse(a) == Some(x) && parse(b) == Some(y) && parse(c) == Some(z)
    ensures ParseAll([a, b, c], parse) == Some([x, y, z])
  {
    var lines := [a, b, c];
    ParseAllSpec(lines, parse);
    var v := ParseAll(lines, parse).value;
    assert parse(lines[0]) == Some(v[0]) && parse(lines[1]) == Some(v[1]) && parse(lines[2]) == Some(v[2]);
    assert v == [x, y, z];
  }

  /** The score of three rounds, one after the other. */
  lemma ScoreThree(x: (Shape, Shape), y: (Shape, Shape), z: (Shape, Shape))
    ensures Score([x, y, z]) == TotalScore(x.1, x.0) + TotalScore(y.1, y.0) + TotalScore(z.1, z.0)
  {
    assert [x, y, z][..2] == [x, y];
    assert [x, y][..1] == [x];
    assert [x][..0] == [];
    assert Score([x]) == TotalScore(x.1, x.0);
    assert Score([x, y]) == Score([x]) + TotalScore(y.1, y.0);
  }

  lemma ExampleRoundLines(a: string, b: string, c: string)
    requires a == "A Y" && b == "B X" && c == "C Z"
    ensures ParseRound(a) == Some((Rock, Paper))
    ensures ParseRound(b) == Some((Paper, Rock))
    ensures ParseRound(c) == Some((Scissors, Scissors))
  {
    ExampleLines();
    ParseRoundRender(Rock, Paper);
    ParseRoundRender(Paper, Rock);
    ParseRoundRender(Scissors, Scissors);
  }

  lemma ExampleGameLines(a: string, b: string, c: string)
    requires a == "A Y" && b == "B X" && c == "C Z"
    ensures ParseGame(a) == Some((Rock, Draw))
    ensures ParseGame(b) == Some((Paper, Lose))
    ensures ParseGame(c) == Some((Scissors, Win))
  {
    ExampleLines();
    ParseGameRender(Rock, Draw);
    ParseGameRender(Paper, Lose);
    ParseGameRender(Scissors, Win);
  }

  lemma ExampleLines()
    ensures "A Y" == InitialLetter(Rock) + " " + ResponseLetter(Paper)
    ensures "B X" == InitialLetter(Paper) + " " + ResponseLetter(Rock)
    ensures "C Z" == InitialLetter(Scissors) + " " + ResponseLetter(Scissors)
    ensures "A Y" == InitialLetter(Rock) + " " + OutcomeLetter(Draw)
    ensures "B X" == InitialLetter(Paper) + " " + OutcomeLetter(Lose)
    ensures "C Z" == InitialLetter(Scissors) + " " + OutcomeLetter(Win)
  {
  }
}
