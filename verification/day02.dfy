/**
 * Day 2: rock, paper, scissors.
 *
 * Each input line holds the opponent's letter (`A`, `B`, `C`) and a second
 * word. Problem 1 reads the second word as a shape too (`X`, `Y`, `Z`);
 * problem 2 reads it as the ending wanted (`X` lose, `Y` draw, `Z` win)
 * and plays the shape that gives it. A round scores the shape's value (1,
 * 2 or 3) plus 0, 3 or 6 for a loss, a draw or a win.
 */
module Day02 {
  import opened Util
  import opened Text

  datatype Ending = Lose | Tie | Win

  datatype Choice = Rock | Paper | Scissors

  /** `Ending::try_from`. */
  function EndingFrom(s: string): (r: Result<Ending, string>)
    ensures r.Ok? <==> s in {"X", "Y", "Z"}
    ensures r.Err? ==> r.error == "Could not create Ending from " + s
  {
    match s
    case "X" => Ok(Lose)
    case "Y" => Ok(Tie)
    case "Z" => Ok(Win)
    case _ => Err("Could not create Ending from " + s)
  }

  /** `Choice::try_from`: the opponent's letters and the player's letters name the same three shapes. */
  function ChoiceFrom(s: string): (r: Result<Choice, string>)
    ensures r.Ok? <==> s in {"A", "B", "C", "X", "Y", "Z"}
    ensures r.Err? ==> r.error == "Could not create Choice from " + s
  {
    match s
    case "A" => Ok(Rock)
    case "B" => Ok(Paper)
    case "C" => Ok(Scissors)
    case "X" => Ok(Rock)
    case "Y" => Ok(Paper)
    case "Z" => Ok(Scissors)
    case _ => Err("Could not create Choice from " + s)
  }

  /** Both letter sets read the shapes in the same order. */
  lemma LettersAgree()
    ensures ChoiceFrom("A") == ChoiceFrom("X") && ChoiceFrom("B") == ChoiceFrom("Y")
      && ChoiceFrom("C") == ChoiceFrom("Z")
    ensures ChoiceFrom("A") != ChoiceFrom("B") && ChoiceFrom("B") != ChoiceFrom("C")
      && ChoiceFrom("A") != ChoiceFrom("C")
  {
  }

  /** `Choice::value`. */
  function Value(c: Choice): (v: int)
    ensures 1 <= v <= 3
  {
    match c
    case Rock => 1
    case Paper => 2
    case Scissors => 3
  }

  /** `Display for Choice`. */
  function Show(c: Choice): (s: string)
    ensures |s| == 1
  {
    match c
    case Rock => "R"
    case Paper => "P"
    case Scissors => "S"
  }

  /** Each shape shows as its own letter. */
  lemma ShowDistinct(a: Choice, b: Choice)
    ensures Show(a) == Show(b) <==> a == b
  {
  }

  /**
   * `partial_cmp`: a shape is greater than the one it beats (rock beats
   * scissors, scissors beat paper, paper beats rock). It is always `Some`.
   */
  function PartialCmp(a: Choice, b: Choice): (r: Option<Ordering>)
    ensures r.Some?
  {
    Some(
      match (a, b)
      case (Rock, Rock) => Equal
      case (Rock, Paper) => Less
      case (Rock, Scissors) => Greater
      case (Paper, Rock) => Greater
      case (Paper, Paper) => Equal
      case (Paper, Scissors) => Less
      case (Scissors, Rock) => Less
      case (Scissors, Paper) => Greater
      case (Scissors, Scissors) => Equal)
  }

  /** `Ord::cmp`: `partial_cmp(..).unwrap()`, which never panics. */
  function Cmp(a: Choice, b: Choice): Ordering
  {
    PartialCmp(a, b).value
  }

  /** The shape that beats `c`. */
  function Beater(c: Choice): Choice
  {
    match c
    case Rock => Paper
    case Paper => Scissors
    case Scissors => Rock
  }

  /** The comparison is the game's rule: equal shapes tie, and a shape wins exactly against the one it beats. */
  lemma CmpIsGame(a: Choice, b: Choice)
    ensures Cmp(a, b) == Equal <==> a == b
    ensures Cmp(a, b) == Greater <==> a == Beater(b)
    ensures Cmp(a, b) == Less <==> b == Beater(a)
  {
  }

  /** Swapping the shapes reverses the comparison. */
  lemma CmpAntisymmetric(a: Choice, b: Choice)
    ensures Cmp(a, b) == Cmp(b, a).Reverse()
  {
  }

  /** The comparison is cyclic, so not transitive: rock < paper < scissors < rock. */
  lemma CmpCyclic()
    ensures Cmp(Rock, Paper) == Less && Cmp(Paper, Scissors) == Less && Cmp(Scissors, Rock) == Less
  {
  }

  /** `for_outcome`: the shape to play against `c` for the ending wanted. */
  function ForOutcome(c: Choice, e: Ending): Choice
  {
    match (c, e)
    case (Rock, Tie) => Rock
    case (Rock, Lose) => Scissors
    case (Rock, Win) => Paper
    case (Paper, Tie) => Paper
    case (Paper, Lose) => Rock
    case (Paper, Win) => Scissors
    case (Scissors, Tie) => Scissors
    case (Scissors, Lose) => Paper
    case (Scissors, Win) => Rock
  }

  /** The comparison result each ending asks for. */
  function Wanted(e: Ending): Ordering
  {
    match e
    case Lose => Less
    case Tie => Equal
    case Win => Greater
  }

  /** `for_outcome` gives the ending wanted, and it is the only shape that does. */
  lemma ForOutcomeMeets(c: Choice, e: Ending, x: Choice)
    ensures Cmp(ForOutcome(c, e), c) == Wanted(e)
    ensures Cmp(x, c) == Wanted(e) ==> x == ForOutcome(c, e)
  {
  }

  /** The points for a round: 0, 3 or 6 for a loss, a draw or a win, plus the shape's value. */
  function RoundScore(opponent: Choice, choice: Choice): (s: int)
    ensures 1 <= s <= 9
  {
    Value(choice)
      + match Cmp(choice, opponent)
        case Less => 0
        case Equal => 3
        case Greater => 6
  }

  /** A round's score decides both shapes: the value gives the player's and the outcome the opponent's. */
  lemma RoundScoreDecides(o1: Choice, c1: Choice, o2: Choice, c2: Choice)
    requires RoundScore(o1, c1) == RoundScore(o2, c2)
    ensures o1 == o2 && c1 == c2
  {
  }

  /** In problem 2 the round score depends only on the ending and the opponent's shape. */
  lemma EndingScore(c: Choice, e: Ending)
    ensures RoundScore(c, ForOutcome(c, e)) == Value(ForOutcome(c, e)) + match e
      case Lose => 0
      case Tie => 3
      case Win => 6
  {
    ForOutcomeMeets(c, e, c);
  }

  /** One line of `parse_input`: the opponent's shape and the raw second word; `None` where it panics. */
  function ParseLine(line: string): (r: Option<(Choice, string)>)
    ensures r.Some? <==> |Words(line)| >= 2 && ChoiceFrom(Words(line)[0]).Ok?
    ensures r.Some? ==> r.value == (ChoiceFrom(Words(line)[0]).value, Words(line)[1])
  {
    var parts := Words(line);
    if |parts| < 1 then None
    else
      match ChoiceFrom(parts[0])
      case Err(_) => None
      case Ok(first) =>
        if |parts| < 2 then None else Some((first, parts[1]))
  }

  /** A line written as "<opponent letter> <word>" parses back to the two. */
  lemma ParseLineOfWords(a: string, w: string)
    requires a in {"A", "B", "C"} && IsWord(w)
    ensures ParseLine(a + " " + w) == Some((ChoiceFrom(a).value, w))
  {
    assert IsWord(a);
    assert Join([a, w], " ") == a + " " + Join([w], " ");
    WordsOfJoin([a, w]);
  }

  /** `parse_input`: every line parsed and pushed in order; `None` where a line panics. */
  method ParseInput(lines: seq<string>) returns (r: Option<seq<(Choice, string)>>)
    ensures r == CollectAll(lines, ParseLine)
  {
    var choices: seq<(Choice, string)> := [];
    for i := 0 to |lines|
      invariant CollectAll(lines[..i], ParseLine) == Some(choices)
    {
      var parsed := ParseLine(lines[i]);
      if parsed.None? {
        CollectAllPrefix(lines, ParseLine, i + 1);
        return None;
      }
      CollectAllSnoc(lines[..i], ParseLine, lines[i], choices);
      assert lines[..i + 1] == lines[..i] + [lines[i]];
      choices := choices + [parsed.value];
    }
    assert lines[..|lines|] == lines;
    return Some(choices);
  }

  /** The player's shape for problem 1; `None` where `try_from(..).unwrap()` panics. */
  function Problem1Round(round: (Choice, string)): Option<int>
  {
    match ChoiceFrom(round.1)
    case Err(_) => None
    case Ok(choice) => Some(RoundScore(round.0, choice))
  }

  /** The player's shape for problem 2, from the ending wanted. */
  function Problem2Round(round: (Choice, string)): Option<int>
  {
    match EndingFrom(round.1)
    case Err(_) => None
    case Ok(ending) => Some(RoundScore(round.0, ForOutcome(round.0, ending)))
  }

  /** `problem_1`: the sum of the round scores; `None` where a second word is not a shape. */
  function Problem1(choices: seq<(Choice, string)>): (r: Option<int>)
  {
    match CollectAll(choices, Problem1Round)
    case None => None
    case Some(scores) => Some(Sum(scores))
  }

  /** `problem_2`: the sum of the round scores; `None` where a second word is not an ending. */
  function Problem2(choices: seq<(Choice, string)>): (r: Option<int>)
  {
    match CollectAll(choices, Problem2Round)
    case None => None
    case Some(scores) => Some(Sum(scores))
  }

  /** Every round scores 1 to 9, so a total lies between the number of rounds and nine times it. */
  lemma {:induction false} SumBounds(scores: seq<int>)
    requires forall i :: 0 <= i < |scores| ==> 1 <= scores[i] <= 9
    ensures |scores| <= Sum(scores) <= 9 * |scores|
  {
    if scores != [] {
      SumBounds(scores[..|scores| - 1]);
    }
  }

  /** The totals of both problems are defined exactly when every second word parses, and are bounded by the round count. */
  lemma ProblemsBounded(choices: seq<(Choice, string)>)
    ensures Problem1(choices).Some? <==> forall i :: 0 <= i < |choices| ==> ChoiceFrom(choices[i].1).Ok?
    ensures Problem2(choices).Some? <==> forall i :: 0 <= i < |choices| ==> EndingFrom(choices[i].1).Ok?
    ensures Problem1(choices).Some? ==> |choices| <= Problem1(choices).value <= 9 * |choices|
    ensures Problem2(choices).Some? ==> |choices| <= Problem2(choices).value <= 9 * |choices|
  {
    assert forall i :: 0 <= i < |choices| ==> (Problem1Round(choices[i]).Some? <==> ChoiceFrom(choices[i].1).Ok?);
    assert forall i :: 0 <= i < |choices| ==> (Problem2Round(choices[i]).Some? <==> EndingFrom(choices[i].1).Ok?);
    var r1 := CollectAll(choices, Problem1Round);
    if r1.Some? {
      SumBounds(r1.value);
    }
    var r2 := CollectAll(choices, Problem2Round);
    if r2.Some? {
      SumBounds(r2.value);
    }
  }
}
