/**
 * Day 4: pairs of section ranges.
 *
 * Each line is "a-b,c-d", two inclusive ranges of section numbers.
 * Problem 1 counts the pairs where one range contains the other, problem 2
 * the pairs whose ranges overlap.
 */
module Day04 {
  import opened Util
  import opened Text
  import opened Sorting

  /** An inclusive range of sections, `lower..=upper`. */
  datatype Range = Range(lower: int, upper: int)

  /** `s.parse::<i32>()`. */
  function ParseI32(s: string): Option<int>
  {
    ParseIn(s, I32_MIN, I32_MAX)
  }

  /** Each part split again on `sep`, all pieces in order (`flat_map(|p| p.split(sep))`). */
  function SplitAll(parts: seq<string>, sep: string): seq<string>
    requires |sep| > 0
  {
    if parts == [] then [] else Split(parts[0], sep) + SplitAll(parts[1..], sep)
  }

  /** The pieces of a line: split on ',' and each part on '-'. */
  function Pieces(line: string): seq<string>
  {
    SplitAll(Split(line, ","), "-")
  }

  /**
   * One line of `parse_input`: every piece is parsed as an `i32` (a panic
   * on the first that is not one), and the first four give the two ranges;
   * fewer than four is a panic on `parts[..4]`. Any further pieces are
   * ignored, and the "Bad line format" arm is never taken, since
   * `parts[..4]` always has four elements.
   */
  function ParseLine(line: string): (r: Option<(Range, Range)>)
    ensures r.Some? <==> CollectAll(Pieces(line), ParseI32).Some? && |Pieces(line)| >= 4
    ensures r.Some? ==> var ps := Pieces(line);
      && r.value.0 == Range(ParseI32(ps[0]).value, ParseI32(ps[1]).value)
      && r.value.1 == Range(ParseI32(ps[2]).value, ParseI32(ps[3]).value)
  {
    match CollectAll(Pieces(line), ParseI32)
    case None => None
    case Some(parts) =>
      if |parts| < 4 then None
      else Some((Range(parts[0], parts[1]), Range(parts[2], parts[3])))
  }

  /** `parse_input`: every line parsed; `None` where a line panics. */
  function ParseInput(lines: seq<string>): Option<seq<(Range, Range)>>
  {
    CollectAll(lines, ParseLine)
  }

  /** A pair written "a-b,c-d", with non-negative numbers. */
  function Show(a: Range, b: Range): string
    requires a.lower >= 0 && a.upper >= 0 && b.lower >= 0 && b.upper >= 0
  {
    Join([Join([NatToString(a.lower), NatToString(a.upper)], "-"), Join([NatToString(b.lower), NatToString(b.upper)], "-")], ",")
  }

  /** Digits hold neither separator. */
  lemma DigitsLack(n: nat)
    ensures Lacks(NatToString(n), ',') && Lacks(NatToString(n), '-')
  {
    var s := NatToString(n);
    assert forall i :: 0 <= i < |s| ==> IsDigit(s[i]);
  }

  lemma LacksAppend(a: string, b: string, c: char)
    requires Lacks(a, c) && Lacks(b, c)
    ensures Lacks(a + b, c)
  {
    assert forall i :: |a| <= i < |a + b| ==> (a + b)[i] == b[i - |a|];
  }

  /** The pieces of a written range are its two numbers. */
  lemma RangePieces(lo: nat, hi: nat)
    ensures var x := Join([NatToString(lo), NatToString(hi)], "-");
      Lacks(x, ',') && Split(x, "-") == [NatToString(lo), NatToString(hi)]
  {
    var a, b := NatToString(lo), NatToString(hi);
    DigitsLack(lo);
    DigitsLack(hi);
    assert Join([a, b], "-") == a + "-" + b;
    LacksAppend(a, "-", ',');
    LacksAppend(a + "-", b, ',');
    SplitJoinLacking([a, b], "-");
  }

  /** A pair of ranges within `i32`, written "a-b,c-d", parses back to the same pair. */
  lemma ParseShow(a: Range, b: Range)
    requires 0 <= a.lower <= I32_MAX && 0 <= a.upper <= I32_MAX
    requires 0 <= b.lower <= I32_MAX && 0 <= b.upper <= I32_MAX
    ensures ParseLine(Show(a, b)) == Some((a, b))
  {
    var ps := [NatToString(a.lower), NatToString(a.upper), NatToString(b.lower), NatToString(b.upper)];
    PiecesShow(a, b);
    NatToStringParses(a.lower);
    NatToStringParses(a.upper);
    NatToStringParses(b.lower);
    NatToStringParses(b.upper);
    CollectAllImages(ps, ParseI32, [a.lower, a.upper, b.lower, b.upper]);
  }

  /** The pieces of a written pair are its four numbers. */
  lemma PiecesShow(a: Range, b: Range)
    requires a.lower >= 0 && a.upper >= 0 && b.lower >= 0 && b.upper >= 0
    ensures Pieces(Show(a, b)) == [NatToString(a.lower), NatToString(a.upper), NatToString(b.lower), NatToString(b.upper)]
  {
    var x := Join([NatToString(a.lower), NatToString(a.upper)], "-");
    var y := Join([NatToString(b.lower), NatToString(b.upper)], "-");
    RangePieces(a.lower, a.upper);
    RangePieces(b.lower, b.upper);
    SplitJoinLacking([x, y], ",");
    assert [x, y][1..] == [y];
    assert SplitAll([y], "-") == Split(y, "-") + SplitAll([], "-");
  }

  /** Whether section `x` lies in `r`. */
  predicate In(r: Range, x: int)
  {
    r.lower <= x <= r.upper
  }

  /** The filter of `problem_1`: one range contains the other. */
  predicate Contains(a: Range, b: Range)
  {
    (a.lower <= b.lower && a.upper >= b.upper) || (b.lower <= a.lower && b.upper >= a.upper)
  }

  /** The filter of `problem_2`: an upper end of one range lies in the other. */
  predicate Overlaps(a: Range, b: Range)
  {
    (b.upper >= a.lower && b.upper <= a.upper) || (a.upper >= b.lower && a.upper <= b.upper)
  }

  /** Neither filter depends on the order of the pair. */
  lemma FiltersSymmetric(a: Range, b: Range)
    ensures Contains(a, b) <==> Contains(b, a)
    ensures Overlaps(a, b) <==> Overlaps(b, a)
  {
  }

  /** For non-empty ranges, `Contains` is containment of the section sets, one way or the other. */
  lemma ContainsMeaning(a: Range, b: Range)
    requires a.lower <= a.upper && b.lower <= b.upper
    ensures Contains(a, b) <==> (forall x :: In(b, x) ==> In(a, x)) || (forall x :: In(a, x) ==> In(b, x))
  {
    if (forall x :: In(b, x) ==> In(a, x)) {
      assert In(b, b.lower) && In(b, b.upper);
    }
    if (forall x :: In(a, x) ==> In(b, x)) {
      assert In(a, a.lower) && In(a, a.upper);
    }
  }

  /** For non-empty ranges, `Overlaps` means a section lies in both, and the larger lower end is at most the smaller upper end. */
  lemma OverlapsMeaning(a: Range, b: Range)
    requires a.lower <= a.upper && b.lower <= b.upper
    ensures Overlaps(a, b) <==> exists x :: In(a, x) && In(b, x)
    ensures Overlaps(a, b) <==> Max(a.lower, b.lower) <= Min(a.upper, b.upper)
  {
    if Overlaps(a, b) {
      var x := Min(a.upper, b.upper);
      assert In(a, x) && In(b, x);
    }
    if exists x :: In(a, x) && In(b, x) {
      var x :| In(a, x) && In(b, x);
      assert Max(a.lower, b.lower) <= x <= Min(a.upper, b.upper);
    }
  }

  /** A pair where one range contains the other overlaps. */
  lemma ContainsOverlaps(a: Range, b: Range)
    requires a.lower <= a.upper && b.lower <= b.upper
    requires Contains(a, b)
    ensures Overlaps(a, b)
  {
  }

  function ContainsPair(p: (Range, Range)): bool { Contains(p.0, p.1) }

  function OverlapsPair(p: (Range, Range)): bool { Overlaps(p.0, p.1) }

  /** `problem_1`: the number of pairs where one range contains the other. */
  function Problem1(input: seq<(Range, Range)>): nat
  {
    CountWhere(input, ContainsPair)
  }

  /** `problem_2`: the number of overlapping pairs. */
  function Problem2(input: seq<(Range, Range)>): nat
  {
    CountWhere(input, OverlapsPair)
  }

  predicate NonEmptyRanges(input: seq<(Range, Range)>)
  {
    forall i :: 0 <= i < |input| ==> input[i].0.lower <= input[i].0.upper && input[i].1.lower <= input[i].1.upper
  }

  /** Every containing pair overlaps, so with non-empty ranges the first count is at most the second, itself at most the pairs. */
  lemma {:induction false} CountsOrdered(input: seq<(Range, Range)>)
    requires NonEmptyRanges(input)
    ensures Problem1(input) <= Problem2(input) <= |input|
    decreases |input|
  {
    if input != [] {
      CountsOrdered(input[1..]);
      if Contains(input[0].0, input[0].1) {
        ContainsOverlaps(input[0].0, input[0].1);
      }
    }
  }
}
