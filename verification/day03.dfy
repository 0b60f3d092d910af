/**
 * Day 3: rucksack priorities.
 *
 * An item is a letter; its priority is its position in `ALPHABET` plus one
 * (`a`..`z` are 1..26, `A`..`Z` are 27..52). Problem 1 splits each line
 * into two halves and scores the item both halves hold; problem 2 takes the
 * lines three at a time and scores the item all three hold.
 *
 * Which common item the program picks when there are several depends on
 * the order a `HashSet` iterates in, which the language leaves open; the
 * model takes that order as a parameter `first`, and proves that with a
 * single common item, as the puzzle promises, the choice does not matter.
 */
module Day03 {
  import opened Util

  const ALPHABET: string := "abcdefghijklmnopqrstuvwxyzABCDEFGHIJKLMNOPQRSTUVWXYZ"

  /** `str::find` for a character: the index of its first occurrence. */
  function IndexOf(s: string, c: char): (r: Option<nat>)
    ensures r.Some? ==> r.value < |s| && s[r.value] == c && c !in s[..r.value]
    ensures r.None? <==> c !in s
  {
    if s == [] then None
    else if s[0] == c then Some(0)
    else
      match IndexOf(s[1..], c)
      case None => None
      case Some(i) =>
        assert s[..i + 1] == [s[0]] + s[1..][..i];
        Some(i + 1)
  }

  /** The first occurrence is the only one when the characters are distinct. */
  lemma IndexOfDistinct(s: string, c: char, i: nat)
    requires i < |s| && s[i] == c
    requires forall j, k :: 0 <= j < k < |s| ==> s[j] != s[k]
    ensures IndexOf(s, c) == Some(i)
  {
  }

  /** The letter at each position of `ALPHABET`: `a` to `z`, then `A` to `Z`. */
  lemma LetterAt(k: int)
    requires 0 <= k < 52
    ensures ALPHABET[k] as int == if k < 26 then 'a' as int + k else 'A' as int + (k - 26)
  {
    if k < 26 {
      var lower := "abcdefghijklmnopqrstuvwxyz";
      assert ALPHABET[..26] == lower;
      assert ALPHABET[k] == lower[k];
    }
  }

  /** No letter occurs twice in `ALPHABET`. */
  lemma AlphabetDistinct()
    ensures |ALPHABET| == 52
    ensures forall j, k :: 0 <= j < k < |ALPHABET| ==> ALPHABET[j] != ALPHABET[k]
  {
    forall j, k | 0 <= j < k < 52
      ensures ALPHABET[j] != ALPHABET[k]
    {
      LetterAt(j);
      LetterAt(k);
    }
  }

  predicate IsLower(c: char) { 'a' <= c <= 'z' }

  predicate IsUpper(c: char) { 'A' <= c <= 'Z' }

  /** `ALPHABET.find(c).unwrap() + 1`; `None` where the unwrap panics. */
  function Priority(c: char): Option<int>
  {
    match IndexOf(ALPHABET, c)
    case None => None
    case Some(i) => Some(i + 1)
  }

  /** Lower-case letters score 1 to 26 and upper-case ones 27 to 52, in alphabetical order; nothing else has a priority. */
  lemma PriorityValues(c: char)
    ensures IsLower(c) ==> Priority(c) == Some(c as int - 'a' as int + 1)
    ensures IsUpper(c) ==> Priority(c) == Some(c as int - 'A' as int + 27)
    ensures Priority(c).Some? <==> IsLower(c) || IsUpper(c)
  {
    if IsLower(c) {
      var k := c as int - 'a' as int;
      LetterAt(k);
      PriorityAt(c, k);
    } else if IsUpper(c) {
      var k := c as int - 'A' as int + 26;
      LetterAt(k);
      PriorityAt(c, k);
    } else {
      forall k | 0 <= k < 52
        ensures ALPHABET[k] != c
      {
        LetterAt(k);
      }
      assert c !in ALPHABET;
    }
  }

  /** The letter at position `k` has priority `k + 1`. */
  lemma PriorityAt(c: char, k: int)
    requires 0 <= k < |ALPHABET| && ALPHABET[k] == c
    ensures Priority(c) == Some(k + 1)
  {
    AlphabetDistinct();
    IndexOfDistinct(ALPHABET, c, k);
  }

  /** Different letters have different priorities. */
  lemma PriorityInjective(c: char, d: char)
    requires Priority(c).Some? && Priority(c) == Priority(d)
    ensures c == d
  {
  }

  /**
   * The element a `HashSet` iterator yields first: any member of a non-empty
   * set. One function stands for every set's iterator, so equal sets yield the
   * same element here, which a randomly seeded `HashSet` does not promise; the
   * contracts below use no more of it than `first(s) in s`.
   */
  ghost predicate Chooser(first: set<char> -> char)
  {
    forall s: set<char> :: s != {} ==> first(s) in s
  }

  /** `HashSet::from_iter(s.chars())`. */
  function Items(s: string): (r: set<char>)
    ensures forall c :: c in r <==> c in s
  {
    set i | 0 <= i < |s| :: s[i]
  }

  /** `intersection(..).next().unwrap()`: the first common item; `None` where there is none. */
  function Common(items: set<char>, first: set<char> -> char): Option<char>
  {
    if items == {} then None else Some(first(items))
  }

  /** The common item is in the set, and a single common item is picked whatever the order. */
  lemma CommonPicks(items: set<char>, first: set<char> -> char, c: char)
    requires Chooser(first)
    ensures Common(items, first).Some? ==> Common(items, first).value in items
    ensures items == {c} ==> Common(items, first) == Some(c)
  {
  }

  /** Problem 1 for one line: `None` where the program panics (odd length, nothing shared, not a letter). */
  function Compartments(line: string, first: set<char> -> char): (r: Option<int>)
  {
    if |line| % 2 != 0 then None
    else
      var half := |line| / 2;
      match Common(Items(line[..half]) * Items(line[half..]), first)
      case None => None
      case Some(c) => Priority(c)
  }

  /** With one item in both halves of an even line, the line scores that item's priority. */
  lemma CompartmentsScore(line: string, first: set<char> -> char, c: char)
    requires Chooser(first) && |line| % 2 == 0
    requires Items(line[..|line| / 2]) * Items(line[|line| / 2..]) == {c}
    ensures Compartments(line, first) == Priority(c)
    ensures c in line[..|line| / 2] && c in line[|line| / 2..]
  {
    assert c in Items(line[..|line| / 2]) * Items(line[|line| / 2..]);
  }

  /** `problem_1`: the sum of the line scores; `None` where a line panics. */
  function Problem1(lines: seq<string>, first: set<char> -> char): Option<int>
  {
    match CollectAll(lines, l => Compartments(l, first))
    case None => None
    case Some(scores) => Some(Sum(scores))
  }

  /** `chunks(3)`: consecutive groups of three lines, the last one shorter when the count is not a multiple of three. */
  function Chunks(lines: seq<string>): (r: seq<seq<string>>)
    ensures forall i :: 0 <= i < |r| ==> 0 < |r[i]| <= 3
    ensures forall i :: 0 <= i < |r| - 1 ==> |r[i]| == 3
    decreases |lines|
  {
    if lines == [] then []
    else if |lines| <= 3 then [lines]
    else [lines[..3]] + Chunks(lines[3..])
  }

  function Concat(groups: seq<seq<string>>): seq<string>
  {
    if groups == [] then [] else groups[0] + Concat(groups[1..])
  }

  /** The chunks hold the lines in order, and every chunk is full exactly when the line count is a multiple of three. */
  lemma {:induction false} ChunksCover(lines: seq<string>)
    ensures Concat(Chunks(lines)) == lines
    ensures (forall i :: 0 <= i < |Chunks(lines)| ==> |Chunks(lines)[i]| == 3) <==> |lines| % 3 == 0
    decreases |lines|
  {
    if |lines| > 3 {
      ChunksCover(lines[3..]);
      assert lines[..3] + lines[3..] == lines;
      var r := Chunks(lines);
      assert r[1..] == Chunks(lines[3..]);
    }
  }

  /** Problem 2 for one chunk: `None` where it panics (a short chunk, no shared item, not a letter). */
  function Badge(chunk: seq<string>, first: set<char> -> char): (r: Option<int>)
  {
    if |chunk| < 3 then None
    else
      match Common(Items(chunk[0]) * Items(chunk[1]) * Items(chunk[2]), first)
      case None => None
      case Some(c) => Priority(c)
  }

  /** `problem_2`: the sum of the chunk scores; `None` where a chunk panics. */
  function Problem2(lines: seq<string>, first: set<char> -> char): Option<int>
  {
    match CollectAll(Chunks(lines), ch => Badge(ch, first))
    case None => None
    case Some(scores) => Some(Sum(scores))
  }

  /** With a line count that is not a multiple of three, the short last chunk makes problem 2 panic. */
  lemma Problem2NeedsTriples(lines: seq<string>, first: set<char> -> char)
    requires |lines| % 3 != 0
    ensures Problem2(lines, first).None?
  {
    ChunksCover(lines);
    var r := Chunks(lines);
    var i :| 0 <= i < |r| && |r[i]| != 3;
    assert Badge(r[i], first).None?;
  }

  /** A score is a priority, 1 to 52, so a total lies between the number of items scored and 52 times it. */
  lemma {:induction false} SumOfPriorities(scores: seq<int>)
    requires forall i :: 0 <= i < |scores| ==> 1 <= scores[i] <= 52
    ensures |scores| <= Sum(scores) <= 52 * |scores|
  {
    if scores != [] {
      SumOfPriorities(scores[..|scores| - 1]);
    }
  }

  lemma PriorityRange(c: char)
    requires Priority(c).Some?
    ensures 1 <= Priority(c).value <= 52
  {
  }

  /** Each problem's total, when defined, is between one and 52 per line (problem 1) or per group of three (problem 2). */
  lemma TotalsBounded(lines: seq<string>, first: set<char> -> char)
    ensures Problem1(lines, first).Some? ==> |lines| <= Problem1(lines, first).value <= 52 * |lines|
    ensures Problem2(lines, first).Some? ==> |lines| / 3 <= Problem2(lines, first).value <= 52 * (|lines| / 3)
  {
    Problem1Bounded(lines, first);
    Problem2Bounded(lines, first);
  }

  lemma Problem1Bounded(lines: seq<string>, first: set<char> -> char)
    ensures Problem1(lines, first).Some? ==> |lines| <= Problem1(lines, first).value <= 52 * |lines|
  {
    var r := CollectAll(lines, l => Compartments(l, first));
    if r.Some? {
      forall i | 0 <= i < |r.value|
        ensures 1 <= r.value[i] <= 52
      {
        var c := Common(Items(lines[i][..|lines[i]| / 2]) * Items(lines[i][|lines[i]| / 2..]), first);
        assert Compartments(lines[i], first) == Some(r.value[i]);
        PriorityRange(c.value);
      }
      SumOfPriorities(r.value);
    }
  }

  lemma Problem2Bounded(lines: seq<string>, first: set<char> -> char)
    ensures Problem2(lines, first).Some? ==> |lines| / 3 <= Problem2(lines, first).value <= 52 * (|lines| / 3)
  {
    var chunks := Chunks(lines);
    var r := CollectAll(chunks, ch => Badge(ch, first));
    if r.Some? {
      forall i | 0 <= i < |r.value|
        ensures 1 <= r.value[i] <= 52
      {
        var ch := chunks[i];
        assert Badge(ch, first) == Some(r.value[i]);
        var c := Common(Items(ch[0]) * Items(ch[1]) * Items(ch[2]), first);
        PriorityRange(c.value);
      }
      SumOfPriorities(r.value);
      if |lines| % 3 != 0 {
        Problem2NeedsTriples(lines, first);
      }
      ChunksCount(lines);
    }
  }

  /** Only a line count that is a multiple of three leaves every chunk full; there are then a third as many chunks. */
  lemma {:induction false} ChunksCount(lines: seq<string>)
    requires |lines| % 3 == 0
    ensures |Chunks(lines)| == |lines| / 3
    decreases |lines|
  {
    if |lines| > 3 {
      ChunksCount(lines[3..]);
    }
  }
}
