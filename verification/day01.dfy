/**
 * Day 1: calorie counting.
 *
 * The input lists, one per line, the calories of the items each elf
 * carries; a blank line ends an elf's list. Problem 1 is the largest total
 * any elf carries, problem 2 the sum of the three largest totals.
 */
module Day01 {
  import opened Util
  import opened Text
  import opened Sorting

  /** `line.parse::<i32>()`. */
  function ParseI32(line: string): Option<int>
  {
    ParseIn(line, I32_MIN, I32_MAX)
  }

  /** The state of the `parse_input` loop: the finished groups (`calories`) and the open one (`elf`). */
  datatype Reading = Reading(calories: seq<seq<int>>, elf: seq<int>)

  /** One turn of the loop: a blank line closes the open group, any other line is parsed and appended to it; `None` where the parse panics. */
  function Step(st: Reading, line: string): Option<Reading>
  {
    if line == [] then Some(Reading(st.calories + [st.elf], []))
    else
      match ParseI32(line)
      case None => None
      case Some(n) => Some(Reading(st.calories, st.elf + [n]))
  }

  /** The loop state after reading `lines`; `None` once a line has panicked. */
  function Run(lines: seq<string>): Option<Reading>
    decreases |lines|
  {
    if lines == [] then Some(Reading([], []))
    else
      match Run(lines[..|lines| - 1])
      case None => None
      case Some(st) => Step(st, lines[|lines| - 1])
  }

  /** A panic is final: a prefix that panics makes the whole input panic. */
  lemma {:induction false} RunPanicExtends(lines: seq<string>, n: nat)
    requires n <= |lines| && Run(lines[..n]).None?
    ensures Run(lines).None?
    decreases |lines| - n
  {
    if n < |lines| {
      assert lines[..n + 1][..n] == lines[..n];
      RunPanicExtends(lines, n + 1);
    } else {
      assert lines[..n] == lines;
    }
  }

  /** `parse_input`: the groups closed by a blank line, in order; the last group is dropped unless a blank line follows it. */
  method ParseInput(lines: seq<string>) returns (r: Option<seq<seq<int>>>)
    ensures r.None? <==> Run(lines).None?
    ensures r.Some? ==> r.value == Run(lines).value.calories
  {
    var calories: seq<seq<int>> := [];
    var elf: seq<int> := [];
    for i := 0 to |lines|
      invariant Run(lines[..i]) == Some(Reading(calories, elf))
    {
      assert lines[..i + 1][..i] == lines[..i];
      var line := lines[i];
      if line == [] {
        calories := calories + [elf];
        elf := [];
      } else {
        var n := ParseI32(line);
        if n.None? {
          RunPanicExtends(lines, i + 1);
          return None;
        }
        elf := elf + [n.value];
      }
    }
    assert lines[..|lines|] == lines;
    return Some(calories);
  }

  predicate IsBlank(line: string) { line == [] }

  /** The input panics exactly when a non-blank line is not an `i32`. */
  lemma {:induction false} RunDefined(lines: seq<string>)
    ensures Run(lines).Some? <==> forall i :: 0 <= i < |lines| && lines[i] != [] ==> ParseI32(lines[i]).Some?
    decreases |lines|
  {
    if lines != [] {
      var init := lines[..|lines| - 1];
      RunDefined(init);
      assert forall i :: 0 <= i < |init| ==> init[i] == lines[i];
    }
  }

  /** There are as many groups as blank lines, and every number read is in a group or in the open one. */
  lemma {:induction false} RunCounts(lines: seq<string>)
    requires Run(lines).Some?
    ensures |Run(lines).value.calories| == CountWhere(lines, IsBlank)
    ensures TotalLength(Run(lines).value.calories) + |Run(lines).value.elf| == |lines| - CountWhere(lines, IsBlank)
    decreases |lines|
  {
    if lines != [] {
      var init, last := lines[..|lines| - 1], lines[|lines| - 1];
      RunCounts(init);
      assert init + [last] == lines;
      CountWhereAppend(init, [last], IsBlank);
      assert CountWhere([last], IsBlank) == (if last == [] then 1 else 0) by {
        assert [last][1..] == [];
      }
      var st := Run(init).value;
      if last == [] {
        TotalLengthSnoc(st.calories, st.elf);
      }
    }
  }

  lemma {:induction false} TotalLengthSnoc<T>(s: seq<seq<T>>, x: seq<T>)
    ensures TotalLength(s + [x]) == TotalLength(s) + |x|
    decreases |s|
  {
    if s == [] {
      assert ([x])[1..] == [];
    } else {
      assert (s + [x])[1..] == s[1..] + [x];
      TotalLengthSnoc(s[1..], x);
    }
  }

  /** Reading one more line is one more turn of the loop. */
  lemma RunSnoc(lines: seq<string>, line: string)
    ensures Run(lines + [line]) == match Run(lines) case None => None case Some(st) => Step(st, line)
  {
    assert (lines + [line])[..|lines|] == lines;
  }

  predicate I32Group(g: seq<int>)
  {
    forall i :: 0 <= i < |g| ==> I32_MIN <= g[i] <= I32_MAX
  }

  predicate InI32(gs: seq<seq<int>>)
  {
    forall k :: 0 <= k < |gs| ==> I32Group(gs[k])
  }

  /** The lines for one group's numbers. */
  function Lines(g: seq<int>): (r: seq<string>)
    decreases |g|
  {
    if g == [] then [] else Lines(g[..|g| - 1]) + [IntToString(g[|g| - 1])]
  }

  /** The input for a list of groups: each group's numbers, then a blank line. */
  function Render(gs: seq<seq<int>>): seq<string>
    decreases |gs|
  {
    if gs == [] then []
    else Render(gs[..|gs| - 1]) + Lines(gs[|gs| - 1]) + [""]
  }

  /** Reading a group's numbers appends them to the open group. */
  lemma {:induction false} RunLines(prefix: seq<string>, st: Reading, g: seq<int>)
    requires I32Group(g)
    requires Run(prefix) == Some(st)
    ensures Run(prefix + Lines(g)) == Some(Reading(st.calories, st.elf + g))
    decreases |g|
  {
    if g == [] {
      assert prefix + Lines(g) == prefix;
      assert st.elf + g == st.elf;
    } else {
      var init := g[..|g| - 1];
      var n := g[|g| - 1];
      var line := IntToString(n);
      RunLines(prefix, st, init);
      IntToStringParses(n);
      assert ParseI32(line) == Some(n);
      RunSnoc(prefix + Lines(init), line);
      assert Lines(g) == Lines(init) + [line];
      AppendAssoc(prefix, Lines(init), [line]);
      assert init + [n] == g;
      AppendAssoc(st.elf, init, [n]);
    }
  }

  lemma AppendAssoc<T>(a: seq<T>, b: seq<T>, c: seq<T>)
    ensures a + (b + c) == (a + b) + c
  {
  }

  /** Rendered groups read back as the same groups, with no group left open. */
  lemma {:induction false} RunRender(gs: seq<seq<int>>)
    requires InI32(gs)
    ensures Run(Render(gs)) == Some(Reading(gs, []))
    decreases |gs|
  {
    if gs != [] {
      var init := gs[..|gs| - 1];
      var g := gs[|gs| - 1];
      assert init + [g] == gs;
      assert Render(gs) == Render(init) + Lines(g) + [""];
      RunRender(init);
      RunGroup(Render(init), init, g);
    }
  }

  /** Reading a group's numbers and a blank line closes that group. */
  lemma RunGroup(prefix: seq<string>, calories: seq<seq<int>>, g: seq<int>)
    requires I32Group(g)
    requires Run(prefix) == Some(Reading(calories, []))
    ensures Run(prefix + Lines(g) + [""]) == Some(Reading(calories + [g], []))
  {
    RunLines(prefix, Reading(calories, []), g);
    assert [] + g == g;
    RunSnoc(prefix + Lines(g), "");
  }

  /** The groups of `parse_input`: numbers after the last blank line form a group that is not returned. */
  lemma ParseRender(gs: seq<seq<int>>, tail: seq<int>)
    requires InI32(gs) && I32Group(tail)
    ensures Run(Render(gs) + Lines(tail)) == Some(Reading(gs, tail))
  {
    RunRender(gs);
    RunLines(Render(gs), Reading(gs, []), tail);
    assert [] + tail == tail;
  }

  /** Each elf's total (`elf.iter().sum()`). */
  function Totals(calories: seq<seq<int>>): (t: seq<int>)
    ensures |t| == |calories|
    ensures forall k :: 0 <= k < |calories| ==> t[k] == Sum(calories[k])
  {
    seq(|calories|, i requires 0 <= i < |calories| => Sum(calories[i]))
  }

  /** `Iterator::max`: the largest element, `None` for no elements. */
  function MaxOf(s: seq<int>): (r: Option<int>)
    ensures r.None? <==> s == []
    ensures r.Some? ==> r.value in s && forall i :: 0 <= i < |s| ==> s[i] <= r.value
    decreases |s|
  {
    if s == [] then None
    else
      var last := s[|s| - 1];
      match MaxOf(s[..|s| - 1])
      case None => Some(last)
      case Some(m) => Some(if m <= last then last else m)
  }

  /** `problem_1`: the largest total; `None` where `unwrap` panics on no elves. */
  function Problem1(calories: seq<seq<int>>): (r: Option<int>)
  {
    MaxOf(Totals(calories))
  }

  /** Problem 1 is the total of some elf, and no elf carries more; it is undefined only without elves. */
  lemma Problem1Max(calories: seq<seq<int>>)
    ensures Problem1(calories).None? <==> calories == []
    ensures Problem1(calories).Some? ==> exists k :: 0 <= k < |calories| && Problem1(calories).value == Sum(calories[k])
    ensures Problem1(calories).Some? ==> forall k :: 0 <= k < |calories| ==> Sum(calories[k]) <= Problem1(calories).value
  {
    var t := Totals(calories);
    if t != [] {
      var m := MaxOf(t).value;
      var k :| 0 <= k < |t| && t[k] == m;
      assert Sum(calories[k]) == m;
      assert forall k :: 0 <= k < |calories| ==> t[k] <= m;
    }
  }

  /** How many totals problem 2 adds: three, or all of them when there are fewer. */
  function Taken(n: nat): nat { Min(3, n) }

  /** `problem_2`: the totals sorted, then the sum of the last three (`rev().take(3)`). */
  function Problem2(calories: seq<seq<int>>): int
  {
    var elves := SortBy<int>(Totals(calories), IntLe);
    Sum(Reversed(elves)[..Taken(|elves|)])
  }

  lemma {:induction false} SumReversed(s: seq<int>)
    ensures Sum(Reversed(s)) == Sum(s)
    decreases |s|
  {
    if s != [] {
      var r := Reversed(s[1..]);
      SumReversed(s[1..]);
      assert (r + [s[0]])[..|r|] == r;
      assert Sum(Reversed(s)) == Sum(r) + s[0];
      SumFirst(s);
    }
  }

  /** A sum is its first element plus the sum of the rest. */
  lemma SumFirst(s: seq<int>)
    requires s != []
    ensures Sum(s) == s[0] + Sum(s[1..])
  {
    assert [s[0]] + s[1..] == s;
    SumAppend([s[0]], s[1..]);
    assert [s[0]][..0] == [];
  }

  /**
   * After sorting, the totals are a non-decreasing permutation of the
   * elves' totals; problem 2 adds the last `Taken` of them, each at least
   * as large as any total left out, and the largest of them is problem 1.
   */
  lemma Problem2Top(calories: seq<seq<int>>)
    ensures var t := Totals(calories);
      var elves := SortBy<int>(t, IntLe);
      var n := |elves|;
      && SortedBy(elves, IntLe) && multiset(elves) == multiset(t)
      && Problem2(calories) == Sum(elves[n - Taken(n)..])
      && (forall i, j :: 0 <= i < n - Taken(n) <= j < n ==> elves[i] <= elves[j])
      && (n > 0 ==> Problem1(calories) == Some(elves[n - 1]))
  {
    var t := Totals(calories);
    IntLeTotalPreorder();
    SortBySorted<int>(t, IntLe);
    var elves := SortBy<int>(t, IntLe);
    var n := |elves|;
    TakeLast(elves, Taken(n));
    assert Problem2(calories) == Sum(Reversed(elves)[..Taken(n)]);
    SortedSplit(elves, n - Taken(n));
    if n > 0 {
      SortedLastIsMax(t);
    }
  }

  /** In a sorted sequence every element before position `m` is at most every element from `m` on. */
  lemma SortedSplit(s: seq<int>, m: nat)
    requires SortedBy(s, IntLe) && m <= |s|
    ensures forall i, j :: 0 <= i < m <= j < |s| ==> s[i] <= s[j]
  {
    forall i, j | 0 <= i < m <= j < |s|
      ensures s[i] <= s[j]
    {
      assert IntLe(s[i], s[j]);
    }
  }

  /** The first `k` of the reversed sequence are its last `k`, and add up to the same. */
  lemma TakeLast(s: seq<int>, k: nat)
    requires k <= |s|
    ensures Sum(Reversed(s)[..k]) == Sum(s[|s| - k..])
  {
    ReversedPrefix(s, k);
    SumReversed(s[|s| - k..]);
  }

  lemma {:induction false} ReversedPrefix<T>(s: seq<T>, k: nat)
    requires k <= |s|
    ensures Reversed(s)[..k] == Reversed(s[|s| - k..])
    decreases |s|
  {
    if k == |s| {
      assert s[|s| - k..] == s;
    } else {
      ReversedPrefix(s[1..], k);
      assert s[1..][|s| - 1 - k..] == s[|s| - k..];
      assert Reversed(s)[..k] == Reversed(s[1..])[..k];
    }
  }

  /** The last of the sorted values is the largest. */
  lemma SortedLastIsMax(t: seq<int>)
    requires |t| > 0
    ensures MaxOf(t) == Some(SortBy<int>(t, IntLe)[|t| - 1])
  {
    var c := set x | x in t;
    SortedLast(t, c);
    var m := MaxOf(t).value;
    var hi := SetMax(c);
    var i :| 0 <= i < |t| && t[i] == hi;
    assert m <= hi;
    assert m == hi;
    assert MaxOf(t) == Some(m);
  }

  /** With no negative totals, problem 2 is at least problem 1 and at most three times it. */
  lemma Problem2Bounds(calories: seq<seq<int>>)
    requires calories != []
    requires forall k :: 0 <= k < |calories| ==> Sum(calories[k]) >= 0
    ensures Problem1(calories).value <= Problem2(calories) <= 3 * Problem1(calories).value
  {
    Problem2Top(calories);
    var t := Totals(calories);
    var elves := SortBy<int>(t, IntLe);
    forall i | 0 <= i < |elves|
      ensures elves[i] >= 0
    {
      assert elves[i] in multiset(t);
      assert elves[i] in t;
      var k :| 0 <= k < |t| && t[k] == elves[i];
    }
    SortedTop(elves, Taken(|elves|));
  }

  /** The last `k` (at most three) of sorted non-negative values add up to between the largest and three times it. */
  lemma SortedTop(s: seq<int>, k: nat)
    requires SortedBy(s, IntLe) && 0 < k <= 3 && k <= |s|
    requires forall i :: 0 <= i < |s| ==> s[i] >= 0
    ensures s[|s| - 1] <= Sum(s[|s| - k..]) <= 3 * s[|s| - 1]
  {
    var n := |s|;
    var top := s[n - k..];
    forall i | 0 <= i < |top|
      ensures 0 <= top[i] <= s[n - 1]
    {
      var j := n - k + i;
      assert top[i] == s[j];
      assert j == n - 1 || IntLe(s[j], s[n - 1]);
    }
    SumBetween(top, s[n - 1]);
  }

  /** A sum of values in `0..=m` lies between zero and `m` per value. */
  lemma {:induction false} SumRange(s: seq<int>, m: int)
    requires forall i :: 0 <= i < |s| ==> 0 <= s[i] <= m
    ensures 0 <= Sum(s) <= |s| * m
    decreases |s|
  {
    if s != [] {
      SumRange(s[..|s| - 1], m);
    }
  }

  /** A non-empty sequence of at most three values in `0..=m` whose last is `m` sums to between `m` and `3 * m`. */
  lemma SumBetween(s: seq<int>, m: int)
    requires 0 < |s| <= 3 && s[|s| - 1] == m
    requires forall i :: 0 <= i < |s| ==> 0 <= s[i] <= m
    ensures m <= Sum(s) <= 3 * m
  {
    SumRange(s[..|s| - 1], m);
    assert (|s| - 1) * m <= 2 * m;
  }
}
