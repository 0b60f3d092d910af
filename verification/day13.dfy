/**
 * Day 13, the driver (`days/13/src/main.rs`): reading the pairs of packets,
 * summing the positions of the pairs that are in order, and locating the two
 * divider packets in the sorted list of all packets.
 */
module Day13 {
  import opened Util
  import opened Text
  import opened Sorting
  import opened Packet

  /** The two packets of one block of the input. */
  datatype Pair = Pair(left: Packet, right: Packet)

  // ---------------------------------------------------------------------------
  // Reading the input

  /** One block: its first line and its second line, each parsed as a packet.
      `None` is a panic of `unwrap`: a first line that does not parse, a
      missing second line or a second line that does not parse, checked in
      that order. Lines after the second are ignored. */
  function ParseBlock(block: string): Option<Pair>
  {
    var lines := Split(block, "\n");
    match Parse(lines[0])
    case Err(_) => None
    case Ok(a) =>
      if |lines| < 2 then None
      else
        match Parse(lines[1])
        case Ok(b) => Some(Pair(a, b))
        case Err(_) => None
  }

  /** `parse_input`: the text split at blank lines, one pair per block. */
  function ParseInput(input: string): Option<seq<Pair>>
  {
    CollectAll(Split(input, "\n\n"), ParseBlock)
  }

  /** A pair as it is written in the input: two lines. */
  function ShowPair(p: Pair): string
  {
    Show(p.left) + "\n" + Show(p.right)
  }

  /** The pairs written as an input text: blocks separated by blank lines. */
  function Render(pairs: seq<Pair>): string
  {
    Join(Blocks(pairs), "\n\n")
  }

  function Blocks(pairs: seq<Pair>): (r: seq<string>)
    ensures |r| == |pairs|
  {
    seq(|pairs|, i requires 0 <= i < |pairs| => ShowPair(pairs[i]))
  }

  /** Both packets of a pair are lists, as every line of the input is. */
  predicate ListPair(p: Pair)
  {
    p.left.List? && p.right.List?
  }

  lemma ShowLacksNewline(p: Packet)
    ensures Lacks(Show(p), '\n') && |Show(p)| > 0
  {
    ShowAllowed(p);
  }

  /** A pair printed as two lines can stand between blank-line separators. */
  lemma ShowPairSeparable(p: Pair)
    ensures Separable(ShowPair(p), '\n')
  {
    ShowLacksNewline(p.left);
    ShowLacksNewline(p.right);
    var a, b := Show(p.left), Show(p.right);
    var s := ShowPair(p);
    forall i | 0 <= i < |s| - 1
      ensures !(s[i] == '\n' && s[i + 1] == '\n')
    {
      if i < |a| {
        assert s[i] == a[i];
      } else {
        assert s[i + 1] == b[i - |a|];
      }
    }
    assert s[|s| - 1] == b[|b| - 1];
  }

  /** Splitting text that starts with a line without a newline. */
  lemma SplitFirstLine(a: string, rest: string)
    requires Lacks(a, '\n')
    ensures Split(a + "\n" + rest, "\n") == [a] + Split(rest, "\n")
  {
    forall i | 0 <= i < |a|
      ensures !OccursAt(a + "\n" + rest, "\n", i)
    {
      assert (a + "\n" + rest)[i..i + 1] == [a[i]];
    }
    SplitAfterPiece(a, "\n", rest);
  }

  /** A block holding two printed list packets reads back as that pair,
      whatever follows the second line. */
  lemma ParseBlockShown(p: Pair, rest: string)
    requires ListPair(p)
    requires rest == [] || rest[0] == '\n'
    ensures ParseBlock(ShowPair(p) + rest) == Some(p)
  {
    var lines := Split(ShowPair(p) + rest, "\n");
    ShownLines(p, rest);
    ParseShow(p.left.items);
    ParseShow(p.right.items);
    assert Parse(lines[0]) == Ok(p.left);
    assert Parse(lines[1]) == Ok(p.right);
  }

  /** The first two lines of a printed pair are its two packets. */
  lemma ShownLines(p: Pair, rest: string)
    requires rest == [] || rest[0] == '\n'
    ensures var lines := Split(ShowPair(p) + rest, "\n");
      |lines| >= 2 && lines[0] == Show(p.left) && lines[1] == Show(p.right)
  {
    var a, b := Show(p.left), Show(p.right);
    ShowLacksNewline(p.left);
    ShowLacksNewline(p.right);
    assert ShowPair(p) + rest == a + "\n" + (b + rest);
    SplitFirstLine(a, b + rest);
    if rest == [] {
      assert b + rest == b;
      SplitJoinLacking([b], "\n");
    } else {
      assert b + rest == b + "\n" + rest[1..];
      SplitFirstLine(b, rest[1..]);
    }
  }

  /** Printing pairs of list packets as the puzzle input and reading the text
      back gives the same pairs, with or without a final newline. */
  lemma ParseInputRender(pairs: seq<Pair>)
    requires |pairs| > 0
    requires forall i :: 0 <= i < |pairs| ==> ListPair(pairs[i])
    ensures ParseInput(Render(pairs)) == Some(pairs)
    ensures ParseInput(Render(pairs) + "\n") == Some(pairs)
  {
    ParseRenderPlain(pairs);
    ParseRenderNewline(pairs);
  }

  lemma ParseRenderPlain(pairs: seq<Pair>)
    requires |pairs| > 0
    requires forall i :: 0 <= i < |pairs| ==> ListPair(pairs[i])
    ensures ParseInput(Render(pairs)) == Some(pairs)
  {
    var blocks := Blocks(pairs);
    var n := |pairs|;
    forall k | 0 <= k < n
      ensures Separable(blocks[k], '\n')
    {
      ShowPairSeparable(pairs[k]);
    }
    SplitJoinDoubled(blocks, '\n');
    forall k | 0 <= k < n
      ensures ParseBlock(blocks[k]) == Some(pairs[k])
    {
      ParseBlockShown(pairs[k], []);
      assert ShowPair(pairs[k]) + [] == blocks[k];
    }
    CollectAllImages(blocks, ParseBlock, pairs);
  }

  lemma ParseRenderNewline(pairs: seq<Pair>)
    requires |pairs| > 0
    requires forall i :: 0 <= i < |pairs| ==> ListPair(pairs[i])
    ensures ParseInput(Render(pairs) + "\n") == Some(pairs)
  {
    var blocks := Blocks(pairs);
    var n := |pairs|;
    forall k | 0 <= k < n
      ensures Separable(blocks[k], '\n')
    {
      ShowPairSeparable(pairs[k]);
    }
    var last := blocks[n - 1] + "\n";
    var blocks' := blocks[..n - 1] + [last];
    JoinAppendLast(blocks, "\n\n", "\n");
    forall i | 0 <= i < |last| - 1
      ensures !(last[i] == '\n' && last[i + 1] == '\n')
    {
      if i + 1 < |blocks[n - 1]| {
        assert last[i] == blocks[n - 1][i] && last[i + 1] == blocks[n - 1][i + 1];
      }
    }
    SplitJoinDoubled(blocks', '\n');
    forall k | 0 <= k < n
      ensures ParseBlock(blocks'[k]) == Some(pairs[k])
    {
      if k < n - 1 {
        ParseBlockShown(pairs[k], []);
        assert ShowPair(pairs[k]) + [] == blocks'[k];
      } else {
        ParseBlockShown(pairs[k], "\n");
      }
    }
    CollectAllImages(blocks', ParseBlock, pairs);
  }

  /** An empty input has one empty block, whose first line is empty and does
      not parse as a packet: the program panics before it asks for a second
      line. */
  lemma ParseInputEmpty()
    ensures Split("", "\n") == [""] && Parse("").Err?
    ensures ParseInput("") == None
  {
  }

  // ---------------------------------------------------------------------------
  // Problem 1

  /** 1 + 2 + ... + n. */
  function Triangle(n: nat): nat
  {
    if n == 0 then 0 else Triangle(n - 1) + n
  }

  /** The sum of the 1-based positions of the pairs whose packets compare as `o`. */
  function IndexSumWhere(pairs: seq<Pair>, o: Ordering): (r: nat)
    ensures r <= Triangle(|pairs|)
  {
    if pairs == [] then 0
    else
      var last := pairs[|pairs| - 1];
      IndexSumWhere(pairs[..|pairs| - 1], o) + (if Cmp(last.left, last.right) == o then |pairs| else 0)
  }

  /** `problem_1`: the sum of the 1-based positions of the pairs in the right order. */
  function Problem1(pairs: seq<Pair>): nat
  {
    IndexSumWhere(pairs, Less)
  }

  /** Every position is counted under exactly one outcome of the comparison. */
  lemma {:induction false} IndexSumsPartition(pairs: seq<Pair>)
    ensures IndexSumWhere(pairs, Less) + IndexSumWhere(pairs, Equal) + IndexSumWhere(pairs, Greater)
      == Triangle(|pairs|)
    decreases |pairs|
  {
    if pairs != [] {
      IndexSumsPartition(pairs[..|pairs| - 1]);
    }
  }

  /** Each pair with its two packets exchanged. */
  function Swapped(pairs: seq<Pair>): (r: seq<Pair>)
    ensures |r| == |pairs|
  {
    seq(|pairs|, i requires 0 <= i < |pairs| => Pair(pairs[i].right, pairs[i].left))
  }

  /** Exchanging the packets of every pair turns the pairs that were out of
      order into exactly the pairs that are in order. */
  lemma {:induction false} Problem1Swapped(pairs: seq<Pair>)
    ensures Problem1(Swapped(pairs)) == IndexSumWhere(pairs, Greater)
    ensures Problem1(pairs) + Problem1(Swapped(pairs)) + IndexSumWhere(pairs, Equal) == Triangle(|pairs|)
    decreases |pairs|
  {
    IndexSumsPartition(pairs);
    if pairs != [] {
      var n := |pairs|;
      Problem1Swapped(pairs[..n - 1]);
      assert Swapped(pairs)[..n - 1] == Swapped(pairs[..n - 1]);
      CmpAntisymmetric(pairs[n - 1].left, pairs[n - 1].right);
    }
  }

  // ---------------------------------------------------------------------------
  // Problem 2

  const Divider1: Packet := List([List([Num(2)])])
  const Divider2: Packet := List([List([Num(6)])])

  /** The divider texts parse to the divider packets, and the first divider
      sorts before the second. */
  lemma Dividers()
    ensures Parse("[[2]]") == Ok(Divider1)
    ensures Parse("[[6]]") == Ok(Divider2)
    ensures Cmp(Divider1, Divider2) == Less
  {
    ParseShow(Divider1.items);
    ParseShow(Divider2.items);
    assert NatToString(2) == "2" && NatToString(6) == "6";
    assert Show(Divider1) == "[[2]]";
    assert Show(Divider2) == "[[6]]";
    assert Cmp(Num(2), Num(6)) == Less;
    assert CmpLists([Num(2)], [Num(6)]) == Less;
    assert Cmp(List([Num(2)]), List([Num(6)])) == Less;
    assert CmpLists([List([Num(2)])], [List([Num(6)])]) == Less;
  }

  /** The packets of all pairs, in input order (`flat_map`). */
  function Flatten(pairs: seq<Pair>): (r: seq<Packet>)
    ensures |r| == 2 * |pairs|
    ensures forall i :: 0 <= i < |pairs| ==> r[2 * i] == pairs[i].left && r[2 * i + 1] == pairs[i].right
  {
    if pairs == [] then []
    else [pairs[0].left, pairs[0].right] + Flatten(pairs[1..])
  }

  /** `binary_search` on `s[lo..hi]`: the position of some element that
      compares Equal to `x`, or `Err` with a position inside the range. */
  function SearchIn(s: seq<Packet>, x: Packet, lo: nat, hi: nat): (r: Result<nat, nat>)
    requires lo <= hi <= |s|
    ensures r.Ok? ==> lo <= r.value < hi && Cmp(s[r.value], x) == Equal
    ensures r.Err? ==> lo <= r.error <= hi
    decreases hi - lo
  {
    if lo == hi then Err(lo)
    else
      var mid := lo + (hi - lo) / 2;
      match Cmp(s[mid], x)
      case Equal => Ok(mid)
      case Less => SearchIn(s, x, mid + 1, hi)
      case Greater => SearchIn(s, x, lo, mid)
  }

  function BinarySearch(s: seq<Packet>, x: Packet): (r: Result<nat, nat>)
    ensures r.Ok? ==> r.value < |s| && Cmp(s[r.value], x) == Equal
    ensures r.Err? ==> r.error <= |s|
  {
    SearchIn(s, x, 0, |s|)
  }

  /** A miss lies just after the last element the search saw compare Less
      and just before the last one it saw compare Greater. */
  lemma {:induction false} SearchInMisses(s: seq<Packet>, x: Packet, lo: nat, hi: nat, e: nat)
    requires lo <= hi <= |s|
    requires 0 < lo ==> Cmp(s[lo - 1], x) == Less
    requires hi < |s| ==> Cmp(s[hi], x) == Greater
    requires SearchIn(s, x, lo, hi) == Err(e)
    ensures e <= |s|
    ensures 0 < e ==> Cmp(s[e - 1], x) == Less
    ensures e < |s| ==> Cmp(s[e], x) == Greater
    decreases hi - lo
  {
    if lo < hi {
      var mid := lo + (hi - lo) / 2;
      match Cmp(s[mid], x)
      case Less =>
        var next: nat := mid + 1;
        assert SearchIn(s, x, next, hi) == Err(e);
        SearchInMisses(s, x, next, hi, e);
      case Greater =>
        assert SearchIn(s, x, lo, mid) == Err(e);
        SearchInMisses(s, x, lo, mid, e);
    }
  }

  /** In a sorted sequence everything up to an element Less than `x` is Less. */
  lemma LessBefore(s: seq<Packet>, x: Packet, m: nat)
    requires SortedBy(s, InOrder)
    requires m < |s| && Cmp(s[m], x) == Less
    ensures forall j :: 0 <= j <= m ==> Cmp(s[j], x) == Less
  {
    forall j | 0 <= j < m
      ensures Cmp(s[j], x) == Less
    {
      CmpTransitive(s[j], s[m], x);
    }
  }

  /** In a sorted sequence everything from an element Greater than `x` on is Greater. */
  lemma GreaterAfter(s: seq<Packet>, x: Packet, m: nat)
    requires SortedBy(s, InOrder)
    requires m < |s| && Cmp(s[m], x) == Greater
    ensures forall j :: m <= j < |s| ==> Cmp(s[j], x) == Greater
  {
    forall j | m < j < |s|
      ensures Cmp(s[j], x) == Greater
    {
      CmpAntisymmetric(s[m], x);
      CmpAntisymmetric(s[j], x);
      CmpTransitive(x, s[m], s[j]);
    }
  }

  /** `binary_search` on a sorted sequence: `Err` is the insertion point.
      Every element before it compares Less than `x`, and every element from
      it on Greater. */
  lemma BinarySearchMisses(s: seq<Packet>, x: Packet)
    requires SortedBy(s, InOrder)
    ensures BinarySearch(s, x).Err? ==>
      var e := BinarySearch(s, x).error;
      && (forall j :: 0 <= j < e ==> Cmp(s[j], x) == Less)
      && (forall j :: e <= j < |s| ==> Cmp(s[j], x) == Greater)
  {
    if BinarySearch(s, x).Err? {
      var e := BinarySearch(s, x).error;
      SearchInMisses(s, x, 0, |s|, e);
      if 0 < e {
        LessBefore(s, x, e - 1);
      }
      if e < |s| {
        GreaterAfter(s, x, e);
      }
    }
  }

  /** In a sorted sequence the search finds an Equal element whenever one exists. */
  lemma {:induction false} SearchInFinds(s: seq<Packet>, x: Packet, lo: nat, hi: nat, k: nat)
    requires SortedBy(s, InOrder)
    requires lo <= k < hi <= |s| && Cmp(s[k], x) == Equal
    ensures SearchIn(s, x, lo, hi).Ok?
    decreases hi - lo
  {
    var mid := lo + (hi - lo) / 2;
    match Cmp(s[mid], x)
    case Equal =>
    case Less =>
      if k < mid {
        CmpTransitive(s[k], s[mid], x);
      }
      SearchInFinds(s, x, mid + 1, hi, k);
    case Greater =>
      if k > mid {
        CmpAntisymmetric(s[mid], x);
        CmpAntisymmetric(s[k], x);
        CmpTransitive(x, s[mid], s[k]);
      }
      SearchInFinds(s, x, lo, mid, k);
  }

  /** The packets that compare Less than `x`. */
  function Below(x: Packet): Packet -> bool
  {
    y => Cmp(y, x) == Less
  }

  /** The packets that compare Equal to `x`. */
  function Level(x: Packet): Packet -> bool
  {
    y => Cmp(y, x) == Equal
  }

  /** In a sorted sequence, a position holding an element Equal to `x` lies
      after every element Less than `x` and within the run of Equal ones. */
  lemma PositionOfEqual(s: seq<Packet>, x: Packet, i: nat)
    requires SortedBy(s, InOrder)
    requires i < |s| && Cmp(s[i], x) == Equal
    ensures CountWhere(s, Below(x)) <= i < CountWhere(s, Below(x)) + CountWhere(s, Level(x))
  {
    var pre, post := s[..i], s[i..];
    assert s == pre + post;
    CountWhereAppend(pre, post, Below(x));
    CountWhereAppend(pre, post, Level(x));
    forall j | 0 <= j < |pre|
      ensures Below(x)(pre[j]) != Level(x)(pre[j])
    {
      CmpTransitive(s[j], s[i], x);
    }
    CountWhereCover(pre, Below(x), Level(x));
    forall j | 0 <= j < |post|
      ensures !Below(x)(post[j])
    {
      if j > 0 {
        CmpAntisymmetric(s[i], x);
        CmpAntisymmetric(s[i + j], x);
        CmpTransitive(x, s[i], s[i + j]);
      }
    }
    CountWhereNone(post, Below(x));
    assert post[0] == s[i];
  }

  /** Where exactly one of two properties holds of every element, their
      counts add up to the length. */
  lemma {:induction false} CountWhereCover(t: seq<Packet>, p: Packet -> bool, q: Packet -> bool)
    requires forall j :: 0 <= j < |t| ==> p(t[j]) != q(t[j])
    ensures CountWhere(t, p) + CountWhere(t, q) == |t|
    decreases |t|
  {
    if t != [] {
      assert p(t[0]) != q(t[0]);
      CountWhereCover(t[1..], p, q);
    }
  }

  lemma {:induction false} CountWhereNone(t: seq<Packet>, p: Packet -> bool)
    requires forall j :: 0 <= j < |t| ==> !p(t[j])
    ensures CountWhere(t, p) == 0
    decreases |t|
  {
    if t != [] {
      assert !p(t[0]);
      CountWhereNone(t[1..], p);
    }
  }

  /** How the dividers change the counts: among the sorted packets, the first
      divider adds one packet Equal to itself, and the second adds one Equal
      to itself and one (the first divider) below it. */
  lemma DividerCounts(flat: seq<Packet>)
    ensures CountWhere(SortBy(flat + [Divider1] + [Divider2], InOrder), Below(Divider1)) == CountWhere(flat, Below(Divider1))
    ensures CountWhere(SortBy(flat + [Divider1] + [Divider2], InOrder), Level(Divider1)) == CountWhere(flat, Level(Divider1)) + 1
    ensures CountWhere(SortBy(flat + [Divider1] + [Divider2], InOrder), Below(Divider2)) == CountWhere(flat, Below(Divider2)) + 1
    ensures CountWhere(SortBy(flat + [Divider1] + [Divider2], InOrder), Level(Divider2)) == CountWhere(flat, Level(Divider2)) + 1
  {
    var all := flat + [Divider1] + [Divider2];
    var ds := [Divider1, Divider2];
    assert flat + [Divider1] + [Divider2] == flat + ds;
    Dividers();
    CmpReflexive(Divider1);
    CmpReflexive(Divider2);
    CmpAntisymmetric(Divider1, Divider2);
    assert ds[1..] == [Divider2] && [Divider2][1..] == [];
    CountWhereAppend(flat, ds, Below(Divider1));
    CountWhereAppend(flat, ds, Level(Divider1));
    CountWhereAppend(flat, ds, Below(Divider2));
    CountWhereAppend(flat, ds, Level(Divider2));
    CountWhereSort(all, InOrder, Below(Divider1));
    CountWhereSort(all, InOrder, Level(Divider1));
    CountWhereSort(all, InOrder, Below(Divider2));
    CountWhereSort(all, InOrder, Level(Divider2));
  }

  /** A packet that occurs in a sorted sequence is found by the search. */
  lemma SearchFindsMember(s: seq<Packet>, x: Packet)
    requires SortedBy(s, InOrder) && x in s
    ensures BinarySearch(s, x).Ok?
  {
    var k :| 0 <= k < |s| && s[k] == x;
    CmpReflexive(x);
    SearchInFinds(s, x, 0, |s|, k);
  }

  function Product(a: nat, b: nat): nat
  {
    a * b
  }

  /** `problem_2`. Collects every packet plus the two dividers, sorts them,
      searches each divider and multiplies the 1-based positions found. The
      search may land on any packet Equal to a divider; when no input packet
      is Equal to either, the positions are fixed by how many input packets
      sort below each divider. */
  method Problem2(pairs: seq<Pair>) returns (sorted: seq<Packet>, idx1: nat, idx2: nat, answer: nat)
    ensures multiset(sorted) == multiset(Flatten(pairs) + [Divider1] + [Divider2])
    ensures SortedBy(sorted, InOrder)
    ensures 1 <= idx1 <= |sorted| && Cmp(sorted[idx1 - 1], Divider1) == Equal
    ensures 1 <= idx2 <= |sorted| && Cmp(sorted[idx2 - 1], Divider2) == Equal
    ensures answer == Product(idx1, idx2)
    ensures CountWhere(Flatten(pairs), Below(Divider1)) < idx1
      <= CountWhere(Flatten(pairs), Below(Divider1)) + CountWhere(Flatten(pairs), Level(Divider1)) + 1
    ensures CountWhere(Flatten(pairs), Below(Divider2)) + 1 < idx2
      <= CountWhere(Flatten(pairs), Below(Divider2)) + CountWhere(Flatten(pairs), Level(Divider2)) + 2
  {
    var div1, div2 := ParseDividers();

    var all := Flatten(pairs);
    all := all + [div1];
    all := all + [div2];
    sorted := SortBy(all, InOrder);
    SortPacketsSorted(all);

    assert all[|all| - 2] == div1 && all[|all| - 1] == div2;
    assert div1 in multiset(all) && div2 in multiset(all);
    assert div1 in multiset(sorted) && div2 in multiset(sorted);
    SearchFindsMember(sorted, div1);
    SearchFindsMember(sorted, div2);
    var r1 := BinarySearch(sorted, div1);
    var r2 := BinarySearch(sorted, div2);
    idx1 := r1.value + 1;
    idx2 := r2.value + 1;
    answer := Product(idx1, idx2);

    DividerPositions(Flatten(pairs), sorted, r1.value, r2.value);
  }

  /** `sort` on packets gives a permutation in non-decreasing `cmp` order. */
  lemma SortPacketsSorted(all: seq<Packet>)
    ensures SortedBy(SortBy(all, InOrder), InOrder)
    ensures multiset(SortBy(all, InOrder)) == multiset(all)
  {
    InOrderTotalPreorder();
    SortBySorted(all, InOrder);
  }

  /** The two `from_str(..).unwrap()` calls on the divider texts. */
  method ParseDividers() returns (div1: Packet, div2: Packet)
    ensures div1 == Divider1 && div2 == Divider2
  {
    Dividers();
    var d1 := FromStr("[[2]]");
    var d2 := FromStr("[[6]]");
    div1 := d1.value;
    div2 := d2.value;
  }

  /** Where the searches can land among the sorted packets and dividers. */
  lemma DividerPositions(flat: seq<Packet>, sorted: seq<Packet>, i1: nat, i2: nat)
    requires sorted == SortBy(flat + [Divider1] + [Divider2], InOrder)
    requires SortedBy(sorted, InOrder)
    requires i1 < |sorted| && Cmp(sorted[i1], Divider1) == Equal
    requires i2 < |sorted| && Cmp(sorted[i2], Divider2) == Equal
    ensures CountWhere(flat, Below(Divider1)) <= i1 < CountWhere(flat, Below(Divider1)) + CountWhere(flat, Level(Divider1)) + 1
    ensures CountWhere(flat, Below(Divider2)) + 1 <= i2 < CountWhere(flat, Below(Divider2)) + CountWhere(flat, Level(Divider2)) + 2
  {
    DividerCounts(flat);
    PositionOfEqual(sorted, Divider1, i1);
    PositionOfEqual(sorted, Divider2, i2);
  }

  /** When no input packet compares Equal to a divider, the answer does not
      depend on the search: it is the product of one plus the number of
      packets below the first divider and two plus the number below the
      second. */
  lemma Problem2WithoutTies(pairs: seq<Pair>, idx1: nat, idx2: nat)
    requires CountWhere(Flatten(pairs), Level(Divider1)) == 0 && CountWhere(Flatten(pairs), Level(Divider2)) == 0
    requires CountWhere(Flatten(pairs), Below(Divider1)) < idx1
      <= CountWhere(Flatten(pairs), Below(Divider1)) + CountWhere(Flatten(pairs), Level(Divider1)) + 1
    requires CountWhere(Flatten(pairs), Below(Divider2)) + 1 < idx2
      <= CountWhere(Flatten(pairs), Below(Divider2)) + CountWhere(Flatten(pairs), Level(Divider2)) + 2
    ensures Product(idx1, idx2)
      == (CountWhere(Flatten(pairs), Below(Divider1)) + 1) * (CountWhere(Flatten(pairs), Below(Divider2)) + 2)
  {
  }
}
