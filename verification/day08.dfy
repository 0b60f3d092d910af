/**
 * Day 8: a forest of tree heights.
 *
 * Problem 1 scans every row from both ends and every column from both
 * ends, marking each tree strictly taller than every tree before it in
 * the scan; the answer is the number of marked trees. Problem 2 counts,
 * from each tree in each of the four directions, the trees up to and
 * including the first one at least as tall; a tree's score is the product
 * of its four counts, and the answer is the largest score.
 */
module Day08 {
  import opened Util
  import opened Sorting

  // Reading the forest.

  /** `(b - b'0') as i8`: `None` below '0', where the `u8` subtraction overflows. */
  function TreeHeight(b: Byte): (r: Option<int>)
    ensures r.Some? <==> b >= 48
    ensures 48 <= b <= 57 ==> r == Some(b as int - 48)
    ensures r.Some? ==> -128 <= r.value <= 127
  {
    if b < 48 then None
    else
      var v := b as int - 48;
      Some(if v > 127 then v - 256 else v)
  }

  /** `parse_input` over the lines' bytes. */
  function ParseInput(lines: seq<seq<Byte>>): Option<seq<seq<int>>>
  {
    CollectAll(lines, (line: seq<Byte>) => CollectAll(line, TreeHeight))
  }

  /** A row of digits reads as their values. */
  lemma ParseDigits(lines: seq<seq<Byte>>)
    requires forall r, c :: 0 <= r < |lines| && 0 <= c < |lines[r]| ==> 48 <= lines[r][c] <= 57
    ensures ParseInput(lines).Some?
    ensures forall r, c :: 0 <= r < |lines| && 0 <= c < |lines[r]| ==>
      |ParseInput(lines).value[r]| == |lines[r]| && ParseInput(lines).value[r][c] == lines[r][c] as int - 48
  {
    var rowOf := (line: seq<Byte>) => CollectAll(line, TreeHeight);
    forall r | 0 <= r < |lines|
      ensures rowOf(lines[r]).Some?
    {
      assert forall c :: 0 <= c < |lines[r]| ==> TreeHeight(lines[r][c]).Some?;
    }
  }

  /**
   * No row is shorter than the first. The program takes its column count
   * from `forest[0]` and indexes every row up to it, so a shorter row
   * panics and the columns of a longer row beyond it are never read.
   */
  predicate LongRows(f: seq<seq<int>>)
  {
    forall r :: 0 < r < |f| ==> |f[r]| >= |f[0]|
  }

  /** A forest both problems run on without a panic at `forest[0]` or a row index. */
  predicate Grid(f: seq<seq<int>>)
  {
    |f| > 0 && LongRows(f)
  }

  /** Longer rows are run on, shorter ones and a forest without rows panic. */
  lemma GridExamples()
    ensures Grid([[1, 2], [3, 4, 5]])
    ensures !Grid([[1, 2], [3]]) && !Grid([])
  {
    assert |[[1, 2], [3]][1]| < |[[1, 2], [3]][0]|;
  }

  predicate InGrid(f: seq<seq<int>>, r: int, c: int)
    requires Grid(f)
  {
    0 <= r < |f| && 0 <= c < |f[0]|
  }

  // Scans in a straight line.

  datatype Direction = Up | Down | Left | Right

  /** The position `k` steps from (r0, c0). */
  function Pos(r0: int, c0: int, d: Direction, k: nat): (int, int)
  {
    match d
    case Up => (r0 - k, c0)
    case Down => (r0 + k, c0)
    case Left => (r0, c0 - k)
    case Right => (r0, c0 + k)
  }

  /** How many positions of a scan from (r0, c0) lie in the forest: the distance to the far edge. */
  function ScanLength(f: seq<seq<int>>, r0: int, c0: int, d: Direction): nat
    requires Grid(f)
  {
    if !InGrid(f, r0, c0) then 0
    else
      match d
      case Up => r0 + 1
      case Down => |f| - r0
      case Left => c0 + 1
      case Right => |f[0]| - c0
  }

  /** A scan stays in the forest exactly for its first `ScanLength` steps. */
  lemma ScanInGrid(f: seq<seq<int>>, r0: int, c0: int, d: Direction, k: nat)
    requires Grid(f) && k <= ScanLength(f, r0, c0, d)
    ensures InGrid(f, Pos(r0, c0, d, k).0, Pos(r0, c0, d, k).1) <==> k < ScanLength(f, r0, c0, d)
  {
  }

  function HeightAt(f: seq<seq<int>>, r0: int, c0: int, d: Direction, k: nat): int
    requires Grid(f) && k < ScanLength(f, r0, c0, d)
  {
    ScanInGrid(f, r0, c0, d, k);
    var p := Pos(r0, c0, d, k);
    f[p.0][p.1]
  }

  /** `prev` after `k` steps: the tallest tree so far, or -1. */
  function Tallest(f: seq<seq<int>>, r0: int, c0: int, d: Direction, k: nat): int
    requires Grid(f) && k <= ScanLength(f, r0, c0, d)
  {
    if k == 0 then -1 else Max(Tallest(f, r0, c0, d, k - 1), HeightAt(f, r0, c0, d, k - 1))
  }

  /** The trees marked in the first `k` steps. */
  function Seen(f: seq<seq<int>>, r0: int, c0: int, d: Direction, k: nat): set<(int, int)>
    requires Grid(f) && k <= ScanLength(f, r0, c0, d)
  {
    if k == 0 then {}
    else
      Seen(f, r0, c0, d, k - 1)
      + (if HeightAt(f, r0, c0, d, k - 1) > Tallest(f, r0, c0, d, k - 1) then {Pos(r0, c0, d, k - 1)} else {})
  }

  /** `add_visible`: one scan, inserting into `visible`. */
  method AddVisible(f: seq<seq<int>>, visible: set<(int, int)>, row: int, col: int, d: Direction) returns (visible': set<(int, int)>)
    requires Grid(f)
    ensures visible' == visible + Seen(f, row, col, d, ScanLength(f, row, col, d))
  {
    visible' := visible;
    var prev := -1;
    var r, c := row, col;
    ghost var k: nat := 0;
    while 0 <= r < |f| && 0 <= c < |f[0]|
      invariant k <= ScanLength(f, row, col, d) && (r, c) == Pos(row, col, d, k)
      invariant prev == Tallest(f, row, col, d, k)
      invariant visible' == visible + Seen(f, row, col, d, k)
      decreases ScanLength(f, row, col, d) - k
    {
      ScanInGrid(f, row, col, d, k);
      var tree := f[r][c];
      if prev < tree {
        visible' := visible' + {(r, c)};
        prev := tree;
      }
      match d {
        case Up => r := r - 1;
        case Down => r := r + 1;
        case Left => c := c - 1;
        case Right => c := c + 1;
      }
      k := k + 1;
    }
    ScanInGrid(f, row, col, d, k);
  }

  /** A tree is marked when it is taller than -1 and strictly taller than every tree before it. */
  predicate Marked(f: seq<seq<int>>, r0: int, c0: int, d: Direction, k: nat)
    requires Grid(f) && k < ScanLength(f, r0, c0, d)
  {
    HeightAt(f, r0, c0, d, k) > -1 && forall i :: 0 <= i < k ==> HeightAt(f, r0, c0, d, i) < HeightAt(f, r0, c0, d, k)
  }

  lemma {:induction false} TallestBelow(f: seq<seq<int>>, r0: int, c0: int, d: Direction, k: nat, h: int)
    requires Grid(f) && k <= ScanLength(f, r0, c0, d)
    ensures h > Tallest(f, r0, c0, d, k) <==> h > -1 && forall i :: 0 <= i < k ==> HeightAt(f, r0, c0, d, i) < h
  {
    if k > 0 {
      TallestBelow(f, r0, c0, d, k - 1, h);
    }
  }

  /** The number of steps from (r0, c0) to `p`, when `p` is on the scan's line. */
  function StepOf(r0: int, c0: int, d: Direction, p: (int, int)): int
  {
    match d
    case Up => r0 - p.0
    case Down => p.0 - r0
    case Left => c0 - p.1
    case Right => p.1 - c0
  }

  predicate OnScan(r0: int, c0: int, d: Direction, p: (int, int))
  {
    StepOf(r0, c0, d, p) >= 0 && Pos(r0, c0, d, StepOf(r0, c0, d, p)) == p
  }

  /** A scan marks exactly the trees on its line that are taller than all before them. */
  lemma {:induction false} SeenExactly(f: seq<seq<int>>, r0: int, c0: int, d: Direction, k: nat, p: (int, int))
    requires Grid(f) && k <= ScanLength(f, r0, c0, d)
    ensures p in Seen(f, r0, c0, d, k) <==>
      OnScan(r0, c0, d, p) && StepOf(r0, c0, d, p) < k && Marked(f, r0, c0, d, StepOf(r0, c0, d, p))
  {
    if k > 0 {
      SeenExactly(f, r0, c0, d, k - 1, p);
      TallestBelow(f, r0, c0, d, k - 1, HeightAt(f, r0, c0, d, k - 1));
      var q := Pos(r0, c0, d, k - 1);
      assert StepOf(r0, c0, d, q) == k - 1;
      assert OnScan(r0, c0, d, p) && StepOf(r0, c0, d, p) == k - 1 ==> p == q;
    }
  }

  // What the four scans find.

  predicate ClearLeft(f: seq<seq<int>>, r: int, c: int)
    requires Grid(f) && InGrid(f, r, c)
  {
    forall j :: 0 <= j < c ==> f[r][j] < f[r][c]
  }

  predicate ClearRight(f: seq<seq<int>>, r: int, c: int)
    requires Grid(f) && InGrid(f, r, c)
  {
    forall j :: c < j < |f[0]| ==> f[r][j] < f[r][c]
  }

  predicate ClearAbove(f: seq<seq<int>>, r: int, c: int)
    requires Grid(f) && InGrid(f, r, c)
  {
    forall i :: 0 <= i < r ==> f[i][c] < f[r][c]
  }

  predicate ClearBelow(f: seq<seq<int>>, r: int, c: int)
    requires Grid(f) && InGrid(f, r, c)
  {
    forall i :: r < i < |f| ==> f[i][c] < f[r][c]
  }

  /** A tree is visible when all trees between it and some edge are strictly shorter. */
  predicate Visible(f: seq<seq<int>>, p: (int, int))
    requires Grid(f)
  {
    InGrid(f, p.0, p.1) && f[p.0][p.1] >= 0 &&
    (ClearLeft(f, p.0, p.1) || ClearRight(f, p.0, p.1) || ClearAbove(f, p.0, p.1) || ClearBelow(f, p.0, p.1))
  }

  lemma ScanRight(f: seq<seq<int>>, r: int, p: (int, int))
    requires Grid(f) && 0 <= r < |f|
    ensures p in Seen(f, r, 0, Right, ScanLength(f, r, 0, Right)) <==>
      p.0 == r && InGrid(f, p.0, p.1) && f[p.0][p.1] >= 0 && ClearLeft(f, p.0, p.1)
  {
    var n := ScanLength(f, r, 0, Right);
    SeenExactly(f, r, 0, Right, n, p);
    if p.0 == r && 0 <= p.1 < n {
      var k := p.1;
      forall i | 0 <= i <= k
        ensures HeightAt(f, r, 0, Right, i) == f[r][i]
      {
      }
    }
  }

  lemma ScanLeft(f: seq<seq<int>>, r: int, p: (int, int))
    requires Grid(f) && 0 <= r < |f|
    ensures p in Seen(f, r, |f[0]| - 1, Left, ScanLength(f, r, |f[0]| - 1, Left)) <==>
      p.0 == r && InGrid(f, p.0, p.1) && f[p.0][p.1] >= 0 && ClearRight(f, p.0, p.1)
  {
    var c0 := |f[0]| - 1;
    var n := ScanLength(f, r, c0, Left);
    SeenExactly(f, r, c0, Left, n, p);
    if p.0 == r && 0 <= p.1 < |f[0]| {
      var k := c0 - p.1;
      forall i | 0 <= i <= k
        ensures HeightAt(f, r, c0, Left, i) == f[r][c0 - i]
      {
      }
      if Marked(f, r, c0, Left, k) {
        forall j | p.1 < j < |f[0]|
          ensures f[r][j] < f[r][p.1]
        {
          assert HeightAt(f, r, c0, Left, c0 - j) < HeightAt(f, r, c0, Left, k);
        }
      }
      if ClearRight(f, p.0, p.1) {
        forall i | 0 <= i < k
          ensures HeightAt(f, r, c0, Left, i) < HeightAt(f, r, c0, Left, k)
        {
          assert p.1 < c0 - i;
        }
      }
    }
  }

  lemma ScanDown(f: seq<seq<int>>, c: int, p: (int, int))
    requires Grid(f) && 0 <= c < |f[0]|
    ensures p in Seen(f, 0, c, Down, ScanLength(f, 0, c, Down)) <==>
      p.1 == c && InGrid(f, p.0, p.1) && f[p.0][p.1] >= 0 && ClearAbove(f, p.0, p.1)
  {
    var n := ScanLength(f, 0, c, Down);
    SeenExactly(f, 0, c, Down, n, p);
    if p.1 == c && 0 <= p.0 < n {
      var k := p.0;
      forall i | 0 <= i <= k
        ensures HeightAt(f, 0, c, Down, i) == f[i][c]
      {
      }
    }
  }

  lemma ScanUp(f: seq<seq<int>>, c: int, p: (int, int))
    requires Grid(f) && 0 <= c < |f[0]|
    ensures p in Seen(f, |f| - 1, c, Up, ScanLength(f, |f| - 1, c, Up)) <==>
      p.1 == c && InGrid(f, p.0, p.1) && f[p.0][p.1] >= 0 && ClearBelow(f, p.0, p.1)
  {
    var r0 := |f| - 1;
    var n := ScanLength(f, r0, c, Up);
    SeenExactly(f, r0, c, Up, n, p);
    if p.1 == c && 0 <= p.0 < |f| {
      var k := r0 - p.0;
      forall i | 0 <= i <= k
        ensures HeightAt(f, r0, c, Up, i) == f[r0 - i][c]
      {
      }
      if Marked(f, r0, c, Up, k) {
        forall i | p.0 < i < |f|
          ensures f[i][c] < f[p.0][c]
        {
          assert HeightAt(f, r0, c, Up, r0 - i) < HeightAt(f, r0, c, Up, k);
        }
      }
      if ClearBelow(f, p.0, p.1) {
        forall i | 0 <= i < k
          ensures HeightAt(f, r0, c, Up, i) < HeightAt(f, r0, c, Up, k)
        {
          assert p.0 < r0 - i;
        }
      }
    }
  }

  /**
   * `problem_1`: after scanning every row from both ends and every column
   * from both ends, the marked trees are exactly the visible ones. The
   * count is `None` where the program panics: a forest without rows, or a
   * row shorter than the first.
   */
  method Problem1(f: seq<seq<int>>) returns (visible: set<(int, int)>, count: Option<nat>)
    ensures count.None? <==> !Grid(f)
    ensures count.Some? ==> (forall p :: p in visible <==> Visible(f, p)) && count.value == |visible|
  {
    visible := {};
    if !Grid(f) {
      return visible, None;
    }
    var rows, cols := |f|, |f[0]|;
    for row := 0 to rows
      invariant RowsDone(f, visible, row)
    {
      ghost var before := visible;
      visible := AddVisible(f, visible, row, 0, Right);
      visible := AddVisible(f, visible, row, cols - 1, Left);
      RowStep(f, before, row);
    }
    RowsAllDone(f, visible);
    for col := 0 to cols
      invariant ColsDone(f, visible, col)
    {
      ghost var before := visible;
      visible := AddVisible(f, visible, 0, col, Down);
      visible := AddVisible(f, visible, rows - 1, col, Up);
      ColStep(f, before, col);
    }
    ColsAllDone(f, visible);
    count := Some(|visible|);
  }

  /** After the first `row` rows are scanned both ways: the trees seen from the left or the right in those rows. */
  ghost predicate RowsDone(f: seq<seq<int>>, visible: set<(int, int)>, row: int)
    requires Grid(f)
  {
    forall p :: p in visible <==>
      InGrid(f, p.0, p.1) && p.0 < row && f[p.0][p.1] >= 0 && (ClearLeft(f, p.0, p.1) || ClearRight(f, p.0, p.1))
  }

  /** After every row and the first `col` columns: also the trees seen from above or below in those columns. */
  ghost predicate ColsDone(f: seq<seq<int>>, visible: set<(int, int)>, col: int)
    requires Grid(f)
  {
    forall p :: p in visible <==>
      InGrid(f, p.0, p.1) && f[p.0][p.1] >= 0 &&
      (ClearLeft(f, p.0, p.1) || ClearRight(f, p.0, p.1) || (p.1 < col && (ClearAbove(f, p.0, p.1) || ClearBelow(f, p.0, p.1))))
  }

  lemma RowStep(f: seq<seq<int>>, visible: set<(int, int)>, row: int)
    requires Grid(f) && 0 <= row < |f| && RowsDone(f, visible, row)
    ensures RowsDone(f, visible + Seen(f, row, 0, Right, ScanLength(f, row, 0, Right))
      + Seen(f, row, |f[0]| - 1, Left, ScanLength(f, row, |f[0]| - 1, Left)), row + 1)
  {
    forall p
      ensures p in Seen(f, row, 0, Right, ScanLength(f, row, 0, Right)) <==>
        p.0 == row && InGrid(f, p.0, p.1) && f[p.0][p.1] >= 0 && ClearLeft(f, p.0, p.1)
      ensures p in Seen(f, row, |f[0]| - 1, Left, ScanLength(f, row, |f[0]| - 1, Left)) <==>
        p.0 == row && InGrid(f, p.0, p.1) && f[p.0][p.1] >= 0 && ClearRight(f, p.0, p.1)
    {
      ScanRight(f, row, p);
      ScanLeft(f, row, p);
    }
  }

  lemma RowsAllDone(f: seq<seq<int>>, visible: set<(int, int)>)
    requires Grid(f) && RowsDone(f, visible, |f|)
    ensures ColsDone(f, visible, 0)
  {
  }

  lemma ColStep(f: seq<seq<int>>, visible: set<(int, int)>, col: int)
    requires Grid(f) && 0 <= col < |f[0]| && ColsDone(f, visible, col)
    ensures ColsDone(f, visible + Seen(f, 0, col, Down, ScanLength(f, 0, col, Down))
      + Seen(f, |f| - 1, col, Up, ScanLength(f, |f| - 1, col, Up)), col + 1)
  {
    forall p
      ensures p in Seen(f, 0, col, Down, ScanLength(f, 0, col, Down)) <==>
        p.1 == col && InGrid(f, p.0, p.1) && f[p.0][p.1] >= 0 && ClearAbove(f, p.0, p.1)
      ensures p in Seen(f, |f| - 1, col, Up, ScanLength(f, |f| - 1, col, Up)) <==>
        p.1 == col && InGrid(f, p.0, p.1) && f[p.0][p.1] >= 0 && ClearBelow(f, p.0, p.1)
    {
      ScanDown(f, col, p);
      ScanUp(f, col, p);
    }
  }

  lemma ColsAllDone(f: seq<seq<int>>, visible: set<(int, int)>)
    requires Grid(f) && ColsDone(f, visible, |f[0]|)
    ensures forall p :: p in visible <==> Visible(f, p)
  {
  }

  /** Every tree on the edge of the forest (of height at least 0) is visible. */
  lemma EdgesVisible(f: seq<seq<int>>, r: int, c: int)
    requires Grid(f) && InGrid(f, r, c) && f[r][c] >= 0
    requires r == 0 || r == |f| - 1 || c == 0 || c == |f[0]| - 1
    ensures Visible(f, (r, c))
  {
  }

  // Problem 2: how far each tree sees.

  /**
   * Where `add_visible_trees` starts looking and which way it walks. Its
   * direction names are the opposite of the scans': its `Up` walks to
   * higher row numbers and its `Left` to higher column numbers.
   */
  function ViewStart(r: int, c: int, d: Direction): (int, int, Direction)
  {
    match d
    case Up => (r + 1, c, Down)
    case Down => (r - 1, c, Up)
    case Left => (r, c + 1, Right)
    case Right => (r, c - 1, Left)
  }

  /** The number of trees between (r, c) and the edge the view runs to. */
  function ViewLength(f: seq<seq<int>>, r: int, c: int, d: Direction): (n: nat)
    requires Grid(f) && InGrid(f, r, c)
    ensures n == match d
      case Up => |f| - 1 - r
      case Down => r
      case Left => |f[0]| - 1 - c
      case Right => c
  {
    var (r0, c0, sd) := ViewStart(r, c, d);
    ScanLength(f, r0, c0, sd)
  }

  /** The trees counted from step `k` of a view on, for a tree of height `orig`. */
  function CountFrom(f: seq<seq<int>>, r0: int, c0: int, d: Direction, orig: int, k: nat): (n: nat)
    requires Grid(f) && k <= ScanLength(f, r0, c0, d)
    ensures n <= ScanLength(f, r0, c0, d) - k
    ensures n == 0 <==> k == ScanLength(f, r0, c0, d)
    decreases ScanLength(f, r0, c0, d) - k
  {
    if k == ScanLength(f, r0, c0, d) then 0
    else if HeightAt(f, r0, c0, d, k) >= orig then 1
    else 1 + CountFrom(f, r0, c0, d, orig, k + 1)
  }

  lemma {:induction false} CountFromStops(f: seq<seq<int>>, r0: int, c0: int, d: Direction, orig: int, k: nat)
    requires Grid(f) && k <= ScanLength(f, r0, c0, d)
    ensures var n := CountFrom(f, r0, c0, d, orig, k);
      && (forall i :: k <= i < k + n - 1 ==> HeightAt(f, r0, c0, d, i) < orig)
      && (0 < n && k + n < ScanLength(f, r0, c0, d) ==> HeightAt(f, r0, c0, d, k + n - 1) >= orig)
    decreases ScanLength(f, r0, c0, d) - k
  {
    if k < ScanLength(f, r0, c0, d) && HeightAt(f, r0, c0, d, k) < orig {
      CountFromStops(f, r0, c0, d, orig, k + 1);
    }
  }

  /** How many trees (r, c) sees in direction `d`; none on that edge. */
  function ViewingDistance(f: seq<seq<int>>, r: int, c: int, d: Direction): (n: nat)
    requires Grid(f) && InGrid(f, r, c)
    ensures n <= ViewLength(f, r, c, d)
    ensures n == 0 <==> ViewLength(f, r, c, d) == 0
  {
    var (r0, c0, sd) := ViewStart(r, c, d);
    CountFrom(f, r0, c0, sd, f[r][c], 0)
  }

  /**
   * The view counts the trees up to and including the first one at least
   * as tall as (r, c), or all of them up to the edge.
   */
  lemma ViewingDistanceStops(f: seq<seq<int>>, r: int, c: int, d: Direction)
    requires Grid(f) && InGrid(f, r, c)
    ensures var n := ViewingDistance(f, r, c, d);
      var (r0, c0, sd) := ViewStart(r, c, d);
      && (forall i :: 0 <= i < n - 1 ==> HeightAt(f, r0, c0, sd, i) < f[r][c])
      && (0 < n < ViewLength(f, r, c, d) ==> HeightAt(f, r0, c0, sd, n - 1) >= f[r][c])
  {
    var (r0, c0, sd) := ViewStart(r, c, d);
    CountFromStops(f, r0, c0, sd, f[r][c], 0);
  }

  /** `add_visible_trees`: the counting loop over the view. */
  method AddVisibleTrees(f: seq<seq<int>>, row: int, col: int, d: Direction) returns (count: int)
    requires Grid(f) && InGrid(f, row, col)
    ensures count == ViewingDistance(f, row, col, d)
  {
    var (r0, c0, sd) := ViewStart(row, col, d);
    var n := ScanLength(f, r0, c0, sd);
    var orig := f[row][col];
    count := 0;
    for k := 0 to n
      invariant count == k
      invariant CountFrom(f, r0, c0, sd, orig, 0) == k + CountFrom(f, r0, c0, sd, orig, k)
    {
      ScanInGrid(f, r0, c0, sd, k);
      var (r, c) := Pos(r0, c0, sd, k);
      count := count + 1;
      if f[r][c] >= orig {
        return;
      }
    }
  }

  /** A tree's score, the product of its four viewing distances. */
  function Score(f: seq<seq<int>>, r: int, c: int): int
    requires Grid(f) && InGrid(f, r, c)
  {
    1 * ViewingDistance(f, r, c, Up) * ViewingDistance(f, r, c, Down)
      * ViewingDistance(f, r, c, Left) * ViewingDistance(f, r, c, Right)
  }

  /** A tree on the edge sees nothing in one direction, so it scores 0. */
  lemma EdgeScoresZero(f: seq<seq<int>>, r: int, c: int)
    requires Grid(f) && InGrid(f, r, c)
    requires r == 0 || r == |f| - 1 || c == 0 || c == |f[0]| - 1
    ensures Score(f, r, c) == 0
  {
    if r == 0 {
      assert ViewingDistance(f, r, c, Down) == 0;
    } else if r == |f| - 1 {
      assert ViewingDistance(f, r, c, Up) == 0;
    } else if c == 0 {
      assert ViewingDistance(f, r, c, Right) == 0;
    } else {
      assert ViewingDistance(f, r, c, Left) == 0;
    }
  }

  /** The positions of the forest. */
  function Trees(f: seq<seq<int>>): (t: set<(int, int)>)
    requires Grid(f)
    ensures forall p :: p in t <==> InGrid(f, p.0, p.1)
  {
    var t := set r, c | 0 <= r < |f| && 0 <= c < |f[0]| :: (r, c);
    assert forall p: (int, int) | InGrid(f, p.0, p.1) :: (p.0, p.1) in t;
    t
  }

  /** Each tree's score, keyed by its position. */
  function ScoreMap(f: seq<seq<int>>): map<(int, int), int>
    requires Grid(f)
  {
    map p | p in Trees(f) :: Score(f, p.0, p.1)
  }

  /** The scores of all trees. */
  function Scores(f: seq<seq<int>>): set<int>
    requires Grid(f)
  {
    ScoreMap(f).Values
  }

  /** There is a score for each tree, so there are none exactly when the forest has no columns. */
  lemma ScoresEmpty(f: seq<seq<int>>)
    requires Grid(f)
    ensures Scores(f) == {} <==> |f[0]| == 0
  {
    var m := ScoreMap(f);
    if |f[0]| > 0 {
      assert (0, 0) in m;
      assert m[(0, 0)] in m.Values;
    }
  }

  /** The body of `problem_2`'s inner loop. */
  method TreeScore(f: seq<seq<int>>, row: int, col: int) returns (count: int)
    requires Grid(f) && InGrid(f, row, col)
    ensures count == Score(f, row, col)
  {
    count := 1;
    var up := AddVisibleTrees(f, row, col, Up);
    count := count * up;
    var down := AddVisibleTrees(f, row, col, Down);
    count := count * down;
    var left := AddVisibleTrees(f, row, col, Left);
    count := count * left;
    var right := AddVisibleTrees(f, row, col, Right);
    count := count * right;
  }

  /** `scores` has a key for every tree before (row, col) in row-major order, and no other. */
  ghost predicate KeysUpTo(f: seq<seq<int>>, scores: map<(int, int), int>, row: int, col: int)
    requires Grid(f)
  {
    forall p :: p in scores <==> InGrid(f, p.0, p.1) && (p.0 < row || (p.0 == row && p.1 < col))
  }

  /** Every value in `scores` is the score of the tree at its key. */
  ghost predicate Scored(f: seq<seq<int>>, scores: map<(int, int), int>)
    requires Grid(f)
  {
    forall p :: p in scores ==> InGrid(f, p.0, p.1) && scores[p] == Score(f, p.0, p.1)
  }

  lemma KeysStep(f: seq<seq<int>>, scores: map<(int, int), int>, row: int, col: int, v: int)
    requires Grid(f) && InGrid(f, row, col) && KeysUpTo(f, scores, row, col)
    ensures KeysUpTo(f, scores[(row, col) := v], row, col + 1)
  {
    var scores' := scores[(row, col) := v];
    forall p: (int, int)
      ensures p in scores' <==> InGrid(f, p.0, p.1) && (p.0 < row || (p.0 == row && p.1 < col + 1))
    {
      assert p in scores' <==> p == (row, col) || p in scores;
    }
  }

  lemma ScoredStep(f: seq<seq<int>>, scores: map<(int, int), int>, row: int, col: int)
    requires Grid(f) && InGrid(f, row, col) && Scored(f, scores)
    ensures Scored(f, scores[(row, col) := Score(f, row, col)])
  {
    var scores' := scores[(row, col) := Score(f, row, col)];
    forall p | p in scores'
      ensures InGrid(f, p.0, p.1) && scores'[p] == Score(f, p.0, p.1)
    {
      if p != (row, col) {
        assert p in scores;
      }
    }
  }

  lemma KeysRow(f: seq<seq<int>>, scores: map<(int, int), int>, row: int)
    requires Grid(f) && KeysUpTo(f, scores, row, |f[0]|)
    ensures KeysUpTo(f, scores, row + 1, 0)
  {
  }

  /** Once every tree is scored, the map is `ScoreMap`. */
  lemma ScoredAll(f: seq<seq<int>>, scores: map<(int, int), int>)
    requires Grid(f) && KeysUpTo(f, scores, |f|, 0) && Scored(f, scores)
    ensures scores == ScoreMap(f)
  {
    var m := ScoreMap(f);
    forall p
      ensures p in scores <==> p in m
    {
      assert p in m <==> p in Trees(f);
    }
    forall p | p in scores
      ensures scores[p] == m[p]
    {
      assert m[p] == Score(f, p.0, p.1);
    }
    MapsAgree(scores, m);
  }

  /** Maps with the same keys and the same value at each key are equal. */
  lemma MapsAgree<K, V>(a: map<K, V>, b: map<K, V>)
    requires forall k :: k in a <==> k in b
    requires forall k :: k in a ==> a[k] == b[k]
    ensures a == b
  {
  }

  /** The `scores` map of `problem_2`, filled row by row. */
  method ScoreAll(f: seq<seq<int>>) returns (scores: map<(int, int), int>)
    requires Grid(f)
    ensures scores == ScoreMap(f)
  {
    var rows, cols := |f|, |f[0]|;
    scores := map[];
    for row := 0 to rows
      invariant KeysUpTo(f, scores, row, 0) && Scored(f, scores)
    {
      for col := 0 to cols
        invariant KeysUpTo(f, scores, row, col) && Scored(f, scores)
      {
        var count := TreeScore(f, row, col);
        KeysStep(f, scores, row, col, count);
        ScoredStep(f, scores, row, col);
        scores := scores[(row, col) := count];
      }
      KeysRow(f, scores, row);
    }
    ScoredAll(f, scores);
  }

  /** The scores of all trees, in whatever order the map iterates. */
  method ScoreValues(f: seq<seq<int>>) returns (values: seq<int>)
    requires Grid(f)
    ensures forall x :: x in values <==> x in Scores(f)
  {
    var scores := ScoreAll(f);
    values := Values(scores);
  }

  /** The values of a map, in whatever order it iterates. */
  method Values<K, V(==)>(m: map<K, V>) returns (values: seq<V>)
    ensures forall x :: x in values <==> x in m.Values
  {
    values := [];
    var rest := m.Keys;
    while rest != {}
      invariant rest <= m.Keys
      invariant forall x :: x in values ==> x in m.Values
      invariant forall k :: k in m && k !in rest ==> m[k] in values
      decreases |rest|
    {
      var k :| k in rest;
      values := values + [m[k]];
      rest := rest - {k};
    }
  }

  /**
   * `problem_2`: the value of the last entry after sorting the scores, the
   * largest score; `None` where the program panics: a forest without
   * rows, a row shorter than the first, or an empty map (a forest with no
   * columns).
   */
  method Problem2(f: seq<seq<int>>) returns (best: Option<int>)
    ensures best.None? <==> !Grid(f) || |f[0]| == 0
    ensures best.Some? ==> Grid(f) && Scores(f) != {} && best.value == SetMax(Scores(f))
  {
    if !Grid(f) {
      return None;
    }
    var values := ScoreValues(f);
    ScoresEmpty(f);
    if values == [] {
      return None;
    }
    SortedLast(values, Scores(f));
    var sorted := SortBy<int>(values, IntLe);
    best := Some(sorted[|sorted| - 1]);
  }
}
