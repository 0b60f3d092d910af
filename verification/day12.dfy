/**
 * Day 12: a search over a height map, from the cell marked `S` to the cell
 * marked `E`.
 *
 * The program keeps a queue of (position, steps) entries and a table of the
 * best distance found per cell. It expands an entry only when
 * `steps + 1 <= dist`, but every entry it queues has `dist <= steps`, so
 * that guard always sends the loop on to the next entry: the start is
 * popped, nothing is expanded, and the goal is never reported. The model
 * keeps the expansion as the program writes it (`Expand`) and proves both
 * what it would do and that the search never reaches it.
 */
module Day12 {
  import opened Util

  datatype Position = Position(row: int, col: int)

  const START: Byte := 83  // 'S'
  const GOAL: Byte := 69   // 'E'
  const LOWEST: Byte := 97   // 'a'
  const HIGHEST: Byte := 122 // 'z'

  /** No row is shorter than the first, whose length the program takes as the column count. */
  predicate LongRows(t: seq<seq<Byte>>)
  {
    forall r :: 0 < r < |t| ==> |t[r]| >= |t[0]|
  }

  /** `terrain.get(row).and_then(|r| r.get(col))` finds a height. */
  predicate InBounds(t: seq<seq<Byte>>, p: Position)
  {
    0 <= p.row < |t| && 0 <= p.col < |t[p.row]|
  }

  /** `dist[row][col]` can be indexed. */
  predicate InDist(dist: seq<seq<int>>, p: Position)
  {
    0 <= p.row < |dist| && 0 <= p.col < |dist[p.row]|
  }

  /** The distance table has a cell for each height and no other. */
  predicate Shaped(t: seq<seq<Byte>>, dist: seq<seq<int>>)
  {
    |dist| == |t| && forall r :: 0 <= r < |t| ==> |dist[r]| == |t[r]|
  }

  /** `grid[p] = v` on a vector of rows. */
  function Put<T>(grid: seq<seq<T>>, p: Position, v: T): (g: seq<seq<T>>)
    requires 0 <= p.row < |grid| && 0 <= p.col < |grid[p.row]|
    ensures |g| == |grid| && forall r :: 0 <= r < |g| ==> |g[r]| == |grid[r]|
  {
    grid[p.row := grid[p.row][p.col := v]]
  }

  /** After `Put`, cell `q` holds `v` if it is `p` and its old value otherwise. */
  lemma PutAt<T>(grid: seq<seq<T>>, p: Position, v: T, q: Position)
    requires 0 <= p.row < |grid| && 0 <= p.col < |grid[p.row]|
    requires 0 <= q.row < |grid| && 0 <= q.col < |grid[q.row]|
    ensures Put(grid, p, v)[q.row][q.col] == if q == p then v else grid[q.row][q.col]
  {
  }

  /** Writing the value a cell already holds changes nothing. */
  lemma PutSame<T>(grid: seq<seq<T>>, p: Position, v: T)
    requires 0 <= p.row < |grid| && 0 <= p.col < |grid[p.row]| && grid[p.row][p.col] == v
    ensures Put(grid, p, v) == grid
  {
    assert grid[p.row][p.col := v] == grid[p.row];
  }

  /** `rows` rows of `cols` copies of `v`. */
  function Fill<T>(rows: nat, cols: nat, v: T): (g: seq<seq<T>>)
    ensures |g| == rows && forall r :: 0 <= r < rows ==> |g[r]| == cols && forall c :: 0 <= c < cols ==> g[r][c] == v
  {
    seq(rows, _ => seq(cols, _ => v))
  }

  // Finding the start and the goal.

  /** Row-major order, the order of `(0..rows).cartesian_product(0..cols)`. */
  predicate Precedes(p: Position, q: Position)
  {
    p.row < q.row || (p.row == q.row && p.col < q.col)
  }

  predicate IsCell(t: seq<seq<Byte>>, p: Position)
    requires |t| > 0
  {
    0 <= p.row < |t| && 0 <= p.col < |t[0]|
  }

  /**
   * How `find` over `(0..rows).cartesian_product(0..cols)` ends: at the
   * first cell holding the byte, at the first cell `terrain[x][y]` cannot
   * index (a row shorter than the first, where the program panics), or
   * with no match.
   */
  datatype Search = Hit(at: Position) | Stuck(at: Position) | Miss

  /** The search from (r, c) on, in row-major order over the first row's columns. */
  function FindFrom(t: seq<seq<Byte>>, b: Byte, r: nat, c: nat): (res: Search)
    requires |t| > 0 && r <= |t| && c <= |t[0]|
    ensures !res.Miss? ==> IsCell(t, res.at) && !Precedes(res.at, Position(r, c))
    ensures res.Hit? ==> InBounds(t, res.at) && t[res.at.row][res.at.col] == b
    ensures res.Stuck? ==> !InBounds(t, res.at)
    ensures forall p ::
      (IsCell(t, p) && !Precedes(p, Position(r, c)) && (res.Miss? || Precedes(p, res.at))) ==>
      InBounds(t, p) && t[p.row][p.col] != b
    decreases |t| - r, |t[0]| - c
  {
    if r == |t| then Miss
    else if c == |t[0]| then FindFrom(t, b, r + 1, 0)
    else if c >= |t[r]| then Stuck(Position(r, c))
    else if t[r][c] == b then Hit(Position(r, c))
    else FindFrom(t, b, r, c + 1)
  }

  /** `find(|&(x, y)| terrain[x][y] == b)` over every cell in row-major order. */
  function Find(t: seq<seq<Byte>>, b: Byte): (res: Search)
    requires |t| > 0
  {
    FindFrom(t, b, 0, 0)
  }

  /**
   * A hit holds `b` and every earlier cell can be read and does not; the
   * search is stuck at a cell that cannot be read, every earlier one being
   * readable without `b`; a miss means every cell is readable and none
   * holds `b`.
   */
  lemma FindFirst(t: seq<seq<Byte>>, b: Byte)
    requires |t| > 0
    ensures Find(t, b).Hit? ==>
      IsCell(t, Find(t, b).at) && InBounds(t, Find(t, b).at) && t[Find(t, b).at.row][Find(t, b).at.col] == b
    ensures Find(t, b).Stuck? ==> IsCell(t, Find(t, b).at) && !InBounds(t, Find(t, b).at)
    ensures !Find(t, b).Miss? ==>
      forall p :: IsCell(t, p) && Precedes(p, Find(t, b).at) ==> InBounds(t, p) && t[p.row][p.col] != b
    ensures Find(t, b).Miss? <==> forall p :: IsCell(t, p) ==> InBounds(t, p) && t[p.row][p.col] != b
  {
    var res := Find(t, b);
    if res.Hit? {
      assert t[res.at.row][res.at.col] == b;
    } else if res.Stuck? {
      assert !InBounds(t, res.at);
    }
  }

  /** When no row is shorter than the first, the search never gets stuck. */
  lemma FindOnLongRows(t: seq<seq<Byte>>, b: Byte)
    requires |t| > 0 && LongRows(t)
    ensures !Find(t, b).Stuck?
  {
  }

  /** A longer row is searched over the first row's columns only; a shorter row panics once reached. */
  lemma FindExamples()
    ensures Find([[97, 69], [97, 97, 83]], START) == Miss
    ensures Find([[97, 97], [97], [83, 69]], START) == Stuck(Position(1, 1))
    ensures Find([[83, 69], [97]], GOAL) == Hit(Position(0, 1))
  {
  }

  // The neighbour rule and one expansion step.

  /** `height.abs_diff(terrain[row][col]) <= 1`. */
  predicate Climbable(t: seq<seq<Byte>>, p: Position, n: Position)
    requires InBounds(t, p) && InBounds(t, n)
  {
    Abs(t[n.row][n.col] as int - t[p.row][p.col] as int) <= 1
  }

  /** The rule looks at the height difference only, so it is the same both ways. */
  lemma ClimbableBothWays(t: seq<seq<Byte>>, p: Position, n: Position)
    requires InBounds(t, p) && InBounds(t, n)
    ensures Climbable(t, p, n) <==> Climbable(t, n, p)
  {
  }

  /** The offsets in the order the program tries them: left, right, up, down. */
  const OFFSETS: seq<(int, int)> := [(0, -1), (0, 1), (-1, 0), (1, 0)]

  function Neighbour(p: Position, k: int): (n: Position)
    requires 0 <= k < 4
    ensures Abs(n.row - p.row) + Abs(n.col - p.col) == 1
  {
    Position(p.row + OFFSETS[k].0, p.col + OFFSETS[k].1)
  }

  /** The four neighbours are four different cells. */
  lemma NeighboursDistinct(p: Position, j: int, k: int)
    requires 0 <= j < 4 && 0 <= k < 4 && j != k
    ensures Neighbour(p, j) != Neighbour(p, k)
  {
  }

  /** Whether the program queues neighbour `n` of `p` reached in `steps + 1`. */
  predicate Improves(t: seq<seq<Byte>>, dist: seq<seq<int>>, p: Position, steps: nat, n: Position)
  {
    && InBounds(t, p) && InBounds(t, n) && Climbable(t, p, n)
    && InDist(dist, n) && steps + 1 < dist[n.row][n.col]
  }

  /** Neighbour `k` makes the program panic: it indexes `terrain[row][col]` or `dist[nr][nc]` out of range. */
  predicate PanicsAt(t: seq<seq<Byte>>, dist: seq<seq<int>>, p: Position, k: int)
    requires 0 <= k < 4
  {
    var n := Neighbour(p, k);
    InBounds(t, n) && (!InBounds(t, p) || (Climbable(t, p, n) && !InDist(dist, n)))
  }

  predicate PanicsUpTo(t: seq<seq<Byte>>, dist: seq<seq<int>>, p: Position, k: int)
    requires 0 <= k <= 4
  {
    k > 0 && (PanicsUpTo(t, dist, p, k - 1) || PanicsAt(t, dist, p, k - 1))
  }

  /** The neighbours among the first `k` that are queued, in the order they are queued. */
  function Moves(t: seq<seq<Byte>>, dist: seq<seq<int>>, p: Position, steps: nat, k: int): (ms: seq<Position>)
    requires 0 <= k <= 4
    ensures forall i :: 0 <= i < |ms| ==> Improves(t, dist, p, steps, ms[i])
  {
    if k == 0 then []
    else
      var n := Neighbour(p, k - 1);
      Moves(t, dist, p, steps, k - 1) + (if Improves(t, dist, p, steps, n) then [n] else [])
  }

  /** The queue entries for `moves`, each reached in `s` steps. */
  function Enqueued(moves: seq<Position>, s: nat): (q: seq<(Position, nat)>)
    ensures |q| == |moves| && forall i :: 0 <= i < |q| ==> q[i] == (moves[i], s)
  {
    seq(|moves|, i requires 0 <= i < |moves| => (moves[i], s))
  }

  /** `dist` with every cell of `moves` set to `v`. */
  function SetAll(dist: seq<seq<int>>, moves: seq<Position>, v: int): (d: seq<seq<int>>)
    requires forall i :: 0 <= i < |moves| ==> InDist(dist, moves[i])
    ensures |d| == |dist| && forall r :: 0 <= r < |d| ==> |d[r]| == |dist[r]|
  {
    if moves == [] then dist
    else
      var init, last := moves[..|moves| - 1], moves[|moves| - 1];
      assert forall i :: 0 <= i < |init| ==> init[i] == moves[i];
      assert InDist(dist, last);
      Put(SetAll(dist, init, v), last, v)
  }

  /** After `SetAll`, a cell holds `v` if it is one of the moves and its old distance otherwise. */
  lemma {:induction false} SetAllAt(dist: seq<seq<int>>, moves: seq<Position>, v: int, q: Position)
    requires forall i :: 0 <= i < |moves| ==> InDist(dist, moves[i])
    requires InDist(dist, q)
    ensures SetAll(dist, moves, v)[q.row][q.col] == if q in moves then v else dist[q.row][q.col]
    decreases |moves|
  {
    if moves != [] {
      var init := moves[..|moves| - 1];
      SetAllAt(dist, init, v, q);
      PutAt(SetAll(dist, init, v), moves[|moves| - 1], v, q);
      assert moves == init + [moves[|moves| - 1]];
      assert q in moves <==> q in init || q == moves[|moves| - 1];
    }
  }

  /** Only neighbours before `k` are among the first `k` moves. */
  lemma {:induction false} MovesBefore(t: seq<seq<Byte>>, dist: seq<seq<int>>, p: Position, steps: nat, k: int, j: int)
    requires 0 <= k <= j < 4
    ensures Neighbour(p, j) !in Moves(t, dist, p, steps, k)
  {
    if k > 0 {
      MovesBefore(t, dist, p, steps, k - 1, j);
      NeighboursDistinct(p, k - 1, j);
    }
  }

  lemma MovesStep(t: seq<seq<Byte>>, dist: seq<seq<int>>, p: Position, steps: nat, k: int)
    requires 0 <= k < 4
    ensures var n := Neighbour(p, k);
      Moves(t, dist, p, steps, k + 1)
      == if Improves(t, dist, p, steps, n) then Moves(t, dist, p, steps, k) + [n] else Moves(t, dist, p, steps, k)
  {
    var n := Neighbour(p, k);
    if !Improves(t, dist, p, steps, n) {
      assert Moves(t, dist, p, steps, k) + [] == Moves(t, dist, p, steps, k);
    }
  }

  lemma SetAllSnoc(dist: seq<seq<int>>, moves: seq<Position>, n: Position, v: int)
    requires forall i :: 0 <= i < |moves| ==> InDist(dist, moves[i])
    requires InDist(dist, n)
    ensures SetAll(dist, moves + [n], v) == Put(SetAll(dist, moves, v), n, v)
  {
    assert (moves + [n])[..|moves|] == moves;
  }

  lemma EnqueuedSnoc(moves: seq<Position>, n: Position, s: nat)
    ensures Enqueued(moves + [n], s) == Enqueued(moves, s) + [(n, s)]
  {
  }

  lemma {:induction false} PanicsLater(t: seq<seq<Byte>>, dist: seq<seq<int>>, p: Position, k: int, m: int)
    requires 0 <= k <= m <= 4 && PanicsUpTo(t, dist, p, k)
    ensures PanicsUpTo(t, dist, p, m)
    decreases m - k
  {
    if k < m {
      PanicsLater(t, dist, p, k + 1, m);
    }
  }

  /**
   * One pass of the loop over the neighbours: neighbour `k` of `p` is
   * queued with `steps + 1` and gets that distance when it is in the map,
   * as high as `p` give or take one, and not yet reached in `steps + 1` or
   * fewer; `None` where the program panics on an index.
   */
  method TryNeighbour(t: seq<seq<Byte>>, d: seq<seq<int>>, q: seq<(Position, nat)>, p: Position, steps: nat, k: int)
    returns (r: Option<(seq<seq<int>>, seq<(Position, nat)>)>)
    requires 0 <= k < 4
    ensures r.None? <==> PanicsAt(t, d, p, k)
    ensures r.Some? ==>
      var n := Neighbour(p, k);
      r.value == if Improves(t, d, p, steps, n) then (Put(d, n, steps + 1), q + [(n, steps + 1)]) else (d, q)
  {
    var n := Neighbour(p, k);
    if n.row < 0 || n.col < 0 {
      return Some((d, q));
    }
    if !(n.row < |t| && n.col < |t[n.row]|) {
      return Some((d, q));
    }
    if !(p.row < |t| && 0 <= p.row && 0 <= p.col && p.col < |t[p.row]|) {
      return None;
    }
    if Abs(t[n.row][n.col] as int - t[p.row][p.col] as int) > 1 {
      return Some((d, q));
    }
    if !(n.row < |d| && n.col < |d[n.row]|) {
      return None;
    }
    if steps + 1 < d[n.row][n.col] {
      return Some((Put(d, n, steps + 1), q + [(n, steps + 1)]));
    }
    return Some((d, q));
  }

  /**
   * A pass over neighbour `k` after the first `k` acts as if on the
   * original table: the earlier passes wrote other cells only.
   */
  lemma TryNeighbourStep(t: seq<seq<Byte>>, dist: seq<seq<int>>, queue: seq<(Position, nat)>, p: Position, steps: nat, k: int)
    requires 0 <= k < 4
    ensures var moves := Moves(t, dist, p, steps, k);
      var d, q := SetAll(dist, moves, steps + 1), queue + Enqueued(moves, steps + 1);
      var n := Neighbour(p, k);
      && (PanicsAt(t, d, p, k) <==> PanicsAt(t, dist, p, k))
      && (Improves(t, d, p, steps, n) <==> Improves(t, dist, p, steps, n))
      && (Improves(t, dist, p, steps, n) ==>
            SetAll(dist, moves + [n], steps + 1) == Put(d, n, steps + 1)
            && queue + Enqueued(moves + [n], steps + 1) == q + [(n, steps + 1)])
      && Moves(t, dist, p, steps, k + 1) == if Improves(t, dist, p, steps, n) then moves + [n] else moves
  {
    var moves := Moves(t, dist, p, steps, k);
    var d := SetAll(dist, moves, steps + 1);
    MovesStep(t, dist, p, steps, k);
    NeighbourUntouched(t, dist, p, steps, k, d);
    if Improves(t, dist, p, steps, Neighbour(p, k)) {
      NeighbourQueued(t, dist, queue, p, steps, k);
    }
  }

  /** The earlier passes of the loop left neighbour `k`'s cell as it was. */
  lemma NeighbourUntouched(t: seq<seq<Byte>>, dist: seq<seq<int>>, p: Position, steps: nat, k: int, d: seq<seq<int>>)
    requires 0 <= k < 4 && d == SetAll(dist, Moves(t, dist, p, steps, k), steps + 1)
    ensures var n := Neighbour(p, k);
      && (PanicsAt(t, d, p, k) <==> PanicsAt(t, dist, p, k))
      && (Improves(t, d, p, steps, n) <==> Improves(t, dist, p, steps, n))
  {
    var n := Neighbour(p, k);
    MovesBefore(t, dist, p, steps, k, k);
    assert InDist(d, n) <==> InDist(dist, n);
    if InDist(dist, n) {
      SetAllAt(dist, Moves(t, dist, p, steps, k), steps + 1, n);
    }
  }

  /** Queuing neighbour `k` extends both the writes and the queue by it. */
  lemma NeighbourQueued(t: seq<seq<Byte>>, dist: seq<seq<int>>, queue: seq<(Position, nat)>, p: Position, steps: nat, k: int)
    requires 0 <= k < 4 && Improves(t, dist, p, steps, Neighbour(p, k))
    ensures var moves, n := Moves(t, dist, p, steps, k), Neighbour(p, k);
      && SetAll(dist, moves + [n], steps + 1) == Put(SetAll(dist, moves, steps + 1), n, steps + 1)
      && queue + Enqueued(moves + [n], steps + 1) == queue + Enqueued(moves, steps + 1) + [(n, steps + 1)]
  {
    var moves, n := Moves(t, dist, p, steps, k), Neighbour(p, k);
    SetAllSnoc(dist, moves, n, steps + 1);
    EnqueuedSnoc(moves, n, steps + 1);
    assert queue + Enqueued(moves, steps + 1) + [(n, steps + 1)] == queue + (Enqueued(moves, steps + 1) + [(n, steps + 1)]);
  }

  /**
   * The loop over the four neighbours of `p`, left, right, up, down: the
   * neighbours `TryNeighbour` accepts are queued in that order with
   * `steps + 1`, and that becomes their distance.
   */
  method Expand(t: seq<seq<Byte>>, dist: seq<seq<int>>, queue: seq<(Position, nat)>, p: Position, steps: nat)
    returns (r: Option<(seq<seq<int>>, seq<(Position, nat)>)>)
    ensures r.None? <==> PanicsUpTo(t, dist, p, 4)
    ensures r.Some? ==>
      var moves := Moves(t, dist, p, steps, 4);
      r.value == (SetAll(dist, moves, steps + 1), queue + Enqueued(moves, steps + 1))
  {
    var d, q := dist, queue;
    for k := 0 to 4
      invariant Expanded(t, dist, queue, p, steps, k, d, q)
    {
      var next := TryNeighbour(t, d, q, p, steps, k);
      ExpandStep(t, dist, queue, p, steps, k, d, q, next);
      match next {
        case None =>
          return None;
        case Some((d', q')) =>
          d, q := d', q';
      }
    }
    return Some((d, q));
  }

  /** The loop over the neighbours has done `k` passes without a panic, leaving `d` and `q`. */
  ghost predicate Expanded(t: seq<seq<Byte>>, dist: seq<seq<int>>, queue: seq<(Position, nat)>, p: Position, steps: nat, k: int,
                           d: seq<seq<int>>, q: seq<(Position, nat)>)
  {
    && 0 <= k <= 4 && !PanicsUpTo(t, dist, p, k)
    && d == SetAll(dist, Moves(t, dist, p, steps, k), steps + 1)
    && q == queue + Enqueued(Moves(t, dist, p, steps, k), steps + 1)
  }

  /** What one pass of `TryNeighbour` returns either is a panic of the whole loop or extends it by one pass. */
  lemma ExpandStep(t: seq<seq<Byte>>, dist: seq<seq<int>>, queue: seq<(Position, nat)>, p: Position, steps: nat, k: int,
                   d: seq<seq<int>>, q: seq<(Position, nat)>, r: Option<(seq<seq<int>>, seq<(Position, nat)>)>)
    requires Expanded(t, dist, queue, p, steps, k, d, q) && k < 4
    requires r.None? <==> PanicsAt(t, d, p, k)
    requires r.Some? ==>
      var n := Neighbour(p, k);
      r.value == if Improves(t, d, p, steps, n) then (Put(d, n, steps + 1), q + [(n, steps + 1)]) else (d, q)
    ensures r.None? ==> PanicsUpTo(t, dist, p, 4)
    ensures r.Some? ==> Expanded(t, dist, queue, p, steps, k + 1, r.value.0, r.value.1)
  {
    TryNeighbourStep(t, dist, queue, p, steps, k);
    if r.None? {
      PanicsLater(t, dist, p, k + 1, 4);
    }
  }

  /** The queue of a well-formed search holds cells of the map. */
  predicate QueueInBounds(t: seq<seq<Byte>>, queue: seq<(Position, nat)>)
  {
    forall i :: 0 <= i < |queue| ==> InBounds(t, queue[i].0)
  }

  /** Every queued entry has been reached in at most its own step count. */
  predicate WithinDist(dist: seq<seq<int>>, queue: seq<(Position, nat)>)
  {
    forall i :: 0 <= i < |queue| ==> InDist(dist, queue[i].0) && dist[queue[i].0.row][queue[i].0.col] <= queue[i].1
  }

  /** On a well-shaped table, from a cell of the map, the expansion never panics. */
  lemma ExpandSafe(t: seq<seq<Byte>>, dist: seq<seq<int>>, p: Position)
    requires Shaped(t, dist) && InBounds(t, p)
    ensures !PanicsUpTo(t, dist, p, 4)
  {
    assert !PanicsUpTo(t, dist, p, 1);
    assert !PanicsUpTo(t, dist, p, 2);
    assert !PanicsUpTo(t, dist, p, 3);
  }

  /**
   * An expansion keeps every queued entry within its cell's distance: a
   * new entry is queued together with its distance, and distances only
   * go down.
   */
  lemma ExpandKeepsWithinDist(t: seq<seq<Byte>>, dist: seq<seq<int>>, queue: seq<(Position, nat)>, p: Position, steps: nat)
    requires WithinDist(dist, queue)
    ensures var moves := Moves(t, dist, p, steps, 4);
      WithinDist(SetAll(dist, moves, steps + 1), queue + Enqueued(moves, steps + 1))
  {
    var moves := Moves(t, dist, p, steps, 4);
    var d := SetAll(dist, moves, steps + 1);
    var q := queue + Enqueued(moves, steps + 1);
    forall i | 0 <= i < |q|
      ensures InDist(d, q[i].0) && d[q[i].0.row][q[i].0.col] <= q[i].1
    {
      SetAllAt(dist, moves, steps + 1, q[i].0);
      if i >= |queue| {
        assert q[i].0 == moves[i - |queue|];
      }
    }
  }

  /** Because of `WithinDist`, the pruning guard `steps + 1 > dist[row][col]` holds for every queued entry. */
  lemma GuardAlwaysFires(dist: seq<seq<int>>, queue: seq<(Position, nat)>, i: int)
    requires WithinDist(dist, queue) && 0 <= i < |queue|
    ensures queue[i].1 + 1 > dist[queue[i].0.row][queue[i].0.col]
  {
  }

  // The search.

  datatype Outcome =
    | Panic
      /** `found` is the step count printed as "Found end", if any; `dist` and `visited` are the final tables. */
    | Finished(found: Option<nat>, dist: seq<seq<int>>, visited: seq<seq<bool>>)

  /**
   * `problem_1`: the start and goal are the first `S` and `E` in row-major
   * order over the first row's columns (a panic with no rows, without one, or
   * on reaching a row shorter than the first before it), their heights become
   * `a` and `z`, and the queue starts with the start at 0 steps. The search
   * ends with no end found and only the start marked: distance 0 and visited.
   */
  method Problem1(terrain: seq<seq<Byte>>) returns (r: Outcome)
    ensures r.Panic? <==> |terrain| == 0 || !Find(terrain, START).Hit? || !Find(terrain, GOAL).Hit?
    ensures r.Finished? ==>
      var start := Find(terrain, START).at;
      && r.found == None
      && r.dist == Put(Fill(|terrain|, |terrain[0]|, USIZE_MAX), start, 0)
      && r.visited == Put(Fill(|terrain|, |terrain[0]|, false), start, true)
  {
    if |terrain| == 0 {
      return Panic;
    }
    var rows, cols := |terrain|, |terrain[0]|;
    var t := terrain;
    var dist := Fill(rows, cols, USIZE_MAX);
    var visited := Fill(rows, cols, false);
    var queue: seq<(Position, nat)> := [];

    var s := Find(t, START);
    var e := Find(t, GOAL);
    if !s.Hit? || !e.Hit? {
      return Panic;
    }
    var sp, gp := s.at, e.at;
    FindFirst(terrain, START);
    FindFirst(terrain, GOAL);

    t := Put(t, sp, LOWEST);
    t := Put(t, gp, HIGHEST);

    visited := Put(visited, sp, true);
    dist := Put(dist, sp, 0);
    queue := queue + [(sp, 0)];
    ghost var dist0, visited0 := dist, visited;

    var found: Option<nat> := None;
    while queue != []
      invariant |t| == rows && |dist| == rows && |visited| == rows
      invariant forall r :: 0 <= r < rows ==> |dist[r]| == cols && |visited[r]| == cols
      invariant QueueInBounds(t, queue) && WithinDist(dist, queue)
      invariant queue == [] || queue == [(sp, 0)]
      invariant dist == dist0 && visited == visited0 && found == None
      decreases |queue|
    {
      var p: Position, steps: nat := queue[0].0, queue[0].1;
      queue := queue[1..];
      PutAt(Fill(rows, cols, false), sp, true, sp);
      PutSame(visited, p, true);
      visited := Put(visited, p, true);

      if p == gp {
        found := Some(steps);
        break;
      }

      if steps + 1 > dist[p.row][p.col] {
        continue;
      }

      var next := Expand(t, dist, queue, p, steps);
      match next {
        case None =>
          return Panic;
        case Some((d, q)) =>
          dist, queue := d, q;
      }
    }
    return Finished(found, dist, visited);
  }
}
