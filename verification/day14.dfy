/**
 * Day 14: sand falling into a cave of rock paths.
 *
 * The cave maps a column (x) to the cells of that column that are
 * occupied, each holding rock or sand. A grain falls straight down to the
 * cell above the nearest occupied cell, then tries diagonally left, then
 * diagonally right, and rests when all three cells below it are occupied.
 */
module Day14 {
  import opened Util
  import opened Text

  datatype Elem = Rock | Sand

  datatype Point = Point(x: int, y: int)

  /** Where every grain of sand enters. */
  const Start := Point(500, 0)

  type Column = map<int, Elem>

  /** Column (x) to occupied rows (y) of that column. */
  type Cave = map<int, Column>

  predicate Occupied(cave: Cave, p: Point)
  {
    p.x in cave && p.y in cave[p.x]
  }

  /** All occupied cells. */
  function Cells(cave: Cave): (r: set<Point>)
    ensures forall p :: p in r <==> Occupied(cave, p)
  {
    set x, y | x in cave && y in cave[x] :: Point(x, y)
  }

  /** All rows that hold something, over every column. */
  function Rows(cave: Cave): (r: set<int>)
    ensures forall x, y :: x in cave && y in cave[x] ==> y in r
  {
    set x, y | x in cave && y in cave[x] :: y
  }

  /** Every occupied cell lies above row `b`. */
  predicate Above(cave: Cave, b: int)
  {
    forall x, y :: x in cave && y in cave[x] ==> y < b
  }

  /** The cells the source program marks: `cave.entry(p.x).or_default().insert(p.y, e)`. */
  function Put(cave: Cave, p: Point, e: Elem): (r: Cave)
    ensures r.Keys == cave.Keys + {p.x}
    ensures Cells(r) == Cells(cave) + {p}
    ensures r[p.x][p.y] == e
    ensures forall q :: Occupied(cave, q) && q != p ==> Occupied(r, q) && r[q.x][q.y] == cave[q.x][q.y]
  {
    var r := cave[p.x := (if p.x in cave then cave[p.x] else map[])[p.y := e]];
    assert Cells(r) == Cells(cave) + {p} by {
      forall q ensures q in Cells(r) <==> q in Cells(cave) + {p} {
        assert Occupied(r, q) <==> Occupied(cave, q) || q == p;
      }
    }
    r
  }

  lemma AboveRows(cave: Cave, b: int)
    requires forall k :: k in Rows(cave) ==> k < b
    ensures Above(cave, b)
  {
    forall x, y | x in cave && y in cave[x] ensures y < b {
      assert y in Rows(cave);
    }
  }

  /** The nearest occupied row strictly below row `y` in a column. */
  function NearestBelow(col: Column, y: int): (r: Option<int>)
    ensures r.Some? ==> r.value in col && r.value > y
    ensures r.Some? ==> forall k :: k in col && k > y ==> r.value <= k
    ensures r.None? <==> forall k :: k in col ==> k <= y
  {
    var below := set k | k in col && k > y;
    assert forall k :: k in col && k > y ==> k in below;
    if below == {} then None else Some(SetMin(below))
  }

  /** The rows strictly below row `y` that hold something: what a falling grain has left to pass. */
  function RowsBelow(cave: Cave, y: int): set<int>
  {
    set k | k in Rows(cave) && k > y
  }

  lemma RowsBelowShrink(cave: Cave, x: int, y: int, y': int)
    requires x in cave && y' in cave[x] && y' > y
    ensures RowsBelow(cave, y') < RowsBelow(cave, y)
  {
    assert y' in RowsBelow(cave, y);
  }

  /** A grain at `p` rests: the cells below, below-left and below-right are occupied. */
  predicate Resting(cave: Cave, p: Point)
  {
    Occupied(cave, Point(p.x, p.y + 1))
    && Occupied(cave, Point(p.x - 1, p.y + 1))
    && Occupied(cave, Point(p.x + 1, p.y + 1))
  }

  /** `p` can be reached from `s` by falling: below it, and at most one column aside per row. */
  predicate InCone(s: Point, p: Point)
  {
    p.y >= s.y && Abs(p.x - s.x) <= p.y - s.y
  }

  /**
   * Where a grain that enters at `sand` comes to rest, or `None` when it
   * falls out of the cave: its column holds nothing below it, or the column
   * it would move into diagonally holds nothing at all.
   */
  function DropSand(cave: Cave, sand: Point): (r: Option<Point>)
    ensures r.Some? ==> Resting(cave, r.value) && InCone(sand, r.value)
    ensures r.Some? ==> r.value == sand || !Occupied(cave, r.value)
    decreases RowsBelow(cave, sand.y)
  {
    if sand.x !in cave then None
    else
      match NearestBelow(cave[sand.x], sand.y)
      case None => None
      case Some(y) =>
        if sand.x - 1 !in cave then None
        else if y in cave[sand.x - 1] then
          if sand.x + 1 !in cave then None
          else if y in cave[sand.x + 1] then Some(Point(sand.x, y - 1))
          else
            RowsBelowShrink(cave, sand.x, sand.y, y);
            DropSand(cave, Point(sand.x + 1, y))
        else
          RowsBelowShrink(cave, sand.x, sand.y, y);
          DropSand(cave, Point(sand.x - 1, y))
  }

  /**
   * A grain at `q` leaves the cave: nothing below it, or nothing at all in
   * the column it has to move into diagonally.
   */
  predicate FallsOut(cave: Cave, q: Point)
  {
    q.x !in cave
    || NearestBelow(cave[q.x], q.y).None?
    || q.x - 1 !in cave
    || (NearestBelow(cave[q.x], q.y).value in cave[q.x - 1] && q.x + 1 !in cave)
  }

  /** A grain for which `DropSand` has no resting place reaches, inside its cone, a point where it falls out. */
  lemma {:induction false} DropSandFallsOut(cave: Cave, sand: Point)
    requires DropSand(cave, sand).None?
    ensures exists q :: InCone(sand, q) && FallsOut(cave, q)
    decreases RowsBelow(cave, sand.y)
  {
    if FallsOut(cave, sand) {
      assert InCone(sand, sand);
    } else {
      var y := NearestBelow(cave[sand.x], sand.y).value;
      var next := if y in cave[sand.x - 1] then Point(sand.x + 1, y) else Point(sand.x - 1, y);
      RowsBelowShrink(cave, sand.x, sand.y, y);
      DropSandFallsOut(cave, next);
      var q :| InCone(next, q) && FallsOut(cave, q);
      assert InCone(sand, q);
    }
  }

  /**
   * The same walk over a cave with an endless floor at row `bottom`: a grain
   * that would fall out lands on the floor, in the column it was about to
   * fall into.
   */
  function DropSandWithBottom(cave: Cave, sand: Point, bottom: int): (r: Point)
    ensures Above(cave, bottom) && sand.y < bottom ==>
      InCone(sand, r) && r.y < bottom && (r == sand || !Occupied(cave, r))
    ensures Above(cave, bottom) && sand.y < bottom ==> r.y == bottom - 1 || Resting(cave, r)
    decreases RowsBelow(cave, sand.y)
  {
    if sand.x !in cave then Point(sand.x, bottom - 1)
    else
      match NearestBelow(cave[sand.x], sand.y)
      case None => Point(sand.x, bottom - 1)
      case Some(y) =>
        if sand.x - 1 !in cave then Point(sand.x - 1, bottom - 1)
        else if y in cave[sand.x - 1] then
          if sand.x + 1 !in cave then Point(sand.x + 1, bottom - 1)
          else if y in cave[sand.x + 1] then Point(sand.x, y - 1)
          else
            RowsBelowShrink(cave, sand.x, sand.y, y);
            DropSandWithBottom(cave, Point(sand.x + 1, y), bottom)
        else
          RowsBelowShrink(cave, sand.x, sand.y, y);
          DropSandWithBottom(cave, Point(sand.x - 1, y), bottom)
  }

  /** With a floor, a grain never falls out: where `DropSand` finds a place, the floor changes nothing. */
  lemma {:induction false} FloorAgrees(cave: Cave, sand: Point, bottom: int)
    requires DropSand(cave, sand).Some?
    ensures DropSandWithBottom(cave, sand, bottom) == DropSand(cave, sand).value
    decreases RowsBelow(cave, sand.y)
  {
    var y := NearestBelow(cave[sand.x], sand.y).value;
    if y !in cave[sand.x - 1] {
      RowsBelowShrink(cave, sand.x, sand.y, y);
      FloorAgrees(cave, Point(sand.x - 1, y), bottom);
    } else if y !in cave[sand.x + 1] {
      RowsBelowShrink(cave, sand.x, sand.y, y);
      FloorAgrees(cave, Point(sand.x + 1, y), bottom);
    }
  }

  /** A floor at or above the entry point: every grain lands straight below the entry, never on it. */
  lemma FloorAboveStart(cave: Cave, bottom: int)
    requires Above(cave, bottom) && bottom < 1
    ensures DropSandWithBottom(cave, Start, bottom) == Point(Start.x, bottom - 1)
    ensures Above(Put(cave, Point(Start.x, bottom - 1), Sand), bottom)
  {
    if Start.x in cave {
      assert NearestBelow(cave[Start.x], Start.y).None?;
    }
    var c := Put(cave, Point(Start.x, bottom - 1), Sand);
    forall x, y | x in c && y in c[x] ensures y < bottom {
      assert Occupied(c, Point(x, y));
    }
  }

  /** How a simulation ends: with a count, by never ending, or by a panic of the program. */
  datatype Outcome = Finished(count: nat) | Forever | Panic

  /** The cells of `cave0` columns in rows `0..=b`: where grains can rest without a floor. */
  function Box(cave0: Cave, b: int): (r: set<Point>)
    ensures forall p :: p in r <==> p.x in cave0 && 0 <= p.y <= b
  {
    set x, y | x in cave0 && 0 <= y <= b :: Point(x, y)
  }

  /** The cells of the cone below the entry point that lie above row `bottom`. */
  function ConeBox(bottom: int): (r: set<Point>)
    ensures forall p :: p in r <==> Start.x - bottom <= p.x <= Start.x + bottom && 0 <= p.y < bottom
  {
    set x, y | Start.x - bottom <= x <= Start.x + bottom && 0 <= y < bottom :: Point(x, y)
  }

  /** Every cell occupied in `cave0`, except maybe the entry point, holds the same in `cave`. */
  ghost predicate OldKept(cave0: Cave, cave: Cave)
  {
    forall p :: Occupied(cave0, p) && p != Start ==> Occupied(cave, p) && cave[p.x][p.y] == cave0[p.x][p.y]
  }

  /** Every cell of `cave` that was free in `cave0` holds sand, in the cone below the entry point. */
  ghost predicate NewSand(cave0: Cave, cave: Cave)
  {
    forall p :: Occupied(cave, p) && !Occupied(cave0, p) ==> cave[p.x][p.y] == Sand && InCone(Start, p)
  }

  /** What dropping grains into `cave0` leaves, as long as no grain was put on an occupied cell. */
  ghost predicate SandAdded(cave0: Cave, cave: Cave)
  {
    && OldKept(cave0, cave) && NewSand(cave0, cave)
    && (Occupied(cave0, Start) ==> Occupied(cave, Start) && cave[Start.x][Start.y] == cave0[Start.x][Start.y])
  }

  /** One more grain at a free cell `p` of `area` keeps `SandAdded` and shrinks the free part of `area`. */
  lemma AddGrain(cave0: Cave, cave: Cave, lim: int, area: set<Point>, p: Point)
    requires SandAdded(cave0, cave) && Above(cave, lim)
    requires Cells(cave0) <= Cells(cave) <= Cells(cave0) + area
    requires !Occupied(cave, p) && InCone(Start, p) && p.y < lim && p in area
    ensures SandAdded(cave0, Put(cave, p, Sand)) && Above(Put(cave, p, Sand), lim)
    ensures Occupied(Put(cave, p, Sand), Start) <==> Occupied(cave, Start) || p == Start
    ensures Cells(cave0) <= Cells(Put(cave, p, Sand)) <= Cells(cave0) + area
    ensures |area - Cells(Put(cave, p, Sand))| < |area - Cells(cave)|
    ensures |Cells(Put(cave, p, Sand)) - Cells(cave0)| == |Cells(cave) - Cells(cave0)| + 1
  {
    AddGrainKeeps(cave0, cave, lim, p);
    AddGrainCounts(Cells(cave0), Cells(cave), area, p);
  }

  lemma AddGrainKeeps(cave0: Cave, cave: Cave, lim: int, p: Point)
    requires SandAdded(cave0, cave) && Above(cave, lim)
    requires !Occupied(cave, p) && InCone(Start, p) && p.y < lim
    ensures SandAdded(cave0, Put(cave, p, Sand)) && Above(Put(cave, p, Sand), lim)
    ensures Occupied(Put(cave, p, Sand), Start) <==> Occupied(cave, Start) || p == Start
  {
    PutAbove(cave, p, Sand, lim);
  }

  lemma AddGrainCounts(old0: set<Point>, cells: set<Point>, area: set<Point>, p: Point)
    requires old0 <= cells <= old0 + area && p !in cells && p in area
    ensures old0 <= cells + {p} <= old0 + area
    ensures |area - (cells + {p})| < |area - cells|
    ensures |(cells + {p}) - old0| == |cells - old0| + 1
  {
    assert area - (cells + {p}) == (area - cells) - {p};
    assert (cells + {p}) - old0 == (cells - old0) + {p};
  }

  /** A grain at a cell that is either free or was occupied from the start. */
  lemma LastGrainCounts(old0: set<Point>, cells: set<Point>, p: Point)
    requires old0 <= cells && (p in cells ==> p in old0)
    ensures |(cells + {p}) - old0| == |cells - old0| + (if p in old0 then 0 else 1)
  {
    if p in old0 {
      assert (cells + {p}) - old0 == cells - old0;
    } else {
      assert (cells + {p}) - old0 == (cells - old0) + {p};
    }
  }

  /** The last grain of problem 2, at the entry point: what the cave looks like afterwards. */
  lemma FinalGrain(cave0: Cave, cave: Cave, lim: int, count: nat)
    requires SandAdded(cave0, cave) && Above(cave, lim) && 0 < lim && Cells(cave0) <= Cells(cave)
    requires Occupied(cave, Start) ==> Occupied(cave0, Start)
    requires count == |Cells(cave) - Cells(cave0)|
    ensures OldKept(cave0, Put(cave, Start, Sand)) && NewSand(cave0, Put(cave, Start, Sand))
    ensures Above(Put(cave, Start, Sand), lim)
    ensures Occupied(Put(cave, Start, Sand), Start) && Put(cave, Start, Sand)[Start.x][Start.y] == Sand
    ensures count + 1 == |Cells(Put(cave, Start, Sand)) - Cells(cave0)| + (if Occupied(cave0, Start) then 1 else 0)
  {
    var c := Put(cave, Start, Sand);
    LastGrainCounts(Cells(cave0), Cells(cave), Start);
    FinalGrainCells(cave0, cave);
    PutAbove(cave, Start, Sand, lim);
  }

  lemma FinalGrainCells(cave0: Cave, cave: Cave)
    requires SandAdded(cave0, cave)
    ensures OldKept(cave0, Put(cave, Start, Sand)) && NewSand(cave0, Put(cave, Start, Sand))
  {
    var c := Put(cave, Start, Sand);
    forall p | Occupied(c, p) && !Occupied(cave0, p)
      ensures c[p.x][p.y] == Sand && InCone(Start, p)
    {
      if p != Start {
        assert Occupied(cave, p);
      }
    }
  }

  lemma PutAbove(cave: Cave, p: Point, e: Elem, lim: int)
    requires Above(cave, lim) && p.y < lim
    ensures Above(Put(cave, p, e), lim)
  {
    var c := Put(cave, p, e);
    forall x, y | x in c && y in c[x] ensures y < lim {
      assert Occupied(c, Point(x, y));
    }
  }

  /** Without a floor a grain rests on something, so in a column of `cave0` and above its lowest row. */
  lemma RestingInBox(cave0: Cave, cave: Cave, b: int, p: Point)
    requires Cells(cave) <= Cells(cave0) + Box(cave0, b) && Above(cave, b + 1)
    requires Resting(cave, p) && InCone(Start, p)
    ensures p in Box(cave0, b)
  {
    assert Point(p.x, p.y + 1) in Cells(cave);
  }

  /**
   * The cave after `n` grains dropped from the entry point, each put as
   * sand where `DropSand` leaves it; `None` once one of them falls out.
   */
  function Pour(cave0: Cave, n: nat): Option<Cave>
  {
    if n == 0 then Some(cave0)
    else match Pour(cave0, n - 1)
      case None => None
      case Some(c) =>
        match DropSand(c, Start)
        case None => None
        case Some(p) => Some(Put(c, p, Sand))
  }

  /** The `k`-th grain falls out when `DropSand` finds no place for it. */
  lemma PourFallsOut(cave0: Cave, n: nat, c: Cave)
    requires Pour(cave0, n) == Some(c) && DropSand(c, Start).None?
    ensures Pour(cave0, n + 1).None?
  {
  }

  /** Once a grain has fallen out, no later pouring has a cave. */
  lemma {:induction false} PourStaysOut(cave0: Cave, k: nat, n: nat)
    requires k <= n && Pour(cave0, k).None?
    ensures Pour(cave0, n).None?
    decreases n - k
  {
    if k < n {
      PourStaysOut(cave0, k + 1, n);
    }
  }

  /** When grain `n + 1` falls out, no more than `n` grains ever rest. */
  lemma {:induction false} PourCountBound(cave0: Cave, n: nat, m: nat)
    requires Pour(cave0, n).Some? && Pour(cave0, n + 1).None?
    requires Pour(cave0, m).Some?
    ensures m <= n
  {
    if n < m {
      PourStaysOut(cave0, n + 1, m);
    }
  }

  /** The grain after `n` falls out, and so no larger count of grains has a cave. */
  lemma PourEnds(cave0: Cave, n: nat, c: Cave)
    requires Pour(cave0, n) == Some(c) && DropSand(c, Start).None?
    ensures forall k :: k > n ==> Pour(cave0, k).None?
  {
    forall k | k > n
      ensures Pour(cave0, k).None?
    {
      PourEndsAt(cave0, n, c, k);
    }
  }

  lemma PourEndsAt(cave0: Cave, n: nat, c: Cave, k: nat)
    requires Pour(cave0, n) == Some(c) && DropSand(c, Start).None? && k > n
    ensures Pour(cave0, k).None?
  {
    PourFallsOut(cave0, n, c);
    PourStaysOut(cave0, n + 1, k);
  }

  /**
   * A ledge of three rocks under the entry point: the first grain rests on
   * it, the second rolls off to the left and falls out, so exactly one grain
   * comes to rest.
   */
  lemma PourLedge()
    ensures var cave := map[499 := map[2 := Rock], 500 := map[2 := Rock], 501 := map[2 := Rock]];
      && Pour(cave, 1) == Some(Put(cave, Point(500, 1), Sand))
      && Pour(cave, 2).None?
  {
    var cave := map[499 := map[2 := Rock], 500 := map[2 := Rock], 501 := map[2 := Rock]];
    assert 2 in cave[500] && cave[500].Keys == {2};
    assert NearestBelow(cave[500], 0) == Some(2);
    assert DropSand(cave, Start) == Some(Point(500, 1));
    var c := Put(cave, Point(500, 1), Sand);
    assert c[500] == map[2 := Rock, 1 := Sand] && c[499] == cave[499] && 498 !in c;
    assert 1 in c[500] && c[500].Keys == {1, 2};
    assert NearestBelow(c[500], 0) == Some(1);
    assert 2 in c[499] && c[499].Keys == {2};
    assert NearestBelow(c[499], 1) == Some(2);
    assert DropSand(c, Point(499, 1)).None?;
    assert DropSand(c, Start).None?;
  }

  /** There is at most one count of grains after which the next grain falls out. */
  lemma PourCountUnique(cave0: Cave, n: nat, m: nat)
    requires Pour(cave0, n).Some? && Pour(cave0, n + 1).None?
    requires Pour(cave0, m).Some? && Pour(cave0, m + 1).None?
    ensures n == m
  {
    PourCountBound(cave0, n, m);
    PourCountBound(cave0, m, n);
  }

  /** Two caves with the same columns that hold the same rows below row `y`. */
  ghost predicate SameBelow(c1: Cave, c2: Cave, y: int)
  {
    c1.Keys == c2.Keys && forall x, k :: x in c1 && k > y ==> (k in c1[x] <==> k in c2[x])
  }

  lemma NearestBelowSame(col1: Column, col2: Column, y: int)
    requires forall k :: k > y ==> (k in col1 <==> k in col2)
    ensures NearestBelow(col1, y) == NearestBelow(col2, y)
  {
  }

  /** What `DropSand` finds depends only on the columns and the rows below the grain. */
  lemma {:induction false} DropSandSameBelow(c1: Cave, c2: Cave, sand: Point)
    requires SameBelow(c1, c2, sand.y)
    ensures DropSand(c1, sand) == DropSand(c2, sand)
    decreases RowsBelow(c1, sand.y)
  {
    if sand.x in c1 {
      NearestBelowSame(c1[sand.x], c2[sand.x], sand.y);
      var nb := NearestBelow(c1[sand.x], sand.y);
      if nb.Some? {
        var y := nb.value;
        RowsBelowShrink(c1, sand.x, sand.y, y);
        if sand.x - 1 in c1 && y !in c1[sand.x - 1] {
          DropSandSameBelow(c1, c2, Point(sand.x - 1, y));
        } else if sand.x - 1 in c1 && sand.x + 1 in c1 && y !in c1[sand.x + 1] {
          DropSandSameBelow(c1, c2, Point(sand.x + 1, y));
        }
      }
    }
  }

  /** Writing a cell at or above a grain, in a column the cave has, changes nothing below the grain. */
  lemma PutAboveSame(cave: Cave, p: Point, e: Elem, y: int)
    requires p.x in cave && p.y <= y
    ensures SameBelow(Put(cave, p, e), cave, y)
  {
  }

  /** A grain that comes to rest started over a column the cave has. */
  lemma DropSandColumn(cave: Cave, sand: Point)
    requires DropSand(cave, sand).Some?
    ensures sand.x in cave
  {
  }

  /** Sand put again on a cell that already holds sand leaves the cave as it is. */
  lemma PutSandAgain(cave: Cave, p: Point)
    ensures Put(Put(cave, p, Sand), p, Sand) == Put(cave, p, Sand)
  {
    var c := Put(cave, p, Sand);
    assert c[p.x][p.y := Sand] == c[p.x];
  }

  /** One more grain: it is put as sand where `DropSand` leaves it. */
  lemma PourNext(cave0: Cave, n: nat, c: Cave, p: Point)
    requires Pour(cave0, n) == Some(c) && DropSand(c, Start) == Some(p)
    ensures Pour(cave0, n + 1) == Some(Put(c, p, Sand))
  {
  }

  lemma PourStep(cave0: Cave, n: nat, c: Cave, p: Point, k: nat)
    requires Pour(cave0, n) == Some(c) && DropSand(c, Start) == Some(p) && k == n + 1
    ensures Pour(cave0, k) == Some(Put(c, p, Sand))
  {
    PourNext(cave0, n, c, p);
  }

  /** A grain that rests on the entry point leaves the next one resting there too. */
  lemma RestsOnStartAgain(c: Cave)
    requires DropSand(c, Start) == Some(Start)
    ensures DropSand(Put(c, Start, Sand), Start) == Some(Start)
  {
    DropSandColumn(c, Start);
    PutAboveSame(c, Start, Sand, Start.y);
    DropSandSameBelow(Put(c, Start, Sand), c, Start);
  }

  /** With sand on the entry point where the grains rest, one more grain changes nothing. */
  lemma StuckStep(cave0: Cave, c: Cave, m: nat, k: nat)
    requires Pour(cave0, m) == Some(Put(c, Start, Sand)) && DropSand(c, Start) == Some(Start) && k == m + 1
    ensures Pour(cave0, k) == Some(Put(c, Start, Sand))
  {
    RestsOnStartAgain(c);
    PutSandAgain(c, Start);
    PourStep(cave0, m, Put(c, Start, Sand), Start, k);
  }

  /**
   * Once a grain rests on the entry point itself, every later grain rests
   * there too and the cave no longer changes: no grain ever falls out.
   */
  lemma {:induction false} PourStuck(cave0: Cave, n: nat, c: Cave, k: nat)
    requires Pour(cave0, n) == Some(c) && DropSand(c, Start) == Some(Start) && n < k
    ensures Pour(cave0, k) == Some(Put(c, Start, Sand))
  {
    var m: nat := k - 1;
    if m == n {
      PourStep(cave0, n, c, Start, k);
    } else {
      PourStuck(cave0, n, c, m);
      StuckStep(cave0, c, m, k);
    }
  }

  /** A cave after `n` grains means a cave after every smaller count. */
  lemma PourPrefix(cave0: Cave, k: nat, n: nat)
    requires k <= n && Pour(cave0, n).Some?
    ensures Pour(cave0, k).Some?
  {
    if Pour(cave0, k).None? {
      PourStaysOut(cave0, k, n);
    }
  }

  /** A grain resting on the entry point: every number of grains has a cave, so the pouring never ends. */
  lemma PourForever(cave0: Cave, n: nat, c: Cave)
    requires Pour(cave0, n) == Some(c) && DropSand(c, Start) == Some(Start)
    ensures forall k :: Pour(cave0, k).Some?
  {
    forall k ensures Pour(cave0, k).Some? {
      PourForeverAt(cave0, n, c, k);
    }
  }

  lemma PourForeverAt(cave0: Cave, n: nat, c: Cave, k: nat)
    requires Pour(cave0, n) == Some(c) && DropSand(c, Start) == Some(Start)
    ensures Pour(cave0, k).Some?
  {
    if k <= n {
      PourPrefix(cave0, k, n);
    } else {
      PourStuck(cave0, n, c, k);
    }
  }

  /**
   * The cave after `n` grains dropped from the entry point onto a floor at
   * row `bottom`, each put as sand where `DropSandWithBottom` leaves it.
   */
  function PourOnFloor(cave0: Cave, bottom: int, n: nat): Cave
  {
    if n == 0 then cave0
    else
      var c := PourOnFloor(cave0, bottom, n - 1);
      Put(c, DropSandWithBottom(c, Start, bottom), Sand)
  }

  /** Grain number `n` (counting from 0) of a pouring onto the floor comes to rest on the entry point. */
  predicate LandsOnStart(cave0: Cave, bottom: int, n: nat)
  {
    DropSandWithBottom(PourOnFloor(cave0, bottom, n), Start, bottom) == Start
  }

  /** Grain number `n` is the first to come to rest on the entry point. */
  ghost predicate FirstOnStart(cave0: Cave, bottom: int, n: nat)
  {
    LandsOnStart(cave0, bottom, n) && forall k :: 0 <= k < n ==> !LandsOnStart(cave0, bottom, k)
  }

  /** One more grain on the floor: it is put as sand where `DropSandWithBottom` leaves it. */
  lemma PourOnFloorStep(cave0: Cave, bottom: int, n: nat)
    ensures var c := PourOnFloor(cave0, bottom, n);
      PourOnFloor(cave0, bottom, n + 1) == Put(c, DropSandWithBottom(c, Start, bottom), Sand)
  {
  }

  /** The row of the endless floor: two below the lowest occupied row. */
  function Floor(cave0: Cave): (r: int)
    requires Rows(cave0) != {}
    ensures Above(cave0, r - 1)
    ensures exists x :: x in cave0 && r - 2 in cave0[x]
  {
    AboveRows(cave0, SetMax(Rows(cave0)) + 1);
    SetMax(Rows(cave0)) + 2
  }

  /** No grain before number `m` rests on the entry point, when grain `m - 1` does not and none before it does. */
  lemma NotOnStartYet(cave0: Cave, bottom: int, n: nat, m: nat)
    requires forall k :: 0 <= k < n ==> !LandsOnStart(cave0, bottom, k)
    requires !LandsOnStart(cave0, bottom, n) && m == n + 1
    ensures forall k :: 0 <= k < m ==> !LandsOnStart(cave0, bottom, k)
  {
    forall k | 0 <= k < m
      ensures !LandsOnStart(cave0, bottom, k)
    {
      if k == n {
      }
    }
  }

  /** At most one grain is the first to rest on the entry point. */
  lemma FirstOnStartUnique(cave0: Cave, bottom: int, n: nat, m: nat)
    requires FirstOnStart(cave0, bottom, n) && FirstOnStart(cave0, bottom, m)
    ensures n == m
  {
  }

  /** A floor above the entry point: every grain, however many came before, lands straight below the entry. */
  lemma FloorAboveStartForever(cave0: Cave, bottom: int, n: nat)
    requires Above(cave0, bottom) && bottom < 1
    ensures Above(PourOnFloor(cave0, bottom, n), bottom)
    ensures DropSandWithBottom(PourOnFloor(cave0, bottom, n), Start, bottom) == Point(Start.x, bottom - 1)
  {
    FloorAboveStartStays(cave0, bottom, n);
    FloorAboveStart(PourOnFloor(cave0, bottom, n), bottom);
  }

  /** A floor above the entry point: the poured cave stays above the floor. */
  lemma {:induction false} FloorAboveStartStays(cave0: Cave, bottom: int, n: nat)
    requires Above(cave0, bottom) && bottom < 1
    ensures Above(PourOnFloor(cave0, bottom, n), bottom)
  {
    if n > 0 {
      var m: nat := n - 1;
      FloorAboveStartStays(cave0, bottom, m);
      FloorAboveStartStep(cave0, bottom, m, n);
    }
  }

  lemma FloorAboveStartStep(cave0: Cave, bottom: int, m: nat, n: nat)
    requires Above(PourOnFloor(cave0, bottom, m), bottom) && bottom < 1 && n == m + 1
    ensures Above(PourOnFloor(cave0, bottom, n), bottom)
  {
    FloorAboveStart(PourOnFloor(cave0, bottom, m), bottom);
    PourOnFloorStep(cave0, bottom, m);
  }

  /**
   * Problem 1: drops grains from the entry point until one falls out of the
   * cave, and counts those that came to rest. When a grain comes to rest on
   * the entry point itself the next one finds the same place, and the
   * source program loops without end in a release build (in a debug build
   * its `i32` counter overflows and panics after 2^31 - 1 grains): the model
   * reports `Forever` there. The answer is the number of grains `Pour` can
   * drop before one falls out.
   */
  method Problem1(cave0: Cave) returns (outcome: Outcome, cave: Cave)
    ensures !outcome.Panic?
    ensures SandAdded(cave0, cave)
    ensures outcome.Finished? ==> outcome.count == |Cells(cave) - Cells(cave0)| && DropSand(cave, Start).None?
    ensures outcome.Finished? ==> Pour(cave0, outcome.count) == Some(cave)
    ensures outcome.Finished? ==> forall k :: k > outcome.count ==> Pour(cave0, k).None?
    ensures outcome.Forever? ==> DropSand(cave, Start) == Some(Start) && Occupied(cave, Start)
    ensures outcome.Forever? ==> forall k :: Pour(cave0, k).Some?
  {
    var b := if Rows(cave0) == {} then 0 else SetMax(Rows(cave0));
    cave := cave0;
    AboveRows(cave, b + 1);
    var count: nat := 0;
    while true
      invariant Above(cave, b + 1) && SandAdded(cave0, cave)
      invariant Cells(cave0) <= Cells(cave) <= Cells(cave0) + Box(cave0, b)
      invariant count == |Cells(cave) - Cells(cave0)|
      invariant Pour(cave0, count) == Some(cave)
      decreases |Box(cave0, b) - Cells(cave)|
    {
      var drop := DropSand(cave, Start);
      if drop.None? {
        PourEnds(cave0, count, cave);
        return Finished(count), cave;
      }
      var p := drop.value;
      if Occupied(cave, p) {
        Problem1Forever(cave0, count, cave);
        return Forever, cave;
      }
      Problem1Step(cave0, cave, b, count, p);
      cave := Put(cave, p, Sand);
      count := count + 1;
    }
  }

  /** A grain that rests on an occupied cell rests on the entry point, and the loop of `Problem1` never ends. */
  lemma Problem1Forever(cave0: Cave, n: nat, cave: Cave)
    requires Pour(cave0, n) == Some(cave)
    requires DropSand(cave, Start).Some? && Occupied(cave, DropSand(cave, Start).value)
    ensures DropSand(cave, Start) == Some(Start) && Occupied(cave, Start)
    ensures forall k :: Pour(cave0, k).Some?
  {
    PourForever(cave0, n, cave);
  }

  /** One turn of the loop of `Problem1` keeps its invariant and fills one more cell of the box. */
  lemma Problem1Step(cave0: Cave, cave: Cave, b: int, count: nat, p: Point)
    requires Above(cave, b + 1) && SandAdded(cave0, cave)
    requires Cells(cave0) <= Cells(cave) <= Cells(cave0) + Box(cave0, b)
    requires count == |Cells(cave) - Cells(cave0)| && Pour(cave0, count) == Some(cave)
    requires DropSand(cave, Start) == Some(p) && !Occupied(cave, p)
    ensures var c := Put(cave, p, Sand);
      && Above(c, b + 1) && SandAdded(cave0, c)
      && Cells(cave0) <= Cells(c) <= Cells(cave0) + Box(cave0, b)
      && count + 1 == |Cells(c) - Cells(cave0)| && Pour(cave0, count + 1) == Some(c)
      && |Box(cave0, b) - Cells(c)| < |Box(cave0, b) - Cells(cave)|
  {
    RestingInBox(cave0, cave, b, p);
    AddGrain(cave0, cave, b + 1, Box(cave0, b), p);
    PourNext(cave0, count, cave, p);
  }

  /**
   * Problem 2: the same with an endless floor two rows below the lowest
   * rock, until a grain comes to rest on the entry point; that grain is
   * counted too. The floor is the maximum over all occupied rows, and the
   * program panics when there is none. A floor at or above the entry
   * point makes every grain land below the entry, and the program never
   * ends (`FloorAboveStart`; in a debug build the `i32` counter panics
   * after 2^31 - 1 grains). The answer is the index of the first grain of
   * `PourOnFloor` that lands on the entry, plus one.
   */
  method Problem2(cave0: Cave) returns (outcome: Outcome, cave: Cave)
    ensures outcome.Panic? <==> Rows(cave0) == {}
    ensures Rows(cave0) != {} ==> (outcome.Forever? <==> SetMax(Rows(cave0)) + 2 < 1)
    ensures outcome.Finished? ==> OldKept(cave0, cave) && NewSand(cave0, cave)
    ensures outcome.Finished? ==> Above(cave, SetMax(Rows(cave0)) + 2)
    ensures outcome.Finished? ==> Occupied(cave, Start) && cave[Start.x][Start.y] == Sand
    ensures outcome.Finished? ==>
      outcome.count == |Cells(cave) - Cells(cave0)| + (if Occupied(cave0, Start) then 1 else 0)
    ensures outcome.Finished? ==>
      && outcome.count > 0
      && FirstOnStart(cave0, Floor(cave0), outcome.count - 1)
      && cave == PourOnFloor(cave0, Floor(cave0), outcome.count)
    ensures outcome.Forever? ==> forall n :: !LandsOnStart(cave0, Floor(cave0), n)
  {
    cave := cave0;
    if Rows(cave0) == {} {
      return Panic, cave;
    }
    var bottom := Floor(cave0);
    AboveRows(cave, bottom);
    if bottom < 1 {
      forall n ensures !LandsOnStart(cave0, bottom, n) {
        FloorAboveStartForever(cave0, bottom, n);
      }
      return Forever, cave;
    }
    var count: nat := 0;
    while true
      invariant Above(cave, bottom) && SandAdded(cave0, cave)
      invariant Occupied(cave, Start) ==> Occupied(cave0, Start)
      invariant Cells(cave0) <= Cells(cave) <= Cells(cave0) + ConeBox(bottom)
      invariant count == |Cells(cave) - Cells(cave0)|
      invariant cave == PourOnFloor(cave0, bottom, count)
      invariant forall k :: 0 <= k < count ==> !LandsOnStart(cave0, bottom, k)
      decreases |ConeBox(bottom) - Cells(cave)|
    {
      var pt := DropSandWithBottom(cave, Start, bottom);
      if pt == Start {
        FinalGrain(cave0, cave, bottom, count);
        Problem2Final(cave0, bottom, cave, count);
        return Finished(count + 1), Put(cave, Start, Sand);
      }
      Problem2Step(cave0, bottom, cave, count, pt);
      cave := Put(cave, pt, Sand);
      count := count + 1;
    }
  }

  /** One turn of the loop of `Problem2` with a grain that does not rest on the entry point keeps its invariant. */
  lemma Problem2Step(cave0: Cave, bottom: int, cave: Cave, count: nat, pt: Point)
    requires 0 < bottom && Above(cave, bottom) && SandAdded(cave0, cave)
    requires Occupied(cave, Start) ==> Occupied(cave0, Start)
    requires Cells(cave0) <= Cells(cave) <= Cells(cave0) + ConeBox(bottom)
    requires count == |Cells(cave) - Cells(cave0)|
    requires cave == PourOnFloor(cave0, bottom, count)
    requires forall k :: 0 <= k < count ==> !LandsOnStart(cave0, bottom, k)
    requires pt == DropSandWithBottom(cave, Start, bottom) && pt != Start
    ensures var c := Put(cave, pt, Sand);
      && Above(c, bottom) && SandAdded(cave0, c)
      && (Occupied(c, Start) ==> Occupied(cave0, Start))
      && Cells(cave0) <= Cells(c) <= Cells(cave0) + ConeBox(bottom)
      && count + 1 == |Cells(c) - Cells(cave0)|
      && c == PourOnFloor(cave0, bottom, count + 1)
      && (forall k :: 0 <= k < count + 1 ==> !LandsOnStart(cave0, bottom, k))
      && |ConeBox(bottom) - Cells(c)| < |ConeBox(bottom) - Cells(cave)|
  {
    assert pt in ConeBox(bottom);
    AddGrain(cave0, cave, bottom, ConeBox(bottom), pt);
    PourOnFloorStep(cave0, bottom, count);
    NotOnStartYet(cave0, bottom, count, count + 1);
  }

  /** The grain that rests on the entry point ends `Problem2`: it is the first to, and the cave is the pouring of one more grain. */
  lemma Problem2Final(cave0: Cave, bottom: int, cave: Cave, count: nat)
    requires cave == PourOnFloor(cave0, bottom, count)
    requires forall k :: 0 <= k < count ==> !LandsOnStart(cave0, bottom, k)
    requires DropSandWithBottom(cave, Start, bottom) == Start
    ensures FirstOnStart(cave0, bottom, count + 1 - 1)
    ensures Put(cave, Start, Sand) == PourOnFloor(cave0, bottom, count + 1)
  {
    PourOnFloorStep(cave0, bottom, count);
  }

  // Reading the input: one rock path per line, `x,y` points joined by " -> ".

  /** One point of a path; each coordinate must parse as an `i32`. */
  function ParsePoint(s: string): (r: Option<Point>)
    ensures r.Some? ==> I32_MIN <= r.value.x <= I32_MAX && I32_MIN <= r.value.y <= I32_MAX
  {
    match SplitOnce(s, ',')
    case None => None
    case Some((a, b)) =>
      match (ParseIn(a, I32_MIN, I32_MAX), ParseIn(b, I32_MIN, I32_MAX))
      case (Some(x), Some(y)) => Some(Point(x, y))
      case _ => None
  }

  function ParsePath(line: string): Option<seq<Point>>
  {
    CollectAll(Split(line, " -> "), ParsePoint)
  }

  /** Points whose coordinates the input can hold, and how it writes them. */
  predicate Printable(p: Point)
  {
    0 <= p.x <= I32_MAX && 0 <= p.y <= I32_MAX
  }

  function ShowPoint(p: Point): string
    requires Printable(p)
  {
    NatToString(p.x) + "," + NatToString(p.y)
  }

  function ShowPoints(pts: seq<Point>): (r: seq<string>)
    requires forall k :: 0 <= k < |pts| ==> Printable(pts[k])
    ensures |r| == |pts| && forall k :: 0 <= k < |pts| ==> r[k] == ShowPoint(pts[k])
  {
    if pts == [] then [] else [ShowPoint(pts[0])] + ShowPoints(pts[1..])
  }

  function ShowPath(pts: seq<Point>): string
    requires forall k :: 0 <= k < |pts| ==> Printable(pts[k])
  {
    Join(ShowPoints(pts), " -> ")
  }

  lemma ParsePointShown(p: Point)
    requires Printable(p)
    ensures ParsePoint(ShowPoint(p)) == Some(p)
    ensures Lacks(ShowPoint(p), ' ')
  {
    var a, b := NatToString(p.x), NatToString(p.y);
    assert Lacks(a, ',') by {
      forall i | 0 <= i < |a| ensures a[i] != ',' {
        assert IsDigit(a[i]);
      }
    }
    assert a + "," + b == a + [','] + b;
    SplitOnceAt(a, ',', b);
    NatToStringParses(p.x);
    NatToStringParses(p.y);
    var s := ShowPoint(p);
    forall i | 0 <= i < |s| ensures s[i] != ' ' {
      if i < |a| {
        assert s[i] == a[i] && IsDigit(a[i]);
      } else if i > |a| {
        assert s[i] == b[i - |a| - 1] && IsDigit(b[i - |a| - 1]);
      }
    }
  }

  /** A path written the way the input writes it reads back as the same points. */
  lemma ParsePathShown(pts: seq<Point>)
    requires |pts| > 0 && forall k :: 0 <= k < |pts| ==> Printable(pts[k])
    ensures ParsePath(ShowPath(pts)) == Some(pts)
  {
    var parts := ShowPoints(pts);
    forall k | 0 <= k < |pts| ensures ParsePoint(parts[k]) == Some(pts[k]) && Lacks(parts[k], ' ') {
      ParsePointShown(pts[k]);
    }
    SplitJoinLacking(parts, " -> ");
    CollectAllImages(parts, ParsePoint, pts);
  }

  /** Consecutive points share a column or a row. */
  predicate Axial(pts: seq<Point>)
  {
    forall k :: 0 < k < |pts| ==> pts[k - 1].x == pts[k].x || pts[k - 1].y == pts[k].y
  }

  /** The cells between two points of a path, both ends included; none for a diagonal pair. */
  function Segment(p: Point, c: Point): (r: set<Point>)
    ensures forall q :: q in r <==>
      || (p.x == c.x && q.x == p.x && Min(p.y, c.y) <= q.y <= Max(p.y, c.y))
      || (p.x != c.x && p.y == c.y && q.y == p.y && Min(p.x, c.x) <= q.x <= Max(p.x, c.x))
  {
    if p.x == c.x then set y | Min(p.y, c.y) <= y <= Max(p.y, c.y) :: Point(p.x, y)
    else if p.y == c.y then set x | Min(p.x, c.x) <= x <= Max(p.x, c.x) :: Point(x, p.y)
    else {}
  }

  /** A segment runs the same either way, and holds both of its ends. */
  lemma SegmentEnds(p: Point, c: Point)
    requires p.x == c.x || p.y == c.y
    ensures p in Segment(p, c) && c in Segment(p, c)
    ensures Segment(p, c) == Segment(c, p)
  {
  }

  /** The cells of a path: the segments between consecutive points. */
  function PathCells(pts: seq<Point>): set<Point>
  {
    if |pts| < 2 then {} else PathCells(pts[..|pts| - 1]) + Segment(pts[|pts| - 2], pts[|pts| - 1])
  }

  /** The rock of all lines, or `None` when a line is malformed or has a diagonal step. */
  function LinesCells(lines: seq<string>): Option<set<Point>>
  {
    if lines == [] then Some({})
    else
      match (LinesCells(lines[..|lines| - 1]), ParsePath(lines[|lines| - 1]))
      case (Some(cells), Some(pts)) => if Axial(pts) then Some(cells + PathCells(pts)) else None
      case _ => None
  }

  lemma {:induction false} LinesCellsPrefix(lines: seq<string>, j: nat)
    requires j <= |lines| && LinesCells(lines[..j]).None?
    ensures LinesCells(lines).None?
    decreases |lines| - j
  {
    if j < |lines| {
      assert lines[..j + 1][..j] == lines[..j];
      LinesCellsPrefix(lines, j + 1);
    } else {
      assert lines[..j] == lines;
    }
  }

  /** `after` is `before` with exactly the cells of `area` made rock. */
  ghost predicate Painted(before: Cave, after: Cave, area: set<Point>)
  {
    && (forall q :: Occupied(after, q) <==> Occupied(before, q) || q in area)
    && (forall q :: q in area ==> Occupied(after, q) && after[q.x][q.y] == Rock)
    && (forall q :: Occupied(before, q) && q !in area ==> Occupied(after, q) && after[q.x][q.y] == before[q.x][q.y])
  }

  lemma PaintedThen(c1: Cave, c2: Cave, c3: Cave, a: set<Point>, b: set<Point>)
    requires Painted(c1, c2, a) && Painted(c2, c3, b)
    ensures Painted(c1, c3, a + b)
  {
  }

  /**
   * Marks the rock between two consecutive points of a path, creating the
   * columns it needs; `None` where the program panics on a diagonal step.
   */
  method AddSegment(cave: Cave, p: Point, c: Point) returns (r: Option<Cave>)
    ensures r.None? <==> p.x != c.x && p.y != c.y
    ensures r.Some? ==> Painted(cave, r.value, Segment(p, c))
  {
    if p.x == c.x {
      var col: Column := if p.x in cave then cave[p.x] else map[];
      ghost var col0 := col;
      var lo, hi := Min(p.y, c.y), Max(p.y, c.y);
      for y := lo to hi + 1
        invariant RowsRock(col0, col, lo, y)
      {
        col := col[y := Rock];
      }
      ColumnPainted(cave, p, c, col);
      return Some(cave[p.x := col]);
    } else if p.y == c.y {
      var next := cave;
      var lo, hi := Min(p.x, c.x), Max(p.x, c.x);
      assert RowCells(p.y, lo, lo) == {};
      for x := lo to hi + 1
        invariant Painted(cave, next, RowCells(p.y, lo, x))
      {
        RowPaintedStep(cave, next, p.y, lo, x);
        next := Put(next, Point(x, p.y), Rock);
      }
      assert RowCells(p.y, lo, hi + 1) == Segment(p, c);
      return Some(next);
    } else {
      return None;
    }
  }

  /** Column `col` is `col0` with the rows from `lo` up to `y` made rock. */
  ghost predicate RowsRock(col0: Column, col: Column, lo: int, y: int)
  {
    && (forall k :: k in col <==> k in col0 || lo <= k < y)
    && (forall k :: lo <= k < y ==> col[k] == Rock)
    && (forall k :: k in col0 && !(lo <= k < y) ==> col[k] == col0[k])
  }

  /** The column filled along a vertical segment paints exactly its cells. */
  lemma ColumnPainted(cave: Cave, p: Point, c: Point, col: Column)
    requires p.x == c.x
    requires RowsRock(if p.x in cave then cave[p.x] else map[], col, Min(p.y, c.y), Max(p.y, c.y) + 1)
    ensures Painted(cave, cave[p.x := col], Segment(p, c))
  {
  }

  /** The cells of row `y` from `lo` up to `x`. */
  function RowCells(y: int, lo: int, x: int): (r: set<Point>)
    ensures forall q :: q in r <==> q.y == y && lo <= q.x < x
  {
    set i | lo <= i < x :: Point(i, y)
  }

  lemma RowPaintedStep(cave: Cave, next: Cave, y: int, lo: int, x: int)
    requires lo <= x && Painted(cave, next, RowCells(y, lo, x))
    ensures Painted(cave, Put(next, Point(x, y), Rock), RowCells(y, lo, x + 1))
  {
    var after := Put(next, Point(x, y), Rock);
    forall q
      ensures Occupied(after, q) <==> Occupied(cave, q) || q in RowCells(y, lo, x + 1)
    {
      assert q in Cells(after) <==> q in Cells(next) || q == Point(x, y);
    }
  }

  lemma PathCellsStep(pts: seq<Point>, k: nat)
    requires 1 <= k < |pts|
    ensures PathCells(pts[..k + 1]) == PathCells(pts[..k]) + Segment(pts[k - 1], pts[k])
  {
    assert pts[..k + 1][..k] == pts[..k];
  }

  lemma LinesCellsStep(lines: seq<string>, i: nat)
    requires i < |lines| && LinesCells(lines[..i]).Some?
    ensures LinesCells(lines[..i + 1]) ==
      match ParsePath(lines[i])
      case Some(pts) => if Axial(pts) then Some(LinesCells(lines[..i]).value + PathCells(pts)) else None
      case None => None
  {
    assert lines[..i + 1][..i] == lines[..i];
  }

  /** Marks the rock of one path, segment by segment; `None` at a diagonal step. */
  method AddPath(cave: Cave, pts: seq<Point>) returns (r: Option<Cave>)
    requires |pts| > 0
    ensures r.None? <==> !Axial(pts)
    ensures r.Some? ==> Painted(cave, r.value, PathCells(pts))
  {
    var next := cave;
    var prev := pts[0];
    for k := 1 to |pts|
      invariant prev == pts[k - 1]
      invariant forall j :: 0 < j < k ==> pts[j - 1].x == pts[j].x || pts[j - 1].y == pts[j].y
      invariant Painted(cave, next, PathCells(pts[..k]))
    {
      var step := AddSegment(next, prev, pts[k]);
      if step.None? {
        assert !Axial(pts);
        return None;
      }
      PathCellsStep(pts, k);
      PaintedThen(cave, next, step.value, PathCells(pts[..k]), Segment(prev, pts[k]));
      next := step.value;
      prev := pts[k];
    }
    assert pts[..|pts|] == pts;
    return Some(next);
  }

  /** Builds the cave from the lines of the input; `None` where the program panics. */
  method ParseInput(lines: seq<string>) returns (r: Option<Cave>)
    ensures r.Some? <==> LinesCells(lines).Some?
    ensures r.Some? ==> Painted(map[], r.value, LinesCells(lines).value)
  {
    var cave: Cave := map[];
    for i := 0 to |lines|
      invariant LinesCells(lines[..i]).Some?
      invariant Painted(map[], cave, LinesCells(lines[..i]).value)
    {
      LinesCellsStep(lines, i);
      var path := ParsePath(lines[i]);
      if path.None? {
        LinesCellsPrefix(lines, i + 1);
        return None;
      }
      var next := AddPath(cave, path.value);
      if next.None? {
        LinesCellsPrefix(lines, i + 1);
        return None;
      }
      PaintedThen(map[], cave, next.value, LinesCells(lines[..i]).value, PathCells(path.value));
      cave := next.value;
    }
    assert lines[..|lines|] == lines;
    return Some(cave);
  }
}
