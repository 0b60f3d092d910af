/**
 * Day 9: a rope whose knots follow its head across a grid.
 *
 * Every instruction moves the head a number of unit steps in one direction;
 * after each step every other knot that is no longer touching its
 * predecessor moves toward it. Problem 1 uses a rope of two knots and the
 * follow rule written as a table of offsets; problem 2 uses ten knots and
 * a rule written with signs and magnitudes.
 */
module Day09 {
  import opened Util
  import opened Text

  datatype Dir = Up | Down | Left | Right

  /** `count` is an `i32`; a count of zero or less moves nothing. */
  datatype Inst = Inst(dir: Dir, count: int)

  datatype Loc = Loc(x: int, y: int)

  const Origin := Loc(0, 0)

  // Reading the input: lines such as "R 4".

  function ParseDir(s: string): (r: Option<Dir>)
    ensures r.Some? <==> s in {"U", "D", "L", "R"}
  {
    if s == "U" then Some(Up)
    else if s == "D" then Some(Down)
    else if s == "L" then Some(Left)
    else if s == "R" then Some(Right)
    else None
  }

  /** The first two words of a line: a direction and an `i32` count; `None` where the program panics. */
  function ParseInst(line: string): Option<Inst>
  {
    var ws := Words(line);
    if |ws| < 2 then None
    else
      match (ParseDir(ws[0]), ParseIn(ws[1], I32_MIN, I32_MAX))
      case (Some(d), Some(n)) => Some(Inst(d, n))
      case _ => None
  }

  function ParseInput(lines: seq<string>): Option<seq<Inst>>
  {
    CollectAll(lines, ParseInst)
  }

  function DirLetter(d: Dir): string
  {
    match d
    case Up => "U"
    case Down => "D"
    case Left => "L"
    case Right => "R"
  }

  /** An instruction as the input writes it. */
  function ShowInst(inst: Inst): string
    requires 0 <= inst.count
  {
    DirLetter(inst.dir) + " " + NatToString(inst.count)
  }

  lemma ParseInstShown(inst: Inst)
    requires 0 <= inst.count <= I32_MAX
    ensures ParseInst(ShowInst(inst)) == Some(inst)
  {
    var a, b := DirLetter(inst.dir), NatToString(inst.count);
    assert IsWord(a);
    assert IsWord(b) by {
      forall i | 0 <= i < |b| ensures !IsWhitespace(b[i]) {
        assert IsDigit(b[i]);
      }
    }
    assert Join([a, b], " ") == a + " " + b;
    WordsOfJoin([a, b]);
    NatToStringParses(inst.count);
  }

  // The moves.

  /** The unit step of the head; "up" and "down" change `x`. */
  function Delta(d: Dir): (r: (int, int))
    ensures Abs(r.0) + Abs(r.1) == 1
  {
    match d
    case Up => (1, 0)
    case Down => (-1, 0)
    case Left => (0, -1)
    case Right => (0, 1)
  }

  function Shift(l: Loc, d: Dir): Loc
  {
    Loc(l.x + Delta(d).0, l.y + Delta(d).1)
  }

  function Chebyshev(a: Loc, b: Loc): nat
  {
    Max(Abs(a.x - b.x), Abs(a.y - b.y))
  }

  /** Two knots no longer touch. */
  predicate TooFar(a: Loc, b: Loc)
  {
    Abs(a.x - b.x) > 1 || Abs(a.y - b.y) > 1
  }

  lemma TooFarChebyshev(a: Loc, b: Loc)
    ensures TooFar(a, b) <==> Chebyshev(a, b) > 1
  {
  }

  /** The offsets of the table in problem 1: the tail two away along an axis, or a knight's move away. */
  predicate Tabled(n: (int, int))
  {
    || n in {(0, 2), (0, -2), (2, 0), (-2, 0)}
    || (Abs(n.0) == 1 && (n.1 == 2 || n.1 == -2))
    || (Abs(n.1) == 1 && (n.0 == 2 || n.0 == -2))
  }

  /** The tail's move in problem 1, by the offset of the tail from the head; (0, 0) outside the table. */
  function TailDelta1(head: Loc, tail: Loc): (r: (int, int))
    ensures Abs(r.0) <= 1 && Abs(r.1) <= 1
    ensures !Tabled((tail.x - head.x, tail.y - head.y)) ==> r == (0, 0)
  {
    var n := (tail.x - head.x, tail.y - head.y);
    match n
    case (0, 2) => (0, -1)
    case (0, -2) => (0, 1)
    case (2, 0) => (-1, 0)
    case (-2, 0) => (1, 0)
    case _ =>
      if n.1 == 2 && Abs(n.0) == 1 then (-n.0, -1)
      else if n.1 == -2 && Abs(n.0) == 1 then (-n.0, 1)
      else if n.0 == 2 && Abs(n.1) == 1 then (-1, -n.1)
      else if n.0 == -2 && Abs(n.1) == 1 then (1, -n.1)
      else (0, 0)
  }

  /** Problem 1's tail after its head moved to `head`: it moves at most one in each coordinate. */
  function Follow1(head: Loc, tail: Loc): (r: Loc)
    ensures Abs(r.x - tail.x) <= 1 && Abs(r.y - tail.y) <= 1
    ensures !TooFar(head, tail) ==> r == tail
  {
    if TooFar(head, tail) then
      var d := TailDelta1(head, tail);
      Loc(tail.x + d.0, tail.y + d.1)
    else tail
  }

  /**
   * The move back toward the head in problem 2, subtracted from the tail.
   * The program's last, unreachable arm cannot be taken: the three guards
   * before it compare two magnitudes in every possible way.
   */
  function TailDelta2(head: Loc, tail: Loc): (int, int)
  {
    var x, y := tail.x - head.x, tail.y - head.y;
    if x == 0 && y == 0 then (0, 0)
    else if Abs(x) == Abs(y) then (Sign(x) * (Abs(x) - 1), Sign(y) * (Abs(y) - 1))
    else if Abs(x) > Abs(y) then (Sign(x) * (Abs(x) - 1), y)
    else if Abs(x) < Abs(y) then (x, Sign(y) * (Abs(y) - 1))
    else assert false; (0, 0)
  }

  /** Problem 2's knot after its predecessor moved to `head`: touching it, however far it was. */
  function Follow2(head: Loc, tail: Loc): (r: Loc)
    ensures Chebyshev(head, r) <= 1
    ensures !TooFar(head, tail) ==> r == tail
  {
    if TooFar(head, tail) then
      var d := TailDelta2(head, tail);
      Loc(tail.x - d.0, tail.y - d.1)
    else tail
  }

  /**
   * The two rules agree wherever problem 1 uses its own: a tail touching
   * the head, then the head one unit step away. There the table is never
   * left for its (0, 0) fallback, and the tail touches the head again.
   */
  lemma FollowRulesAgree(head: Loc, tail: Loc, d: Dir)
    requires !TooFar(head, tail)
    ensures var h := Shift(head, d);
      && (TooFar(h, tail) ==> Tabled((tail.x - h.x, tail.y - h.y)))
      && Follow1(h, tail) == Follow2(h, tail)
      && Chebyshev(h, Follow1(h, tail)) <= 1
  {
  }

  // Problem 1: a head and one tail.

  datatype Knots = Knots(head: Loc, tail: Loc)

  /** `count` unit steps in direction `d`. */
  function Repeat(d: Dir, count: int): (r: seq<Dir>)
    ensures |r| == Max(count, 0) && forall i :: 0 <= i < |r| ==> r[i] == d
  {
    seq(Max(count, 0), _ => d)
  }

  /** Every unit step of a list of instructions. */
  function Steps(insts: seq<Inst>): seq<Dir>
  {
    if insts == [] then []
    else Steps(insts[..|insts| - 1]) + Repeat(insts[|insts| - 1].dir, insts[|insts| - 1].count)
  }

  function Step1(k: Knots, d: Dir): Knots
  {
    var h := Shift(k.head, d);
    Knots(h, Follow1(h, k.tail))
  }

  /** Where head and tail are after the unit steps `dirs`, both starting at the origin. */
  function After1(dirs: seq<Dir>): Knots
  {
    if dirs == [] then Knots(Origin, Origin)
    else Step1(After1(dirs[..|dirs| - 1]), dirs[|dirs| - 1])
  }

  /** The origin and every place the tail is in after one of the unit steps `dirs`. */
  function Visited1(dirs: seq<Dir>): set<Loc>
  {
    if dirs == [] then {Origin}
    else Visited1(dirs[..|dirs| - 1]) + {After1(dirs).tail}
  }

  /** After every unit step the tail touches the head, and the table's fallback is never used. */
  lemma {:induction false} After1Touching(dirs: seq<Dir>)
    ensures !TooFar(After1(dirs).head, After1(dirs).tail)
    ensures dirs != [] ==>
      var k := After1(dirs[..|dirs| - 1]);
      var h := Shift(k.head, dirs[|dirs| - 1]);
      TooFar(h, k.tail) ==> Tabled((k.tail.x - h.x, k.tail.y - h.y))
    decreases |dirs|
  {
    if dirs != [] {
      var k := After1(dirs[..|dirs| - 1]);
      After1Touching(dirs[..|dirs| - 1]);
      FollowRulesAgree(k.head, k.tail, dirs[|dirs| - 1]);
    }
  }

  lemma {:induction false} VisitedHasTail(dirs: seq<Dir>)
    ensures After1(dirs).tail in Visited1(dirs)
  {
  }

  lemma StepsNext(insts: seq<Inst>, i: nat)
    requires i < |insts|
    ensures Steps(insts[..i + 1]) == Steps(insts[..i]) + Repeat(insts[i].dir, insts[i].count)
  {
    assert insts[..i + 1][..i] == insts[..i];
  }

  lemma RepeatNext(done: seq<Dir>, d: Dir, j: nat)
    ensures done + Repeat(d, 0) == done
    ensures done + Repeat(d, j + 1) == (done + Repeat(d, j)) + [d]
  {
    assert Repeat(d, j + 1) == Repeat(d, j) + [d];
  }

  lemma After1Next(before: seq<Dir>, d: Dir)
    ensures After1(before + [d]) == Step1(After1(before), d)
    ensures Visited1(before + [d]) == Visited1(before) + {Step1(After1(before), d).tail}
  {
    assert (before + [d])[..|before|] == before;
  }

  /** The program's head, tail and record are those after the unit steps `steps`. */
  ghost predicate Tracks1(steps: seq<Dir>, head: Loc, tail: Loc, visited: set<Loc>)
  {
    Knots(head, tail) == After1(steps) && visited == Visited1(steps)
  }

  /** One unit step of the program's loop body: the head moves, and the tail only when too far, being recorded then. */
  lemma Step1Next(steps: seq<Dir>, d: Dir, head: Loc, tail: Loc, visited: set<Loc>)
    requires Tracks1(steps, head, tail, visited)
    ensures var h := Shift(head, d);
      Tracks1(steps + [d], h, Follow1(h, tail), if TooFar(h, tail) then visited + {Follow1(h, tail)} else visited)
  {
    After1Next(steps, d);
    var h := Shift(head, d);
    var t := Follow1(h, tail);
    RecordStep(visited, tail, t, TooFar(h, tail));
    if !TooFar(h, tail) {
      VisitedHasTail(steps);
    }
  }

  lemma RecordStep(visited: set<Loc>, tail: Loc, t: Loc, far: bool)
    requires !far ==> t == tail && tail in visited
    ensures (if far then visited + {t} else visited) == visited + {t}
  {
  }

  /**
   * The tail of problem 1. The program records the tail only when it moves;
   * that is every place it is in, since a tail that did not move is where it
   * was recorded before.
   */
  method Problem1(insts: seq<Inst>) returns (visited: set<Loc>, answer: nat)
    ensures visited == Visited1(Steps(insts)) && answer == |visited|
  {
    var head := Origin;
    var tail := Origin;
    visited := {};
    visited := visited + {tail};
    ghost var steps: seq<Dir> := [];
    for i := 0 to |insts|
      invariant steps == Steps(insts[..i])
      invariant Tracks1(steps, head, tail, visited)
    {
      var d := insts[i].dir;
      ghost var done := steps;
      RepeatNext(done, d, 0);
      var j := 0;
      while j < insts[i].count
        invariant 0 <= j <= Max(insts[i].count, 0)
        invariant steps == done + Repeat(d, j)
        invariant Tracks1(steps, head, tail, visited)
      {
        RepeatNext(done, d, j);
        Step1Next(steps, d, head, tail, visited);
        head := Shift(head, d);
        if TooFar(head, tail) {
          var dt := TailDelta1(head, tail);
          tail := Loc(tail.x + dt.0, tail.y + dt.1);
          visited := visited + {tail};
        }
        steps := steps + [d];
        j := j + 1;
      }
      StepsNext(insts, i);
    }
    assert insts[..|insts|] == insts;
    answer := |visited|;
  }

  // Problem 2: ten knots.

  const RopeLength := 10

  /** Knot `i` of `rope` after the head took a unit step in direction `d`. */
  function Knot(rope: seq<Loc>, d: Dir, i: nat): Loc
    requires i < |rope|
  {
    if i == 0 then Shift(rope[0], d) else Follow2(Knot(rope, d, i - 1), rope[i])
  }

  function MoveRope(rope: seq<Loc>, d: Dir): (r: seq<Loc>)
    ensures |r| == |rope|
  {
    seq(|rope|, i requires 0 <= i < |rope| => Knot(rope, d, i))
  }

  /** Each knot touches the one before it after every move. */
  lemma MoveRopeTouching(rope: seq<Loc>, d: Dir, i: nat)
    requires 0 < i < |rope|
    ensures Chebyshev(MoveRope(rope, d)[i - 1], MoveRope(rope, d)[i]) <= 1
  {
  }

  /** The rope after the unit steps `dirs`, every knot starting at the origin. */
  function After2(dirs: seq<Dir>): (r: seq<Loc>)
    ensures |r| == RopeLength
  {
    if dirs == [] then seq(RopeLength, _ => Origin)
    else MoveRope(After2(dirs[..|dirs| - 1]), dirs[|dirs| - 1])
  }

  /**
   * What the program records for each knot: the origin, and for the head
   * the place it leaves at each step, for every other knot the place it is
   * in after each step.
   */
  function Visited2(dirs: seq<Dir>): (r: seq<set<Loc>>)
    ensures |r| == RopeLength
  {
    if dirs == [] then seq(RopeLength, _ => {Origin})
    else
      var v, before, after := Visited2(dirs[..|dirs| - 1]), After2(dirs[..|dirs| - 1]), After2(dirs);
      seq(RopeLength, i requires 0 <= i < RopeLength => if i == 0 then v[0] + {before[0]} else v[i] + {after[i]})
  }

  /** The last knot's record holds every place it is in after each unit step. */
  lemma {:induction false} LastKnotVisits(dirs: seq<Dir>, k: nat)
    requires k <= |dirs|
    ensures After2(dirs[..k])[RopeLength - 1] in Visited2(dirs)[RopeLength - 1]
    decreases |dirs|
  {
    if k < |dirs| {
      assert dirs[..|dirs| - 1][..k] == dirs[..k];
      LastKnotVisits(dirs[..|dirs| - 1], k);
    } else if dirs != [] {
      assert dirs[..k] == dirs;
    }
  }

  lemma InitialRecords(visited: seq<set<Loc>>)
    requires |visited| == RopeLength && forall k :: 0 <= k < RopeLength ==> visited[k] == {Origin}
    ensures visited == Visited2([])
  {
  }

  /**
   * The pass over the knots of one unit step, up to knot `idx`: the knots
   * before it have moved and been recorded, the others are as they were.
   */
  ghost predicate PassDone(old0: seq<Loc>, v0: seq<set<Loc>>, d: Dir, rope: seq<Loc>, visited: seq<set<Loc>>, idx: nat)
  {
    && |old0| == RopeLength && |v0| == RopeLength
    && |rope| == RopeLength && |visited| == RopeLength && 1 <= idx <= RopeLength
    && (forall k :: 0 <= k < idx ==> rope[k] == Knot(old0, d, k))
    && (forall k :: idx <= k < RopeLength ==> rope[k] == old0[k])
    && visited[0] == v0[0] + {old0[0]}
    && (forall k :: 1 <= k < RopeLength ==> visited[k] == if k < idx then v0[k] + {rope[k]} else v0[k])
  }

  /** Moving the head and recording where it was starts the pass. */
  lemma PassStart(old0: seq<Loc>, v0: seq<set<Loc>>, d: Dir)
    requires |old0| == RopeLength && |v0| == RopeLength
    ensures PassDone(old0, v0, d, old0[0 := Shift(old0[0], d)], v0[0 := v0[0] + {old0[0]}], 1)
  {
  }

  /** Knot `idx` follows its predecessor and is recorded where it ends. */
  lemma PassStep(old0: seq<Loc>, v0: seq<set<Loc>>, d: Dir, rope: seq<Loc>, visited: seq<set<Loc>>, idx: nat)
    requires PassDone(old0, v0, d, rope, visited, idx) && idx < RopeLength
    ensures var t := Follow2(rope[idx - 1], rope[idx]);
      PassDone(old0, v0, d, rope[idx := t], visited[idx := visited[idx] + {t}], idx + 1)
    ensures !TooFar(rope[idx - 1], rope[idx]) ==>
      PassDone(old0, v0, d, rope, visited[idx := visited[idx] + {rope[idx]}], idx + 1)
  {
    var t := Follow2(rope[idx - 1], rope[idx]);
    if !TooFar(rope[idx - 1], rope[idx]) {
      assert rope[idx := t] == rope;
    }
  }

  /** What one pass over the knots leaves is the rope and the records after one more unit step. */
  lemma After2Next(steps: seq<Dir>, d: Dir, rope: seq<Loc>, visited: seq<set<Loc>>)
    requires PassDone(After2(steps), Visited2(steps), d, rope, visited, RopeLength)
    ensures rope == After2(steps + [d]) && visited == Visited2(steps + [d])
  {
    assert (steps + [d])[..|steps|] == steps;
  }

  /** Moves the head, then every knot after its predecessor, in place. */
  method Problem2(insts: seq<Inst>) returns (rope: seq<Loc>, visited: seq<set<Loc>>, answer: nat)
    ensures rope == After2(Steps(insts))
    ensures visited == Visited2(Steps(insts))
    ensures answer == |visited[RopeLength - 1]|
  {
    rope := seq(RopeLength, _ => Origin);
    visited := seq(RopeLength, _ => {});
    for idx := 0 to |rope|
      invariant |visited| == RopeLength
      invariant forall k :: 0 <= k < RopeLength ==> visited[k] == if k < idx then {Origin} else {}
    {
      visited := visited[idx := visited[idx] + {rope[idx]}];
    }
    InitialRecords(visited);
    ghost var steps: seq<Dir> := [];
    for i := 0 to |insts|
      invariant steps == Steps(insts[..i])
      invariant rope == After2(steps) && visited == Visited2(steps)
    {
      var d := insts[i].dir;
      ghost var done := steps;
      RepeatNext(done, d, 0);
      var j := 0;
      while j < insts[i].count
        invariant 0 <= j <= Max(insts[i].count, 0)
        invariant steps == done + Repeat(d, j)
        invariant rope == After2(steps) && visited == Visited2(steps)
      {
        RepeatNext(done, d, j);
        ghost var old0, v0 := rope, visited;
        PassStart(old0, v0, d);
        visited := visited[0 := visited[0] + {rope[0]}];
        rope := rope[0 := Shift(rope[0], d)];
        for idx := 1 to |rope|
          invariant PassDone(old0, v0, d, rope, visited, idx)
        {
          PassStep(old0, v0, d, rope, visited, idx);
          var head, tail := rope[idx - 1], rope[idx];
          if TooFar(head, tail) {
            var dt := TailDelta2(head, tail);
            tail := Loc(tail.x - dt.0, tail.y - dt.1);
            rope := rope[idx := tail];
          }
          visited := visited[idx := visited[idx] + {rope[idx]}];
        }
        After2Next(steps, d, rope, visited);
        steps := steps + [d];
        j := j + 1;
      }
      StepsNext(insts, i);
    }
    assert insts[..|insts|] == insts;
    answer := |visited[RopeLength - 1]|;
  }
}
