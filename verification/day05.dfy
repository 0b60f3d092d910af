/**
 * Day 5: stacks of crates rearranged by a crane.
 *
 * The input is a drawing of the stacks, a line numbering them, a blank
 * line, and then move lines "move N from A to B" with 1-based stack
 * numbers. Problem 1 moves crates one at a time (so a moved block lands
 * upside down); problem 2 moves the block at once, keeping its order. The
 * answer is the top crate of every stack. Every panic of the program (an
 * index out of range, a pop from an empty stack, a `usize` subtraction
 * below zero, `unwrap` of nothing) is a `None` here.
 */
module Day05 {
  import opened Util
  import opened Text

  /** A move with 0-based stack indices. */
  datatype Move = Move(num: nat, from: nat, to: nat)

  type Stacks = seq<seq<char>>

  // Splitting the input at the blank line.

  /** Index of the first empty line, or the number of lines if there is none. */
  function FirstEmpty(lines: seq<string>): (r: nat)
    ensures r <= |lines|
    ensures forall j :: 0 <= j < r ==> lines[j] != ""
    ensures r < |lines| ==> lines[r] == ""
  {
    if lines == [] || lines[0] == "" then 0 else 1 + FirstEmpty(lines[1..])
  }

  /** The non-empty lines, in order. */
  function NonEmpty(lines: seq<string>): (r: seq<string>)
    ensures |r| <= |lines|
    ensures forall j :: 0 <= j < |r| ==> r[j] != "" && r[j] in lines
  {
    if lines == [] then []
    else
      var last := lines[|lines| - 1];
      var rest := NonEmpty(lines[..|lines| - 1]);
      assert forall j :: 0 <= j < |rest| ==> rest[j] in lines[..|lines| - 1];
      if last == "" then rest else rest + [last]
  }

  /**
   * The drawing is every line before the first blank one; the moves are the
   * non-empty lines after it (every later blank line is skipped).
   */
  method SplitSections(lines: seq<string>) returns (stackLines: seq<string>, moveLines: seq<string>)
    ensures stackLines == lines[..FirstEmpty(lines)]
    ensures moveLines == NonEmpty(lines[FirstEmpty(lines)..])
  {
    ghost var e := FirstEmpty(lines);
    stackLines, moveLines := [], [];
    var moveInst := false;
    for k := 0 to |lines|
      invariant moveInst <==> e < k
      invariant !moveInst ==> stackLines == lines[..k] && moveLines == []
      invariant moveInst ==> stackLines == lines[..e] && moveLines == NonEmpty(lines[e..k])
    {
      var line := lines[k];
      if line == "" {
        if moveInst {
          assert lines[e..k + 1] == lines[e..k] + [line];
        } else {
          assert k == e;
          assert lines[e..k + 1] == [line];
          assert NonEmpty(lines[e..k + 1]) == NonEmpty(lines[e..k]);
        }
        moveInst := true;
        continue;
      }
      if !moveInst {
        assert lines[..k + 1] == lines[..k] + [line];
        stackLines := stackLines + [line];
      } else {
        assert lines[e..k + 1] == lines[e..k] + [line];
        moveLines := moveLines + [line];
      }
    }
    assert lines[..|lines|] == lines;
  }

  // The drawing.

  predicate IsCrate(c: char) { 'A' <= c <= 'Z' }

  /** What a drawing row adds to stack `i`: the letter at byte 4i+1, if there is one. */
  function CrateAt(row: string, i: nat): (r: seq<char>)
    ensures |r| <= 1
  {
    if i * 4 + 1 < |row| && IsCrate(row[i * 4 + 1]) then [row[i * 4 + 1]] else []
  }

  /** Stack `i` read from drawing rows listed bottom-up. */
  function Column(rows: seq<string>, i: nat): (r: seq<char>)
    ensures |r| <= |rows|
    ensures forall j :: 0 <= j < |r| ==> IsCrate(r[j])
  {
    if rows == [] then []
    else Column(rows[..|rows| - 1], i) + CrateAt(rows[|rows| - 1], i)
  }

  /**
   * The stacks a drawing shows: as many stacks as the numbering line (the
   * last line) has words, each read from the other lines bottom-up; `None`
   * when there is no line at all.
   */
  function Drawing(stackLines: seq<string>): (r: Option<Stacks>)
    ensures r.None? <==> stackLines == []
    ensures r.Some? ==> |r.value| == |Words(stackLines[|stackLines| - 1])|
  {
    if stackLines == [] then None
    else
      var rev := Reversed(stackLines);
      Some(seq(|Words(rev[0])|, i requires 0 <= i => Column(rev[1..], i)))
  }

  /** The `n` stacks as read from the drawing rows `rows`. */
  ghost predicate ColumnsOf(stacks: Stacks, rows: seq<string>, n: nat)
  {
    |stacks| == n && forall j :: 0 <= j < n ==> stacks[j] == Column(rows, j)
  }

  /** Row `row` pushed onto the stacks before `i`, not yet onto the others. */
  ghost predicate Pushed(stacks: Stacks, prev: seq<string>, row: string, i: nat, n: nat)
  {
    && |stacks| == n && i <= n
    && (forall j :: 0 <= j < i ==> stacks[j] == Column(prev, j) + CrateAt(row, j))
    && (forall j :: i <= j < n ==> stacks[j] == Column(prev, j))
  }

  /** Stack `i` takes the byte at `p` = 4i+1 when it is a letter. */
  lemma PushStep(stacks: Stacks, prev: seq<string>, row: string, i: nat, n: nat, p: nat)
    requires Pushed(stacks, prev, row, i, n) && i < n && p == i * 4 + 1 && p < |row|
    ensures IsCrate(row[p]) ==> Pushed(stacks[i := stacks[i] + [row[p]]], prev, row, i + 1, n)
    ensures !IsCrate(row[p]) ==> Pushed(stacks, prev, row, i + 1, n)
  {
    assert CrateAt(row, i) == if IsCrate(row[p]) then [row[p]] else [];
  }

  /** Once the row is shorter than the next stack's byte, it adds nothing more. */
  lemma PushRest(stacks: Stacks, prev: seq<string>, row: string, i: nat, n: nat, p: nat)
    requires Pushed(stacks, prev, row, i, n) && p == i * 4 + 1 && (i == n || p >= |row|)
    ensures ColumnsOf(stacks, prev + [row], n)
  {
    forall j | 0 <= j < n
      ensures stacks[j] == Column(prev + [row], j)
    {
      assert (prev + [row])[..|prev|] == prev;
      if j >= i {
        assert j * 4 + 1 >= p;
      }
    }
  }

  /** Before any row, every stack is empty. */
  lemma ColumnsNone(n: nat)
    ensures ColumnsOf(seq(n, _ => []), [], n)
  {
  }

  /** Stacks read from every row but the numbering line are the drawing's. */
  lemma ColumnsDrawing(stackLines: seq<string>, stacks: Stacks)
    requires stackLines != []
    requires var rev := Reversed(stackLines); ColumnsOf(stacks, rev[1..], |Words(rev[0])|)
    ensures Drawing(stackLines) == Some(stacks)
  {
    var rev := Reversed(stackLines);
    var n := |Words(rev[0])|;
    assert Drawing(stackLines).value == seq(n, i requires 0 <= i => Column(rev[1..], i));
    assert stacks == Drawing(stackLines).value;
  }

  /** Builds the stacks by pushing the crates of each row, bottom row first. */
  method ParseStacks(stackLines: seq<string>) returns (r: Option<Stacks>)
    ensures r == Drawing(stackLines)
  {
    if stackLines == [] {
      return None;
    }
    var rev := Reversed(stackLines);
    var rows := rev[1..];
    var n := |Words(rev[0])|;
    var stacks: Stacks := seq(n, _ => []);
    ColumnsNone(n);
    for k := 0 to |rows|
      invariant ColumnsOf(stacks, rows[..k], n)
    {
      var line := rows[k];
      assert rows[..k + 1] == rows[..k] + [line];
      var i := 0;
      while i < n
        invariant Pushed(stacks, rows[..k], line, i, n)
      {
        if i * 4 + 1 >= |line| {
          break;
        }
        PushStep(stacks, rows[..k], line, i, n, i * 4 + 1);
        var byte := line[i * 4 + 1];
        if IsCrate(byte) {
          stacks := stacks[i := stacks[i] + [byte]];
        }
        i := i + 1;
      }
      PushRest(stacks, rows[..k], line, i, n, i * 4 + 1);
    }
    assert rows[..|rows|] == rows;
    ColumnsDrawing(stackLines, stacks);
    return Some(stacks);
  }

  // Drawing stacks and reading them back.

  /** How stack `st` looks at `level` (0 is the bottom): "[X]" or three spaces. */
  function DrawnCell(st: seq<char>, level: nat): (r: string)
    ensures |r| == 3
  {
    if level < |st| then ['[', st[level], ']'] else "   "
  }

  /** A row such as "[Z] [M]    ": the cells of all stacks separated by spaces. */
  function DrawnRow(stacks: Stacks, level: nat): (r: string)
    ensures |stacks| > 0 ==> |r| == 4 * |stacks| - 1
  {
    if stacks == [] then ""
    else if |stacks| == 1 then DrawnCell(stacks[0], level)
    else DrawnCell(stacks[0], level) + " " + DrawnRow(stacks[1..], level)
  }

  /** Byte 4i+1 of a drawn row is the crate of stack `i` at that level, or a space. */
  lemma {:induction false} DrawnRowAt(stacks: Stacks, level: nat, i: nat)
    requires i < |stacks|
    ensures i * 4 + 1 < |DrawnRow(stacks, level)|
    ensures DrawnRow(stacks, level)[i * 4 + 1] == if level < |stacks[i]| then stacks[i][level] else ' '
  {
    if i > 0 {
      DrawnRowAt(stacks[1..], level, i - 1);
      var cell := DrawnCell(stacks[0], level);
      var rest := DrawnRow(stacks[1..], level);
      assert (cell + " " + rest)[i * 4 + 1] == rest[(i - 1) * 4 + 1];
    }
  }

  /** The rows of levels 0 to `height` - 1, bottom row first. */
  function DrawnRows(stacks: Stacks, height: nat): (r: seq<string>)
    ensures |r| == height
    ensures forall l :: 0 <= l < height ==> r[l] == DrawnRow(stacks, l)
  {
    if height == 0 then [] else DrawnRows(stacks, height - 1) + [DrawnRow(stacks, height - 1)]
  }

  /** The drawing of `height` rows, top row first, followed by the numbering line. */
  function Draw(stacks: Stacks, height: nat, numbering: string): (r: seq<string>)
    ensures |r| == height + 1
  {
    Reversed(DrawnRows(stacks, height)) + [numbering]
  }

  lemma PrefixSnoc<T>(s: seq<T>, k: nat)
    requires 0 < k <= |s|
    ensures s[..k] == s[..k - 1] + [s[k - 1]]
  {
  }

  /** Rows whose byte 4i+1 holds the crates of `st` bottom-up, then spaces, read back as `st`. */
  lemma {:induction false} ColumnOfRows(rows: seq<string>, i: nat, st: seq<char>)
    requires |st| <= |rows|
    requires forall l :: 0 <= l < |rows| ==> CrateAt(rows[l], i) == if l < |st| then [st[l]] else []
    ensures Column(rows, i) == st
  {
    if rows != [] {
      var k := |rows|;
      var prev := rows[..k - 1];
      if k - 1 < |st| {
        ColumnOfRows(prev, i, st[..k - 1]);
        PrefixSnoc(st, k);
        assert st[..k] == st;
      } else {
        ColumnOfRows(prev, i, st);
        assert Column(prev, i) + [] == Column(prev, i);
      }
    }
  }

  /** Drawn rows show each crate of stack `i` at its level. */
  lemma DrawnRowsCrates(stacks: Stacks, i: nat, height: nat)
    requires i < |stacks| && |stacks[i]| <= height
    requires forall j :: 0 <= j < |stacks[i]| ==> IsCrate(stacks[i][j])
    ensures Column(DrawnRows(stacks, height), i) == stacks[i]
  {
    var rows := DrawnRows(stacks, height);
    var st := stacks[i];
    forall l | 0 <= l < height
      ensures CrateAt(rows[l], i) == if l < |st| then [st[l]] else []
    {
      DrawnRowAt(stacks, l, i);
    }
    ColumnOfRows(rows, i, st);
  }

  /**
   * Reading back a drawing of stacks of capital letters gives the stacks,
   * whatever the numbering line says as long as it has one word per stack.
   */
  lemma DrawingOfDraw(stacks: Stacks, height: nat, numbering: string)
    requires forall i :: 0 <= i < |stacks| ==> |stacks[i]| <= height
    requires forall i, j :: 0 <= i < |stacks| && 0 <= j < |stacks[i]| ==> IsCrate(stacks[i][j])
    requires |Words(numbering)| == |stacks|
    ensures Drawing(Draw(stacks, height, numbering)) == Some(stacks)
  {
    var lines := Draw(stacks, height, numbering);
    var rows := DrawnRows(stacks, height);
    var rev := Reversed(lines);
    assert rev[0] == numbering;
    assert rev[1..] == rows by {
      forall l | 0 <= l < height
        ensures rev[1..][l] == rows[l]
      {
        assert rev[1..][l] == lines[height - 1 - l];
        assert lines[height - 1 - l] == Reversed(rows)[height - 1 - l];
      }
    }
    var r := Drawing(lines).value;
    forall i | 0 <= i < |stacks|
      ensures r[i] == stacks[i]
    {
      DrawnRowsCrates(stacks, i, height);
    }
    assert r == stacks;
  }

  // Reading the moves.

  /**
   * A line "move N from A to B" with the stack numbers made 0-based; `None`
   * when the line is not of that form (the numbers are runs of digits, as
   * the pattern's `\d+` demands, so no sign), a number does not fit a
   * `usize`, or a stack number is 0 (the subtraction would go below zero).
   */
  function ParseMove(line: string): (r: Option<Move>)
    ensures r.Some? ==> var ws := Words(line);
      |ws| == 6 && AllDigits(ws[1]) && AllDigits(ws[3]) && AllDigits(ws[5])
    ensures r.Some? ==> r.value.num <= USIZE_MAX && r.value.from < USIZE_MAX && r.value.to < USIZE_MAX
  {
    var ws := Words(line);
    if |ws| != 6 || ws[0] != "move" || ws[2] != "from" || ws[4] != "to" then None
    else if !AllDigits(ws[1]) || !AllDigits(ws[3]) || !AllDigits(ws[5]) then None
    else
      match (ParseIn(ws[1], 0, USIZE_MAX), ParseIn(ws[3], 0, USIZE_MAX), ParseIn(ws[5], 0, USIZE_MAX))
      case (Some(num), Some(from), Some(to)) =>
        if from == 0 || to == 0 then None else Some(Move(num, from - 1, to - 1))
      case _ => None
  }

  /** A sign before a number is not a digit, so the line is refused. */
  lemma ParseMoveSigned()
    ensures ParseMove("move +1 from 2 to 3") == None
  {
    SignedMoveWords();
    assert !IsDigit("+1"[0]);
  }

  lemma SignedMoveWords()
    ensures Words("move +1 from 2 to 3") == ["move", "+1", "from", "2", "to", "3"]
  {
    SignedMoveIsWords();
    SignedMoveLine();
    WordsOfJoin(["move", "+1", "from", "2", "to", "3"]);
  }

  lemma SignedMoveIsWords()
    ensures forall w <- ["move", "+1", "from", "2", "to", "3"] :: IsWord(w)
  {
    assert IsWord("move") && IsWord("+1") && IsWord("from");
    assert IsWord("2") && IsWord("to") && IsWord("3");
  }

  lemma SignedMoveLine()
    ensures Join(["move", "+1", "from", "2", "to", "3"], " ") == "move +1 from 2 to 3"
  {
    JoinMoveWords("+1", "2", "3");
    assert "move " + "+1" + " from " + "2" + " to " + "3" == "move +1 from 2 to 3";
  }


  /** A move as the input writes it, with 1-based stack numbers. */
  function ShowMove(m: Move): string
  {
    "move " + NatToString(m.num) + " from " + NatToString(m.from + 1) + " to " + NatToString(m.to + 1)
  }

  lemma JoinMoveWords(a: string, b: string, c: string)
    ensures Join(["move", a, "from", b, "to", c], " ") == "move " + a + " from " + b + " to " + c
  {
    var ws := ["move", a, "from", b, "to", c];
    assert ws[5..] == [c];
    assert Join(ws[4..], " ") == "to" + " " + c by {
      assert ws[4..][1..] == ws[5..];
    }
    assert Join(ws[3..], " ") == b + " " + Join(ws[4..], " ") by {
      assert ws[3..][1..] == ws[4..];
    }
    assert Join(ws[2..], " ") == "from" + " " + Join(ws[3..], " ") by {
      assert ws[2..][1..] == ws[3..];
    }
    assert Join(ws[1..], " ") == a + " " + Join(ws[2..], " ") by {
      assert ws[1..][1..] == ws[2..];
    }
    assert Join(ws, " ") == "move" + " " + Join(ws[1..], " ");
  }

  lemma ShowMoveWords(m: Move)
    ensures Words(ShowMove(m))
      == ["move", NatToString(m.num), "from", NatToString(m.from + 1), "to", NatToString(m.to + 1)]
  {
    NumberIsWord(m.num);
    NumberIsWord(m.from + 1);
    NumberIsWord(m.to + 1);
    assert IsWord("move") && IsWord("from") && IsWord("to");
    JoinMoveWords(NatToString(m.num), NatToString(m.from + 1), NatToString(m.to + 1));
    WordsOfJoin(["move", NatToString(m.num), "from", NatToString(m.from + 1), "to", NatToString(m.to + 1)]);
  }

  /** Reading a written move gives it back, stack numbers 1-based on the page and 0-based in the model. */
  lemma ParseMoveShown(m: Move)
    requires m.num <= USIZE_MAX && m.from < USIZE_MAX && m.to < USIZE_MAX
    ensures ParseMove(ShowMove(m)) == Some(m)
  {
    ShowMoveWords(m);
    NatToStringParses(m.num);
    NatToStringParses(m.from + 1);
    NatToStringParses(m.to + 1);
  }


  /** The whole input: the stacks and the moves, or `None` where the program panics. */
  method ParseInput(lines: seq<string>) returns (r: Option<(Stacks, seq<Move>)>)
    ensures r.Some? <==> FirstEmpty(lines) > 0 && CollectAll(NonEmpty(lines[FirstEmpty(lines)..]), ParseMove).Some?
    ensures r.Some? ==> Some(r.value.0) == Drawing(lines[..FirstEmpty(lines)])
    ensures r.Some? ==> Some(r.value.1) == CollectAll(NonEmpty(lines[FirstEmpty(lines)..]), ParseMove)
  {
    var stackLines, moveLines := SplitSections(lines);
    var stacks := ParseStacks(stackLines);
    var moves := CollectAll(moveLines, ParseMove);
    if stacks.None? || moves.None? {
      return None;
    }
    return Some((stacks.value, moves.value));
  }

  // The crates and the answer.

  /** The top crate of every stack, in stack order; `None` if a stack is empty. */
  function Tops(stacks: Stacks): (r: Option<string>)
    ensures r.Some? <==> forall i :: 0 <= i < |stacks| ==> stacks[i] != []
    ensures r.Some? ==> |r.value| == |stacks|
    ensures r.Some? ==> forall i :: 0 <= i < |stacks| ==> r.value[i] == stacks[i][|stacks[i]| - 1]
  {
    if stacks == [] then Some([])
    else
      var rest := Tops(stacks[1..]);
      assert forall i :: 1 <= i < |stacks| ==> stacks[i] == stacks[1..][i - 1];
      if stacks[0] == [] || rest.None? then None
      else Some([stacks[0][|stacks[0]| - 1]] + rest.value)
  }

  // Problem 1: one crate at a time.

  /** One pop from `from` and push onto `to`. */
  function Lift(stacks: Stacks, from: nat, to: nat): Option<Stacks>
  {
    if from >= |stacks| || stacks[from] == [] then None
    else
      var s := stacks[from];
      var popped := stacks[from := s[..|s| - 1]];
      if to >= |stacks| then None
      else Some(popped[to := popped[to] + [s[|s| - 1]]])
  }

  /** `n` lifts from `from` to `to`. */
  function Lifts(stacks: Stacks, from: nat, to: nat, n: nat): Option<Stacks>
  {
    if n == 0 then Some(stacks)
    else
      match Lifts(stacks, from, to, n - 1)
      case None => None
      case Some(s) => Lift(s, from, to)
  }

  /** The stacks after the moves of problem 1. */
  function Crane1(stacks: Stacks, moves: seq<Move>): Option<Stacks>
  {
    if moves == [] then Some(stacks)
    else
      var m := moves[|moves| - 1];
      match Crane1(stacks, moves[..|moves| - 1])
      case None => None
      case Some(s) => Lifts(s, m.from, m.to, m.num)
  }

  lemma {:induction false} LiftsNone(stacks: Stacks, from: nat, to: nat, n: nat, k: nat)
    requires n <= k
    requires Lifts(stacks, from, to, n).None?
    ensures Lifts(stacks, from, to, k).None?
    decreases k
  {
    if k > n {
      LiftsNone(stacks, from, to, n, k - 1);
    }
  }

  lemma {:induction false} Crane1None(stacks: Stacks, moves: seq<Move>, k: nat)
    requires k <= |moves|
    requires Crane1(stacks, moves[..k]).None?
    ensures Crane1(stacks, moves).None?
    decreases |moves|
  {
    if k < |moves| {
      assert moves[..|moves| - 1][..k] == moves[..k];
      Crane1None(stacks, moves[..|moves| - 1], k);
    } else {
      assert moves[..k] == moves;
    }
  }

  lemma {:induction false} ReversedSuffix<T>(s: seq<T>, i: nat)
    requires i < |s|
    ensures Reversed(s[i..]) == Reversed(s[i + 1..]) + [s[i]]
  {
    var lhs, rhs := Reversed(s[i..]), Reversed(s[i + 1..]) + [s[i]];
    assert |lhs| == |rhs|;
    forall k | 0 <= k < |lhs|
      ensures lhs[k] == rhs[k]
    {
      assert lhs[k] == s[|s| - 1 - k];
      if k < |lhs| - 1 {
        assert rhs[k] == s[i + 1..][|s| - i - 2 - k];
      }
    }
  }

  /** The `n`-th lift, after `n` - 1 lifts have reversed the top `n` - 1 crates onto `to`. */
  lemma LiftNext(stacks: Stacks, from: nat, to: nat, n: nat)
    requires from < |stacks| && to < |stacks| && from != to
    requires 0 < n <= |stacks[from]|
    ensures var s := stacks[from];
      Lift(stacks[from := s[..|s| - (n - 1)]][to := stacks[to] + Reversed(s[|s| - (n - 1)..])], from, to)
      == Some(stacks[from := s[..|s| - n]][to := stacks[to] + Reversed(s[|s| - n..])])
  {
    var s := stacks[from];
    var before := stacks[from := s[..|s| - (n - 1)]][to := stacks[to] + Reversed(s[|s| - (n - 1)..])];
    var top := s[|s| - n];
    assert before[from][..|before[from]| - 1] == s[..|s| - n];
    assert before[from][|before[from]| - 1] == top;
    var popped := before[from := s[..|s| - n]];
    assert popped == stacks[from := s[..|s| - n]][to := stacks[to] + Reversed(s[|s| - (n - 1)..])];
    ReversedSuffix(s, |s| - n);
    assert popped[to] + [top] == stacks[to] + Reversed(s[|s| - n..]);
    assert Lift(before, from, to) == Some(popped[to := popped[to] + [top]]);
    assert popped[to := popped[to] + [top]]
      == stacks[from := s[..|s| - n]][to := stacks[to] + Reversed(s[|s| - n..])];
  }

  /**
   * Moving `n` crates one at a time between two different stacks takes the
   * top `n` crates off `from` and puts them on `to` in reverse order; it
   * panics exactly when `from` holds fewer than `n` crates.
   */
  lemma {:induction false} LiftsReverse(stacks: Stacks, from: nat, to: nat, n: nat)
    requires from < |stacks| && to < |stacks| && from != to
    ensures var s := stacks[from];
      Lifts(stacks, from, to, n)
      == if n <= |s| then Some(stacks[from := s[..|s| - n]][to := stacks[to] + Reversed(s[|s| - n..])]) else None
  {
    var s := stacks[from];
    if n > 0 {
      LiftsReverse(stacks, from, to, n - 1);
      if n <= |s| {
        LiftNext(stacks, from, to, n);
      } else if n == |s| + 1 {
        assert Lifts(stacks, from, to, n - 1).value[from] == [];
      }
    } else {
      assert s[..|s|] == s && Reversed(s[|s|..]) == [];
      assert stacks[to] + [] == stacks[to];
      assert stacks[from := s] == stacks;
      assert stacks[to := stacks[to]] == stacks;
    }
  }

  /** Moving crates from a stack onto itself changes nothing, and needs one crate there. */
  lemma {:induction false} LiftsSameStack(stacks: Stacks, from: nat, n: nat)
    requires from < |stacks|
    ensures Lifts(stacks, from, from, n) == if n == 0 || stacks[from] != [] then Some(stacks) else None
  {
    if n > 0 {
      LiftsSameStack(stacks, from, n - 1);
      if stacks[from] != [] {
        var s := stacks[from];
        assert s[..|s| - 1] + [s[|s| - 1]] == s;
        assert stacks[from := s[..|s| - 1]][from := s] == stacks;
      }
    }
  }

  /** Every move of problem 1 keeps the number of stacks and of crates. */
  lemma {:induction false} Crane1Keeps(stacks: Stacks, moves: seq<Move>)
    requires Crane1(stacks, moves).Some?
    ensures |Crane1(stacks, moves).value| == |stacks|
    ensures TotalLength(Crane1(stacks, moves).value) == TotalLength(stacks)
    decreases |moves|
  {
    if moves != [] {
      var m := moves[|moves| - 1];
      Crane1Keeps(stacks, moves[..|moves| - 1]);
      LiftsKeep(Crane1(stacks, moves[..|moves| - 1]).value, m.from, m.to, m.num);
    }
  }

  lemma {:induction false} LiftsKeep(stacks: Stacks, from: nat, to: nat, n: nat)
    requires Lifts(stacks, from, to, n).Some?
    ensures |Lifts(stacks, from, to, n).value| == |stacks|
    ensures TotalLength(Lifts(stacks, from, to, n).value) == TotalLength(stacks)
    ensures forall k :: 0 <= k < |stacks| && k != from && k != to ==> Lifts(stacks, from, to, n).value[k] == stacks[k]
  {
    if n > 0 {
      LiftsKeep(stacks, from, to, n - 1);
      var s0 := Lifts(stacks, from, to, n - 1).value;
      var s := s0[from];
      var popped := s0[from := s[..|s| - 1]];
      TotalLengthUpdate(s0, from, s[..|s| - 1]);
      TotalLengthUpdate(popped, to, popped[to] + [s[|s| - 1]]);
    }
  }

  method Problem1(stacks: Stacks, moves: seq<Move>) returns (r: Option<string>)
    ensures r == match Crane1(stacks, moves) case None => None case Some(s) => Tops(s)
  {
    var cur := stacks;
    for k := 0 to |moves|
      invariant Crane1(stacks, moves[..k]) == Some(cur)
    {
      var mv := moves[k];
      assert moves[..k + 1][..k] == moves[..k];
      ghost var start := cur;
      for j := 0 to mv.num
        invariant Lifts(start, mv.from, mv.to, j) == Some(cur)
      {
        if mv.from >= |cur| || cur[mv.from] == [] || mv.to >= |cur| {
          LiftsNone(start, mv.from, mv.to, j + 1, mv.num);
          Crane1None(stacks, moves, k + 1);
          return None;
        }
        var stack := cur[mv.from];
        var val := stack[|stack| - 1];
        cur := cur[mv.from := stack[..|stack| - 1]];
        cur := cur[mv.to := cur[mv.to] + [val]];
      }
    }
    assert moves[..|moves|] == moves;
    r := Tops(cur);
  }

  // Problem 2: the whole block at once.

  /** One move of problem 2: the top `num` crates go onto `to` in their order. */
  function Block(stacks: Stacks, m: Move): Option<Stacks>
  {
    if m.from >= |stacks| || m.num > |stacks[m.from]| then None
    else
      var s := stacks[m.from];
      var elems := s[|s| - m.num..];
      if m.to >= |stacks| then None
      else
        var appended := stacks[m.to := stacks[m.to] + elems];
        var f := appended[m.from];
        Some(appended[m.from := f[..|f| - m.num]])
  }

  /** The stacks after the moves of problem 2. */
  function Crane2(stacks: Stacks, moves: seq<Move>): Option<Stacks>
  {
    if moves == [] then Some(stacks)
    else
      match Crane2(stacks, moves[..|moves| - 1])
      case None => None
      case Some(s) => Block(s, moves[|moves| - 1])
  }

  lemma {:induction false} Crane2None(stacks: Stacks, moves: seq<Move>, k: nat)
    requires k <= |moves|
    requires Crane2(stacks, moves[..k]).None?
    ensures Crane2(stacks, moves).None?
    decreases |moves|
  {
    if k < |moves| {
      assert moves[..|moves| - 1][..k] == moves[..k];
      Crane2None(stacks, moves[..|moves| - 1], k);
    } else {
      assert moves[..k] == moves;
    }
  }

  /**
   * Between two different stacks, a block move takes the top `num` crates
   * off `from` and puts them on `to` in the same order; a move onto the same
   * stack changes nothing. Either panics exactly when `from` holds fewer
   * than `num` crates.
   */
  lemma BlockKeepsOrder(stacks: Stacks, m: Move)
    requires m.from < |stacks| && m.to < |stacks|
    ensures var s := stacks[m.from];
      Block(stacks, m)
      == if m.num > |s| then None
         else if m.from == m.to then Some(stacks)
         else Some(stacks[m.from := s[..|s| - m.num]][m.to := stacks[m.to] + s[|s| - m.num..]])
  {
    var s := stacks[m.from];
    if m.num <= |s| && m.from == m.to {
      var appended := stacks[m.to := stacks[m.to] + s[|s| - m.num..]];
      assert appended[m.from] == s + s[|s| - m.num..];
      assert (s + s[|s| - m.num..])[..|s|] == s;
      assert appended[m.from := s] == stacks[m.from := s];
      assert stacks[m.from := s] == stacks;
    } else if m.num <= |s| {
      var top := stacks[m.to] + s[|s| - m.num..];
      assert stacks[m.to := top][m.from := s[..|s| - m.num]] == stacks[m.from := s[..|s| - m.num]][m.to := top];
    }
  }

  /** Every move of problem 2 keeps the number of stacks and of crates. */
  lemma {:induction false} Crane2Keeps(stacks: Stacks, moves: seq<Move>)
    requires Crane2(stacks, moves).Some?
    ensures |Crane2(stacks, moves).value| == |stacks|
    ensures TotalLength(Crane2(stacks, moves).value) == TotalLength(stacks)
    decreases |moves|
  {
    if moves != [] {
      var m := moves[|moves| - 1];
      var s0 := Crane2(stacks, moves[..|moves| - 1]).value;
      Crane2Keeps(stacks, moves[..|moves| - 1]);
      var s := s0[m.from];
      var appended := s0[m.to := s0[m.to] + s[|s| - m.num..]];
      var f := appended[m.from];
      TotalLengthUpdate(s0, m.to, s0[m.to] + s[|s| - m.num..]);
      TotalLengthUpdate(appended, m.from, f[..|f| - m.num]);
    }
  }

  method Problem2(stacks: Stacks, moves: seq<Move>) returns (r: Option<string>)
    ensures r == match Crane2(stacks, moves) case None => None case Some(s) => Tops(s)
  {
    var cur := stacks;
    for k := 0 to |moves|
      invariant Crane2(stacks, moves[..k]) == Some(cur)
    {
      var mv := moves[k];
      assert moves[..k + 1][..k] == moves[..k];
      if mv.from >= |cur| || mv.num > |cur[mv.from]| || mv.to >= |cur| {
        Crane2None(stacks, moves, k + 1);
        return None;
      }
      var idx := |cur[mv.from]| - mv.num;
      var elems := cur[mv.from][idx..];
      cur := cur[mv.to := cur[mv.to] + elems];
      ghost var appended := cur;
      assert appended[mv.from][..|appended[mv.from]|] == appended[mv.from];
      for j := 0 to mv.num
        invariant |cur| == |appended| && mv.num <= |appended[mv.from]|
        invariant cur == appended[mv.from := appended[mv.from][..|appended[mv.from]| - j]]
      {
        var stack := cur[mv.from];
        assert stack == appended[mv.from][..|appended[mv.from]| - j];
        assert stack[..|stack| - 1] == appended[mv.from][..|appended[mv.from]| - (j + 1)];
        cur := cur[mv.from := stack[..|stack| - 1]];
      }
    }
    assert moves[..|moves|] == moves;
    r := Tops(cur);
  }
}
