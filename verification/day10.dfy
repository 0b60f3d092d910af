/**
 * Day 10: a CPU with one register X, driving a display.
 *
 * `noop` takes one cycle; `addx n` takes two and adds `n` to X when its
 * second cycle ends. Problem 1 adds up cycle number times X during the
 * cycles 20, 60, ..., 220; problem 2 lights pixel c - 1 of a 40-wide row
 * during cycle c when X is at most one away from the pixel's column.
 */
module Day10 {
  import opened Util
  import opened Text

  /** `num` is an `i32`. */
  datatype Instruction = Noop | Addx(num: int)

  /** How many cycles an instruction takes. */
  function Cycles(inst: Instruction): (r: nat)
    ensures 1 <= r <= 2
  {
    match inst
    case Noop => 1
    case Addx(_) => 2
  }

  // Reading the program.

  /**
   * `Instruction::from_str`: the first word names the instruction and
   * `addx` takes an `i32` as its second word. An unknown first word is an
   * error carrying it; a line with no word, or an `addx` whose argument is
   * missing or not an `i32`, is `None` (the program panics there).
   */
  function FromStr(s: string): (r: Option<Result<Instruction, string>>)
    ensures r.Some? ==> |Words(s)| > 0
    ensures r.Some? && r.value.Err? ==> r.value.error == Words(s)[0] && r.value.error !in {"noop", "addx"}
    ensures r.Some? && r.value.Ok? && r.value.value.Addx? ==> I32_MIN <= r.value.value.num <= I32_MAX
  {
    var parts := Words(s);
    if |parts| == 0 then None
    else if parts[0] == "noop" then Some(Ok(Noop))
    else if parts[0] == "addx" then
      if |parts| < 2 then None
      else match ParseIn(parts[1], I32_MIN, I32_MAX)
        case Some(n) => Some(Ok(Addx(n)))
        case None => None
    else Some(Err(parts[0]))
  }

  /** An instruction as a program listing writes it. */
  function Show(inst: Instruction): string
  {
    match inst
    case Noop => "noop"
    case Addx(n) => "addx " + IntToString(n)
  }

  lemma ShowIsWord(n: int)
    ensures IsWord(IntToString(n))
  {
    var s := IntToString(n);
    var d := NatToString(if n < 0 then -n else n);
    forall i | 0 <= i < |s| ensures !IsWhitespace(s[i]) {
      if n < 0 && i > 0 {
        assert s[i] == d[i - 1];
        assert IsDigit(d[i - 1]);
      } else if n >= 0 {
        assert IsDigit(d[i]);
      }
    }
  }

  /** Reading a listed instruction gives it back. */
  lemma FromStrShown(inst: Instruction)
    requires inst.Addx? ==> I32_MIN <= inst.num <= I32_MAX
    ensures FromStr(Show(inst)) == Some(Ok(inst))
  {
    if inst.Noop? {
      assert Join(["noop"], " ") == "noop";
      WordsOfJoin(["noop"]);
    } else {
      var a := IntToString(inst.num);
      ShowIsWord(inst.num);
      assert IsWord("addx");
      assert Join(["addx", a], " ") == "addx " + a;
      WordsOfJoin(["addx", a]);
      IntToStringParses(inst.num);
    }
  }

  /** `parse_input`: every line must read as an instruction. */
  function ParseInput(lines: seq<string>): Option<seq<Instruction>>
  {
    CollectAll(lines, (s: string) => match FromStr(s) case Some(Ok(inst)) => Some(inst) case _ => None)
  }

  // What X is during every cycle.

  function Arg(inst: Instruction): int
  {
    match inst
    case Noop => 0
    case Addx(n) => n
  }

  /** X after the first `k` instructions have finished. */
  function XAfter(insts: seq<Instruction>, k: nat): int
    requires k <= |insts|
  {
    if k == 0 then 1 else XAfter(insts, k - 1) + Arg(insts[k - 1])
  }

  function Repeat(x: int, n: nat): (r: seq<int>)
    ensures |r| == n && forall i :: 0 <= i < n ==> r[i] == x
  {
    seq(n, _ => x)
  }

  /** Total number of cycles the instructions take. */
  function TotalCycles(insts: seq<Instruction>): nat
  {
    if insts == [] then 0 else TotalCycles(insts[..|insts| - 1]) + Cycles(insts[|insts| - 1])
  }

  /** The value of X during each cycle: each instruction's cycles see X as the earlier ones left it. */
  function Trace(insts: seq<Instruction>): (r: seq<int>)
    ensures |r| == TotalCycles(insts)
  {
    if insts == [] then []
    else
      var k := |insts| - 1;
      assert insts[..k] == insts[..|insts| - 1];
      Trace(insts[..k]) + Repeat(XAfter(insts, k), Cycles(insts[k]))
  }

  lemma XAfterPrefix(insts: seq<Instruction>, k: nat, m: nat)
    requires k <= m <= |insts|
    ensures XAfter(insts[..m], k) == XAfter(insts, k)
  {
    if k > 0 {
      XAfterPrefix(insts, k - 1, m);
    }
  }

  /**
   * During each cycle of instruction `k`, X is 1 plus the `addx` arguments
   * of the instructions before it: X only changes when an instruction's
   * last cycle is over.
   */
  lemma {:induction false} TraceDuring(insts: seq<Instruction>, k: nat, j: nat)
    requires k < |insts| && j < Cycles(insts[k])
    ensures |Trace(insts[..k])| + j < |Trace(insts)|
    ensures Trace(insts)[|Trace(insts[..k])| + j] == XAfter(insts, k)
    decreases |insts|
  {
    var n := |insts| - 1;
    var init := insts[..n];
    assert Trace(insts) == Trace(init) + Repeat(XAfter(insts, n), Cycles(insts[n]));
    if k < n {
      assert init[..k] == insts[..k];
      TraceDuring(init, k, j);
      XAfterPrefix(insts, k, n);
      assert |Trace(init[..k])| + j < |Trace(init)|;
    } else {
      assert init == insts[..k];
    }
  }

  // Problem 1: the signal strength.

  predicate Special(c: int)
  {
    c == 20 || c == 60 || c == 100 || c == 140 || c == 180 || c == 220
  }

  /** What cycle `c` adds to the score when X is `x` during it. */
  function Gain(c: int, x: int): int
  {
    if Special(c) then c * x else 0
  }

  /** The score after the cycles of `t`: cycle number times X for every special cycle among them. */
  function Signal(t: seq<int>): int
  {
    if t == [] then 0
    else Signal(t[..|t| - 1]) + Gain(|t|, t[|t| - 1])
  }

  /** The sum of c * X over the cycles `cs` that `t` reaches. */
  function Strength(t: seq<int>, cs: seq<nat>): int
  {
    if cs == [] then 0
    else (if 0 < cs[0] <= |t| then cs[0] * t[cs[0] - 1] else 0) + Strength(t, cs[1..])
  }

  /** One more cycle, with product `p` of its number and X, adds `p` for each time the cycle is listed. */
  lemma {:induction false} StrengthSnoc(t: seq<int>, x: int, cs: seq<nat>, p: int)
    requires p == (|t| + 1) * x
    ensures Strength(t + [x], cs) == Strength(t, cs) + p * Occurrences(cs, |t| + 1)
    decreases |cs|
  {
    if cs != [] {
      StrengthSnoc(t, x, cs[1..], p);
      var o := Occurrences(cs[1..], |t| + 1);
      if cs[0] == |t| + 1 {
        assert (t + [x])[cs[0] - 1] == x;
        assert p * (1 + o) == p + p * o;
      } else if 0 < cs[0] <= |t| {
        assert (t + [x])[cs[0] - 1] == t[cs[0] - 1];
      }
    }
  }

  function Occurrences(cs: seq<nat>, c: nat): nat
  {
    if cs == [] then 0 else (if cs[0] == c then 1 else 0) + Occurrences(cs[1..], c)
  }

  const SpecialCycles: seq<nat> := [20, 60, 100, 140, 180, 220]

  /** The score is the sum of c * X over the special cycles the program reaches. */
  lemma {:induction false} SignalStrength(t: seq<int>)
    ensures Signal(t) == Strength(t, SpecialCycles)
    decreases |t|
  {
    if t != [] {
      var init, x := t[..|t| - 1], t[|t| - 1];
      SignalStrength(init);
      assert init + [x] == t;
      StrengthSnoc(init, x, SpecialCycles, |t| * x);
      OccurrencesSpecial(|t|);
    } else {
      StrengthEmpty(t, SpecialCycles);
    }
  }

  lemma OccurrencesSpecial(c: nat)
    ensures Occurrences(SpecialCycles, c) == if Special(c) then 1 else 0
  {
    var cs := SpecialCycles;
    assert cs[1..] == [60, 100, 140, 180, 220];
    assert cs[2..] == cs[1..][1..] == [100, 140, 180, 220];
    assert cs[3..] == cs[2..][1..] == [140, 180, 220];
    assert cs[4..] == cs[3..][1..] == [180, 220];
    assert cs[5..] == cs[4..][1..] == [220];
    assert cs[5..][1..] == [];
    assert Occurrences(cs[5..], c) == if c == 220 then 1 else 0;
    assert Occurrences(cs[4..], c) == if c == 180 || c == 220 then 1 else 0;
    assert Occurrences(cs[3..], c) == if c == 140 || c == 180 || c == 220 then 1 else 0;
    assert Occurrences(cs[2..], c) == if c == 100 || c == 140 || c == 180 || c == 220 then 1 else 0;
    assert Occurrences(cs[1..], c) == if c == 60 || c == 100 || c == 140 || c == 180 || c == 220 then 1 else 0;
  }

  lemma {:induction false} StrengthEmpty(t: seq<int>, cs: seq<nat>)
    requires t == []
    ensures Strength(t, cs) == 0
    decreases |cs|
  {
    if cs != [] {
      StrengthEmpty(t, cs[1..]);
    }
  }

  // The cycle loop shared by both problems.

  /**
   * The loop's position: instruction `k` is under way with `instCycles` of
   * its cycles still to start, X is what the first `k` instructions left,
   * and `seen` lists X during every cycle started so far.
   */
  ghost predicate Running(insts: seq<Instruction>, k: nat, instCycles: int, x: int, seen: seq<int>)
  {
    && k < |insts|
    && 1 <= instCycles <= Cycles(insts[k])
    && x == XAfter(insts, k)
    && seen == Trace(insts[..k]) + Repeat(x, Cycles(insts[k]) - instCycles)
  }

  /** The cycles started so far are fewer than those of the first `k` + 1 instructions. */
  lemma RunningBound(insts: seq<Instruction>, k: nat, instCycles: int, x: int, seen: seq<int>)
    requires Running(insts, k, instCycles, x, seen)
    ensures |seen| < |Trace(insts[..k + 1])|
  {
    var pre := insts[..k + 1];
    assert pre[..k] == insts[..k];
    assert |Trace(pre)| == |Trace(insts[..k])| + Cycles(insts[k]);
  }

  lemma RunningStart(insts: seq<Instruction>)
    requires |insts| > 0
    ensures Running(insts, 0, Cycles(insts[0]), 1, [])
  {
    assert Trace(insts[..0]) == [];
  }

  /** A cycle that does not end the current instruction. */
  lemma RunningStay(insts: seq<Instruction>, k: nat, instCycles: int, x: int, seen: seq<int>)
    requires Running(insts, k, instCycles, x, seen) && instCycles > 1
    ensures Running(insts, k, instCycles - 1, x, seen + [x])
  {
    var d := Cycles(insts[k]) - instCycles;
    assert Repeat(x, d + 1) == Repeat(x, d) + [x];
  }

  /** The last cycle of instruction `k`: X is updated and the next instruction, if any, is taken. */
  lemma RunningFinish(insts: seq<Instruction>, k: nat, x: int, seen: seq<int>)
    requires Running(insts, k, 1, x, seen)
    ensures seen + [x] == Trace(insts[..k + 1])
    ensures x + Arg(insts[k]) == XAfter(insts, k + 1)
    ensures k + 1 < |insts| ==> Running(insts, k + 1, Cycles(insts[k + 1]), x + Arg(insts[k]), seen + [x])
  {
    var d := Cycles(insts[k]) - 1;
    assert Repeat(x, d + 1) == Repeat(x, d) + [x];
    var pre := insts[..k + 1];
    assert pre[..k] == insts[..k];
    XAfterPrefix(insts, k, k + 1);
    assert Trace(pre) == Trace(insts[..k]) + Repeat(x, Cycles(insts[k]));
    assert Repeat(x + Arg(insts[k]), 0) == [];
    assert seen + [x] + [] == seen + [x];
  }

  /**
   * `problem_1`: the score, which is `Signal` of the whole trace; `None`
   * when there is no instruction (the program panics).
   */
  method Problem1(insts: seq<Instruction>) returns (r: Option<int>)
    ensures r.None? <==> insts == []
    ensures r.Some? ==> r.value == Signal(Trace(insts))
  {
    if insts == [] {
      return None;
    }
    var score := 0;
    var programCounter := 0;
    var k := 0;
    var inst := insts[0];
    var instCycles := Cycles(inst);
    var registerX := 1;
    ghost var seen: seq<int> := [];
    RunningStart(insts);
    while true
      invariant Running(insts, k, instCycles, registerX, seen)
      invariant inst == insts[k]
      invariant programCounter == |seen| && score == Signal(seen)
      decreases TotalCycles(insts) - |seen|
    {
      programCounter := programCounter + 1;
      if Special(programCounter) {
        score := score + programCounter * registerX;
      }
      SignalSnoc(seen, registerX, programCounter);
      CycleBound(insts, k, instCycles, registerX, seen);
      if instCycles > 1 {
        RunningStay(insts, k, instCycles, registerX, seen);
        instCycles := instCycles - 1;
        seen := seen + [registerX];
        continue;
      }
      RunningFinish(insts, k, registerX, seen);
      seen := seen + [registerX];
      registerX := registerX + Arg(inst);
      if k + 1 == |insts| {
        assert insts[..k + 1] == insts;
        break;
      }
      k := k + 1;
      inst := insts[k];
      instCycles := Cycles(inst);
    }
    return Some(score);
  }

  /** One more cycle of X is within the program's cycles. */
  lemma CycleBound(insts: seq<Instruction>, k: nat, instCycles: int, x: int, seen: seq<int>)
    requires Running(insts, k, instCycles, x, seen)
    ensures |seen| + 1 <= TotalCycles(insts)
  {
    RunningBound(insts, k, instCycles, x, seen);
    TraceSoFar(insts, k + 1);
  }

  /** One more cycle adds its product to the score when it is special. */
  lemma SignalSnoc(t: seq<int>, x: int, c: int)
    requires c == |t| + 1
    ensures Signal(t + [x]) == Signal(t) + Gain(c, x)
  {
    assert (t + [x])[..|t|] == t;
  }

  /** The cycles of the first `k` instructions come first in the trace. */
  lemma {:induction false} TraceSoFar(insts: seq<Instruction>, k: nat)
    requires k <= |insts|
    ensures |Trace(insts[..k])| <= |Trace(insts)|
    decreases |insts|
  {
    if k < |insts| {
      var init := insts[..|insts| - 1];
      assert init[..k] == insts[..k];
      TraceSoFar(init, k);
    } else {
      assert insts[..k] == insts;
    }
  }

  // Problem 2: the display.

  /** A pixel is lit when the sprite centred on X covers its column. */
  predicate Lit(x: int, c: nat)
  {
    Abs(x - c % 40) <= 1
  }

  /** Drawing the pixel of one more cycle keeps every pixel lit as `Lit` says. */
  lemma PixelsSnoc(pixels: seq<bool>, seen: seq<int>, x: int, col: int)
    requires |pixels| == |seen| && col == |seen| % 40
    requires forall c :: 0 <= c < |pixels| ==> pixels[c] == Lit(seen[c], c)
    ensures forall c :: 0 <= c < |pixels| + 1 ==> (pixels + [Abs(x - col) <= 1])[c] == Lit((seen + [x])[c], c)
  {
  }

  /** `problem_2`: one pixel per cycle, lit as `Lit` says for X during that cycle. */
  method Problem2(insts: seq<Instruction>) returns (crt: Option<seq<bool>>)
    ensures crt.None? <==> insts == []
    ensures crt.Some? ==> |crt.value| == |Trace(insts)|
    ensures crt.Some? ==> forall c :: 0 <= c < |crt.value| ==> crt.value[c] == Lit(Trace(insts)[c], c)
  {
    if insts == [] {
      return None;
    }
    var pixels: seq<bool> := [];
    var programCounter := 0;
    var k := 0;
    var inst := insts[0];
    var instCycles := Cycles(inst);
    var registerX := 1;
    ghost var seen: seq<int> := [];
    RunningStart(insts);
    while true
      invariant Running(insts, k, instCycles, registerX, seen)
      invariant inst == insts[k]
      invariant programCounter == |seen| == |pixels|
      invariant forall c :: 0 <= c < |pixels| ==> pixels[c] == Lit(seen[c], c)
      decreases TotalCycles(insts) - |seen|
    {
      programCounter := programCounter + 1;
      var xPos := (programCounter - 1) % 40;
      PixelsSnoc(pixels, seen, registerX, xPos);
      pixels := pixels + [Abs(registerX - xPos) <= 1];
      CycleBound(insts, k, instCycles, registerX, seen);
      if instCycles > 1 {
        RunningStay(insts, k, instCycles, registerX, seen);
        instCycles := instCycles - 1;
        seen := seen + [registerX];
        continue;
      }
      RunningFinish(insts, k, registerX, seen);
      seen := seen + [registerX];
      registerX := registerX + Arg(inst);
      if k + 1 == |insts| {
        assert insts[..k + 1] == insts;
        break;
      }
      k := k + 1;
      inst := insts[k];
      instCycles := Cycles(inst);
    }
    return Some(pixels);
  }
}
