/**
 * Day 11: monkeys passing items around.
 *
 * In a round every monkey, in index order, takes all of its items and
 * inspects them in order: it counts the inspection, computes the new worry
 * level with its operation, relieves it (problem 1 divides by 3, problem
 * 2 reduces it modulo the product of all test moduli), and throws it to
 * the end of one of two other monkeys' lists depending on whether the
 * level is divisible by its test modulus. The score is the product of the
 * two largest inspection counts.
 *
 * The monkeys' rules never change, so the model keeps them in the input
 * `seq<Monkey>` and keeps what the rounds change (the item lists and the
 * inspection counts) in a `State`.
 */
module Day11 {
  import opened Util
  import opened Sorting

  /** The operations the monkey tables use: `old + c`, `old * c` and `old * old`. */
  datatype Op = Add(c: int) | Mul(c: int) | Square

  function Apply(op: Op, x: int): int
  {
    match op
    case Add(c) => x + c
    case Mul(c) => x * c
    case Square => x * x
  }

  datatype Monkey = Monkey(items: seq<int>, op: Op, modulo: int, ifTrue: nat, ifFalse: nat)

  /** Every test modulus is positive and every target is a monkey, as in the monkey tables. */
  predicate WellFormed(ms: seq<Monkey>)
  {
    forall i :: 0 <= i < |ms| ==> ms[i].modulo > 0 && ms[i].ifTrue < |ms| && ms[i].ifFalse < |ms|
  }

  /**
   * How worry is relieved after an inspection: divided by 3 (problem 1),
   * reduced modulo `lcm` (problem 2), or not at all (the reference that
   * problem 2's reduction is compared with).
   */
  datatype Relief = DivideBy3 | ModLcm(lcm: int) | Unrelieved

  predicate ReliefOk(relief: Relief)
  {
    relief.ModLcm? ==> relief.lcm > 0
  }

  function NewWorry(m: Monkey, item: int, relief: Relief): int
    requires ReliefOk(relief)
  {
    var w := Apply(m.op, item);
    match relief
    case DivideBy3 => TDiv(w, 3)
    case ModLcm(lcm) => TRem(w, lcm)
    case Unrelieved => w
  }

  /** Where an item with worry `w` goes: `ifTrue` exactly when `w` is divisible by the test modulus. */
  function Target(m: Monkey, w: int): nat
    requires m.modulo > 0
  {
    if TRem(w, m.modulo) == 0 then m.ifTrue else m.ifFalse
  }

  /** The item lists and the inspection counts. */
  datatype State = State(items: seq<seq<int>>, passes: seq<nat>)

  predicate Fits(ms: seq<Monkey>, st: State)
  {
    |st.items| == |ms| && |st.passes| == |ms|
  }

  function Start(ms: seq<Monkey>): (r: State)
    ensures Fits(ms, r)
  {
    State(seq(|ms|, i requires 0 <= i < |ms| => ms[i].items), seq(|ms|, _ => 0))
  }

  /** Monkey `i` inspects one item and throws it. */
  function Inspect(ms: seq<Monkey>, relief: Relief, st: State, i: nat, item: int): (r: State)
    requires WellFormed(ms) && ReliefOk(relief) && Fits(ms, st) && i < |ms|
    ensures Fits(ms, r)
  {
    var w := NewWorry(ms[i], item, relief);
    var t := Target(ms[i], w);
    State(st.items[t := st.items[t] + [w]], st.passes[i := st.passes[i] + 1])
  }

  /** Monkey `i` inspects `items` in order. */
  function InspectAll(ms: seq<Monkey>, relief: Relief, st: State, i: nat, items: seq<int>): (r: State)
    requires WellFormed(ms) && ReliefOk(relief) && Fits(ms, st) && i < |ms|
    ensures Fits(ms, r)
  {
    if items == [] then st
    else Inspect(ms, relief, InspectAll(ms, relief, st, i, items[..|items| - 1]), i, items[|items| - 1])
  }

  /** Monkey `i`'s turn: its list is emptied first, then every item on it is inspected. */
  function Turn(ms: seq<Monkey>, relief: Relief, st: State, i: nat): (r: State)
    requires WellFormed(ms) && ReliefOk(relief) && Fits(ms, st) && i < |ms|
    ensures Fits(ms, r)
  {
    InspectAll(ms, relief, st.(items := st.items[i := []]), i, st.items[i])
  }

  /** The turns of monkeys 0 to `k` - 1. */
  function Turns(ms: seq<Monkey>, relief: Relief, st: State, k: nat): (r: State)
    requires WellFormed(ms) && ReliefOk(relief) && Fits(ms, st) && k <= |ms|
    ensures Fits(ms, r)
  {
    if k == 0 then st else Turn(ms, relief, Turns(ms, relief, st, k - 1), k - 1)
  }

  function Rounds(ms: seq<Monkey>, relief: Relief, st: State, rounds: nat): (r: State)
    requires WellFormed(ms) && ReliefOk(relief) && Fits(ms, st)
    ensures Fits(ms, r)
  {
    if rounds == 0 then st else Turns(ms, relief, Rounds(ms, relief, st, rounds - 1), |ms|)
  }

  /** One monkey's turn in the round loop, with the item lists and counters changed in place. */
  method TakeTurn(ms: seq<Monkey>, relief: Relief, st: State, mIdx: nat) returns (st': State)
    requires WellFormed(ms) && ReliefOk(relief) && Fits(ms, st) && mIdx < |ms|
    ensures st' == Turn(ms, relief, st, mIdx)
  {
    var items, passes := st.items, st.passes;
    var taken := items[mIdx];
    items := items[mIdx := []];
    ghost var emptied := State(items, passes);
    for j := 0 to |taken|
      invariant State(items, passes) == InspectAll(ms, relief, emptied, mIdx, taken[..j])
    {
      var item := taken[j];
      assert taken[..j + 1][..j] == taken[..j];
      passes := passes[mIdx := passes[mIdx] + 1];
      var worryLevel := NewWorry(ms[mIdx], item, relief);
      var targetIdx := if TRem(worryLevel, ms[mIdx].modulo) == 0 then ms[mIdx].ifTrue else ms[mIdx].ifFalse;
      items := items[targetIdx := items[targetIdx] + [worryLevel]];
    }
    assert taken[..|taken|] == taken;
    st' := State(items, passes);
  }

  /** The round loops of both problems. */
  method Simulate(ms: seq<Monkey>, relief: Relief, rounds: nat) returns (st: State)
    requires WellFormed(ms) && ReliefOk(relief)
    ensures st == Rounds(ms, relief, Start(ms), rounds)
  {
    st := Start(ms);
    for round := 0 to rounds
      invariant st == Rounds(ms, relief, Start(ms), round)
    {
      for mIdx := 0 to |ms|
        invariant st == Turns(ms, relief, Rounds(ms, relief, Start(ms), round), mIdx)
      {
        st := TakeTurn(ms, relief, st, mIdx);
      }
    }
  }

  // Inspections and items.

  /** Each inspection adds one to the inspecting monkey's count and nothing to the others'. */
  lemma {:induction false} InspectAllPasses(ms: seq<Monkey>, relief: Relief, st: State, i: nat, items: seq<int>)
    requires WellFormed(ms) && ReliefOk(relief) && Fits(ms, st) && i < |ms|
    ensures InspectAll(ms, relief, st, i, items).passes == st.passes[i := st.passes[i] + |items|]
    decreases |items|
  {
    if items != [] {
      InspectAllPasses(ms, relief, st, i, items[..|items| - 1]);
    } else {
      assert st.passes[i := st.passes[i]] == st.passes;
    }
  }

  /** Each inspection moves one item from the inspected list to some list. */
  lemma {:induction false} InspectAllItems(ms: seq<Monkey>, relief: Relief, st: State, i: nat, items: seq<int>)
    requires WellFormed(ms) && ReliefOk(relief) && Fits(ms, st) && i < |ms|
    ensures TotalLength(InspectAll(ms, relief, st, i, items).items) == TotalLength(st.items) + |items|
    decreases |items|
  {
    if items != [] {
      var before := InspectAll(ms, relief, st, i, items[..|items| - 1]);
      InspectAllItems(ms, relief, st, i, items[..|items| - 1]);
      var w := NewWorry(ms[i], items[|items| - 1], relief);
      var t := Target(ms[i], w);
      TotalLengthUpdate(before.items, t, before.items[t] + [w]);
    }
  }

  /**
   * A turn counts one inspection per item the monkey held, and keeps the
   * number of items.
   */
  lemma TurnCounts(ms: seq<Monkey>, relief: Relief, st: State, i: nat)
    requires WellFormed(ms) && ReliefOk(relief) && Fits(ms, st) && i < |ms|
    ensures Turn(ms, relief, st, i).passes == st.passes[i := st.passes[i] + |st.items[i]|]
    ensures TotalLength(Turn(ms, relief, st, i).items) == TotalLength(st.items)
  {
    var emptied := st.(items := st.items[i := []]);
    InspectAllPasses(ms, relief, emptied, i, st.items[i]);
    InspectAllItems(ms, relief, emptied, i, st.items[i]);
    TotalLengthUpdate(st.items, i, []);
  }

  /** Rounds never create or destroy items. */
  lemma {:induction false} RoundsKeepItems(ms: seq<Monkey>, relief: Relief, st: State, rounds: nat)
    requires WellFormed(ms) && ReliefOk(relief) && Fits(ms, st)
    ensures TotalLength(Rounds(ms, relief, st, rounds).items) == TotalLength(st.items)
    decreases rounds
  {
    if rounds > 0 {
      var before := Rounds(ms, relief, st, rounds - 1);
      RoundsKeepItems(ms, relief, st, rounds - 1);
      TurnsKeepItems(ms, relief, before, |ms|);
    }
  }

  lemma {:induction false} TurnsKeepItems(ms: seq<Monkey>, relief: Relief, st: State, k: nat)
    requires WellFormed(ms) && ReliefOk(relief) && Fits(ms, st) && k <= |ms|
    ensures TotalLength(Turns(ms, relief, st, k).items) == TotalLength(st.items)
  {
    if k > 0 {
      TurnsKeepItems(ms, relief, st, k - 1);
      TurnCounts(ms, relief, Turns(ms, relief, st, k - 1), k - 1);
    }
  }

  // Problem 2's reduction gives the same throws as no relief at all.

  /** `a` and `b` leave the same remainder modulo `n`. */
  predicate Cong(a: int, b: int, n: int)
    requires n > 0
  {
    (a - b) % n == 0
  }

  lemma MulAtLeast(n: int, d: int)
    requires n > 0 && d >= 1
    ensures n * d >= n
  {
    assert n * d == n + n * (d - 1);
  }

  /** Quotient and remainder are unique. */
  lemma ModUnique(a: int, n: int, q: int, r: int)
    requires n > 0 && 0 <= r < n && a == n * q + r
    ensures a % n == r
  {
    var q0, r0 := a / n, a % n;
    assert a == n * q0 + r0;
    assert n * (q - q0) == r0 - r by {
      assert n * q - n * q0 == n * (q - q0);
    }
    if q > q0 {
      MulAtLeast(n, q - q0);
    } else if q < q0 {
      MulAtLeast(n, q0 - q);
    }
  }

  lemma CongWitness(a: int, b: int, n: int)
    requires n > 0 && Cong(a, b, n)
    ensures a - b == n * ((a - b) / n)
  {
  }

  lemma CongOfMultiple(a: int, b: int, n: int, t: int)
    requires n > 0 && a - b == n * t
    ensures Cong(a, b, n)
  {
    ModUnique(a - b, n, t, 0);
  }

  lemma CongTrans(a: int, b: int, c: int, n: int)
    requires n > 0 && Cong(a, b, n) && Cong(b, c, n)
    ensures Cong(a, c, n)
  {
    CongWitness(a, b, n);
    CongWitness(b, c, n);
    CongOfMultiple(a, c, n, (a - b) / n + (b - c) / n);
  }

  /** The operations respect congruence modulo any `n`. */
  lemma ApplyCong(op: Op, x: int, y: int, n: int)
    requires n > 0 && Cong(x, y, n)
    ensures Cong(Apply(op, x), Apply(op, y), n)
  {
    CongWitness(x, y, n);
    var k := (x - y) / n;
    match op
    case Add(c) =>
    case Mul(c) =>
      assert x * c - y * c == (x - y) * c == n * (k * c);
      CongOfMultiple(x * c, y * c, n, k * c);
    case Square =>
      assert x * x - y * y == (x - y) * (x + y) == n * (k * (x + y));
      CongOfMultiple(x * x, y * y, n, k * (x + y));
  }

  lemma TRemCong(a: int, n: int)
    requires n > 0
    ensures Cong(TRem(a, n), a, n)
  {
    CongOfMultiple(TRem(a, n), a, n, -TDiv(a, n));
  }

  /** `%` of Rust is zero exactly when Dafny's `%` is. */
  lemma TRemZero(a: int, n: int)
    requires n > 0
    ensures TRem(a, n) == 0 <==> a % n == 0
  {
    if a < 0 {
      assert TRem(a, n) == -((-a) % n);
      if (-a) % n == 0 {
        ModUnique(a, n, -((-a) / n), 0);
      }
      if a % n == 0 {
        ModUnique(-a, n, -(a / n), 0);
      }
    }
  }

  /** Congruent numbers modulo a multiple of `m` pass or fail the test of `m` together. */
  lemma CongTest(a: int, b: int, n: int, m: int)
    requires n > 0 && m > 0 && n % m == 0 && Cong(a, b, n)
    ensures TRem(a, m) == 0 <==> TRem(b, m) == 0
  {
    CongWitness(a, b, n);
    CongWitness(n, 0, m);
    var k, j := (a - b) / n, n / m;
    assert a == b + m * (j * k) by {
      assert a - b == n * k && n == m * j;
      assert n * k == m * (j * k);
    }
    ModUnique(a, m, b / m + j * k, b % m);
    TRemZero(a, m);
    TRemZero(b, m);
  }

  /** The product of all test moduli (the program calls it `lcm`). */
  function ModuliProduct(ms: seq<Monkey>): int
  {
    if ms == [] then 1 else ms[0].modulo * ModuliProduct(ms[1..])
  }

  lemma {:induction false} ModuliProductDivisible(ms: seq<Monkey>, i: nat)
    requires forall j :: 0 <= j < |ms| ==> ms[j].modulo > 0
    requires i < |ms|
    ensures ModuliProduct(ms) > 0
    ensures ModuliProduct(ms) % ms[i].modulo == 0
    decreases |ms|
  {
    var rest := ModuliProduct(ms[1..]);
    if |ms| > 1 {
      ModuliProductDivisible(ms[1..], if i > 0 then i - 1 else 0);
    } else {
      assert rest == 1;
    }
    var m0 := ms[0].modulo;
    assert m0 * rest > 0;
    if i == 0 {
      CongOfMultiple(m0 * rest, 0, m0, rest);
    } else {
      assert ms[1..][i - 1] == ms[i];
      var m := ms[i].modulo;
      CongWitness(rest, 0, m);
      var j := rest / m;
      assert m0 * rest == m * (j * m0);
      CongOfMultiple(m0 * rest, 0, m, j * m0);
    }
  }

  /** Two item lists of the same length, pairwise congruent modulo `n`. */
  predicate CongSeq(s: seq<int>, s': seq<int>, n: int)
    requires n > 0
  {
    |s| == |s'| && forall j :: 0 <= j < |s| ==> Cong(s[j], s'[j], n)
  }

  /** Two states with the same counts and congruent item lists modulo `n`. */
  predicate Agree(st: State, st': State, n: int)
    requires n > 0
  {
    && st.passes == st'.passes
    && |st.items| == |st'.items|
    && forall i :: 0 <= i < |st.items| ==> CongSeq(st.items[i], st'.items[i], n)
  }

  /** What makes a reduction modulo `lcm` harmless: every modulus divides it. */
  predicate Multiple(ms: seq<Monkey>, lcm: int)
    requires lcm > 0
  {
    forall i :: 0 <= i < |ms| ==> ms[i].modulo > 0 && lcm % ms[i].modulo == 0
  }

  /** The reduced worry is congruent to the unreduced one and goes to the same monkey. */
  lemma WorryAgrees(m: Monkey, lcm: int, item: int, item': int)
    requires lcm > 0 && m.modulo > 0 && lcm % m.modulo == 0 && Cong(item, item', lcm)
    ensures Cong(NewWorry(m, item, ModLcm(lcm)), NewWorry(m, item', Unrelieved), lcm)
    ensures Target(m, NewWorry(m, item, ModLcm(lcm))) == Target(m, NewWorry(m, item', Unrelieved))
  {
    var v := Apply(m.op, item);
    var w, w' := NewWorry(m, item, ModLcm(lcm)), NewWorry(m, item', Unrelieved);
    ApplyCong(m.op, item, item', lcm);
    TRemCong(v, lcm);
    CongTrans(w, v, w', lcm);
    CongTest(w, w', lcm, m.modulo);
  }

  lemma CongSeqSnoc(s: seq<int>, s': seq<int>, w: int, w': int, n: int)
    requires n > 0 && CongSeq(s, s', n) && Cong(w, w', n)
    ensures CongSeq(s + [w], s' + [w'], n)
  {
  }

  lemma InspectAgrees(ms: seq<Monkey>, lcm: int, st: State, st': State, i: nat, item: int, item': int)
    requires WellFormed(ms) && lcm > 0 && Multiple(ms, lcm) && Fits(ms, st) && Fits(ms, st') && i < |ms|
    requires Agree(st, st', lcm) && Cong(item, item', lcm)
    ensures Agree(Inspect(ms, ModLcm(lcm), st, i, item), Inspect(ms, Unrelieved, st', i, item'), lcm)
  {
    var w, w' := NewWorry(ms[i], item, ModLcm(lcm)), NewWorry(ms[i], item', Unrelieved);
    WorryAgrees(ms[i], lcm, item, item');
    var t := Target(ms[i], w);
    CongSeqSnoc(st.items[t], st'.items[t], w, w', lcm);
  }

  lemma {:induction false} InspectAllAgrees(ms: seq<Monkey>, lcm: int, st: State, st': State, i: nat, items: seq<int>, items': seq<int>)
    requires WellFormed(ms) && lcm > 0 && Multiple(ms, lcm) && Fits(ms, st) && Fits(ms, st') && i < |ms|
    requires Agree(st, st', lcm) && CongSeq(items, items', lcm)
    ensures Agree(InspectAll(ms, ModLcm(lcm), st, i, items), InspectAll(ms, Unrelieved, st', i, items'), lcm)
    decreases |items|
  {
    if items != [] {
      var n := |items| - 1;
      InspectAllAgrees(ms, lcm, st, st', i, items[..n], items'[..n]);
      InspectAgrees(ms, lcm, InspectAll(ms, ModLcm(lcm), st, i, items[..n]), InspectAll(ms, Unrelieved, st', i, items'[..n]), i, items[n], items'[n]);
    }
  }

  lemma TurnAgrees(ms: seq<Monkey>, lcm: int, st: State, st': State, i: nat)
    requires WellFormed(ms) && lcm > 0 && Multiple(ms, lcm) && Fits(ms, st) && Fits(ms, st') && i < |ms|
    requires Agree(st, st', lcm)
    ensures Agree(Turn(ms, ModLcm(lcm), st, i), Turn(ms, Unrelieved, st', i), lcm)
  {
    var e, e' := st.(items := st.items[i := []]), st'.(items := st'.items[i := []]);
    assert Agree(e, e', lcm);
    InspectAllAgrees(ms, lcm, e, e', i, st.items[i], st'.items[i]);
  }

  lemma {:induction false} TurnsAgree(ms: seq<Monkey>, lcm: int, st: State, st': State, k: nat)
    requires WellFormed(ms) && lcm > 0 && Multiple(ms, lcm) && Fits(ms, st) && Fits(ms, st') && k <= |ms|
    requires Agree(st, st', lcm)
    ensures Agree(Turns(ms, ModLcm(lcm), st, k), Turns(ms, Unrelieved, st', k), lcm)
  {
    if k > 0 {
      TurnsAgree(ms, lcm, st, st', k - 1);
      TurnAgrees(ms, lcm, Turns(ms, ModLcm(lcm), st, k - 1), Turns(ms, Unrelieved, st', k - 1), k - 1);
    }
  }

  lemma {:induction false} RoundsAgree(ms: seq<Monkey>, lcm: int, st: State, st': State, rounds: nat)
    requires WellFormed(ms) && lcm > 0 && Multiple(ms, lcm) && Fits(ms, st) && Fits(ms, st')
    requires Agree(st, st', lcm)
    ensures Agree(Rounds(ms, ModLcm(lcm), st, rounds), Rounds(ms, Unrelieved, st', rounds), lcm)
    decreases rounds
  {
    if rounds > 0 {
      RoundsAgree(ms, lcm, st, st', rounds - 1);
      TurnsAgree(ms, lcm, Rounds(ms, ModLcm(lcm), st, rounds - 1), Rounds(ms, Unrelieved, st', rounds - 1), |ms|);
    }
  }

  /**
   * Reducing worry modulo the product of the moduli changes no test: every
   * item is thrown to the same monkey as without any relief, so the
   * inspection counts are the same after any number of rounds.
   */
  lemma ReductionKeepsCounts(ms: seq<Monkey>, rounds: nat)
    requires WellFormed(ms)
    ensures ModuliProduct(ms) > 0
    ensures Rounds(ms, ModLcm(ModuliProduct(ms)), Start(ms), rounds).passes
         == Rounds(ms, Unrelieved, Start(ms), rounds).passes
  {
    var lcm := ModuliProduct(ms);
    if |ms| > 0 {
      ModuliProductDivisible(ms, 0);
    }
    forall i | 0 <= i < |ms|
      ensures lcm % ms[i].modulo == 0
    {
      ModuliProductDivisible(ms, i);
    }
    RoundsAgree(ms, lcm, Start(ms), Start(ms), rounds);
  }

  // The score.

  /** `passes.iter().rev().take(2).product()` on the sorted counts. */
  function TopTwoProduct(sorted: seq<int>): int
  {
    var n := |sorted|;
    if n >= 2 then sorted[n - 1] * sorted[n - 2] else if n == 1 then sorted[0] else 1
  }

  /**
   * With at least two monkeys, the score multiplies the two largest
   * counts: the sorted counts are the counts, the last is at least the
   * one before it, and every other count is at most both.
   */
  lemma TopTwo(passes: seq<nat>)
    requires |passes| >= 2
    ensures var s := SortBy<int>(passes, IntLe); var n := |s|;
      && multiset(s) == multiset(passes)
      && TopTwoProduct(s) == s[n - 1] * s[n - 2]
      && s[n - 2] <= s[n - 1]
      && forall k :: 0 <= k < n - 2 ==> s[k] <= s[n - 2]
  {
    var s := SortBy<int>(passes, IntLe);
    IntLeTotalPreorder();
    SortBySorted<int>(passes, IntLe);
    assert SortedBy(s, IntLe);
  }

  /** `problem_1`: 20 rounds dividing worry by 3; the sorted counts and the score. */
  method Problem1(ms: seq<Monkey>) returns (passes: seq<int>, score: int)
    requires WellFormed(ms)
    ensures passes == SortBy<int>(Rounds(ms, DivideBy3, Start(ms), 20).passes, IntLe)
    ensures score == TopTwoProduct(passes)
  {
    var st := Simulate(ms, DivideBy3, 20);
    passes := SortBy<int>(st.passes, IntLe);
    score := TopTwoProduct(passes);
  }

  /** `problem_2`: 10000 rounds reducing worry modulo the product of the moduli. */
  method Problem2(ms: seq<Monkey>) returns (passes: seq<int>, score: int)
    requires WellFormed(ms)
    ensures passes == SortBy<int>(Rounds(ms, Unrelieved, Start(ms), 10000).passes, IntLe)
    ensures score == TopTwoProduct(passes)
  {
    var lcm := ModuliProduct(ms);
    ReductionKeepsCounts(ms, 10000);
    var st := Simulate(ms, ModLcm(lcm), 10000);
    passes := SortBy<int>(st.passes, IntLe);
    score := TopTwoProduct(passes);
  }
}
