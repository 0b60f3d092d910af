/** Day 13, days/13/src/packet.rs: distress-signal packets. A packet is a
    number or a bracketed, comma-separated list of packets. The module models
    the textual form (`Display`), the byte-by-byte stack parser (`from_str`)
    and the three-way comparison (`Ord::cmp`). */
module Packet {
  import opened Util
  import opened Text
  import opened Sorting

  /** The packet's numbers are `u8`. */
  type u8 = x: int | 0 <= x < 256

  datatype Packet = Num(n: u8) | List(items: seq<Packet>)

  // ---------------------------------------------------------------------------
  // Accessors

  /** `Packet::list`: the items of a list packet. */
  function ListOf(p: Packet): Option<seq<Packet>>
  {
    match p
    case List(items) => Some(items)
    case Num(_) => None
  }

  /** `Packet::num`: the value of a number packet. */
  function NumOf(p: Packet): Option<u8>
  {
    match p
    case List(_) => None
    case Num(n) => Some(n)
  }

  /** `Packet::is_list`. */
  predicate IsList(p: Packet) { p.List? }

  /** `Packet::is_num`. */
  predicate IsNum(p: Packet) { p.Num? }

  /** Exactly one accessor answers, and its answer rebuilds the packet. */
  lemma AccessorsPartition(p: Packet)
    ensures IsList(p) != IsNum(p)
    ensures ListOf(p).Some? <==> IsList(p)
    ensures NumOf(p).Some? <==> IsNum(p)
    ensures ListOf(p).Some? ==> p == List(ListOf(p).value)
    ensures NumOf(p).Some? ==> p == Num(NumOf(p).value)
  {
  }

  // ---------------------------------------------------------------------------
  // Display

  /** `Display`: a number in decimal, a list as '[' items joined by ',' ']'. */
  function Show(p: Packet): string
  {
    match p
    case Num(n) => NatToString(n)
    case List(items) => "[" + ShowItems(items) + "]"
  }

  /** The items of a list: the first one, then ",item" for each further one. */
  function ShowItems(ps: seq<Packet>): string
  {
    if |ps| == 0 then []
    else if |ps| == 1 then Show(ps[0])
    else Show(ps[0]) + "," + ShowItems(ps[1..])
  }

  // ---------------------------------------------------------------------------
  // Parsing

  datatype ParseError =
    | MissingOpen            // Err: the text does not start with '['
    | MissingClose           // Err: the text does not end with ']'
    | UnexpectedChar(c: char) // Err: a byte other than a digit, ',', '[' or ']'
    | UnmatchedClose         // panic: `stack.pop().unwrap()` on an empty stack
    | Unclosed               // panic: `assert!(stack.is_empty())`
    | DigitOverflow          // panic: `u8` overflow while accumulating digits

  /** What the parser saves when it meets '[': the enclosing list so far and
      its pending number. */
  datatype Frame = Frame(many: seq<Packet>, single: Option<u8>)

  /** The parser's variables: `stack`, `many` and `single`. */
  datatype State = State(stack: seq<Frame>, many: seq<Packet>, single: Option<u8>)

  const Start := State([], [], None)

  predicate Allowed(c: char) { IsDigit(c) || c == ',' || c == '[' || c == ']' }

  /** Move a pending number, if any, into the current list. */
  function Flush(st: State): (r: State)
    ensures r.single == None && r.stack == st.stack
  {
    match st.single
    case None => st
    case Some(v) => st.(many := st.many + [Num(v)], single := None)
  }

  /** The parser's reaction to one byte of the text between the outer brackets. */
  function Step(st: State, ch: char): Result<State, ParseError>
  {
    if IsDigit(ch) then
      var d := DigitValue(ch);
      match st.single
      case None => Ok(st.(single := Some(d)))
      case Some(v) =>
        if v * 10 + d < 256 then Ok(st.(single := Some(v * 10 + d))) else Err(DigitOverflow)
    else if ch == ',' then
      Ok(Flush(st))
    else if ch == '[' then
      Ok(State(st.stack + [Frame(st.many, st.single)], [], None))
    else if ch == ']' then
      if st.stack == [] then Err(UnmatchedClose)
      else
        var top := st.stack[|st.stack| - 1];
        Ok(State(st.stack[..|st.stack| - 1], top.many + [List(Flush(st).many)], top.single))
    else
      Err(UnexpectedChar(ch))
  }

  /** The parser's loop over a text: the first error stops it. */
  function Run(st: State, t: string): Result<State, ParseError>
    decreases |t|
  {
    if t == [] then Ok(st)
    else match Step(st, t[0])
      case Err(e) => Err(e)
      case Ok(next) => Run(next, t[1..])
  }

  /** `Packet::from_str` as a function of the text. */
  function Parse(s: string): Result<Packet, ParseError>
  {
    if |s| == 0 || s[0] != '[' then Err(MissingOpen)
    else if s[|s| - 1] != ']' then Err(MissingClose)
    else match Run(Start, s[1..|s| - 1])
      case Err(e) => Err(e)
      case Ok(st) => if st.stack != [] then Err(Unclosed) else Ok(List(Flush(st).many))
  }

  /** `Packet::from_str`: the byte loop over the text between the outer
      brackets, updating `stack`, `many` and `single` in place. */
  method FromStr(s: string) returns (r: Result<Packet, ParseError>)
    ensures r == Parse(s)
  {
    if |s| == 0 || s[0] != '[' {
      return Err(MissingOpen);
    }
    if s[|s| - 1] != ']' {
      return Err(MissingClose);
    }
    var inner := s[1..|s| - 1];
    var stack: seq<Frame> := [];
    var many: seq<Packet> := [];
    var single: Option<u8> := None;
    var i := 0;
    while i < |inner|
      invariant 0 <= i <= |inner|
      invariant Run(State(stack, many, single), inner[i..]) == Run(Start, inner)
    {
      var ch := inner[i];
      assert inner[i..][0] == ch && inner[i..][1..] == inner[i + 1..];
      if '0' <= ch <= '9' {
        var d := DigitValue(ch);
        match single {
          case None =>
            single := Some(d);
          case Some(v) =>
            if v * 10 + d >= 256 {
              return Err(DigitOverflow);
            }
            single := Some(v * 10 + d);
        }
      } else if ch == ',' {
        if single.Some? {
          many := many + [Num(single.value)];
          single := None;
        }
      } else if ch == '[' {
        stack := stack + [Frame(many, single)];
        many := [];
        single := None;
      } else if ch == ']' {
        if single.Some? {
          many := many + [Num(single.value)];
          single := None;
        }
        var packet := List(many);
        if stack == [] {
          return Err(UnmatchedClose);
        }
        var top := stack[|stack| - 1];
        stack := stack[..|stack| - 1];
        many, single := top.many, top.single;
        many := many + [packet];
      } else {
        return Err(UnexpectedChar(ch));
      }
      i := i + 1;
    }
    if stack != [] {
      return Err(Unclosed);
    }
    if single.Some? {
      many := many + [Num(single.value)];
    }
    return Ok(List(many));
  }

  // ---------------------------------------------------------------------------
  // What the parser accepts

  /** A run of digits accumulates into one base-10 number pending in `single`. */
  lemma {:induction false} DigitsAccumulate(st: State, t: string, rest: string)
    requires st.single == None && |t| > 0 && AllDigits(t)
    ensures DigitsValue(t) < 256 ==> Run(st, t + rest) == Run(st.(single := Some(DigitsValue(t))), rest)
    ensures DigitsValue(t) >= 256 ==> Run(st, t + rest) == Err(DigitOverflow)
    decreases |t|
  {
    var n := |t|;
    var c := t[n - 1];
    if n == 1 {
      assert t[..0] == [];
      assert DigitsValue(t) == DigitsValue(t[..0]) * 10 + DigitValue(c) == DigitValue(c);
      assert (t + rest)[0] == c && (t + rest)[1..] == rest;
    } else {
      var u := t[..n - 1];
      assert t + rest == u + ([c] + rest);
      DigitsAccumulate(st, u, [c] + rest);
      if DigitsValue(u) < 256 {
        assert ([c] + rest)[1..] == rest;
      }
    }
  }

  /** The number a packet prints as is read back into `single`. */
  lemma NumberRun(st: State, n: u8, rest: string)
    requires st.single == None
    ensures Run(st, NatToString(n) + rest) == Run(st.(single := Some(n)), rest)
  {
    NatToStringValue(n);
    DigitsAccumulate(st, NatToString(n), rest);
  }

  /** The parser state after reading a whole packet: a number stays pending,
      a list is already in `many`. */
  function Absorb(st: State, p: Packet): State
  {
    match p
    case Num(n) => st.(single := Some(n))
    case List(_) => st.(many := st.many + [p])
  }

  lemma {:induction false} ShowRun(st: State, p: Packet, rest: string)
    requires st.single == None
    ensures Run(st, Show(p) + rest) == Run(Absorb(st, p), rest)
    decreases p, 1
  {
    match p
    case Num(n) =>
      NumberRun(st, n, rest);
    case List(qs) =>
      var st1 := State(st.stack + [Frame(st.many, None)], [], None);
      var body := ShowItems(qs) + ("]" + rest);
      assert Show(p) + rest == "[" + body;
      assert ("[" + body)[0] == '[' && ("[" + body)[1..] == body;
      assert Step(st, '[') == Ok(st1);
      assert Run(st, Show(p) + rest) == Run(st1, body);
      var st2: State;
      if qs == [] {
        st2 := st1;
        assert body == "]" + rest;
      } else {
        ItemsRun(st1, qs, "]" + rest);
        st2 := Absorb(st1.(many := st1.many + qs[..|qs| - 1]), qs[|qs| - 1]);
        assert st1.many + qs[..|qs| - 1] == qs[..|qs| - 1];
        assert qs[..|qs| - 1] + [qs[|qs| - 1]] == qs;
      }
      assert Run(st1, body) == Run(st2, "]" + rest);
      assert Flush(st2).many == qs;
      assert ("]" + rest)[0] == ']' && ("]" + rest)[1..] == rest;
      assert Step(st2, ']') == Ok(Absorb(st, p));
  }

  lemma {:induction false} ItemsRun(st: State, ps: seq<Packet>, rest: string)
    requires st.single == None && ps != []
    ensures Run(st, ShowItems(ps) + rest)
         == Run(Absorb(st.(many := st.many + ps[..|ps| - 1]), ps[|ps| - 1]), rest)
    decreases ps, 0
  {
    if |ps| == 1 {
      ShowRun(st, ps[0], rest);
      assert st.many + ps[..0] == st.many;
    } else {
      var tail := ShowItems(ps[1..]) + rest;
      assert ShowItems(ps) + rest == Show(ps[0]) + ("," + tail);
      ShowRun(st, ps[0], "," + tail);
      var st1 := st.(many := st.many + [ps[0]]);
      CommaRun(Absorb(st, ps[0]), tail);
      assert Flush(Absorb(st, ps[0])) == st1;
      ItemsRun(st1, ps[1..], rest);
      ShiftFirst(st.many, ps);
    }
  }

  lemma ShiftFirst(many: seq<Packet>, ps: seq<Packet>)
    requires |ps| >= 2
    ensures many + [ps[0]] + ps[1..][..|ps| - 2] == many + ps[..|ps| - 1]
  {
    assert [ps[0]] + ps[1..][..|ps| - 2] == ps[..|ps| - 1];
  }

  lemma CommaRun(st: State, tail: string)
    ensures Run(st, "," + tail) == Run(Flush(st), tail)
  {
    assert ("," + tail)[0] == ',' && ("," + tail)[1..] == tail;
  }

  /** Printing a list packet and parsing the text gives the packet back. The
      packet's numbers are `u8`s, so their digits never overflow. */
  lemma ParseShow(items: seq<Packet>)
    ensures Parse(Show(List(items))) == Ok(List(items))
  {
    var s := Show(List(items));
    assert s[0] == '[' && s[|s| - 1] == ']';
    assert s[1..|s| - 1] == ShowItems(items);
    if items != [] {
      ItemsRun(Start, items, []);
      assert ShowItems(items) + [] == ShowItems(items);
      var last := Absorb(Start.(many := Start.many + items[..|items| - 1]), items[|items| - 1]);
      assert Run(Start, ShowItems(items)) == Ok(last);
      assert Start.many + items[..|items| - 1] + [items[|items| - 1]] == items;
      assert Flush(last).many == items;
    }
  }

  /** The examples of the source's tests. */
  lemma ParseExamples()
    ensures Parse("[]") == Ok(List([]))
    ensures Parse("[[],[]]") == Ok(List([List([]), List([])]))
    ensures Parse("[1,2,3]") == Ok(List([Num(1), Num(2), Num(3)]))
  {
    ParseShow([]);
    ParseShow([List([]), List([])]);
    assert Show(List([List([]), List([])])) == "[[],[]]";
    ParseShow([Num(1), Num(2), Num(3)]);
    assert NatToString(1) == "1" && NatToString(2) == "2" && NatToString(3) == "3";
    assert Show(List([Num(1), Num(2), Num(3)])) == "[1,2,3]";
  }

  /** Nesting depth change of a text: one up per '[', one down per ']'. */
  function Depth(t: string): int
  {
    if t == [] then 0
    else (if t[0] == '[' then 1 else if t[0] == ']' then -1 else 0) + Depth(t[1..])
  }

  /** When the loop gets through a text, every byte was a digit, ',', '[' or
      ']', no ']' closed more lists than were open, and the stack grew by the
      text's depth. */
  lemma {:induction false} RunAccepts(st: State, t: string)
    ensures Run(st, t).Ok? ==>
      && (forall i :: 0 <= i < |t| ==> Allowed(t[i]))
      && (forall k :: 0 <= k <= |t| ==> |st.stack| + Depth(t[..k]) >= 0)
      && |Run(st, t).value.stack| == |st.stack| + Depth(t)
    decreases |t|
  {
    if t != [] && Run(st, t).Ok? {
      var next := Step(st, t[0]).value;
      RunAccepts(next, t[1..]);
      assert |next.stack| == |st.stack| + (if t[0] == '[' then 1 else if t[0] == ']' then -1 else 0);
      forall i | 0 <= i < |t|
        ensures Allowed(t[i])
      {
        if i > 0 {
          assert t[i] == t[1..][i - 1];
        }
      }
      forall k | 0 <= k <= |t|
        ensures |st.stack| + Depth(t[..k]) >= 0
      {
        if k > 0 {
          assert t[..k][1..] == t[1..][..k - 1];
        }
      }
    }
  }

  /** `from_str` succeeds only on a bracketed text whose inner bytes are
      digits, ',', '[' and ']' with balanced brackets. */
  lemma ParseAccepts(s: string)
    ensures Parse(s).Ok? ==>
      && |s| >= 2 && s[0] == '[' && s[|s| - 1] == ']'
      && (forall i :: 1 <= i < |s| - 1 ==> Allowed(s[i]))
      && (forall k :: 1 <= k <= |s| - 1 ==> Depth(s[1..k]) >= 0)
      && Depth(s[1..|s| - 1]) == 0
      && Parse(s).value.List?
  {
    if Parse(s).Ok? {
      var inner := s[1..|s| - 1];
      RunAccepts(Start, inner);
      forall i | 1 <= i < |s| - 1
        ensures Allowed(s[i])
      {
        assert s[i] == inner[i - 1];
      }
      forall k | 1 <= k <= |s| - 1
        ensures Depth(s[1..k]) >= 0
      {
        assert s[1..k] == inner[..k - 1];
      }
    }
  }

  /** Text outside the grammar is refused with the source's two messages. */
  lemma ParseRejects(s: string)
    ensures |s| == 0 || s[0] != '[' ==> Parse(s) == Err(MissingOpen)
    ensures |s| > 0 && s[0] == '[' && s[|s| - 1] != ']' ==> Parse(s) == Err(MissingClose)
    ensures |s| >= 3 && s[0] == '[' && s[|s| - 1] == ']' && s[1] == ']' ==> Parse(s) == Err(UnmatchedClose)
  {
    if |s| >= 3 && s[0] == '[' && s[|s| - 1] == ']' && s[1] == ']' {
      var inner := s[1..|s| - 1];
      assert inner[0] == ']';
    }
  }

  const OPEN_TEXT := "The packet should have started with '[': "
  const CLOSE_TEXT := "The packet should have ended with ']': "
  const CHAR_TEXT := "unexpected character: "

  /**
   * The message `from_str` returns with an error, as written; `None` for
   * the errors that are panics. Both bracket checks report a missing '['.
   */
  function Message(e: ParseError, s: string): (m: Option<string>)
    ensures m.Some? <==> e.MissingOpen? || e.MissingClose? || e.UnexpectedChar?
  {
    match e
    case MissingOpen => Some(OPEN_TEXT + s)
    case MissingClose => Some(OPEN_TEXT + s)
    case UnexpectedChar(c) => Some(CHAR_TEXT + [c])
    case _ => None
  }

  /** A text that starts with '[' but does not end with ']' is told it does not start with '['. */
  lemma MessageMisleads()
    ensures Parse("[1") == Err(MissingClose)
    ensures Message(MissingClose, "[1") == Some(OPEN_TEXT + "[1")
    ensures Message(MissingClose, "[1") == Message(MissingOpen, "[1")
  {
    ParseRejects("[1");
  }

  /** The messages with the text the second check evidently means for a missing ']'. */
  function IntendedMessage(e: ParseError, s: string): (m: Option<string>)
    ensures m.Some? <==> e.MissingOpen? || e.MissingClose? || e.UnexpectedChar?
  {
    match e
    case MissingOpen => Some(OPEN_TEXT + s)
    case MissingClose => Some(CLOSE_TEXT + s)
    case UnexpectedChar(c) => Some(CHAR_TEXT + [c])
    case _ => None
  }

  /** With the intended texts, a message for a given input names its error. */
  lemma IntendedMessagesDistinct(e1: ParseError, e2: ParseError, s: string)
    requires IntendedMessage(e1, s).Some? && IntendedMessage(e1, s) == IntendedMessage(e2, s)
    ensures e1 == e2
  {
    MessageKey(e1, s);
    MessageKey(e2, s);
  }

  /** Where an intended message shows its error: its first letter, then letter 23 or the character. */
  lemma MessageKey(e: ParseError, s: string)
    requires IntendedMessage(e, s).Some?
    ensures var m := IntendedMessage(e, s).value;
      && |m| >= 23
      && (m[0] == 'u' <==> e.UnexpectedChar?)
      && (!e.UnexpectedChar? ==> |m| > 23 && (m[23] == 'e' <==> e.MissingClose?))
      && (e.UnexpectedChar? ==> m[22] == e.c)
  {
    assert OPEN_TEXT[0] == 'T' && CLOSE_TEXT[0] == 'T' && CHAR_TEXT[0] == 'u';
    assert OPEN_TEXT[23] == 's' && CLOSE_TEXT[23] == 'e' && |CHAR_TEXT| == 22;
  }

  // ---------------------------------------------------------------------------
  // Comparison

  function Size(p: Packet): (r: nat)
    ensures r >= 1
  {
    match p
    case Num(_) => 1
    case List(items) => 1 + SizeOfItems(items)
  }

  function SizeOfItems(ps: seq<Packet>): nat
  {
    if ps == [] then 0 else Size(ps[0]) + SizeOfItems(ps[1..])
  }

  /** `Ord::cmp`. Numbers compare by value; lists compare item by item and
      then by length; against a list, a number compares as the one-item list
      holding it. */
  function Cmp(a: Packet, b: Packet): Ordering
    decreases Size(a) + Size(b), 0
  {
    match a
    case Num(x) => (
      match b
      case Num(y) => CmpInt(x, y)
      case List(l2) =>
        assert SizeOfItems([Num(x)]) == 1 by { assert [Num(x)][1..] == []; }
        CmpLists([Num(x)], l2))
    case List(l1) => (
      match b
      case Num(y) =>
        assert SizeOfItems([Num(y)]) == 1 by { assert [Num(y)][1..] == []; }
        CmpLists(l1, [Num(y)])
      case List(l2) => CmpLists(l1, l2))
  }

  /** The zip loop of `cmp`: the first item pair that is not Equal decides,
      and when one list runs out, the lengths decide. */
  function CmpLists(l1: seq<Packet>, l2: seq<Packet>): Ordering
    decreases SizeOfItems(l1) + SizeOfItems(l2), 1
  {
    if l1 == [] || l2 == [] then CmpInt(|l1|, |l2|)
    else
      match Cmp(l1[0], l2[0])
      case Equal => CmpLists(l1[1..], l2[1..])
      case Less => Less
      case Greater => Greater
  }

  /** Against a list, a number compares exactly as the one-item list holding it. */
  lemma NumWrapsAsList(p: Packet, n: u8)
    ensures Cmp(p, Num(n)) == Cmp(p, List([Num(n)]))
    ensures Cmp(Num(n), p) == Cmp(List([Num(n)]), p)
  {
    assert [Num(n)][1..] == [];
    match p
    case Num(m) =>
      assert [Num(m)][1..] == [];
      assert CmpLists([Num(m)][1..], [Num(n)][1..]) == Equal;
    case List(_) =>
  }

  /** `Ordering::Equal` is weaker than `==`: a number and the one-item list
      holding it compare Equal but are different packets. */
  lemma EqualIsNotIdentity(n: u8)
    ensures Cmp(Num(n), List([Num(n)])) == Equal
    ensures Num(n) != List([Num(n)])
  {
    NumWrapsAsList(Num(n), n);
    CmpReflexive(Num(n));
  }

  /** List against list is lexicographic: after a common run of Equal items,
      the first unequal item pair decides, and if one list runs out first the
      shorter one is Less. */
  lemma {:induction false} CmpListsLexicographic(l1: seq<Packet>, l2: seq<Packet>, k: nat)
    requires k <= |l1| && k <= |l2|
    requires forall i :: 0 <= i < k ==> Cmp(l1[i], l2[i]) == Equal
    ensures k < |l1| && k < |l2| && Cmp(l1[k], l2[k]) != Equal ==> CmpLists(l1, l2) == Cmp(l1[k], l2[k])
    ensures k == |l1| || k == |l2| ==> CmpLists(l1, l2) == CmpInt(|l1|, |l2|)
    decreases k
  {
    if k > 0 {
      assert Cmp(l1[0], l2[0]) == Equal;
      CmpListsLexicographic(l1[1..], l2[1..], k - 1);
    }
  }

  /** Every packet compares Equal to itself. */
  lemma {:induction false} CmpReflexive(a: Packet)
    ensures Cmp(a, a) == Equal
    decreases a, 1
  {
    match a
    case Num(_) =>
    case List(l) => CmpListsReflexive(l);
  }

  lemma {:induction false} CmpListsReflexive(l: seq<Packet>)
    ensures CmpLists(l, l) == Equal
    decreases l, 0
  {
    if l != [] {
      CmpReflexive(l[0]);
      CmpListsReflexive(l[1..]);
    }
  }

  /** Swapping the operands reverses the comparison. */
  lemma {:induction false} CmpAntisymmetric(a: Packet, b: Packet)
    ensures Cmp(a, b) == Cmp(b, a).Reverse()
    decreases Size(a) + Size(b), 0
  {
    assert SizeOfItems([a]) == Size(a) by { assert [a][1..] == []; }
    assert SizeOfItems([b]) == Size(b) by { assert [b][1..] == []; }
    match (a, b)
    case (Num(_), Num(_)) =>
    case (Num(_), List(l2)) => CmpListsAntisymmetric([a], l2);
    case (List(l1), Num(_)) => CmpListsAntisymmetric(l1, [b]);
    case (List(l1), List(l2)) => CmpListsAntisymmetric(l1, l2);
  }

  lemma {:induction false} CmpListsAntisymmetric(l1: seq<Packet>, l2: seq<Packet>)
    ensures CmpLists(l1, l2) == CmpLists(l2, l1).Reverse()
    decreases SizeOfItems(l1) + SizeOfItems(l2), 1
  {
    if l1 != [] && l2 != [] {
      CmpAntisymmetric(l1[0], l2[0]);
      CmpListsAntisymmetric(l1[1..], l2[1..]);
    }
  }

  /** The items a packet contributes to a list comparison: its own items, or
      itself alone when it is a number. */
  function Lift(p: Packet): seq<Packet>
  {
    match p
    case Num(_) => [p]
    case List(items) => items
  }

  lemma CmpViaLift(a: Packet, b: Packet)
    ensures Cmp(a, b) == CmpLists(Lift(a), Lift(b))
  {
    if a.Num? && b.Num? {
      assert [a][1..] == [] && [b][1..] == [];
    }
  }

  /** `a <= b <= c` gives `a <= c`, and `a == c` only when both steps are Equal. */
  lemma {:induction false} CmpTransitive(a: Packet, b: Packet, c: Packet)
    requires Cmp(a, b) != Greater && Cmp(b, c) != Greater
    ensures Cmp(a, c) != Greater
    ensures Cmp(a, c) == Equal ==> Cmp(a, b) == Equal && Cmp(b, c) == Equal
    decreases Size(a) + Size(b) + Size(c), 0
  {
    if !(a.Num? && b.Num? && c.Num?) {
      CmpViaLift(a, b);
      CmpViaLift(b, c);
      CmpViaLift(a, c);
      LiftSize(a);
      LiftSize(b);
      LiftSize(c);
      CmpListsTransitive(Lift(a), Lift(b), Lift(c));
    }
  }

  lemma LiftSize(p: Packet)
    ensures SizeOfItems(Lift(p)) <= Size(p)
    ensures p.List? ==> SizeOfItems(Lift(p)) < Size(p)
  {
    if p.Num? {
      assert [p][1..] == [];
    }
  }

  lemma {:induction false} CmpListsTransitive(l1: seq<Packet>, l2: seq<Packet>, l3: seq<Packet>)
    requires CmpLists(l1, l2) != Greater && CmpLists(l2, l3) != Greater
    ensures CmpLists(l1, l3) != Greater
    ensures CmpLists(l1, l3) == Equal ==> CmpLists(l1, l2) == Equal && CmpLists(l2, l3) == Equal
    decreases SizeOfItems(l1) + SizeOfItems(l2) + SizeOfItems(l3), 1
  {
    if l1 != [] && l2 != [] && l3 != [] {
      CmpTransitive(l1[0], l2[0], l3[0]);
      if Cmp(l1[0], l3[0]) == Equal {
        CmpListsTransitive(l1[1..], l2[1..], l3[1..]);
      }
    }
  }

  /** `a <= b` under `cmp`, the order `slice::sort` and `binary_search` use. */
  predicate InOrder(a: Packet, b: Packet)
  {
    Cmp(a, b) != Greater
  }

  /** `cmp` meets the contract of `Ord` up to `==`: it is a total preorder. */
  lemma InOrderTotalPreorder()
    ensures Total(InOrder) && Transitive(InOrder)
  {
    forall a, b
      ensures InOrder(a, b) || InOrder(b, a)
    {
      CmpAntisymmetric(a, b);
    }
    forall a, b, c | InOrder(a, b) && InOrder(b, c)
      ensures InOrder(a, c)
    {
      CmpTransitive(a, b, c);
    }
  }

  /** Printed packets are never empty and use only characters the parser accepts. */
  lemma {:induction false} ShowAllowed(p: Packet)
    ensures |Show(p)| > 0
    ensures forall i :: 0 <= i < |Show(p)| ==> Allowed(Show(p)[i])
    decreases p, 1
  {
    match p
    case Num(n) =>
    case List(items) =>
      ShowItemsAllowed(items);
  }

  lemma {:induction false} ShowItemsAllowed(ps: seq<Packet>)
    ensures forall i :: 0 <= i < |ShowItems(ps)| ==> Allowed(ShowItems(ps)[i])
    decreases ps, 0
  {
    if |ps| == 1 {
      ShowAllowed(ps[0]);
    } else if |ps| > 1 {
      ShowAllowed(ps[0]);
      ShowItemsAllowed(ps[1..]);
    }
  }
}
