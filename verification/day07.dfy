/**
 * Day 7: directory sizes from a terminal log.
 *
 * The log is read line by line while a stack of directory names (the
 * working directory) is kept: `$ cd ..` pops it, `$ cd /` resets it to
 * the root, `$ cd x` pushes `x`, `$ ls` does nothing. A file line adds the
 * file's size to the total of every prefix of the working directory; the
 * totals are keyed by the prefix's names joined with "/" (so the root is
 * "/" and its child `a` is "//a").
 */
module Day07 {
  import opened Util
  import opened Text
  import opened Sorting

  /** One line of the log, as the interpreter understands it. */
  datatype Entry = Cd(dir: string) | Ls | File(size: nat) | Dir

  /**
   * Reading a line: `None` where the program panics (a missing token, a
   * command other than `cd` and `ls`, a size that is not a `usize`).
   * Tokens after the ones the program looks at are ignored.
   */
  function ParseLine(line: string): (r: Option<Entry>)
    ensures r.Some? && r.value.Cd? ==> IsWord(r.value.dir)
  {
    var tokens := Words(line);
    if |tokens| == 0 then None
    else if tokens[0] == "$" then
      if |tokens| < 2 then None
      else if tokens[1] == "cd" then (if |tokens| < 3 then None else Some(Cd(tokens[2])))
      else if tokens[1] == "ls" then Some(Ls)
      else None
    else if tokens[0] != "dir" then
      match ParseIn(tokens[0], 0, USIZE_MAX)
      case Some(n) => Some(File(n))
      case None => None
    else Some(Dir)
  }

  /** A size with a sign that `usize` refuses makes the line panic. */
  lemma ParseLineNegativeSize()
    ensures ParseLine("-0 a") == None
  {
    assert IsWord("-0") && IsWord("a");
    assert Join(["-0", "a"], " ") == "-0" + " " + Join(["a"], " ");
    WordsOfJoin(["-0", "a"]);
    ParseInSigns();
  }


  /** An entry written back as a log line (a file line with its size only). */
  function Show(e: Entry): string
  {
    match e
    case Cd(dir) => Join(["$", "cd", dir], " ")
    case Ls => Join(["$", "ls"], " ")
    case File(size) => NatToString(size)
    case Dir => "dir"
  }

  /** Reading a written entry gives it back. */
  lemma ParseLineShown(e: Entry)
    requires e.Cd? ==> IsWord(e.dir)
    requires e.File? ==> e.size <= USIZE_MAX
    ensures ParseLine(Show(e)) == Some(e)
  {
    assert IsWord("$") && IsWord("cd") && IsWord("ls") && IsWord("dir");
    match e
    case Cd(dir) =>
      WordsOfJoin(["$", "cd", dir]);
    case Ls =>
      WordsOfJoin(["$", "ls"]);
    case File(size) =>
      ParseFileShown(size);
    case Dir =>
      WordsOfJoin(["dir"]);
  }

  /** A file size written alone reads back as that file. */
  lemma ParseFileShown(size: nat)
    requires size <= USIZE_MAX
    ensures ParseLine(NatToString(size)) == Some(File(size))
  {
    var s := NatToString(size);
    NumberIsWord(size);
    WordLengthOfWord(s, []);
    assert s + [] == s && s[|s|..] == [];
    assert Words(s) == [s];
    NatToStringParses(size);
    assert IsDigit(s[0]);
  }

  /** The working directory after `cd dir`. `Vec::pop` on an empty stack leaves it empty. */
  function CdTo(pwd: seq<string>, dir: string): (r: seq<string>)
    ensures dir == ".." ==> r == (if pwd == [] then [] else pwd[..|pwd| - 1])
    ensures dir == "/" ==> r == ["/"]
    ensures dir != ".." && dir != "/" ==> r == pwd + [dir]
  {
    if dir == ".." then (if pwd == [] then [] else pwd[..|pwd| - 1])
    else if dir == "/" then ["/"]
    else pwd + [dir]
  }

  /** The keys of the working directory's prefixes, shortest first. */
  function PrefixKeys(pwd: seq<string>): (r: seq<string>)
    ensures |r| == |pwd|
  {
    if pwd == [] then [] else PrefixKeys(pwd[..|pwd| - 1]) + [Join(pwd, "/")]
  }

  /** `*sizes.entry(key).or_default()`. */
  function Get(sizes: map<string, nat>, key: string): nat
  {
    if key in sizes then sizes[key] else 0
  }

  /** Adds `size` to the entry of each of `keys`, in order. */
  function AddAll(sizes: map<string, nat>, keys: seq<string>, size: nat): map<string, nat>
  {
    if keys == [] then sizes
    else
      var m := AddAll(sizes, keys[..|keys| - 1], size);
      var k := keys[|keys| - 1];
      m[k := Get(m, k) + size]
  }

  /** The state of the interpreter: the working directory and the totals so far. */
  datatype State = State(pwd: seq<string>, sizes: map<string, nat>)

  function Step(st: State, e: Entry): State
  {
    match e
    case Cd(dir) => st.(pwd := CdTo(st.pwd, dir))
    case File(size) => st.(sizes := AddAll(st.sizes, PrefixKeys(st.pwd), size))
    case _ => st
  }

  /** The totals after the rest of the log; `None` if the program panics on it. */
  function Run(st: State, lines: seq<string>): Option<map<string, nat>>
    decreases |lines|
  {
    if lines == [] then Some(st.sizes)
    else
      match ParseLine(lines[0])
      case None => None
      case Some(e) => Run(Step(st, e), lines[1..])
  }

  /** The inner loop of a file line: the size is added to the entry of each prefix of `pwd`. */
  method AddSize(sizes: map<string, nat>, pwd: seq<string>, size: nat) returns (sizes': map<string, nat>)
    ensures sizes' == AddAll(sizes, PrefixKeys(pwd), size)
  {
    sizes' := sizes;
    var acc: seq<string> := [];
    for k := 0 to |pwd|
      invariant acc == pwd[..k]
      invariant sizes' == AddAll(sizes, PrefixKeys(pwd[..k]), size)
    {
      AddOneMore(sizes, pwd, k, size, acc, sizes');
      acc := acc + [pwd[k]];
      var fullPath := Join(acc, "/");
      sizes' := sizes'[fullPath := Get(sizes', fullPath) + size];
    }
    assert pwd[..|pwd|] == pwd;
  }

  /** One turn of the inner loop adds the size to the next prefix's entry. */
  lemma AddOneMore(sizes: map<string, nat>, pwd: seq<string>, k: nat, size: nat, acc: seq<string>, m: map<string, nat>)
    requires k < |pwd| && acc == pwd[..k] && m == AddAll(sizes, PrefixKeys(pwd[..k]), size)
    ensures acc + [pwd[k]] == pwd[..k + 1]
    ensures var key := Join(acc + [pwd[k]], "/");
      AddAll(sizes, PrefixKeys(pwd[..k + 1]), size) == m[key := Get(m, key) + size]
  {
    assert pwd[..k + 1] == pwd[..k] + [pwd[k]];
    assert pwd[..k + 1][..k] == pwd[..k];
    var keys := PrefixKeys(pwd[..k + 1]);
    assert keys[..|keys| - 1] == PrefixKeys(pwd[..k]);
  }

  /** `parse_input`: the loop over the lines, with `pwd` and `sizes` updated in place. */
  method ParseInput(lines: seq<string>) returns (r: Option<map<string, nat>>)
    ensures r == Run(State([], map[]), lines)
  {
    var pwd: seq<string> := [];
    var sizes: map<string, nat> := map[];
    for i := 0 to |lines|
      invariant Run(State([], map[]), lines) == Run(State(pwd, sizes), lines[i..])
    {
      assert lines[i..][1..] == lines[i + 1..];
      var entry := ParseLine(lines[i]);
      if entry.None? {
        return None;
      }
      match entry.value
      case Cd(dir) =>
        if dir == ".." {
          if pwd != [] {
            pwd := pwd[..|pwd| - 1];
          }
        } else if dir == "/" {
          pwd := ["/"];
        } else {
          pwd := pwd + [dir];
        }
      case Ls =>
      case File(size) =>
        sizes := AddSize(sizes, pwd, size);
      case Dir =>
    }
    r := Some(sizes);
  }

  // What the totals mean.

  lemma {:induction false} PrefixKeysAt(pwd: seq<string>, k: nat)
    requires k < |pwd|
    ensures PrefixKeys(pwd)[k] == Join(pwd[..k + 1], "/")
    decreases |pwd|
  {
    var n := |pwd|;
    if k < n - 1 {
      PrefixKeysAt(pwd[..n - 1], k);
      assert pwd[..n - 1][..k + 1] == pwd[..k + 1];
    } else {
      assert pwd[..k + 1] == pwd;
    }
  }

  /** No prefix key is longer than the key of the whole working directory. */
  lemma {:induction false} PrefixKeysShorter(pwd: seq<string>)
    ensures forall k :: k in PrefixKeys(pwd) ==> |k| <= |Join(pwd, "/")|
    decreases |pwd|
  {
    var n := |pwd|;
    if n > 1 {
      var init := pwd[..n - 1];
      PrefixKeysShorter(init);
      JoinSnoc(init, "/", pwd[n - 1]);
      assert init + [pwd[n - 1]] == pwd;
    }
  }

  /**
   * A file line adds its size exactly once to the entry of each prefix of
   * the working directory, and to no other entry.
   */
  lemma {:induction false} AddAllPrefixes(sizes: map<string, nat>, pwd: seq<string>, size: nat, key: string)
    ensures Get(AddAll(sizes, PrefixKeys(pwd), size), key) == Get(sizes, key) + (if key in PrefixKeys(pwd) then size else 0)
    decreases |pwd|
  {
    var n := |pwd|;
    if n > 0 {
      var init := pwd[..n - 1];
      var keys := PrefixKeys(pwd);
      assert keys[..n - 1] == PrefixKeys(init);
      AddAllPrefixes(sizes, init, size, key);
      var whole := Join(pwd, "/");
      if n > 1 {
        PrefixKeysShorter(init);
        JoinSnoc(init, "/", pwd[n - 1]);
        assert init + [pwd[n - 1]] == pwd;
        assert whole !in PrefixKeys(init);
      }
    }
  }

  /** `q` is the key of a directory inside the directory whose key is `p`. */
  predicate Extends(q: string, p: string)
  {
    |p| < |q| && q[..|p| + 1] == p + "/"
  }

  /** The names on the stack contain no '/', apart from the root "/" at the bottom. */
  predicate PlainPath(pwd: seq<string>)
  {
    forall i :: 0 <= i < |pwd| ==> Lacks(pwd[i], '/') || (i == 0 && pwd[i] == "/")
  }

  /** Under a plain path, the enclosing directory of a prefix key is a prefix key too. */
  lemma {:induction false} EnclosingKey(pwd: seq<string>, p: string, q: string)
    requires PlainPath(pwd) && q in PrefixKeys(pwd) && p != "" && Extends(q, p)
    ensures p in PrefixKeys(pwd)
    decreases |pwd|
  {
    var n := |pwd|;
    var init := pwd[..n - 1];
    assert PrefixKeys(pwd) == PrefixKeys(init) + [Join(pwd, "/")];
    if q in PrefixKeys(init) {
      EnclosingKey(init, p, q);
    } else if n == 1 {
      assert false;
    } else {
      var j := Join(init, "/");
      JoinSnoc(init, "/", pwd[n - 1]);
      assert init + [pwd[n - 1]] == pwd;
      assert q == j + "/" + pwd[n - 1];
      assert q[|p|] == (p + "/")[|p|] == '/';
      if |p| > |j| {
        assert false;
      }
      PrefixKeysAt(init, n - 2);
      assert init[..n - 1] == init;
      if |p| == |j| {
        assert p == q[..|p|] == j;
      } else {
        assert j[..|p| + 1] == q[..|p| + 1];
        EnclosingKey(init, p, j);
      }
    }
  }

  /** Every directory's total is at least the total of any directory inside it. */
  ghost predicate Monotone(sizes: map<string, nat>)
  {
    forall p, q :: p != "" && Extends(q, p) ==> Get(sizes, q) <= Get(sizes, p)
  }

  lemma AddAllMonotone(sizes: map<string, nat>, pwd: seq<string>, size: nat)
    requires Monotone(sizes) && PlainPath(pwd)
    ensures Monotone(AddAll(sizes, PrefixKeys(pwd), size))
  {
    var r := AddAll(sizes, PrefixKeys(pwd), size);
    forall p, q | p != "" && Extends(q, p)
      ensures Get(r, q) <= Get(r, p)
    {
      AddAllPrefixes(sizes, pwd, size, p);
      AddAllPrefixes(sizes, pwd, size, q);
      if q in PrefixKeys(pwd) {
        EnclosingKey(pwd, p, q);
      }
    }
  }

  /** Every directory name a `cd` enters is the root or contains no '/'. */
  predicate PlainNames(lines: seq<string>)
  {
    forall i :: 0 <= i < |lines| && ParseLine(lines[i]).Some? && ParseLine(lines[i]).value.Cd? ==>
      ParseLine(lines[i]).value.dir == "/" || Lacks(ParseLine(lines[i]).value.dir, '/')
  }

  lemma {:induction false} RunMonotone(st: State, lines: seq<string>)
    requires PlainPath(st.pwd) && Monotone(st.sizes) && PlainNames(lines)
    ensures Run(st, lines).Some? ==> Monotone(Run(st, lines).value)
    decreases |lines|
  {
    if lines != [] && ParseLine(lines[0]).Some? {
      var e := ParseLine(lines[0]).value;
      var st' := Step(st, e);
      if e.File? {
        AddAllMonotone(st.sizes, st.pwd, e.size);
      }
      assert PlainPath(st'.pwd) by {
        if e.Cd? {
          assert e.dir == "/" || Lacks(e.dir, '/');
        }
      }
      RunMonotone(st', lines[1..]);
    }
  }

  /**
   * When no directory name contains '/', a directory's total is at least
   * the total of every directory inside it.
   */
  lemma TotalsMonotone(lines: seq<string>)
    requires PlainNames(lines)
    ensures Run(State([], map[]), lines).Some? ==> Monotone(Run(State([], map[]), lines).value)
  {
    RunMonotone(State([], map[]), lines);
  }

  /** The sum of the sizes on the file lines. */
  function FileTotal(lines: seq<string>): nat
  {
    if lines == [] then 0
    else
      (match ParseLine(lines[0]) case Some(File(size)) => size case _ => 0) + FileTotal(lines[1..])
  }

  /** Every file line is read while the root is at the bottom of the stack. */
  predicate StaysRooted(pwd: seq<string>, lines: seq<string>)
    decreases |lines|
  {
    lines == [] ||
    match ParseLine(lines[0])
    case None => true
    case Some(e) =>
      (e.File? ==> |pwd| > 0 && pwd[0] == "/") && StaysRooted(Step(State(pwd, map[]), e).pwd, lines[1..])
  }

  lemma {:induction false} RunRootTotal(st: State, lines: seq<string>)
    requires StaysRooted(st.pwd, lines) && Run(st, lines).Some?
    ensures Get(Run(st, lines).value, "/") == Get(st.sizes, "/") + FileTotal(lines)
    decreases |lines|
  {
    if lines != [] {
      var e := ParseLine(lines[0]).value;
      var st' := Step(st, e);
      assert st'.pwd == Step(State(st.pwd, map[]), e).pwd;
      if e.File? {
        AddAllPrefixes(st.sizes, st.pwd, e.size, "/");
        PrefixKeysAt(st.pwd, 0);
        assert st.pwd[..1] == [st.pwd[0]];
      }
      RunRootTotal(st', lines[1..]);
    }
  }

  /** When every file is read inside the root, the root's total is the size of all files. */
  lemma RootTotal(lines: seq<string>)
    requires StaysRooted([], lines) && Run(State([], map[]), lines).Some?
    ensures Get(Run(State([], map[]), lines).value, "/") == FileTotal(lines)
  {
    RunRootTotal(State([], map[]), lines);
  }

  // The answers.

  const SMALL: nat := 100000
  const FS_SIZE: nat := 70000000
  const UPDATE_SIZE: nat := 30000000

  /** The total of the entries among `keys` that are at most `limit`, in no particular order. */
  ghost function SumAtMost(sizes: map<string, nat>, keys: set<string>, limit: nat): nat
    requires keys <= sizes.Keys
    decreases |keys|
  {
    if keys == {} then 0
    else
      var k :| k in keys;
      (if sizes[k] <= limit then sizes[k] else 0) + SumAtMost(sizes, keys - {k}, limit)
  }

  /** The sum does not depend on the order the keys are visited in: any key can go first. */
  lemma {:induction false} SumAtMostRemove(sizes: map<string, nat>, keys: set<string>, limit: nat, k: string)
    requires keys <= sizes.Keys && k in keys
    ensures SumAtMost(sizes, keys, limit) == (if sizes[k] <= limit then sizes[k] else 0) + SumAtMost(sizes, keys - {k}, limit)
    decreases |keys|
  {
    var j :| j in keys && SumAtMost(sizes, keys, limit) == (if sizes[j] <= limit then sizes[j] else 0) + SumAtMost(sizes, keys - {j}, limit);
    if j != k {
      SumAtMostRemove(sizes, keys - {j}, limit, k);
      SumAtMostRemove(sizes, keys - {k}, limit, j);
      assert keys - {j} - {k} == keys - {k} - {j};
    }
  }

  /** Every counted entry is at most `limit`. */
  lemma {:induction false} SumAtMostBound(sizes: map<string, nat>, keys: set<string>, limit: nat)
    requires keys <= sizes.Keys
    ensures SumAtMost(sizes, keys, limit) <= limit * |keys|
    decreases |keys|
  {
    if keys != {} {
      var k :| k in keys;
      SumAtMostRemove(sizes, keys, limit, k);
      SumAtMostBound(sizes, keys - {k}, limit);
      var n := |keys - {k}|;
      assert |keys| == n + 1;
      assert limit * (n + 1) == limit * n + limit;
    }
  }

  /** Problem 1: the sum of the totals of at most 100000, over the map in whatever order it iterates. */
  method Problem1(sizes: map<string, nat>) returns (sum: nat)
    ensures sum == SumAtMost(sizes, sizes.Keys, SMALL)
    ensures sum <= SMALL * |sizes|
  {
    sum := 0;
    var rest := sizes.Keys;
    while rest != {}
      invariant rest <= sizes.Keys
      invariant sum + SumAtMost(sizes, rest, SMALL) == SumAtMost(sizes, sizes.Keys, SMALL)
      decreases |rest|
    {
      var k :| k in rest;
      SumAtMostRemove(sizes, rest, SMALL, k);
      if sizes[k] <= SMALL {
        sum := sum + sizes[k];
      }
      rest := rest - {k};
    }
    SumAtMostBound(sizes, sizes.Keys, SMALL);
    assert |sizes.Keys| == |sizes|;
  }

  /**
   * The space the update still needs; `None` where the program panics: no
   * root entry, or a `usize` subtraction below zero.
   */
  function Missing(sizes: map<string, nat>): (r: Option<int>)
    ensures r.Some? <==> "/" in sizes && FS_SIZE - UPDATE_SIZE <= sizes["/"] <= FS_SIZE
    ensures r.Some? ==> r.value == sizes["/"] - (FS_SIZE - UPDATE_SIZE)
  {
    if "/" !in sizes then None
    else
      var used := sizes["/"];
      if used > FS_SIZE then None
      else
        var free := FS_SIZE - used;
        if free > UPDATE_SIZE then None else Some(UPDATE_SIZE - free)
  }

  /** The totals of at least `missing`. */
  function Candidates(sizes: map<string, nat>, missing: int): set<int>
  {
    set k | k in sizes && sizes[k] >= missing :: sizes[k]
  }

  /**
   * Problem 2: the smallest and the largest totals that would free enough
   * space, the first and the last of the sorted candidates; `None` where
   * the program panics, including when there is no candidate.
   */
  method Problem2(sizes: map<string, nat>) returns (r: Option<(int, int)>)
    ensures r.None? <==> Missing(sizes).None? || Candidates(sizes, Missing(sizes).value) == {}
    ensures r.Some? ==> r.value == (SetMin(Candidates(sizes, Missing(sizes).value)), SetMax(Candidates(sizes, Missing(sizes).value)))
  {
    if "/" !in sizes {
      return None;
    }
    var usedSize := sizes["/"];
    if usedSize > FS_SIZE {
      return None;
    }
    var freeSize := FS_SIZE - usedSize;
    if freeSize > UPDATE_SIZE {
      return None;
    }
    var missingSize := UPDATE_SIZE - freeSize;
    ghost var c := Candidates(sizes, missingSize);
    var sizes2: seq<int> := [];
    var rest := sizes.Keys;
    while rest != {}
      invariant rest <= sizes.Keys
      invariant forall x :: x in sizes2 ==> x in c
      invariant forall k :: k in sizes && k !in rest && sizes[k] >= missingSize ==> sizes[k] in sizes2
      decreases |rest|
    {
      var k :| k in rest;
      if sizes[k] >= missingSize {
        sizes2 := sizes2 + [sizes[k]];
      }
      rest := rest - {k};
    }
    assert forall x :: x in sizes2 <==> x in c;
    if sizes2 == [] {
      return None;
    }
    SortedFirst(sizes2, c);
    SortedLast(sizes2, c);
    var sorted := SortBy<int>(sizes2, IntLe);
    r := Some((sorted[0], sorted[|sorted| - 1]));
  }
}
