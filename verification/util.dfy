/** Small value types shared by the puzzle models: an optional value and the
    three-way result of a comparison (the standard library's `Option` and
    `std::cmp::Ordering`). */
module Util {

  datatype Option<+T> = None | Some(value: T)

  /** A success value or an error (`Result<T, E>`). */
  datatype Result<+T, +E> = Ok(value: T) | Err(error: E)

  /** The result of a three-way comparison. */
  datatype Ordering = Less | Equal | Greater {
    /** The ordering seen from the other side (`Ordering::reverse`). */
    function Reverse(): (r: Ordering)
      ensures (r == Equal) <==> (this == Equal)
    {
      match this
      case Less => Greater
      case Equal => Equal
      case Greater => Less
    }
  }

  /** `Ord::cmp` on integers. */
  function CmpInt(a: int, b: int): (r: Ordering)
    ensures r == Less <==> a < b
    ensures r == Equal <==> a == b
    ensures r == Greater <==> a > b
  {
    if a < b then Less else if a == b then Equal else Greater
  }

  /** `collect` into `Option<Vec<_>>`, or a loop that unwraps every item: the
      images of all items when every one succeeds, and `None` otherwise. */
  function CollectAll<A, B>(xs: seq<A>, f: A -> Option<B>): (r: Option<seq<B>>)
    ensures r.Some? <==> forall i :: 0 <= i < |xs| ==> f(xs[i]).Some?
    ensures r.Some? ==> |r.value| == |xs|
    ensures r.Some? ==> forall i :: 0 <= i < |xs| ==> f(xs[i]) == Some(r.value[i])
  {
    if xs == [] then Some([])
    else
      match (f(xs[0]), CollectAll(xs[1..], f))
      case (Some(y), Some(ys)) =>
        assert forall i :: 1 <= i < |xs| ==> xs[i] == xs[1..][i - 1];
        Some([y] + ys)
      case (None, _) => None
      case (_, None) =>
        assert forall i :: 0 <= i < |xs| - 1 ==> xs[1..][i] == xs[i + 1];
        None
  }

  /** `CollectAll` gives exactly the images when every item succeeds. */
  lemma CollectAllImages<A, B>(xs: seq<A>, f: A -> Option<B>, ys: seq<B>)
    requires |xs| == |ys|
    requires forall i :: 0 <= i < |xs| ==> f(xs[i]) == Some(ys[i])
    ensures CollectAll(xs, f) == Some(ys)
  {
    var r := CollectAll(xs, f);
    assert forall i :: 0 <= i < |xs| ==> r.value[i] == ys[i];
    assert r.value == ys;
  }

  /** Collecting one more item appends its image. */
  lemma CollectAllSnoc<A, B>(xs: seq<A>, f: A -> Option<B>, x: A, ys: seq<B>)
    requires CollectAll(xs, f) == Some(ys) && f(x).Some?
    ensures CollectAll(xs + [x], f) == Some(ys + [f(x).value])
  {
    var zs := xs + [x];
    assert forall i :: 0 <= i < |zs| ==> f(zs[i]) == Some((ys + [f(x).value])[i]);
    CollectAllImages(zs, f, ys + [f(x).value]);
  }

  /** A failing item in a prefix makes the whole collection fail. */
  lemma CollectAllPrefix<A, B>(xs: seq<A>, f: A -> Option<B>, n: nat)
    requires 0 < n <= |xs| && f(xs[n - 1]).None?
    ensures CollectAll(xs, f).None?
  {
  }

  /** Sum of a sequence of integers (`Iterator::sum`). */
  function Sum(s: seq<int>): int
  {
    if s == [] then 0 else Sum(s[..|s| - 1]) + s[|s| - 1]
  }

  lemma {:induction false} SumAppend(a: seq<int>, b: seq<int>)
    ensures Sum(a + b) == Sum(a) + Sum(b)
    decreases |b|
  {
    if b == [] {
      assert a + b == a;
    } else {
      assert (a + b)[..|a + b| - 1] == a + b[..|b| - 1];
      SumAppend(a, b[..|b| - 1]);
    }
  }

  /** The elements in the opposite order (`Vec::reverse`, `Iterator::rev`). */
  function Reversed<T>(s: seq<T>): (r: seq<T>)
    ensures |r| == |s|
    ensures forall i :: 0 <= i < |s| ==> r[i] == s[|s| - 1 - i]
  {
    if s == [] then [] else Reversed(s[1..]) + [s[0]]
  }

  /** Ranges of the fixed-width integer types the programs use (`usize` is 64 bits wide). */
  /** `u8`. */
  newtype Byte = b: int | 0 <= b < 256

  const I32_MIN: int := -0x8000_0000
  const I32_MAX: int := 0x7fff_ffff
  const U32_MAX: int := 0xffff_ffff
  const U64_MAX: int := 0xffff_ffff_ffff_ffff
  const USIZE_MAX: int := U64_MAX

  function Max(a: int, b: int): int { if a < b then b else a }
  function Min(a: int, b: int): int { if a < b then a else b }
  function Abs(a: int): nat { if a < 0 then -a else a }
  function Sign(a: int): int { if a < 0 then -1 else if a == 0 then 0 else 1 }

  /** The number of elements in all the sequences together. */
  function TotalLength<T>(s: seq<seq<T>>): nat
  {
    if s == [] then 0 else |s[0]| + TotalLength(s[1..])
  }

  lemma {:induction false} TotalLengthUpdate<T>(s: seq<seq<T>>, i: nat, x: seq<T>)
    requires i < |s|
    ensures TotalLength(s[i := x]) + |s[i]| == TotalLength(s) + |x|
    decreases |s|
  {
    if i == 0 {
      assert s[i := x][1..] == s[1..];
    } else {
      assert s[i := x][1..] == s[1..][i - 1 := x];
      TotalLengthUpdate(s[1..], i - 1, x);
    }
  }

  /** Integer division that truncates toward zero, as `/` does on Rust's integers. */
  function TDiv(a: int, b: int): int
    requires b != 0
  {
    var q := Abs(a) / Abs(b);
    if (a < 0) == (b < 0) then q else -q
  }

  /** The remainder that goes with `TDiv`, as `%` on Rust's integers: it takes the sign of `a`. */
  function TRem(a: int, b: int): int
    requires b != 0
  {
    a - b * TDiv(a, b)
  }

  /** A non-empty set has an element. */
  lemma HasElement(s: set<int>)
    requires s != {}
    ensures exists x :: x in s
  {
    if forall x :: x !in s {
    }
  }

  /** A finite non-empty set of integers has a least element. */
  lemma {:induction false} SetHasMin(s: set<int>)
    requires s != {}
    ensures exists m :: m in s && forall k :: k in s ==> m <= k
    decreases |s|
  {
    HasElement(s);
    var x :| x in s;
    if s != {x} {
      SetHasMin(s - {x});
      var m :| m in s - {x} && forall k :: k in s - {x} ==> m <= k;
      if x < m {
        forall k | k in s
          ensures x <= k
        {
          if k != x {
            assert k in s - {x};
          }
        }
      } else {
        forall k | k in s
          ensures m <= k
        {
          if k != x {
            assert k in s - {x};
          }
        }
      }
    }
  }

  /** A finite non-empty set of integers has a greatest element. */
  lemma {:induction false} SetHasMax(s: set<int>)
    requires s != {}
    ensures exists m :: m in s && forall k :: k in s ==> k <= m
    decreases |s|
  {
    HasElement(s);
    var x :| x in s;
    if s != {x} {
      SetHasMax(s - {x});
      var m :| m in s - {x} && forall k :: k in s - {x} ==> k <= m;
      if x > m {
        forall k | k in s
          ensures k <= x
        {
          if k != x {
            assert k in s - {x};
          }
        }
      } else {
        forall k | k in s
          ensures k <= m
        {
          if k != x {
            assert k in s - {x};
          }
        }
      }
    }
  }

  /** The least element of a set (`Iterator::min` on a non-empty iterator). */
  function SetMin(s: set<int>): (m: int)
    requires s != {}
    ensures m in s && forall k :: k in s ==> m <= k
  {
    SetHasMin(s);
    var m :| m in s && forall k :: k in s ==> m <= k;
    m
  }

  /** The greatest element of a set (`Iterator::max` on a non-empty iterator). */
  function SetMax(s: set<int>): (m: int)
    requires s != {}
    ensures m in s && forall k :: k in s ==> k <= m
  {
    SetHasMax(s);
    var m :| m in s && forall k :: k in s ==> k <= m;
    m
  }
}
