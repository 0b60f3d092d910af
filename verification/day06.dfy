/**
 * Day 6: the first position in a stream of bytes that follows `k`
 * pairwise different bytes (a start-of-packet marker for `k` = 4, a
 * start-of-message marker for `k` = 14).
 *
 * The search slides a window of `k` bytes and, instead of moving one byte
 * at a time, jumps past the first copy of the first repeated byte it finds.
 */
module Day06 {
  import opened Util

  /** No byte occurs twice. */
  predicate AllDistinct(w: seq<Byte>)
  {
    forall i, j :: 0 <= i < j < |w| ==> w[i] != w[j]
  }

  /** The window of `k` bytes starting at `j` repeats a byte. */
  predicate Repeats(stream: seq<Byte>, j: nat, k: nat)
    requires j + k <= |stream|
  {
    !AllDistinct(stream[j..j + k])
  }

  /**
   * When the bytes at offsets `first` < `i` of the window at `idx` are equal,
   * every window starting from `idx` to `idx + first` holds both of them.
   */
  lemma JumpSkipsRepeats(stream: seq<Byte>, k: nat, idx: nat, first: nat, i: nat)
    requires idx + k <= |stream| && first < i < k
    requires stream[idx + first] == stream[idx + i]
    ensures forall j :: idx <= j <= idx + first && j + k <= |stream| ==> Repeats(stream, j, k)
  {
    forall j | idx <= j <= idx + first && j + k <= |stream|
      ensures Repeats(stream, j, k)
    {
      var w := stream[j..j + k];
      var a, b := idx + first - j, idx + i - j;
      assert w[a] == stream[idx + first] && w[b] == stream[idx + i];
    }
  }

  /** Adding a byte not seen before keeps a window's prefix free of repeats. */
  lemma DistinctSnoc(w: seq<Byte>, i: nat)
    requires i < |w| && AllDistinct(w[..i])
    requires forall j :: 0 <= j < i ==> w[j] != w[i]
    ensures AllDistinct(w[..i + 1])
  {
    var v := w[..i + 1];
    forall a, b | 0 <= a < b < i + 1
      ensures v[a] != v[b]
    {
      if b < i {
        assert w[..i][a] != w[..i][b];
      }
    }
  }

  /**
   * `offsets` maps each of the first `i` bytes of `chunk`, all different,
   * to its offset.
   */
  ghost predicate Indexed(offsets: map<Byte, nat>, chunk: seq<Byte>, i: nat)
  {
    && i <= |chunk|
    && |offsets| == i
    && AllDistinct(chunk[..i])
    && (forall j :: 0 <= j < i ==> chunk[j] in offsets && offsets[chunk[j]] == j)
    && (forall b :: b in offsets ==> offsets[b] < i && chunk[offsets[b]] == b)
  }

  lemma IndexedNext(offsets: map<Byte, nat>, chunk: seq<Byte>, i: nat)
    requires Indexed(offsets, chunk, i) && i < |chunk| && chunk[i] !in offsets
    ensures Indexed(offsets[chunk[i] := i], chunk, i + 1)
  {
    var m := offsets[chunk[i] := i];
    IndexedForward(offsets, chunk, i, m);
    IndexedBackward(offsets, chunk, i, m);
    DistinctSnoc(chunk, i);
  }

  lemma IndexedForward(offsets: map<Byte, nat>, chunk: seq<Byte>, i: nat, m: map<Byte, nat>)
    requires Indexed(offsets, chunk, i) && i < |chunk| && chunk[i] !in offsets
    requires m == offsets[chunk[i] := i]
    ensures |m| == i + 1
    ensures forall j :: 0 <= j <= i ==> chunk[j] in m && m[chunk[j]] == j
  {
  }

  lemma IndexedBackward(offsets: map<Byte, nat>, chunk: seq<Byte>, i: nat, m: map<Byte, nat>)
    requires Indexed(offsets, chunk, i) && i < |chunk| && chunk[i] !in offsets
    requires m == offsets[chunk[i] := i]
    ensures forall b :: b in m ==> m[b] < i + 1 && chunk[m[b]] == b
  {
  }

  /**
   * `find_start` as written: the end of the first window of `k` distinct
   * bytes that is followed by at least one more byte; `None` when there is
   * no such window (in particular when the stream has at most `k` bytes).
   * The loop stops once `idx + k >= |stream|`, so a window that ends with
   * the stream is never examined.
   */
  method FindStart(stream: seq<Byte>, k: nat) returns (r: Option<nat>)
    ensures r.Some? ==> k <= r.value < |stream| && AllDistinct(stream[r.value - k..r.value])
    ensures r.Some? ==> forall j :: 0 <= j < r.value - k ==> Repeats(stream, j, k)
    ensures r.None? ==> forall j :: 0 <= j && j + k < |stream| ==> Repeats(stream, j, k)
  {
    r := None;
    var idx: nat := 0;
    var offsets: map<Byte, nat> := map[];
    label outer: while true
      invariant forall j :: 0 <= j < idx && j + k <= |stream| ==> Repeats(stream, j, k)
      invariant r.None?
      decreases |stream| - idx
    {
      if idx + k >= |stream| {
        break;
      }
      var chunk := stream[idx..idx + k];
      offsets := map[];
      for i := 0 to |chunk|
        invariant idx + k < |stream| && chunk == stream[idx..idx + k]
        invariant Indexed(offsets, chunk, i)
      {
        var byte := chunk[i];
        if byte !in offsets {
          IndexedNext(offsets, chunk, i);
          offsets := offsets[byte := i];
        } else {
          var first := offsets[byte];
          JumpSkipsRepeats(stream, k, idx, first, i);
          idx := idx + first + 1;
          continue outer;
        }
      }
      assert chunk[..|chunk|] == chunk;
      r := Some(idx + k);
      assert stream[r.value - k..r.value] == chunk;
      return;
    }
  }

  /**
   * `find_start` with the loop guard it evidently intends, `idx + k > |stream|`:
   * the end of the first window of `k` distinct bytes, the last window
   * included; `None` exactly when every window repeats a byte.
   */
  method FindStartAtEnd(stream: seq<Byte>, k: nat) returns (r: Option<nat>)
    ensures r.Some? ==> k <= r.value <= |stream| && AllDistinct(stream[r.value - k..r.value])
    ensures r.Some? ==> forall j :: 0 <= j < r.value - k ==> Repeats(stream, j, k)
    ensures r.None? ==> forall j :: 0 <= j && j + k <= |stream| ==> Repeats(stream, j, k)
  {
    r := None;
    var idx: nat := 0;
    var offsets: map<Byte, nat> := map[];
    label outer: while true
      invariant forall j :: 0 <= j < idx && j + k <= |stream| ==> Repeats(stream, j, k)
      invariant r.None?
      decreases |stream| - idx
    {
      if idx + k > |stream| {
        break;
      }
      var chunk := stream[idx..idx + k];
      offsets := map[];
      for i := 0 to |chunk|
        invariant idx + k <= |stream| && chunk == stream[idx..idx + k]
        invariant Indexed(offsets, chunk, i)
      {
        var byte := chunk[i];
        if byte !in offsets {
          IndexedNext(offsets, chunk, i);
          offsets := offsets[byte := i];
        } else {
          var first := offsets[byte];
          JumpSkipsRepeats(stream, k, idx, first, i);
          idx := idx + first + 1;
          continue outer;
        }
      }
      assert chunk[..|chunk|] == chunk;
      r := Some(idx + k);
      assert stream[r.value - k..r.value] == chunk;
      return;
    }
  }

  /**
   * Four different bytes make a start-of-packet marker that ends with the
   * stream: the search as written reports none, the corrected one reports
   * position 4.
   */
  method MarkerAtEnd() returns (asWritten: Option<nat>, corrected: Option<nat>)
    ensures asWritten == None
    ensures corrected == Some(4)
  {
    var stream: seq<Byte> := [0, 1, 2, 3];
    assert AllDistinct(stream[0..4]);
    asWritten := FindStart(stream, 4);
    corrected := FindStartAtEnd(stream, 4);
    assert !Repeats(stream, 0, 4);
  }
}
