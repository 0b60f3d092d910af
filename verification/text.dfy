/** Text helpers standing in for the parts of Rust's `str` API the puzzles
    use: decimal parsing (`str::parse`), decimal printing (`Display` for
    integers), `str::split` with a pattern and `str::split_whitespace`.
    Machine-integer ranges are not part of these helpers: numbers are
    unbounded, and each puzzle states its own bound where one matters. */
module Text {
  import opened Util

  predicate IsDigit(c: char) { '0' <= c <= '9' }

  function DigitValue(c: char): (d: nat)
    requires IsDigit(c)
    ensures d < 10
  {
    (c as int) - ('0' as int)
  }

  function DigitChar(d: nat): (c: char)
    requires d < 10
    ensures IsDigit(c) && DigitValue(c) == d
  {
    (('0' as int) + d) as char
  }

  predicate AllDigits(s: string) { forall i :: 0 <= i < |s| ==> IsDigit(s[i]) }

  /** The value of a string of decimal digits, most significant digit first. */
  function DigitsValue(s: string): nat
    requires AllDigits(s)
    decreases |s|
  {
    if s == [] then 0 else DigitsValue(s[..|s| - 1]) * 10 + DigitValue(s[|s| - 1])
  }

  /** `str::parse` for an unsigned integer of unbounded width: an optional '+', then at least one digit. */
  function ParseNat(s: string): (r: Option<nat>)
    ensures r.Some? <==> (|s| > 0 && AllDigits(s)) || (|s| > 1 && s[0] == '+' && AllDigits(s[1..]))
  {
    if |s| > 0 && AllDigits(s) then Some(DigitsValue(s))
    else if |s| > 1 && s[0] == '+' && AllDigits(s[1..]) then Some(DigitsValue(s[1..]))
    else None
  }

  /** `str::parse` for a signed integer: an optional '+' or '-', then at least one digit. */
  function ParseInt(s: string): (r: Option<int>)
    ensures |s| > 1 && s[0] == '-' ==> r == (if AllDigits(s[1..]) then Some(0 - DigitsValue(s[1..]) as int) else None)
    ensures |s| == 0 || s[0] != '-' ==> r == (match ParseNat(s) case Some(n) => Some(n) case None => None)
  {
    if |s| > 1 && s[0] == '-' then
      (if AllDigits(s[1..]) then Some(0 - DigitsValue(s[1..]) as int) else None)
    else
      match ParseNat(s)
      case Some(n) => Some(n)
      case None => None
  }

  /** `str::parse` into a fixed-width integer type whose range is `lo..=hi`:
      a value outside the range is an error, like a malformed one. An
      unsigned type (`lo >= 0`) takes no '-' at all, not even in "-0". */
  function ParseIn(s: string, lo: int, hi: int): (r: Option<int>)
    ensures lo >= 0 && |s| > 0 && s[0] == '-' ==> r.None?
    ensures lo < 0 || |s| == 0 || s[0] != '-' ==>
      (r.Some? <==> ParseInt(s).Some? && lo <= ParseInt(s).value <= hi)
    ensures r.Some? ==> r.value == ParseInt(s).value
  {
    if lo >= 0 && |s| > 0 && s[0] == '-' then None
    else
      match ParseInt(s)
      case Some(n) => if lo <= n <= hi then Some(n) else None
      case None => None
  }

  /** A sign before the digits: `usize` refuses '-' even on zero and takes '+'; `i32` takes "-0". */
  lemma ParseInSigns()
    ensures ParseIn("-0", 0, USIZE_MAX) == None
    ensures ParseIn("+7", 0, USIZE_MAX) == Some(7)
    ensures ParseIn("-0", I32_MIN, I32_MAX) == Some(0)
  {
    assert AllDigits("0") && DigitsValue("0") == 0;
    assert "+7"[1..] == "7" && DigitsValue("7") == 7;
  }

  /** Decimal rendering of a natural number without leading zeros (`Display`). */
  function NatToString(n: nat): (s: string)
    ensures |s| > 0 && AllDigits(s)
    ensures |s| > 1 ==> s[0] != '0'
    decreases n
  {
    if n < 10 then [DigitChar(n)] else NatToString(n / 10) + [DigitChar(n % 10)]
  }

  lemma {:induction false} NatToStringValue(n: nat)
    ensures DigitsValue(NatToString(n)) == n
    decreases n
  {
    var s := NatToString(n);
    if n >= 10 {
      NatToStringValue(n / 10);
      assert s[..|s| - 1] == NatToString(n / 10);
    }
  }

  /** Parsing a printed number gives it back. */
  lemma NatToStringParses(n: nat)
    ensures ParseNat(NatToString(n)) == Some(n)
    ensures ParseInt(NatToString(n)) == Some(n)
  {
    NatToStringValue(n);
  }

  /** Decimal rendering of an integer, with a leading '-' when it is negative. */
  function IntToString(n: int): (s: string)
    ensures |s| > 0
  {
    if n < 0 then "-" + NatToString(-n) else NatToString(n)
  }

  /** Parsing a printed integer gives it back. */
  lemma IntToStringParses(n: int)
    ensures ParseInt(IntToString(n)) == Some(n)
  {
    if n < 0 {
      var s := IntToString(n);
      NatToStringValue(-n);
      assert s[1..] == NatToString(-n);
    } else {
      NatToStringParses(n);
    }
  }

  /** One, two and three digits are exactly the numbers below 10, 100 and 1000. */
  lemma {:induction false} NatToStringLength(n: nat)
    ensures n < 10 <==> |NatToString(n)| == 1
    ensures 10 <= n < 100 <==> |NatToString(n)| == 2
    ensures 100 <= n < 1000 <==> |NatToString(n)| == 3
  {
    if n >= 10 {
      var a := n / 10;
      assert |NatToString(n)| == |NatToString(a)| + 1;
      if a >= 10 {
        var b := a / 10;
        assert |NatToString(a)| == |NatToString(b)| + 1;
        if b >= 10 {
          assert |NatToString(b)| == |NatToString(b / 10)| + 1;
        }
      }
    }
  }

  /** Whether `sep` occurs in `s` at position `i`. */
  predicate OccursAt(s: string, sep: string, i: nat)
  {
    i + |sep| <= |s| && s[i..i + |sep|] == sep
  }

  /** `str::split` with a non-empty string pattern: the pieces between the
      left-to-right, non-overlapping occurrences of `sep`. */
  function Split(s: string, sep: string): (r: seq<string>)
    requires |sep| > 0
    ensures |r| >= 1
    decreases |s|
  {
    if |s| < |sep| then [s]
    else if s[..|sep|] == sep then [[]] + Split(s[|sep|..], sep)
    else
      var rest := Split(s[1..], sep);
      [[s[0]] + rest[0]] + rest[1..]
  }

  /** `join`: the pieces with `sep` between consecutive ones. */
  function Join(parts: seq<string>, sep: string): string
  {
    if |parts| == 0 then []
    else if |parts| == 1 then parts[0]
    else parts[0] + sep + Join(parts[1..], sep)
  }

  /** Splitting loses nothing: joining the pieces with the pattern gives the text back. */
  lemma {:induction false} JoinSplit(s: string, sep: string)
    requires |sep| > 0
    ensures Join(Split(s, sep), sep) == s
    decreases |s|
  {
    if |s| < |sep| {
    } else if s[..|sep|] == sep {
      var rest := Split(s[|sep|..], sep);
      JoinSplit(s[|sep|..], sep);
      JoinCons([], rest, sep);
      assert s == [] + sep + s[|sep|..];
    } else {
      var rest := Split(s[1..], sep);
      JoinSplit(s[1..], sep);
      JoinGlue(s[0], rest, sep);
      assert s == [s[0]] + s[1..];
    }
  }

  lemma JoinCons(x: string, rest: seq<string>, sep: string)
    requires |rest| >= 1
    ensures Join([x] + rest, sep) == x + sep + Join(rest, sep)
  {
    assert ([x] + rest)[1..] == rest;
  }

  /** Gluing a character to the first piece puts it in front of the joined text. */
  lemma JoinGlue(c: char, rest: seq<string>, sep: string)
    requires |rest| >= 1
    ensures Join([[c] + rest[0]] + rest[1..], sep) == [c] + Join(rest, sep)
  {
    var parts := [[c] + rest[0]] + rest[1..];
    if |rest| > 1 {
      assert parts[1..] == rest[1..];
      assert Join(parts, sep) == [c] + rest[0] + sep + Join(rest[1..], sep);
    }
  }

  /** Splitting at a piece that cannot hold the start of the pattern: the
      piece comes out whole and splitting goes on after the pattern. */
  lemma {:induction false} SplitAfterPiece(a: string, sep: string, b: string)
    requires |sep| > 0
    requires forall i :: 0 <= i < |a| ==> !OccursAt(a + sep + b, sep, i)
    ensures Split(a + sep + b, sep) == [a] + Split(b, sep)
    decreases |a|
  {
    var s := a + sep + b;
    if a == [] {
      assert s[..|sep|] == sep;
      assert s[|sep|..] == b;
    } else {
      assert !OccursAt(s, sep, 0);
      assert s[1..] == a[1..] + sep + b;
      forall i | 0 <= i < |a[1..]|
        ensures !OccursAt(a[1..] + sep + b, sep, i)
      {
        assert !OccursAt(s, sep, i + 1);
        assert s[i + 1..i + 1 + |sep|] == (a[1..] + sep + b)[i..i + |sep|];
      }
      SplitAfterPiece(a[1..], sep, b);
      assert [a[0]] + a[1..] == a;
    }
  }

  /** Splitting a text that holds no occurrence of the pattern gives it back as the only piece. */
  lemma {:induction false} SplitNoOccurrence(s: string, sep: string)
    requires |sep| > 0
    requires forall i :: 0 <= i < |s| ==> !OccursAt(s, sep, i)
    ensures Split(s, sep) == [s]
    decreases |s|
  {
    if |s| >= |sep| {
      assert !OccursAt(s, sep, 0);
      forall i | 0 <= i < |s[1..]|
        ensures !OccursAt(s[1..], sep, i)
      {
        assert !OccursAt(s, sep, i + 1);
        if i + |sep| <= |s[1..]| {
          assert s[i + 1..i + 1 + |sep|] == s[1..][i..i + |sep|];
        }
      }
      SplitNoOccurrence(s[1..], sep);
      assert [s[0]] + s[1..] == s;
    }
  }

  /** Joining one more piece adds the separator and that piece at the end. */
  lemma {:induction false} JoinSnoc(parts: seq<string>, sep: string, w: string)
    requires |parts| > 0
    ensures Join(parts + [w], sep) == Join(parts, sep) + sep + w
    decreases |parts|
  {
    var q := parts + [w];
    if |parts| == 1 {
      assert q[1..] == [w];
    } else {
      assert q[1..] == parts[1..] + [w];
      JoinSnoc(parts[1..], sep, w);
    }
  }

  /** Text added after the last piece of a join belongs to that piece. */
  lemma {:induction false} JoinAppendLast(parts: seq<string>, sep: string, t: string)
    requires |parts| > 0
    ensures Join(parts, sep) + t == Join(parts[..|parts| - 1] + [parts[|parts| - 1] + t], sep)
    decreases |parts|
  {
    var q := parts[..|parts| - 1] + [parts[|parts| - 1] + t];
    if |parts| > 1 {
      JoinAppendLast(parts[1..], sep, t);
      assert q[0] == parts[0];
      assert q[1..] == parts[1..][..|parts| - 2] + [parts[|parts| - 1] + t];
    }
  }

  /** Whether `c` does not occur in `s`. */
  predicate Lacks(s: string, c: char)
  {
    forall i :: 0 <= i < |s| ==> s[i] != c
  }

  /** `str::split_once` with a character: the text before the first `c`
      and the text after it. */
  function SplitOnce(s: string, c: char): (r: Option<(string, string)>)
    ensures r.None? <==> Lacks(s, c)
    ensures r.Some? ==> s == r.value.0 + [c] + r.value.1 && Lacks(r.value.0, c)
  {
    if s == [] then None
    else if s[0] == c then
      assert s == [] + [c] + s[1..];
      Some(([], s[1..]))
    else
      match SplitOnce(s[1..], c)
      case None => None
      case Some((a, b)) =>
        assert s == [s[0]] + s[1..];
        Some(([s[0]] + a, b))
  }

  /** `split_once` cuts at the first `c`: the one after a prefix without `c`. */
  lemma {:induction false} SplitOnceAt(a: string, c: char, b: string)
    requires Lacks(a, c)
    ensures SplitOnce(a + [c] + b, c) == Some((a, b))
    decreases |a|
  {
    var s := a + [c] + b;
    if a == [] {
      assert s[1..] == b;
    } else {
      assert s[0] == a[0] && s[1..] == a[1..] + [c] + b;
      SplitOnceAt(a[1..], c, b);
      assert [a[0]] + a[1..] == a;
    }
  }

  /** Pieces that do not hold the pattern's first character come back from
      `split` exactly as they were joined. */
  lemma {:induction false} SplitJoinLacking(parts: seq<string>, sep: string)
    requires |sep| > 0 && |parts| > 0
    requires forall k :: 0 <= k < |parts| ==> Lacks(parts[k], sep[0])
    ensures Split(Join(parts, sep), sep) == parts
    decreases |parts|
  {
    var a := parts[0];
    if |parts| == 1 {
      forall i | 0 <= i < |a|
        ensures !OccursAt(a, sep, i)
      {
      }
      SplitNoOccurrence(a, sep);
    } else {
      var b := Join(parts[1..], sep);
      forall i | 0 <= i < |a|
        ensures !OccursAt(a + sep + b, sep, i)
      {
      }
      SplitAfterPiece(a, sep, b);
      SplitJoinLacking(parts[1..], sep);
    }
  }

  /** Whether `s` never holds `c` twice in a row. */
  predicate NoDoubled(s: string, c: char)
  {
    forall i :: 0 <= i < |s| - 1 ==> !(s[i] == c && s[i + 1] == c)
  }

  /** Whether `s` can stand before an occurrence of the doubled pattern
      `[c, c]` without creating an earlier one: it never holds `c` twice in a
      row and does not end with `c`. */
  predicate Separable(s: string, c: char)
  {
    NoDoubled(s, c) && (|s| > 0 ==> s[|s| - 1] != c)
  }

  /** Blocks separated by a doubled character (a blank line for `"\n\n"`)
      come back from `split` exactly as they were joined. */
  lemma {:induction false} SplitJoinDoubled(parts: seq<string>, c: char)
    requires |parts| > 0
    requires forall k :: 0 <= k < |parts| - 1 ==> Separable(parts[k], c)
    requires NoDoubled(parts[|parts| - 1], c)
    ensures Split(Join(parts, [c, c]), [c, c]) == parts
    decreases |parts|
  {
    var sep := [c, c];
    var a := parts[0];
    if |parts| == 1 {
      forall i | 0 <= i < |a|
        ensures !OccursAt(a, sep, i)
      {
        if i + 2 <= |a| {
          assert a[i..i + 2] == [a[i], a[i + 1]];
        }
      }
      SplitNoOccurrence(a, sep);
    } else {
      var b := Join(parts[1..], sep);
      var s := a + sep + b;
      forall i | 0 <= i < |a|
        ensures !OccursAt(s, sep, i)
      {
        assert s[i..i + 2] == [s[i], s[i + 1]];
      }
      SplitAfterPiece(a, sep, b);
      SplitJoinDoubled(parts[1..], c);
    }
  }

  /** `char::is_whitespace`: the characters with the Unicode `White_Space`
      property, U+0009 to U+000D, U+0020, U+0085, U+00A0, U+1680, U+2000 to
      U+200A, U+2028, U+2029, U+202F, U+205F and U+3000. */
  predicate IsWhitespace(c: char)
  {
    || '\U{9}' <= c <= '\U{D}'
    || c == ' ' || c == '\U{85}' || c == '\U{A0}' || c == '\U{1680}'
    || '\U{2000}' <= c <= '\U{200A}'
    || c == '\U{2028}' || c == '\U{2029}' || c == '\U{202F}' || c == '\U{205F}' || c == '\U{3000}'
  }

  predicate IsWord(w: string) { |w| > 0 && forall i :: 0 <= i < |w| ==> !IsWhitespace(w[i]) }

  /** A printed number is a single word. */
  lemma NumberIsWord(n: nat)
    ensures IsWord(NatToString(n))
  {
    var s := NatToString(n);
    forall i | 0 <= i < |s| ensures !IsWhitespace(s[i]) {
      assert IsDigit(s[i]);
    }
  }

  /** Length of the run of non-whitespace characters that starts `s`. */
  function WordLength(s: string): (n: nat)
    ensures n <= |s|
    ensures forall i :: 0 <= i < n ==> !IsWhitespace(s[i])
    ensures n < |s| ==> IsWhitespace(s[n])
  {
    if s == [] || IsWhitespace(s[0]) then 0 else 1 + WordLength(s[1..])
  }

  /** `str::split_whitespace`: the maximal runs of non-whitespace characters. */
  function Words(s: string): (r: seq<string>)
    ensures forall i :: 0 <= i < |r| ==> IsWord(r[i])
    decreases |s|
  {
    if s == [] then []
    else if IsWhitespace(s[0]) then Words(s[1..])
    else
      var n := WordLength(s);
      [s[..n]] + Words(s[n..])
  }

  /** A vertical tab and an ideographic space separate words like a space does. */
  lemma WordsUnicodeWhitespace()
    ensures Words("a\U{B}b\U{3000}c") == ["a", "b", "c"]
  {
    var s := "a\U{B}b\U{3000}c";
    var t1, t3 := s[1..], s[3..];
    assert s == "a" + t1 && t1[1..] == "b" + t3 && t3[1..] == "c" + [];
    assert IsWord("a") && IsWord("b") && IsWord("c");
    WordLengthOfWord("a", t1);
    WordLengthOfWord("b", t3);
    WordLengthOfWord("c", []);
    assert ("a" + t1)[1..] == t1 && ("b" + t3)[1..] == t3;
    assert Words("c") == ["c"];
    assert Words(t3) == ["c"];
    assert Words(t1) == ["b", "c"];
  }


  /** Words separated by single spaces split back into the same words. */
  lemma {:induction false} WordsOfJoin(ws: seq<string>)
    requires forall i :: 0 <= i < |ws| ==> IsWord(ws[i])
    ensures Words(Join(ws, " ")) == ws
    decreases |ws|
  {
    if |ws| == 1 {
      WordLengthOfWord(ws[0], []);
      assert ws[0] + [] == ws[0];
      assert ws[0][|ws[0]|..] == [];
    } else if |ws| > 1 {
      var w := ws[0];
      var rest := Join(ws[1..], " ");
      var s := w + " " + rest;
      WordLengthOfWord(w, " " + rest);
      assert s == w + (" " + rest);
      assert s[..|w|] == w;
      assert s[|w|..] == " " + rest;
      assert (" " + rest)[1..] == rest;
      WordsOfJoin(ws[1..]);
      assert [w] + ws[1..] == ws;
    }
  }

  lemma {:induction false} WordLengthOfWord(w: string, rest: string)
    requires IsWord(w)
    requires rest == [] || IsWhitespace(rest[0])
    ensures WordLength(w + rest) == |w|
    decreases |w|
  {
    if |w| > 1 {
      assert (w + rest)[1..] == w[1..] + rest;
      WordLengthOfWord(w[1..], rest);
    } else {
      assert (w + rest)[1..] == rest;
    }
  }
}
