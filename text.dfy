/**
 * The string operations the blog relies on: Python's `str.split()`,
 * case-insensitive containment as a SQL `icontains` lookup sees it,
 * `str(int)`, `s.split(sep)[-1]` and POSIX `os.path.join`.
 */
module Text {

  /** Python's whitespace test (`str.isspace`), which `str.split()` splits on. */
  predicate IsSpace(c: char) {
    || '\t' <= c <= '\r'
    || '\U{1C}' <= c <= '\U{1F}'
    || c == ' ' || c == '\U{85}' || c == '\U{A0}' || c == '\U{1680}'
    || '\U{2000}' <= c <= '\U{200A}'
    || c == '\U{2028}' || c == '\U{2029}' || c == '\U{202F}' || c == '\U{205F}' || c == '\U{3000}'
  }

  function Max(a: int, b: int): (m: int)
    ensures m >= a && m >= b && (m == a || m == b)
  {
    if a < b then b else a
  }

  function Min(a: int, b: int): (m: int)
    ensures m <= a && m <= b && (m == a || m == b)
  {
    if a < b then a else b
  }

  /** The length of the run of non-whitespace at the start of `s`. */
  function WordLength(s: string): (n: nat)
    requires s != [] && !IsSpace(s[0])
    ensures 1 <= n <= |s|
    ensures forall i :: 0 <= i < n ==> !IsSpace(s[i])
    ensures n < |s| ==> IsSpace(s[n])
    decreases |s|
  {
    if |s| == 1 || IsSpace(s[1]) then 1 else 1 + WordLength(s[1..])
  }

  /** Python's `s.split()`: the maximal runs of non-whitespace, in order. */
  function Split(s: string): (words: seq<string>)
    ensures forall i :: 0 <= i < |words| ==> words[i] != []
    ensures forall i, j :: 0 <= i < |words| && 0 <= j < |words[i]| ==> !IsSpace(words[i][j])
    decreases |s|
  {
    if s == [] then []
    else if IsSpace(s[0]) then Split(s[1..])
    else
      var n := WordLength(s);
      [s[..n]] + Split(s[n..])
  }

  /** A single run of non-whitespace splits into itself. */
  lemma SplitOfWord(w: string)
    requires w != [] && forall i :: 0 <= i < |w| ==> !IsSpace(w[i])
    ensures Split(w) == [w]
  {
    assert WordLength(w) == |w|;
    assert w[..|w|] == w && w[|w|..] == [];
  }

  /** A word that whitespace follows ends where it ends without the rest. */
  lemma {:induction false} WordLengthBeforeSpace(a: string, b: string)
    requires a != [] && !IsSpace(a[0]) && b != [] && IsSpace(b[0])
    ensures WordLength(a + b) == WordLength(a)
    decreases |a|
  {
    var ab := a + b;
    assert ab[0] == a[0] && ab[1..] == a[1..] + b;
    if |a| == 1 {
      assert ab[1] == b[0];
    } else {
      assert ab[1] == a[1];
      if !IsSpace(a[1]) {
        WordLengthBeforeSpace(a[1..], b);
      }
    }
  }

  /** Splitting text that starts with whitespace skips the whitespace. */
  lemma SplitSkipsSpace(a: string, b: string)
    requires a != [] && IsSpace(a[0])
    ensures Split(a + b) == Split(a[1..] + b)
  {
    assert (a + b)[0] == a[0] && (a + b)[1..] == a[1..] + b;
  }

  /** Splitting text that starts with a word followed by whitespace-led text takes that word first. */
  lemma SplitTakesWord(a: string, b: string)
    requires a != [] && !IsSpace(a[0]) && b != [] && IsSpace(b[0])
    ensures Split(a + b) == [a[..WordLength(a)]] + Split(a[WordLength(a)..] + b)
  {
    var ab, n := a + b, WordLength(a);
    assert ab[0] == a[0];
    WordLengthBeforeSpace(a, b);
    assert Split(ab) == [ab[..n]] + Split(ab[n..]);
    assert ab[..n] == a[..n] by {
      assert forall i :: 0 <= i < n ==> ab[i] == a[i];
    }
    assert ab[n..] == a[n..] + b;
  }

  /** Splitting text followed by whitespace-led text splits each part. */
  lemma {:induction false} SplitBeforeSpace(a: string, b: string)
    requires b != [] && IsSpace(b[0])
    ensures Split(a + b) == Split(a) + Split(b)
    decreases |a|
  {
    if a == [] {
      assert a + b == b;
    } else if IsSpace(a[0]) {
      SplitSkipsSpace(a, b);
      SplitBeforeSpace(a[1..], b);
    } else {
      var n := WordLength(a);
      SplitTakesWord(a, b);
      SplitBeforeSpace(a[n..], b);
      assert [a[..n]] + (Split(a[n..]) + Split(b)) == ([a[..n]] + Split(a[n..])) + Split(b);
    }
  }

  /** Two texts joined by a space split into the words of the first, then those of the second. */
  lemma SplitOfJoin(a: string, b: string)
    ensures Split(a + " " + b) == Split(a) + Split(b)
  {
    assert a + " " + b == a + ([' '] + b);
    SplitBeforeSpace(a, [' '] + b);
    assert ([' '] + b)[1..] == b;
  }

  /**
   * An independent count of the words of `s`: the positions holding a
   * non-whitespace character that follows whitespace or, when `afterSpace`,
   * the start of `s`.
   */
  function WordStarts(s: string, afterSpace: bool): nat
    decreases |s|
  {
    if s == [] then 0
    else (if afterSpace && !IsSpace(s[0]) then 1 else 0) + WordStarts(s[1..], IsSpace(s[0]))
  }

  lemma WordStartsAtBoundary(s: string, afterSpace: bool)
    requires s == [] || IsSpace(s[0])
    ensures WordStarts(s, afterSpace) == WordStarts(s, true)
  {
  }

  /** Inside a word no new word starts before the whitespace that ends it. */
  lemma {:induction false} WordStartsInsideWord(s: string, k: nat, n: nat)
    requires 1 <= k <= n <= |s|
    requires forall i :: 0 <= i < n ==> !IsSpace(s[i])
    requires n < |s| ==> IsSpace(s[n])
    ensures WordStarts(s[k..], false) == WordStarts(s[n..], true)
    decreases n - k
  {
    if k == n {
      WordStartsAtBoundary(s[n..], false);
    } else {
      assert s[k..][1..] == s[k + 1..];
      WordStartsInsideWord(s, k + 1, n);
    }
  }

  /** `str.split()` yields exactly one word per word start. */
  lemma {:induction false} SplitCountsWordStarts(s: string)
    ensures |Split(s)| == WordStarts(s, true)
    decreases |s|
  {
    if s != [] {
      if IsSpace(s[0]) {
        SplitCountsWordStarts(s[1..]);
      } else {
        var n := WordLength(s);
        SplitCountsWordStarts(s[n..]);
        WordStartsInsideWord(s, 1, n);
      }
    }
  }

  /** `len(s.split())`. */
  function WordCount(s: string): (n: nat)
    ensures n == WordStarts(s, true)
  {
    SplitCountsWordStarts(s);
    |Split(s)|
  }

  /** Whether `s`, entered with the given whitespace state, ends in whitespace. */
  function EndsInSpace(s: string, afterSpace: bool): bool {
    if s == [] then afterSpace else IsSpace(s[|s| - 1])
  }

  lemma {:induction false} WordStartsOfConcat(a: string, b: string, afterSpace: bool)
    ensures WordStarts(a + b, afterSpace) == WordStarts(a, afterSpace) + WordStarts(b, EndsInSpace(a, afterSpace))
    decreases |a|
  {
    if a == [] {
      assert a + b == b;
    } else {
      assert (a + b)[1..] == a[1..] + b;
      WordStartsOfConcat(a[1..], b, IsSpace(a[0]));
      assert a[1..] == [] ==> EndsInSpace(a, afterSpace) == IsSpace(a[0]);
      assert a[1..] != [] ==> a[1..][|a[1..]| - 1] == a[|a| - 1];
    }
  }

  /** Two texts joined by a space have the words of both. */
  lemma WordCountOfJoin(a: string, b: string)
    ensures WordCount(a + " " + b) == WordCount(a) + WordCount(b)
  {
    assert a + " " + b == a + ([' '] + b);
    WordStartsOfConcat(a, [' '] + b, true);
    assert ([' '] + b)[1..] == b;
  }

  /** ASCII case folding, as SQLite's `LIKE` applies it. */
  function LowerAscii(c: char): char {
    if 'A' <= c <= 'Z' then (c as int + 32) as char else c
  }

  function Fold(s: string): (r: string)
    ensures |r| == |s|
    ensures forall i :: 0 <= i < |s| ==> r[i] == LowerAscii(s[i])
  {
    seq(|s|, i requires 0 <= i < |s| => LowerAscii(s[i]))
  }

  /** `needle` occurs as a contiguous piece of `hay`. */
  predicate Contains(hay: string, needle: string)
    decreases |hay|
  {
    needle <= hay || (hay != [] && Contains(hay[1..], needle))
  }

  /** The `icontains` lookup: containment up to ASCII case. */
  predicate IContains(hay: string, needle: string) {
    Contains(Fold(hay), Fold(needle))
  }

  /** `s.split(sep)[-1]`: the text after the last `sep`, or all of `s` when there is none. */
  function AfterLast(s: string, sep: char): (tail: string)
    ensures sep !in tail
    ensures |tail| <= |s| && tail == s[|s| - |tail|..]
    decreases |s|
  {
    if s == [] then []
    else if s[|s| - 1] == sep then []
    else
      var init, last := s[..|s| - 1], s[|s| - 1];
      var t := AfterLast(init, sep);
      assert s[|s| - |t| - 1..] == init[|init| - |t|..] + [last];
      t + [last]
  }

  /** Without a separator, the tail is all of `s`. */
  lemma {:induction false} AfterLastWithoutSeparator(s: string, sep: char)
    requires sep !in s
    ensures AfterLast(s, sep) == s
    decreases |s|
  {
    if s != [] {
      var init := s[..|s| - 1];
      assert s == init + [s[|s| - 1]];
      AfterLastWithoutSeparator(init, sep);
    }
  }

  /** With a separator, the tail is shorter than `s` and starts just after a separator. */
  lemma {:induction false} AfterLastAfterSeparator(s: string, sep: char)
    requires sep in s
    ensures |AfterLast(s, sep)| < |s| && s[|s| - |AfterLast(s, sep)| - 1] == sep
    decreases |s|
  {
    if s[|s| - 1] != sep {
      var init, last := s[..|s| - 1], s[|s| - 1];
      var t := AfterLast(init, sep);
      assert AfterLast(s, sep) == t + [last];
      var i :| 0 <= i < |s| && s[i] == sep;
      assert init[i] == sep;
      AfterLastAfterSeparator(init, sep);
      assert s[|s| - |t| - 2] == init[|init| - |t| - 1];
    }
  }

  /** Whatever precedes the last separator, the text after it is recovered. */
  lemma {:induction false} AfterLastOfJoin(prefix: string, sep: char, tail: string)
    requires sep !in tail
    ensures AfterLast(prefix + [sep] + tail, sep) == tail
    decreases |tail|
  {
    if tail != [] {
      var init := tail[..|tail| - 1];
      assert prefix + [sep] + tail == (prefix + [sep] + init) + [tail[|tail| - 1]];
      AfterLastOfJoin(prefix, sep, init);
    } else {
      assert prefix + [sep] + tail == prefix + [sep];
    }
  }

  function Digit(d: nat): (c: char)
    requires d < 10
    ensures '0' <= c <= '9'
  {
    ('0' as int + d) as char
  }

  /** The number a string of decimal digits denotes, read most significant digit first. */
  function DecimalValue(s: string): nat
    requires forall i :: 0 <= i < |s| ==> '0' <= s[i] <= '9'
    decreases |s|
  {
    if s == [] then 0 else 10 * DecimalValue(s[..|s| - 1]) + (s[|s| - 1] as int - '0' as int)
  }

  /** `str(n)` for a natural number: its decimal digits, with no leading zero. */
  function NatToString(n: nat): (r: string)
    ensures r != []
    ensures forall i :: 0 <= i < |r| ==> '0' <= r[i] <= '9'
    ensures n == 0 ==> r == "0"
    ensures n > 0 ==> r[0] != '0'
    decreases n
  {
    if n < 10 then [Digit(n)] else NatToString(n / 10) + [Digit(n % 10)]
  }

  /** Reading back the digits of `str(n)` gives `n`. */
  lemma {:induction false} NatToStringValue(n: nat)
    ensures DecimalValue(NatToString(n)) == n
    decreases n
  {
    var r := NatToString(n);
    if n < 10 {
      assert r[..0] == [];
    } else {
      assert r[..|r| - 1] == NatToString(n / 10);
      NatToStringValue(n / 10);
    }
  }

  /** `str(i)`: a minus sign exactly for negative numbers, then the decimal digits of the magnitude. */
  function IntToString(i: int): (r: string)
    ensures r != [] && '.' !in r && '/' !in r
    ensures i >= 0 ==> (forall k :: 0 <= k < |r| ==> '0' <= r[k] <= '9') && DecimalValue(r) == i
    ensures i == 0 ==> r == "0"
    ensures i > 0 ==> r[0] != '0'
    ensures i < 0 ==> r[0] == '-' && |r| > 1 && (forall k :: 1 <= k < |r| ==> '0' <= r[k] <= '9') && DecimalValue(r[1..]) == -i
    ensures i < 0 ==> r[1] != '0'
  {
    if i < 0 then
      NatToStringValue(-i);
      assert ("-" + NatToString(-i))[1..] == NatToString(-i);
      "-" + NatToString(-i)
    else
      NatToStringValue(i);
      NatToString(i)
  }

  /** POSIX `os.path.join(a, b)`: an absolute `b` replaces `a`. */
  function JoinPath(a: string, b: string): (r: string)
    ensures b != [] && b[0] == '/' ==> r == b
    ensures (b == [] || b[0] != '/') && a != [] && a[|a| - 1] != '/' ==> r == a + "/" + b
    ensures (b == [] || b[0] != '/') && (a == [] || a[|a| - 1] == '/') ==> r == a + b
  {
    if b != [] && b[0] == '/' then b
    else if a == [] || a[|a| - 1] == '/' then a + b
    else a + "/" + b
  }
}
