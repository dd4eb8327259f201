/** The `reading_time` template filter. */
module BlogFilters {
  import opened Text

  /** Minutes to read `text` at 200 words a minute, never less than one. */
  function ReadingTime(text: string): (minutes: nat)
    ensures minutes >= 1
    ensures WordCount(text) >= 200 ==> minutes == WordCount(text) / 200
    ensures WordCount(text) < 400 ==> minutes == 1
  {
    Max(1, WordCount(text) / 200)
  }

  /** More words never mean less reading time. */
  lemma ReadingTimeMonotone(a: string, b: string)
    requires WordCount(a) <= WordCount(b)
    ensures ReadingTime(a) <= ReadingTime(b)
  {
    var m, n := WordCount(a), WordCount(b);
    assert m / 200 <= n / 200 by {
      assert m == (m / 200) * 200 + m % 200;
      assert n == (n / 200) * 200 + n % 200;
    }
  }

  /** Appending any text to a text never shortens its reading time. */
  lemma ReadingTimeOfAppend(a: string, b: string)
    ensures ReadingTime(a) <= ReadingTime(a + b)
  {
    WordStartsOfConcat(a, b, true);
    ReadingTimeMonotone(a, a + b);
  }
}
