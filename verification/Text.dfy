/** Substrings and the order of strings, as the scaffold uses them. */
module Text {
  /** `pattern` occurs in `text` at position `i`. */
  predicate At(text: string, i: nat, pattern: string) {
    i + |pattern| <= |text| && text[i..i + |pattern|] == pattern
  }

  lemma AtIsPointwise(text: string, i: nat, pattern: string)
    ensures At(text, i, pattern) <==>
            i + |pattern| <= |text| && forall k | 0 <= k < |pattern| :: text[i + k] == pattern[k]
  {
  }

  lemma CharactersOfOccurrence(text: string, i: nat, pattern: string, k: nat)
    requires At(text, i, pattern) && k < |pattern|
    ensures i + k < |text| && text[i + k] == pattern[k]
  {
  }

  /** The first position from `from` on where `pattern` occurs, or the length of the text. */
  function Next(text: string, pattern: string, from: nat): (r: nat)
    requires pattern != ""
    ensures r <= |text| || r == from
    ensures from <= r
    ensures forall i | from <= i < r :: !At(text, i, pattern)
    ensures r < |text| ==> At(text, r, pattern)
    decreases |text| - from
  {
    if from >= |text| then from
    else if At(text, from, pattern) then from
    else Next(text, pattern, from + 1)
  }

  lemma NextIs(text: string, pattern: string, from: nat, r: nat)
    requires pattern != "" && from <= r <= |text|
    requires forall i | from <= i < r :: !At(text, i, pattern)
    requires r < |text| ==> At(text, r, pattern)
    ensures Next(text, pattern, from) == r
  {
  }

  predicate Contains(text: string, pattern: string)
    requires pattern != ""
  {
    Next(text, pattern, 0) < |text|
  }

  /** The number of bytes of a text in UTF-8, which is its length in the original. */
  function Size(s: string): nat {
    if s == "" then 0 else Width(s[0]) + Size(s[1..])
  }

  function Width(c: char): nat {
    if c < '\U{80}' then 1 else if c < '\U{800}' then 2 else if c < '\U{10000}' then 3 else 4
  }

  lemma {:induction false} SizeAdds(a: string, b: string)
    ensures Size(a + b) == Size(a) + Size(b)
  {
    if a == "" {
      assert a + b == b;
    } else {
      assert (a + b)[1..] == a[1..] + b;
      SizeAdds(a[1..], b);
    }
  }

  /** Lexicographic order by code point, which is also the order of the UTF-8 bytes. */
  predicate Less(a: string, b: string) {
    b != "" && (a == "" || a[0] < b[0] || (a[0] == b[0] && Less(a[1..], b[1..])))
  }

  /** The order is lexicographic: a proper prefix, or a smaller character after a common beginning. */
  lemma {:induction false} LessIsLexicographic(a: string, b: string)
    ensures Less(a, b) <==>
            || (|a| < |b| && a == b[..|a|])
            || exists i: nat :: i < |a| && i < |b| && a[..i] == b[..i] && a[i] < b[i]
  {
    if a != "" && b != "" && a[0] == b[0] {
      var x, y := a[1..], b[1..];
      LessIsLexicographic(x, y);
      assert a == [a[0]] + x && b == [b[0]] + y;
      if i: nat :| i < |x| && i < |y| && x[..i] == y[..i] && x[i] < y[i] {
        assert a[..i + 1] == [a[0]] + x[..i] && b[..i + 1] == [b[0]] + y[..i];
        assert a[i + 1] == x[i] && b[i + 1] == y[i];
      }
      if i: nat :| i < |a| && i < |b| && a[..i] == b[..i] && a[i] < b[i] {
        assert i > 0;
        assert x[..i - 1] == a[..i][1..] && y[..i - 1] == b[..i][1..];
        assert x[i - 1] == a[i] && y[i - 1] == b[i];
      }
      if |x| < |y| && x == y[..|x|] {
        assert b[..|a|] == [b[0]] + y[..|x|];
      }
      if |a| < |b| && a == b[..|a|] {
        assert y[..|x|] == b[..|a|][1..];
      }
    } else if a != "" && b != "" && a[0] < b[0] {
      assert a[..0] == b[..0];
    } else if a != "" && b != "" {
      forall i: nat | 0 < i < |a| && i < |b| ensures a[..i] != b[..i] {
        assert a[..i][0] != b[..i][0];
      }
      assert |a| < |b| ==> a[0] != b[..|a|][0];
    }
  }

  /** One to four bytes a character. */
  lemma SizeExamples()
    ensures Size("a") == 1 && Size("\U{E9}") == 2 && Size("\U{20AC}") == 3 && Size("\U{1F600}") == 4
  {
    assert "a"[1..] == "" && "\U{E9}"[1..] == "" && "\U{20AC}"[1..] == "" && "\U{1F600}"[1..] == "";
  }

  lemma LineFeedAt(text: string, i: nat)
    requires i < |text|
    ensures At(text, i, "\n") <==> text[i] == '\n'
  {
    AtIsPointwise(text, i, "\n");
  }

  lemma NoLineFeedBefore(text: string, from: nat)
    requires from <= |text|
    ensures '\n' !in text[from..Next(text, "\n", from)]
  {
    var end := Next(text, "\n", from);
    forall i | from <= i < end ensures text[i] != '\n' {
      LineFeedAt(text, i);
    }
  }

  /** Where a text before its first line feed ends. */
  lemma NextLineFeed(text: string, from: nat, end: nat)
    requires from <= end <= |text| && '\n' !in text[from..end] && (end < |text| ==> text[end] == '\n')
    ensures Next(text, "\n", from) == end
  {
    forall i | from <= i < end ensures !At(text, i, "\n") {
      LineFeedAt(text, i);
      assert text[from..end][i - from] == text[i];
    }
    if end < |text| {
      LineFeedAt(text, end);
    }
    NextIs(text, "\n", from, end);
  }
}
