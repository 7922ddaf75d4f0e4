/** The pieces of Go's `strings` package that the service relies on, with
    Go's semantics: `strings.Split` with a one-character separator (so that
    splitting the empty string gives one empty part), `strings.Join`, and
    `strings.Contains`. */
module GoStrings {

  /** `strings.Split(s, string(sep))`: the maximal separator-free pieces of
      `s`, in order; `n` separators give `n + 1` pieces. */
  function Split(s: string, sep: char): (parts: seq<string>)
    ensures |parts| >= 1
    ensures forall i :: 0 <= i < |parts| ==> sep !in parts[i]
    decreases |s|
  {
    if s == [] then [""]
    else
      var rest := Split(s[1..], sep);
      if s[0] == sep then [""] + rest
      else [[s[0]] + rest[0]] + rest[1..]
  }

  /** `strings.Join(parts, string(sep))`. */
  function Join(parts: seq<string>, sep: char): string
  {
    if |parts| == 0 then ""
    else if |parts| == 1 then parts[0]
    else parts[0] + [sep] + Join(parts[1..], sep)
  }

  /** `strings.Contains(s, sub)`: `sub` occurs somewhere in `s`. */
  predicate Contains(s: string, sub: string)
    decreases |s|
  {
    sub <= s || (s != [] && Contains(s[1..], sub))
  }

  /** `len(strings.Split(s, "."))`: the number of dot-separated segments. */
  function Segments(s: string): nat
  {
    |Split(s, '.')|
  }

  /** Everything before the last separator: `strings.Join(parts[:len(parts)-1], sep)`
      with `parts := strings.Split(s, sep)`. */
  function DropLastSegment(s: string, sep: char): string
  {
    var parts := Split(s, sep);
    Join(parts[..|parts| - 1], sep)
  }

  /** Everything after the last separator. */
  function LastSegment(s: string, sep: char): string
  {
    var parts := Split(s, sep);
    parts[|parts| - 1]
  }

  // ---------------------------------------------------------------------
  // Split and Join are inverse to each other.

  /** Joining the pieces of a split gives the string back. */
  lemma {:induction false} JoinSplit(s: string, sep: char)
    ensures Join(Split(s, sep), sep) == s
    decreases |s|
  {
    if s != [] {
      var rest := Split(s[1..], sep);
      JoinSplit(s[1..], sep);
      if s[0] == sep {
        assert Split(s, sep)[1..] == rest;
      } else if |rest| > 1 {
        var parts := Split(s, sep);
        assert parts[1..] == rest[1..];
        assert Join(rest, sep) == rest[0] + [sep] + Join(rest[1..], sep);
        assert Join(parts, sep) == [s[0]] + rest[0] + [sep] + Join(rest[1..], sep);
      }
    }
  }

  /** A separator-free string splits into itself alone. */
  lemma {:induction false} SplitNoSeparator(s: string, sep: char)
    requires sep !in s
    ensures Split(s, sep) == [s]
    decreases |s|
  {
    if s != [] {
      assert sep !in s[1..];
      SplitNoSeparator(s[1..], sep);
      assert [s[0]] + s[1..] == s;
    }
  }

  /** Splitting at one separator splits the two sides independently. */
  lemma {:induction false} SplitAround(a: string, b: string, sep: char)
    ensures Split(a + [sep] + b, sep) == Split(a, sep) + Split(b, sep)
    decreases |a|
  {
    var s := a + [sep] + b;
    if a == [] {
      assert s[1..] == b;
    } else {
      assert s[1..] == a[1..] + [sep] + b;
      SplitAround(a[1..], b, sep);
    }
  }

  /** Splitting the join of separator-free pieces gives the pieces back. */
  lemma {:induction false} SplitJoin(parts: seq<string>, sep: char)
    requires |parts| >= 1
    requires forall i :: 0 <= i < |parts| ==> sep !in parts[i]
    ensures Split(Join(parts, sep), sep) == parts
    decreases |parts|
  {
    if |parts| == 1 {
      SplitNoSeparator(parts[0], sep);
    } else {
      SplitNoSeparator(parts[0], sep);
      SplitJoin(parts[1..], sep);
      SplitAround(parts[0], Join(parts[1..], sep), sep);
      assert [parts[0]] + parts[1..] == parts;
    }
  }

  /** One more piece is the same as one more separator. */
  lemma {:induction false} JoinSnoc(parts: seq<string>, last: string, sep: char)
    requires |parts| >= 1
    ensures Join(parts + [last], sep) == Join(parts, sep) + [sep] + last
    decreases |parts|
  {
    if |parts| > 1 {
      assert (parts + [last])[1..] == parts[1..] + [last];
      JoinSnoc(parts[1..], last, sep);
    }
  }

  /** The number of pieces is one more than the number of separators. */
  lemma {:induction false} SplitCount(s: string, sep: char)
    ensures |Split(s, sep)| == multiset(s)[sep] + 1
    decreases |s|
  {
    if s != [] {
      SplitCount(s[1..], sep);
      assert s == [s[0]] + s[1..];
      assert multiset(s) == multiset{s[0]} + multiset(s[1..]);
    }
  }

  /** A string has a single segment exactly when it has no separator. */
  lemma SingleSegment(s: string, sep: char)
    ensures |Split(s, sep)| == 1 <==> sep !in s
  {
    SplitCount(s, sep);
  }

  // ---------------------------------------------------------------------
  // The last segment of a path.

  /** Unless the string has no separator at all, dropping the last segment
      leaves exactly what precedes the last separator. */
  lemma DropLastRecompose(s: string, sep: char)
    ensures sep in s ==> DropLastSegment(s, sep) + [sep] + LastSegment(s, sep) == s
    ensures sep !in s ==> DropLastSegment(s, sep) == "" && LastSegment(s, sep) == s
  {
    var parts := Split(s, sep);
    var n := |parts|;
    SingleSegment(s, sep);
    JoinSplit(s, sep);
    if sep in s {
      JoinSnoc(parts[..n - 1], parts[n - 1], sep);
      assert parts[..n - 1] + [parts[n - 1]] == parts;
    } else {
      SplitNoSeparator(s, sep);
    }
  }

  /** Appending one separator-free segment and dropping the last segment
      are inverse to each other. */
  lemma AppendSegment(base: string, segment: string, sep: char)
    requires sep !in segment
    ensures DropLastSegment(base + [sep] + segment, sep) == base
    ensures LastSegment(base + [sep] + segment, sep) == segment
  {
    SplitAround(base, segment, sep);
    SplitNoSeparator(segment, sep);
    var parts := Split(base + [sep] + segment, sep);
    assert parts[..|parts| - 1] == Split(base, sep);
    JoinSplit(base, sep);
  }

  // ---------------------------------------------------------------------
  // Substrings.

  /** A string contains every one of its infixes. */
  lemma {:induction false} ContainsInfix(a: string, b: string, c: string)
    ensures Contains(a + b + c, b)
    decreases |a|
  {
    if a != [] {
      assert (a + b + c)[1..] == a[1..] + b + c;
      ContainsInfix(a[1..], b, c);
    } else {
      assert a + b + c == b + c;
    }
  }

  /** A string never contains a longer one. */
  lemma {:induction false} ContainsNoLonger(s: string, sub: string)
    requires Contains(s, sub)
    ensures |sub| <= |s|
    decreases |s|
  {
    if !(sub <= s) {
      ContainsNoLonger(s[1..], sub);
    }
  }

  /** Every character of a contained string occurs in the containing one. */
  lemma {:induction false} ContainsChars(s: string, sub: string)
    requires Contains(s, sub)
    ensures forall c | c in sub :: c in s
    decreases |s|
  {
    if !(sub <= s) {
      ContainsChars(s[1..], sub);
    } else {
      assert forall i | 0 <= i < |sub| :: sub[i] == s[i];
    }
  }

  // ---------------------------------------------------------------------
  // The first word of a label.

  /** Splitting at the first space: the first word, and the remaining words
      joined back with single spaces, reassemble the text. */
  lemma FirstWordRest(text: string)
    ensures var words := Split(text, ' ');
            ' ' in text ==> words[0] + " " + Join(words[1..], ' ') == text
    ensures var words := Split(text, ' ');
            ' ' !in text ==> words[0] == text && Join(words[1..], ' ') == ""
  {
    var words := Split(text, ' ');
    JoinSplit(text, ' ');
    SingleSegment(text, ' ');
    if ' ' !in text {
      SplitNoSeparator(text, ' ');
    }
  }
}
