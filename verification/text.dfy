/**
 The Python `str` operations the variable naming and the name shortening use,
 over `seq<char>`: `split(c)` with a one-character separator, `split()` on
 whitespace, `strip()`, `join`, and `str()` of a natural number. Whitespace is
 what Python's `str.isspace` accepts.
 */
module Text {

  /** Python's `str.isspace` for one character: the characters `split()` and `strip()` remove. */
  predicate IsSpace(c: char) {
    || c == ' '
    || ('\t' <= c <= '\r')
    || ('\U{001C}' <= c <= '\U{001F}')
    || c == '\U{0085}' || c == '\U{00A0}' || c == '\U{1680}'
    || ('\U{2000}' <= c <= '\U{200A}')
    || c == '\U{2028}' || c == '\U{2029}' || c == '\U{202F}' || c == '\U{205F}' || c == '\U{3000}'
  }

  predicate NoSpace(s: string) {
    forall k | 0 <= k < |s| :: !IsSpace(s[k])
  }

  predicate AllSpace(s: string) {
    forall k | 0 <= k < |s| :: IsSpace(s[k])
  }

  // ---------------------------------------------------------------------
  // `sep.join(parts)` and `s.split(c)`
  // ---------------------------------------------------------------------

  /** `sep.join(parts)`. */
  function Join(parts: seq<string>, sep: string): string {
    if |parts| == 0 then ""
    else if |parts| == 1 then parts[0]
    else parts[0] + sep + Join(parts[1..], sep)
  }

  /** `s.split(c)`: the pieces between the occurrences of `c`, at least one. */
  function SplitOn(s: string, c: char): (r: seq<string>)
    ensures |r| >= 1
    ensures forall i | 0 <= i < |r| :: c !in r[i]
  {
    if |s| == 0 then [""]
    else
      var rest := SplitOn(s[1..], c);
      if s[0] == c then [""] + rest
      else
        assert forall i | 1 <= i < |rest| :: ([[s[0]] + rest[0]] + rest[1..])[i] == rest[i];
        [[s[0]] + rest[0]] + rest[1..]
  }

  /** Joining the pieces with the separator gives the string back. */
  lemma {:induction false} SplitJoin(s: string, c: char)
    ensures Join(SplitOn(s, c), [c]) == s
  {
    if |s| > 0 {
      SplitJoin(s[1..], c);
      var rest := SplitOn(s[1..], c);
      if s[0] == c {
        assert ([""] + rest)[1..] == rest;
      } else {
        var r := [[s[0]] + rest[0]] + rest[1..];
        if |rest| > 1 {
          assert r[1..] == rest[1..];
        }
      }
    }
  }

  /** A string without the separator is a single piece. */
  lemma {:induction false} SplitOnNoSeparator(a: string, c: char)
    requires c !in a
    ensures SplitOn(a, c) == [a]
  {
    if |a| > 0 {
      SplitOnNoSeparator(a[1..], c);
      assert [a[0]] + a[1..] == a;
    }
  }

  /** The first separator ends the first piece. */
  lemma {:induction false} SplitOnFirst(a: string, c: char, b: string)
    requires c !in a
    ensures SplitOn(a + [c] + b, c) == [a] + SplitOn(b, c)
  {
    if |a| == 0 {
      assert (a + [c] + b)[1..] == b;
    } else {
      assert (a + [c] + b)[1..] == a[1..] + [c] + b;
      SplitOnFirst(a[1..], c, b);
      assert [a[0]] + a[1..] == a;
    }
  }

  /** Splitting a join of separator-free pieces gives the pieces back. */
  lemma {:induction false} JoinSplit(parts: seq<string>, c: char)
    requires |parts| >= 1
    requires forall i | 0 <= i < |parts| :: c !in parts[i]
    ensures SplitOn(Join(parts, [c]), c) == parts
  {
    if |parts| == 1 {
      SplitOnNoSeparator(parts[0], c);
    } else {
      JoinSplit(parts[1..], c);
      SplitOnFirst(parts[0], c, Join(parts[1..], [c]));
      assert [parts[0]] + parts[1..] == parts;
    }
  }

  // ---------------------------------------------------------------------
  // `s.strip()` and `s.split()`
  // ---------------------------------------------------------------------

  /** The number of leading whitespace characters. */
  function LeadingSpaces(s: string): (n: nat)
    ensures n <= |s|
    ensures forall k | 0 <= k < n :: IsSpace(s[k])
    ensures n < |s| ==> !IsSpace(s[n])
  {
    if |s| > 0 && IsSpace(s[0]) then 1 + LeadingSpaces(s[1..]) else 0
  }

  /** The length of `s` without its trailing whitespace. */
  function KeptLength(s: string): (n: nat)
    ensures n <= |s|
    ensures forall k | n <= k < |s| :: IsSpace(s[k])
    ensures n > 0 ==> !IsSpace(s[n - 1])
  {
    if |s| > 0 && IsSpace(s[|s| - 1]) then KeptLength(s[..|s| - 1]) else |s|
  }

  /** `s.strip()`: `s` less its leading and trailing whitespace. */
  function Strip(s: string): (r: string)
    ensures r == [] <==> AllSpace(s)
    ensures r != [] ==> !IsSpace(r[0]) && !IsSpace(r[|r| - 1])
    ensures LeadingSpaces(s) + |r| <= |s| && r == s[LeadingSpaces(s)..LeadingSpaces(s) + |r|]
    ensures forall k | LeadingSpaces(s) + |r| <= k < |s| :: IsSpace(s[k])
  {
    var i := LeadingSpaces(s);
    if i == |s| then
      assert s[i..i] == [];
      ""
    else
      var j := KeptLength(s);
      assert i < j by {
        assert !IsSpace(s[i]);
      }
      s[i..j]
  }

  /** A string that neither starts nor ends with whitespace is its own `strip()`. */
  lemma StripTrimmed(s: string)
    requires s == [] || (!IsSpace(s[0]) && !IsSpace(s[|s| - 1]))
    ensures Strip(s) == s
  {
    if s != [] {
      var r := Strip(s);
      assert LeadingSpaces(s) == 0;
      assert !IsSpace(s[|s| - 1]);
    }
  }

  /** `strip()` is idempotent. */
  lemma StripIdempotent(s: string)
    ensures Strip(Strip(s)) == Strip(s)
  {
    StripTrimmed(Strip(s));
  }

  /** The number of leading non-space characters. */
  function WordLength(s: string): (n: nat)
    ensures n <= |s|
    ensures forall k | 0 <= k < n :: !IsSpace(s[k])
    ensures n < |s| ==> IsSpace(s[n])
  {
    if |s| > 0 && !IsSpace(s[0]) then 1 + WordLength(s[1..]) else 0
  }

  /** The pieces written one after another. */
  function Concat(ws: seq<string>): string {
    if |ws| == 0 then "" else ws[0] + Concat(ws[1..])
  }

  /** The characters of `s` that are not whitespace, in order. */
  function NonSpace(s: string): string {
    if |s| == 0 then "" else (if IsSpace(s[0]) then "" else [s[0]]) + NonSpace(s[1..])
  }

  lemma {:induction false} NonSpaceAppend(a: string, b: string)
    ensures NonSpace(a + b) == NonSpace(a) + NonSpace(b)
  {
    if |a| > 0 {
      assert (a + b)[0] == a[0];
      assert (a + b)[1..] == a[1..] + b;
      NonSpaceAppend(a[1..], b);
    } else {
      assert a + b == b;
    }
  }

  lemma {:induction false} NonSpaceOfWord(w: string)
    requires NoSpace(w)
    ensures NonSpace(w) == w
  {
    if |w| > 0 {
      NonSpaceOfWord(w[1..]);
      assert [w[0]] + w[1..] == w;
    }
  }

  /** `s.split()`: the maximal runs of non-space characters, in order. Together the words
      are exactly the non-space characters of `s`; where one word ends and the next begins
      is fixed by `SplitWordsWord` and `SplitWordsAppend`. */
  function SplitWords(s: string): (r: seq<string>)
    ensures forall i | 0 <= i < |r| :: r[i] != "" && NoSpace(r[i])
    ensures Concat(r) == NonSpace(s)
    decreases |s|
  {
    if |s| == 0 then []
    else if IsSpace(s[0]) then SplitWords(s[1..])
    else
      var n := WordLength(s);
      var w := s[..n];
      var rest := SplitWords(s[n..]);
      assert forall m | 1 <= m < |rest| + 1 :: ([w] + rest)[m] == rest[m - 1];
      assert ([w] + rest)[1..] == rest;
      assert s == w + s[n..];
      NonSpaceAppend(w, s[n..]);
      NonSpaceOfWord(w);
      [w] + rest
  }

  lemma {:induction false} WordLengthOfWord(w: string, rest: string)
    requires NoSpace(w)
    requires rest == [] || IsSpace(rest[0])
    ensures WordLength(w + rest) == |w|
  {
    if |w| > 0 {
      assert (w + rest)[1..] == w[1..] + rest;
      WordLengthOfWord(w[1..], rest);
    }
  }

  /** `split()` yields nothing exactly for a whitespace-only string. */
  lemma {:induction false} SplitWordsEmpty(s: string)
    ensures SplitWords(s) == [] <==> AllSpace(s)
  {
    if |s| > 0 && IsSpace(s[0]) {
      SplitWordsEmpty(s[1..]);
      assert AllSpace(s) <==> AllSpace(s[1..]) by {
        assert forall k | 1 <= k < |s| :: s[k] == s[1..][k - 1];
      }
    }
  }

  /** A string whose first word ends before its end keeps that word after any extension. */
  lemma {:induction false} WordLengthAppend(a: string, b: string)
    requires WordLength(a) < |a|
    ensures WordLength(a + b) == WordLength(a)
  {
    if !IsSpace(a[0]) {
      assert (a + b)[1..] == a[1..] + b;
      WordLengthAppend(a[1..], b);
    }
  }

  lemma SplitWordsSkip(s: string)
    requires |s| > 0 && IsSpace(s[0])
    ensures SplitWords(s) == SplitWords(s[1..])
  {
  }

  lemma SplitWordsTake(s: string)
    requires |s| > 0 && !IsSpace(s[0])
    ensures SplitWords(s) == [s[..WordLength(s)]] + SplitWords(s[WordLength(s)..])
  {
  }

  /** A whole word followed by text that starts with whitespace splits off as one word. */
  lemma SplitWordsWordThen(a: string, b: string)
    requires a != [] && NoSpace(a) && (b == [] || IsSpace(b[0]))
    ensures SplitWords(a + b) == [a] + SplitWords(b)
  {
    var ab := a + b;
    WordLengthOfWord(a, b);
    assert ab[..|a|] == a && ab[|a|..] == b;
    SplitWordsTake(ab);
  }

  lemma SliceAppend(a: string, b: string, n: nat)
    requires 0 < n <= |a|
    ensures (a + b)[0] == a[0] && (a + b)[..n] == a[..n] && (a + b)[n..] == a[n..] + b
  {
  }

  /** Splitting distributes over a concatenation whose two sides meet at whitespace: no
      word runs across such a boundary. */
  lemma {:induction false} SplitWordsAppend(a: string, b: string)
    requires a == [] || b == [] || IsSpace(a[|a| - 1]) || IsSpace(b[0])
    ensures SplitWords(a + b) == SplitWords(a) + SplitWords(b)
    decreases |a|, 1
  {
    if |a| == 0 {
      assert a + b == b;
    } else if IsSpace(a[0]) {
      SplitWordsAppendSpace(a, b);
    } else if WordLength(a) < |a| {
      SplitWordsAppendWord(a, b);
    } else {
      assert NoSpace(a);
      SplitWordsWord(a);
      SplitWordsWordThen(a, b);
    }
  }

  lemma SplitWordsAppendSpace(a: string, b: string)
    requires a != [] && IsSpace(a[0])
    requires b == [] || IsSpace(a[|a| - 1]) || IsSpace(b[0])
    ensures SplitWords(a + b) == SplitWords(a) + SplitWords(b)
    decreases |a|, 0
  {
    var ab := a + b;
    assert ab[0] == a[0] && ab[1..] == a[1..] + b;
    SplitWordsSkip(a);
    SplitWordsSkip(ab);
    SplitWordsAppend(a[1..], b);
  }

  lemma SplitWordsAppendWord(a: string, b: string)
    requires a != [] && !IsSpace(a[0]) && WordLength(a) < |a|
    requires b == [] || IsSpace(a[|a| - 1]) || IsSpace(b[0])
    ensures SplitWords(a + b) == SplitWords(a) + SplitWords(b)
    decreases |a|, 0
  {
    var n := WordLength(a);
    var w, rest := a[..n], a[n..];
    assert SplitWords(a + b) == [w] + SplitWords(rest + b) by {
      WordLengthAppend(a, b);
      SliceAppend(a, b, n);
      SplitWordsTake(a + b);
    }
    assert SplitWords(a) == [w] + SplitWords(rest) by {
      SplitWordsTake(a);
    }
    assert n > 0 && rest[|rest| - 1] == a[|a| - 1];
    SplitWordsAppend(rest, b);
    ConsAppend(w, SplitWords(rest), SplitWords(b));
  }

  lemma ConsAppend<T>(w: T, x: seq<T>, y: seq<T>)
    ensures [w] + (x + y) == ([w] + x) + y
  {
  }

  /** A word followed by a space and more text splits off as the first word. */
  lemma SplitWordsCons(w: string, rest: string)
    requires w != "" && NoSpace(w)
    ensures SplitWords(w + " " + rest) == [w] + SplitWords(rest)
  {
    var s := w + (" " + rest);
    assert s == w + " " + rest;
    assert s[0] == w[0];
    WordLengthOfWord(w, " " + rest);
    assert s[..|w|] == w;
    assert s[|w|..] == " " + rest;
    assert (" " + rest)[1..] == rest;
  }

  /** A single word splits into itself. */
  lemma SplitWordsWord(w: string)
    requires w != "" && NoSpace(w)
    ensures SplitWords(w) == [w]
  {
    WordLengthOfWord(w, "");
    assert w + "" == w;
    assert w[..|w|] == w;
  }

  /** Splitting a space-join of words gives the words back. */
  lemma {:induction false} JoinSplitWords(ws: seq<string>)
    requires forall i | 0 <= i < |ws| :: ws[i] != "" && NoSpace(ws[i])
    ensures SplitWords(Join(ws, " ")) == ws
  {
    if |ws| == 0 {
    } else if |ws| == 1 {
      SplitWordsWord(ws[0]);
    } else {
      JoinSplitWords(ws[1..]);
      SplitWordsCons(ws[0], Join(ws[1..], " "));
      assert [ws[0]] + ws[1..] == ws;
    }
  }

  // ---------------------------------------------------------------------
  // `str(n)` for a natural number
  // ---------------------------------------------------------------------

  predicate IsDigit(c: char) {
    '0' <= c <= '9'
  }

  function Digit(d: nat): (c: char)
    requires d < 10
    ensures IsDigit(c)
  {
    ['0', '1', '2', '3', '4', '5', '6', '7', '8', '9'][d]
  }

  /** The decimal spelling of `n`, without leading zeros. */
  function DecimalString(n: nat): (r: string)
    ensures |r| >= 1 && forall k | 0 <= k < |r| :: IsDigit(r[k])
    ensures |r| > 1 ==> r[0] != '0'
  {
    if n < 10 then [Digit(n)]
    else
      var h := DecimalString(n / 10);
      assert forall k | 0 <= k < |h| :: (h + [Digit(n % 10)])[k] == h[k];
      h + [Digit(n % 10)]
  }

  function DigitValue(c: char): (d: nat)
    requires IsDigit(c)
    ensures d < 10 && Digit(d) == c
  {
    if c == '0' then 0 else if c == '1' then 1 else if c == '2' then 2 else if c == '3' then 3
    else if c == '4' then 4 else if c == '5' then 5 else if c == '6' then 6 else if c == '7' then 7
    else if c == '8' then 8 else 9
  }

  lemma DigitRoundTrip(d: nat)
    requires d < 10
    ensures DigitValue(Digit(d)) == d
  {
  }

  /** The number a digit string spells. */
  function DigitsValue(s: string): nat
    requires forall k | 0 <= k < |s| :: IsDigit(s[k])
  {
    if |s| == 0 then 0
    else DigitsValue(s[..|s| - 1]) * 10 + DigitValue(s[|s| - 1])
  }

  lemma {:induction false} DecimalRoundTrip(n: nat)
    ensures DigitsValue(DecimalString(n)) == n
  {
    if n >= 10 {
      DecimalRoundTrip(n / 10);
      var s := DecimalString(n);
      var h := DecimalString(n / 10);
      var d := n % 10;
      assert s == h + [Digit(d)];
      assert s[..|s| - 1] == h;
      DigitRoundTrip(d);
      assert DigitsValue(s) == DigitsValue(h) * 10 + d;
    } else {
      DigitRoundTrip(n);
      assert DecimalString(n)[..0] == [];
    }
  }
}
