/** The few C++ standard-library string behaviours the core relies on:
    `std::string::find`, `std::getline` with a delimiter, `towupper` in the
    "C" locale and `operator<<` of an unsigned integer. */
module StdText {
  import opened Wrappers

  // ---------------------------------------------------------------------------
  // std::string::find

  /** `pat` occurs in `text` starting at index `i`. */
  predicate OccursAt(text: string, pat: string, i: nat)
  {
    i + |pat| <= |text| && text[i..i + |pat|] == pat
  }

  /** `text.find(pat, from)`: the first occurrence starting at or after `from`,
      or None for `npos`. */
  function Find(text: string, pat: string, from: nat): (r: Option<nat>)
    ensures r.Some? ==> from <= r.value && OccursAt(text, pat, r.value)
    ensures r.Some? ==> forall k: nat :: from <= k < r.value ==> !OccursAt(text, pat, k)
    ensures r.None? ==> forall k: nat :: from <= k ==> !OccursAt(text, pat, k)
    decreases |text| + 1 - from
  {
    if from + |pat| > |text| then None
    else if OccursAt(text, pat, from) then Some(from)
    else Find(text, pat, from + 1)
  }

  /** The number of indices at or after `from` where `pat` begins. */
  function CountFrom(text: string, pat: string, from: nat): nat
    decreases |text| + 1 - from
  {
    if from + |pat| > |text| then 0
    else (if OccursAt(text, pat, from) then 1 else 0) + CountFrom(text, pat, from + 1)
  }

  /** No occurrence at or after `from` means a count of zero from there. */
  lemma {:induction false} CountFromNone(text: string, pat: string, from: nat)
    requires forall k: nat :: from <= k ==> !OccursAt(text, pat, k)
    ensures CountFrom(text, pat, from) == 0
    decreases |text| + 1 - from
  {
    if from + |pat| <= |text| {
      CountFromNone(text, pat, from + 1);
    }
  }

  /** A search from `from` accounts for exactly one of the occurrences counted
      from `from`; the rest are counted from one past the match. */
  lemma {:induction false} FindAdvancesCount(text: string, pat: string, from: nat)
    ensures Find(text, pat, from).None? ==> CountFrom(text, pat, from) == 0
    ensures Find(text, pat, from).Some? ==>
      CountFrom(text, pat, from) == 1 + CountFrom(text, pat, Find(text, pat, from).value + 1)
    decreases |text| + 1 - from
  {
    if from + |pat| > |text| {
    } else if OccursAt(text, pat, from) {
    } else {
      FindAdvancesCount(text, pat, from + 1);
    }
  }

  // ---------------------------------------------------------------------------
  // std::getline(stream, line, sep)

  /** The index of the first `c` in `s`, or `|s|` when there is none. */
  function FirstIndex(s: string, c: char): (i: nat)
    ensures i <= |s|
    ensures forall k :: 0 <= k < i ==> s[k] != c
    ensures i < |s| ==> s[i] == c
  {
    if |s| == 0 then 0
    else if s[0] == c then 0
    else 1 + FirstIndex(s[1..], c)
  }

  /** The pieces that repeated `std::getline(ss, piece, sep)` extracts from a
      stream holding `s`: a piece ends at each separator, and the end of the
      stream ends a last piece only when that piece is not empty. */
  function Split(s: string, sep: char): seq<string>
    decreases |s|
  {
    if |s| == 0 then []
    else
      var i := FirstIndex(s, sep);
      if i == |s| then [s] else [s[..i]] + Split(s[i + 1..], sep)
  }

  /** Splitting text that starts with `piece` then `sep`. */
  lemma SplitAfterPiece(piece: string, sep: char, rest: string)
    requires sep !in piece
    ensures Split(piece + [sep] + rest, sep) == [piece] + Split(rest, sep)
  {
    var s := piece + [sep] + rest;
    var i := FirstIndex(s, sep);
    assert s[|piece|] == sep;
    forall k | 0 <= k < |piece|
      ensures s[k] != sep
    {
      assert s[k] == piece[k] && piece[k] in piece;
    }
    assert i == |piece|;
    assert s[..i] == piece;
    assert s[i + 1..] == rest;
  }

  /** Splitting text that holds no separator at all. */
  lemma SplitNoSeparator(s: string, sep: char)
    requires |s| > 0 && sep !in s
    ensures Split(s, sep) == [s]
  {
  }

  /** One `std::getline` call: the piece from `pos` runs to the next
      separator `end` (or the end of the text), and reading resumes after it. */
  lemma SplitAt(s: string, pos: nat, end: nat, sep: char)
    requires pos < |s| && pos <= end <= |s|
    requires forall k :: pos <= k < end ==> s[k] != sep
    requires end < |s| ==> s[end] == sep
    ensures Split(s[pos..], sep) ==
      if end < |s| then [s[pos..end]] + Split(s[end + 1..], sep) else [s[pos..end]]
  {
    var t := s[pos..];
    var f := FirstIndex(t, sep);
    if end < |s| {
      assert t[end - pos] == s[end];
    }
    if f < |t| {
      assert t[f] == s[pos + f];
    }
    assert f == end - pos;
    assert t[..f] == s[pos..end];
    if end < |s| {
      assert t[f + 1..] == s[end + 1..];
    } else {
      assert s[pos..end] == t;
    }
  }

  /** No piece holds the separator. */
  lemma {:induction false} SplitPiecesLackSeparator(s: string, sep: char, i: nat)
    requires i < |Split(s, sep)|
    ensures sep !in Split(s, sep)[i]
    decreases |s|
  {
    var f := FirstIndex(s, sep);
    if f < |s| && i > 0 {
      SplitPiecesLackSeparator(s[f + 1..], sep, i - 1);
    }
  }

  // ---------------------------------------------------------------------------
  // towupper in the "C" locale

  /** Upper-casing of one character: ASCII letters only. */
  function UpperChar(c: char): (u: char)
    ensures !('a' <= u <= 'z')
    ensures 'A' <= c <= 'Z' || !('a' <= c <= 'z') ==> u == c
  {
    if 'a' <= c <= 'z' then (c as int - 32) as char else c
  }

  /** `std::transform(s.begin(), s.end(), s.begin(), ::towupper)`. */
  function ToUpper(s: string): (r: string)
    ensures |r| == |s|
    ensures forall i :: 0 <= i < |s| ==> r[i] == UpperChar(s[i])
  {
    if |s| == 0 then [] else [UpperChar(s[0])] + ToUpper(s[1..])
  }

  /** Upper-casing twice is upper-casing once. */
  lemma ToUpperIdempotent(s: string)
    ensures ToUpper(ToUpper(s)) == ToUpper(s)
  {
  }

  /** An upper-cased string holds no lower-case ASCII letter. */
  lemma ToUpperHasNoLowerCase(s: string, i: nat)
    requires i < |s|
    ensures !('a' <= ToUpper(s)[i] <= 'z')
  {
  }

  // ---------------------------------------------------------------------------
  // operator<< on an unsigned integer

  predicate IsDigit(c: char)
  {
    '0' <= c <= '9'
  }

  function DigitChar(d: nat): (c: char)
    requires d < 10
    ensures IsDigit(c)
  {
    (d + '0' as int) as char
  }

  function DigitValue(c: char): (d: nat)
    requires IsDigit(c)
    ensures d < 10
  {
    c as int - '0' as int
  }

  /** The decimal text of `n`, without leading zeros. */
  function DecimalString(n: nat): (s: string)
    ensures |s| > 0
    ensures forall i :: 0 <= i < |s| ==> IsDigit(s[i])
  {
    if n < 10 then [DigitChar(n)] else DecimalString(n / 10) + [DigitChar(n % 10)]
  }

  /** The number a string of decimal digits denotes. */
  function DecimalValue(s: string): nat
    requires forall i :: 0 <= i < |s| ==> IsDigit(s[i])
  {
    if |s| == 0 then 0
    else 10 * DecimalValue(s[..|s| - 1]) + DigitValue(s[|s| - 1])
  }

  /** Reading back the decimal text of `n` gives `n`. */
  lemma {:induction false} DecimalRoundTrip(n: nat)
    ensures DecimalValue(DecimalString(n)) == n
  {
    if n >= 10 {
      DecimalRoundTrip(n / 10);
      var s := DecimalString(n);
      assert s[..|s| - 1] == DecimalString(n / 10);
    }
  }

  /** Distinct numbers have distinct decimal texts. */
  lemma DecimalStringInjective(m: nat, n: nat)
    requires DecimalString(m) == DecimalString(n)
    ensures m == n
  {
    DecimalRoundTrip(m);
    DecimalRoundTrip(n);
  }
}
