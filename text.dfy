/**
 * The JavaScript string operations the application relies on, stated over
 * `seq<char>`: `String.prototype.split` with a one-character separator,
 * `String.prototype.trim`, `String.prototype.includes`, and the character
 * classes `\d` and "line terminator" used by its regular expression.
 */
module Text {

  /** ECMAScript LineTerminator: the characters the regular-expression `.` does not match. */
  predicate IsLineTerminator(c: char) {
    c == '\n' || c == '\r' || c == '\U{2028}' || c == '\U{2029}'
  }

  /**
   * The characters `trim` removes: ECMAScript WhiteSpace (tab, vertical tab,
   * form feed, no-break space, byte-order mark and the space separators of
   * Unicode category Zs) and LineTerminator.
   */
  predicate IsJsWhiteSpace(c: char) {
    IsLineTerminator(c) ||
    c == '\t' || c == '\U{B}' || c == '\U{C}' || c == ' ' ||
    c == '\U{A0}' || c == '\U{FEFF}' || c == '\U{1680}' ||
    ('\U{2000}' <= c <= '\U{200A}') ||
    c == '\U{202F}' || c == '\U{205F}' || c == '\U{3000}'
  }

  /** The regular-expression class `\d`: ASCII digits only. */
  predicate IsDigit(c: char) {
    '0' <= c <= '9'
  }

  predicate IsLetter(c: char) {
    'a' <= c <= 'z' || 'A' <= c <= 'Z'
  }

  predicate AllDigits(s: string) {
    forall i :: 0 <= i < |s| ==> IsDigit(s[i])
  }

  // ---------------------------------------------------------------------------
  // split

  /** Concatenation of `parts` with `sep` between neighbours (`Array.prototype.join`). */
  function Join(parts: seq<string>, sep: char): string
    decreases |parts|
  {
    if |parts| == 0 then ""
    else if |parts| == 1 then parts[0]
    else parts[0] + [sep] + Join(parts[1..], sep)
  }

  /**
   * `s.split(sep)`: the pieces between occurrences of `sep`. There is always
   * at least one piece (`"".split(",")` is `[""]`), no piece holds `sep`, and
   * joining the pieces back with `sep` gives `s`.
   */
  function Split(s: string, sep: char): (parts: seq<string>)
    ensures |parts| >= 1
    ensures forall i :: 0 <= i < |parts| ==> sep !in parts[i]
    ensures Join(parts, sep) == s
    decreases |s|
  {
    if |s| == 0 then [""]
    else
      var rest := Split(s[1..], sep);
      if s[0] == sep then
        assert s == [sep] + s[1..];
        [""] + rest
      else
        var parts := [[s[0]] + rest[0]] + rest[1..];
        assert parts[1..] == rest[1..];
        assert s == [s[0]] + Join(rest, sep);
        parts
  }

  /** Splitting a piece without separators that is glued onto `rest` extends the first piece of `rest`. */
  lemma {:induction false} SplitPrefix(p: string, rest: string, sep: char)
    requires sep !in p
    ensures Split(p + rest, sep) == [p + Split(rest, sep)[0]] + Split(rest, sep)[1..]
    decreases |p|
  {
    if p == [] {
      var tail := Split(rest, sep);
      assert p + rest == rest && p + tail[0] == tail[0];
      assert tail == [tail[0]] + tail[1..];
    } else {
      var s := p + rest;
      assert s[0] == p[0] && s[1..] == p[1..] + rest;
      SplitPrefix(p[1..], rest, sep);
      var inner := Split(s[1..], sep);
      var tail := Split(rest, sep);
      assert inner[0] == p[1..] + tail[0] && inner[1..] == tail[1..];
      assert [p[0]] + inner[0] == p + tail[0];
    }
  }

  /** `split` undoes `join` whenever no part holds the separator: the split is unique. */
  lemma {:induction false} SplitJoin(parts: seq<string>, sep: char)
    requires |parts| >= 1
    requires forall i :: 0 <= i < |parts| ==> sep !in parts[i]
    ensures Split(Join(parts, sep), sep) == parts
    decreases |parts|
  {
    if |parts| == 1 {
      SplitPrefix(parts[0], "", sep);
      assert parts[0] + "" == parts[0];
    } else {
      var tail := Join(parts[1..], sep);
      SplitJoin(parts[1..], sep);
      assert ([sep] + tail)[1..] == tail;
      assert Split([sep] + tail, sep) == [""] + parts[1..];
      assert ([""] + parts[1..])[0] == "" && ([""] + parts[1..])[1..] == parts[1..];
      assert Join(parts, sep) == parts[0] + ([sep] + tail);
      SplitPrefix(parts[0], [sep] + tail, sep);
      assert parts[0] + "" == parts[0];
      assert parts == [parts[0]] + parts[1..];
    }
  }

  // ---------------------------------------------------------------------------
  // trim

  /** `trimStart`: drops the leading JavaScript white space and keeps the rest as a suffix. */
  function TrimStart(s: string): (r: string)
    ensures |r| <= |s| && r == s[|s| - |r|..]
    ensures forall i :: 0 <= i < |s| - |r| ==> IsJsWhiteSpace(s[i])
    ensures r != "" ==> !IsJsWhiteSpace(r[0])
    decreases |s|
  {
    if s != "" && IsJsWhiteSpace(s[0]) then TrimStart(s[1..]) else s
  }

  /** `trimEnd`: drops the trailing JavaScript white space and keeps the rest as a prefix. */
  function TrimEnd(s: string): (r: string)
    ensures |r| <= |s| && r == s[..|r|]
    ensures forall i :: |r| <= i < |s| ==> IsJsWhiteSpace(s[i])
    ensures r != "" ==> !IsJsWhiteSpace(r[|r| - 1])
    decreases |s|
  {
    if s != "" && IsJsWhiteSpace(s[|s| - 1]) then TrimEnd(s[..|s| - 1]) else s
  }

  /** `r` is the slice of `s` at offset `k`, and everything of `s` around it is white space. */
  ghost predicate TrimmedAt(s: string, r: string, k: nat) {
    k + |r| <= |s| && r == s[k..k + |r|]
    && (forall i :: 0 <= i < k ==> IsJsWhiteSpace(s[i]))
    && (forall i :: k + |r| <= i < |s| ==> IsJsWhiteSpace(s[i]))
  }

  /**
   * `s.trim()`: the slice of `s` that is left when the white space at both
   * ends is removed. It is empty exactly when `s` is all white space.
   */
  function Trim(s: string): (r: string)
    ensures |r| <= |s|
    ensures exists k :: 0 <= k <= |s| - |r| && TrimmedAt(s, r, k)
    ensures r != "" ==> !IsJsWhiteSpace(r[0]) && !IsJsWhiteSpace(r[|r| - 1])
    ensures r == "" <==> forall i :: 0 <= i < |s| ==> IsJsWhiteSpace(s[i])
  {
    var t := TrimStart(s);
    var r := TrimEnd(t);
    TrimBothEnds(s, t, r);
    r
  }

  /**
   * Dropping white space `t` leaves at the start of `s` and then white space
   * `r` leaves at the end of `t` leaves the slice of `s` at `|s| - |t|`.
   */
  lemma TrimBothEnds(s: string, t: string, r: string)
    requires |t| <= |s| && t == s[|s| - |t|..]
    requires forall i :: 0 <= i < |s| - |t| ==> IsJsWhiteSpace(s[i])
    requires |r| <= |t| && r == t[..|r|]
    requires forall i :: |r| <= i < |t| ==> IsJsWhiteSpace(t[i])
    requires t != "" ==> !IsJsWhiteSpace(t[0])
    requires r != "" ==> !IsJsWhiteSpace(r[|r| - 1])
    ensures |r| <= |s|
    ensures exists k :: 0 <= k <= |s| - |r| && TrimmedAt(s, r, k)
    ensures r != "" ==> !IsJsWhiteSpace(r[0]) && !IsJsWhiteSpace(r[|r| - 1])
    ensures r == "" <==> forall i :: 0 <= i < |s| ==> IsJsWhiteSpace(s[i])
  {
    var k := |s| - |t|;
    SliceOfSlice(s, t, r, k);
    WhiteAfter(s, t, r, k);
    if r == "" {
      assert forall i :: 0 <= i < |s| ==> IsJsWhiteSpace(s[i]);
    } else {
      var last := k + |r| - 1;
      assert s[last] == r[|r| - 1];
      assert r[0] == t[0];
    }
    assert TrimmedAt(s, r, k);
  }

  /** What `trimEnd` drops from the suffix of `s` at `k` is white space of `s`. */
  lemma WhiteAfter(s: string, t: string, r: string, k: nat)
    requires k <= |s| && t == s[k..] && |r| <= |t|
    requires forall i :: |r| <= i < |t| ==> IsJsWhiteSpace(t[i])
    ensures forall i :: k + |r| <= i < |s| ==> IsJsWhiteSpace(s[i])
  {
    forall i | k + |r| <= i < |s|
      ensures IsJsWhiteSpace(s[i])
    {
      assert s[i] == t[i - k];
    }
  }

  /** A prefix of the suffix of `s` at `k` is the slice of `s` at `k`. */
  lemma SliceOfSlice(s: string, t: string, r: string, k: nat)
    requires k <= |s| && t == s[k..] && |r| <= |t| && r == t[..|r|]
    ensures k + |r| <= |s| && r == s[k..k + |r|]
  {
  }

  /** A string with no white space at either end is its own trim. */
  lemma TrimUnchanged(s: string)
    requires s == "" || (!IsJsWhiteSpace(s[0]) && !IsJsWhiteSpace(s[|s| - 1]))
    ensures Trim(s) == s
  {
    assert TrimStart(s) == s;
    assert TrimEnd(s) == s;
  }

  // ---------------------------------------------------------------------------
  // includes

  /** `s.includes(w)`: `w` occurs in `s` at some position. */
  predicate Contains(s: string, w: string) {
    exists i :: 0 <= i <= |s| - |w| && OccursAt(s, w, i)
  }

  /** `w` occurs in `s` starting at position `i`. */
  predicate OccursAt(s: string, w: string, i: nat) {
    i + |w| <= |s| && s[i..i + |w|] == w
  }

  /** A word with a character that `s` lacks does not occur in `s`. */
  lemma MissingCharNotContained(s: string, w: string, k: nat)
    requires k < |w| && w[k] !in s
    ensures !Contains(s, w)
  {
    forall i | 0 <= i <= |s| - |w|
      ensures !OccursAt(s, w, i)
    {
      assert s[i..i + |w|][k] == s[i + k] && s[i + k] in s;
    }
  }

  /**
   * A word made of letters cannot occur across a seam where a non-letter
   * stands, so it occurs in `x + y` only if it occurs in `x` or in `y`.
   */
  lemma ContainsAcrossSeam(x: string, y: string, w: string)
    requires w != "" && forall k :: 0 <= k < |w| ==> IsLetter(w[k])
    requires x == "" || y == "" || !IsLetter(x[|x| - 1]) || !IsLetter(y[0])
    ensures Contains(x + y, w) ==> Contains(x, w) || Contains(y, w)
  {
    var s := x + y;
    forall i | 0 <= i && i < |x| < i + |w| && i + |w| <= |s|
      ensures !OccursAt(s, w, i)
    {
      if !IsLetter(x[|x| - 1]) {
        assert s[i..i + |w|][|x| - 1 - i] == x[|x| - 1];
      } else {
        assert s[i..i + |w|][|x| - i] == y[0];
      }
    }
    if Contains(s, w) {
      var i :| 0 <= i <= |s| - |w| && OccursAt(s, w, i);
      if i + |w| <= |x| {
        SliceInLeft(x, y, i, |w|);
        assert OccursAt(x, w, i);
      } else {
        var j := i - |x|;
        SliceInRight(x, y, j, |w|);
        assert OccursAt(y, w, j);
      }
    }
  }

  /** A slice of `x + y` that lies within `x`. */
  lemma SliceInLeft(x: string, y: string, i: nat, n: nat)
    requires i + n <= |x|
    ensures (x + y)[i..i + n] == x[i..i + n]
  {
    assert forall j :: i <= j < i + n ==> (x + y)[j] == x[j];
  }

  /** A slice of `x + y` that lies within `y`. */
  lemma SliceInRight(x: string, y: string, j: nat, n: nat)
    requires j + n <= |y|
    ensures (x + y)[|x| + j..|x| + j + n] == y[j..j + n]
  {
    assert forall k :: |x| + j <= k < |x| + j + n ==> (x + y)[k] == y[k - |x|];
  }

  // ---------------------------------------------------------------------------
  // decimal numbers

  /** The longest run of digits at the start of `s` (what a greedy `\d+` consumes). */
  function DigitRun(s: string): (r: string)
    ensures r <= s && AllDigits(r)
    ensures |r| < |s| ==> !IsDigit(s[|r|])
    decreases |s|
  {
    if s != "" && IsDigit(s[0]) then [s[0]] + DigitRun(s[1..]) else ""
  }

  /** A greedy `\d+` stops at the first non-digit. */
  lemma {:induction false} DigitRunStops(ds: string, rest: string)
    requires AllDigits(ds)
    requires rest == "" || !IsDigit(rest[0])
    ensures DigitRun(ds + rest) == ds
    decreases |ds|
  {
    if ds != "" {
      assert (ds + rest)[1..] == ds[1..] + rest;
      DigitRunStops(ds[1..], rest);
      assert ds == [ds[0]] + ds[1..];
    } else {
      assert ds + rest == rest;
    }
  }

  function DigitValue(c: char): (d: nat)
    requires IsDigit(c)
    ensures d < 10
  {
    (c as int) - ('0' as int)
  }

  function DigitChar(d: nat): (c: char)
    requires d < 10
    ensures IsDigit(c) && DigitValue(c) == d
  {
    (('0' as int) + d) as char
  }

  function Pow10(n: nat): (p: nat)
    ensures p >= 1
  {
    if n == 0 then 1 else 10 * Pow10(n - 1)
  }

  /**
   * The number a digit string denotes in base ten (the unary `+` applied to
   * it); a numeral of `n` digits stays below ten to the `n`.
   */
  function DecimalValue(ds: string): (v: nat)
    requires AllDigits(ds)
    ensures v < Pow10(|ds|)
    decreases |ds|
  {
    if ds == "" then 0 else 10 * DecimalValue(ds[..|ds| - 1]) + DigitValue(ds[|ds| - 1])
  }

  /** The base-ten numeral of `n`, without leading zeros, as a server writes a page number. */
  function DecimalString(n: nat): (r: string)
    ensures |r| >= 1 && AllDigits(r)
    ensures |r| > 1 ==> r[0] != '0'
    decreases n
  {
    if n < 10 then [DigitChar(n)] else DecimalString(n / 10) + [DigitChar(n % 10)]
  }

  /** Reading back the numeral of `n` gives `n`. */
  lemma {:induction false} DecimalRoundTrip(n: nat)
    ensures DecimalValue(DecimalString(n)) == n
    decreases n
  {
    var r := DecimalString(n);
    if n < 10 {
      assert r[..0] == "";
    } else {
      DecimalRoundTrip(n / 10);
      assert r[..|r| - 1] == DecimalString(n / 10);
    }
  }

  /** Leading zeros do not change the value (`+"007"` is 7). */
  lemma {:induction false} LeadingZero(ds: string)
    requires AllDigits(ds)
    ensures AllDigits("0" + ds) && DecimalValue("0" + ds) == DecimalValue(ds)
    decreases |ds|
  {
    if ds != "" {
      assert ("0" + ds)[..|ds|] == "0" + ds[..|ds| - 1];
      LeadingZero(ds[..|ds| - 1]);
    }
  }
}
