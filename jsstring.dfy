/** The JavaScript string built-ins the core relies on: `String.prototype.replace`
    with a string pattern, `indexOf`, `split` with a one-character separator,
    `trim`, and `Number` applied to a string of decimal digits. */
module JsString {
  import opened Wrappers

  // --- Occurrences and replace ---

  /** `pat` occurs in `s` starting at index `i`. */
  predicate OccursAt(s: string, pat: string, i: int) {
    0 <= i && i + |pat| <= |s| && s[i..i + |pat|] == pat
  }

  predicate Contains(s: string, pat: string) {
    exists i :: 0 <= i <= |s| && OccursAt(s, pat, i)
  }

  /** The first index at or after `from` where `pat` occurs, or -1. */
  function IndexOfFrom(s: string, pat: string, from: nat): (r: int)
    requires from <= |s|
    decreases |s| - from
    ensures r == -1 || (from <= r && OccursAt(s, pat, r))
    ensures forall j :: from <= j && (r == -1 || j < r) ==> !OccursAt(s, pat, j)
  {
    if OccursAt(s, pat, from) then from
    else if from == |s| then -1
    else IndexOfFrom(s, pat, from + 1)
  }

  /** `s.indexOf(pat)`: the leftmost occurrence, or -1 when there is none. */
  function IndexOf(s: string, pat: string): (r: int)
    ensures r == -1 <==> !Contains(s, pat)
    ensures r != -1 ==> OccursAt(s, pat, r) && forall j :: 0 <= j < r ==> !OccursAt(s, pat, j)
  {
    IndexOfFrom(s, pat, 0)
  }

  /** `s.replace(pat, rep)` for a string `pat`: only the leftmost occurrence is
      replaced, and a string without `pat` is returned as it is.  `rep` is taken
      literally (JavaScript's `$` patterns are not modelled). */
  function Replace(s: string, pat: string, rep: string): (r: string)
    ensures !Contains(s, pat) ==> r == s
    ensures Contains(s, pat) ==>
      exists i :: OccursAt(s, pat, i) && (forall j :: 0 <= j < i ==> !OccursAt(s, pat, j))
                  && r == s[..i] + rep + s[i + |pat|..]
  {
    var i := IndexOf(s, pat);
    if i == -1 then s
    else
      var r := s[..i] + rep + s[i + |pat|..];
      assert OccursAt(s, pat, i) && (forall j :: 0 <= j < i ==> !OccursAt(s, pat, j)) && r == s[..i] + rep + s[i + |pat|..];
      r
  }

  /** When `pat` first occurs right after `a`, replace rewrites exactly that occurrence. */
  lemma ReplaceAfterPrefix(a: string, pat: string, b: string, rep: string)
    requires forall i :: 0 <= i < |a| ==> !OccursAt(a + pat + b, pat, i)
    ensures Replace(a + pat + b, pat, rep) == a + rep + b
  {
    var s := a + pat + b;
    assert s[|a|..|a| + |pat|] == pat;
    assert OccursAt(s, pat, |a|);
    var i := IndexOf(s, pat);
    assert i == |a|;
    assert s[..i] == a;
    assert s[i + |pat|..] == b;
  }

  /** Replacing a whole string by itself as the pattern yields the replacement. */
  lemma ReplaceWhole(pat: string, rep: string)
    ensures Replace(pat, pat, rep) == rep
  {
    assert "" + pat + "" == pat;
    ReplaceAfterPrefix("", pat, "", rep);
    assert "" + rep + "" == rep;
  }

  /** A pattern that starts with `c` cannot start inside a prefix free of `c`. */
  lemma NoOccurrenceInPrefix(a: string, pat: string, b: string, c: char)
    requires |pat| > 0 && pat[0] == c && c !in a
    ensures forall i :: 0 <= i < |a| ==> !OccursAt(a + pat + b, pat, i)
  {
    forall i | 0 <= i < |a|
      ensures !OccursAt(a + pat + b, pat, i)
    {
      assert (a + pat + b)[i] == a[i] != pat[0];
    }
  }

  /** A string lacking the first character of `pat` does not contain `pat`. */
  lemma NotContainsWithoutChar(s: string, pat: string)
    requires |pat| > 0 && pat[0] !in s
    ensures !Contains(s, pat)
  {
    forall i | 0 <= i <= |s| && i + |pat| <= |s|
      ensures !OccursAt(s, pat, i)
    {
      assert s[i] != pat[0];
    }
  }

  /** Every character of `s` that could begin `pat` is followed, inside `s`, by one
      that cannot continue it: no occurrence of `pat` can start in `s`. */
  predicate NoStart(s: string, pat: string) {
    |pat| >= 2
    && forall k :: 0 <= k < |s| && s[k] == pat[0] ==> k + 1 < |s| && s[k + 1] != pat[1]
  }

  lemma NoStartPrefix(a: string, pat: string, b: string)
    requires NoStart(a, pat)
    ensures forall i :: 0 <= i < |a| ==> !OccursAt(a + b, pat, i)
  {
    forall i | 0 <= i < |a| && i + |pat| <= |a + b|
      ensures !OccursAt(a + b, pat, i)
    {
      var s := a + b;
      assert s[i..i + |pat|][0] == a[i];
      if a[i] == pat[0] {
        assert s[i..i + |pat|][1] == a[i + 1];
      }
    }
  }

  /** `pat` first occurs right after a prefix in which it cannot start. */
  lemma ReplaceAfterNoStart(a: string, pat: string, b: string, rep: string)
    requires NoStart(a, pat)
    ensures Replace(a + pat + b, pat, rep) == a + rep + b
  {
    NoStartPrefix(a, pat, pat + b);
    assert a + (pat + b) == a + pat + b;
    ReplaceAfterPrefix(a, pat, b, rep);
  }

  lemma NoStartNotContains(s: string, pat: string)
    requires NoStart(s, pat)
    ensures !Contains(s, pat)
  {
    NoStartPrefix(s, pat, "");
    assert s + "" == s;
  }

  lemma NoStartConcat(a: string, b: string, pat: string)
    requires NoStart(a, pat) && NoStart(b, pat)
    ensures NoStart(a + b, pat)
  {
    var s := a + b;
    forall k | 0 <= k < |s| && s[k] == pat[0]
      ensures k + 1 < |s| && s[k + 1] != pat[1]
    {
      if k < |a| {
        assert s[k] == a[k] && s[k + 1] == a[k + 1];
      } else {
        assert s[k] == b[k - |a|] && s[k + 1] == b[k - |a| + 1];
      }
    }
  }

  /** Concatenating strings that lack a character gives a string that lacks it. */
  lemma CharNotInConcat(a: string, b: string, c: char)
    requires c !in a && c !in b
    ensures c !in a + b
  {
    forall k | 0 <= k < |a + b|
      ensures (a + b)[k] != c
    {
      if k < |a| { assert (a + b)[k] == a[k]; } else { assert (a + b)[k] == b[k - |a|]; }
    }
  }

  // --- split and join ---

  /** `s.split(sep)` for a one-character separator: the pieces between separators,
      with empty pieces kept, and `[""]` for the empty string. */
  function Split(s: string, sep: char): (parts: seq<string>)
    ensures |parts| >= 1
    ensures forall k :: 0 <= k < |parts| ==> sep !in parts[k]
  {
    if s == [] then [""]
    else
      var rest := Split(s[1..], sep);
      if s[0] == sep then [""] + rest
      else [[s[0]] + rest[0]] + rest[1..]
  }

  /** The first piece starts with the first character when that is not the separator. */
  lemma SplitFirstPiece(s: string, sep: char)
    requires s != [] && s[0] != sep
    ensures Split(s, sep)[0] != [] && Split(s, sep)[0][0] == s[0]
  {
  }

  /** `parts.join(sep)`. */
  function Join(parts: seq<string>, sep: char): string
    requires |parts| >= 1
  {
    if |parts| == 1 then parts[0] else parts[0] + [sep] + Join(parts[1..], sep)
  }

  /** Splitting loses nothing: joining the pieces gives the string back. */
  lemma {:induction false} JoinSplit(s: string, sep: char)
    ensures Join(Split(s, sep), sep) == s
  {
    if s != [] {
      JoinSplit(s[1..], sep);
      var rest := Split(s[1..], sep);
      if s[0] == sep {
        assert ([""] + rest)[1..] == rest;
      } else {
        var parts := [[s[0]] + rest[0]] + rest[1..];
        if |rest| == 1 {
          assert s == [s[0]] + s[1..];
        } else {
          assert parts[1..] == rest[1..];
          assert Join(rest, sep) == rest[0] + [sep] + Join(rest[1..], sep);
          assert s == [s[0]] + s[1..];
        }
      }
    }
  }

  /** A string without the separator is one piece. */
  lemma {:induction false} SplitWithoutSeparator(s: string, sep: char)
    requires sep !in s
    ensures Split(s, sep) == [s]
  {
    if s != [] {
      SplitWithoutSeparator(s[1..], sep);
      assert s == [s[0]] + s[1..];
    }
  }

  /** The piece before the first separator comes off first. */
  lemma {:induction false} SplitAtSeparator(a: string, sep: char, b: string)
    requires sep !in a
    ensures Split(a + [sep] + b, sep) == [a] + Split(b, sep)
  {
    var s := a + [sep] + b;
    if a == [] {
      assert s[1..] == b;
    } else {
      assert s[1..] == a[1..] + [sep] + b;
      SplitAtSeparator(a[1..], sep, b);
      assert [a[0]] + a[1..] == a;
    }
  }

  /** Joining pieces free of the separator, then splitting, gives the pieces back. */
  lemma {:induction false} SplitJoin(parts: seq<string>, sep: char)
    requires |parts| >= 1
    requires forall k :: 0 <= k < |parts| ==> sep !in parts[k]
    ensures Split(Join(parts, sep), sep) == parts
  {
    if |parts| == 1 {
      SplitWithoutSeparator(parts[0], sep);
    } else {
      SplitJoin(parts[1..], sep);
      SplitAtSeparator(parts[0], sep, Join(parts[1..], sep));
      assert [parts[0]] + parts[1..] == parts;
    }
  }

  /** Three separator-free pieces joined by commas split back into those pieces. */
  lemma ThreeFields(a: string, b: string, c: string)
    requires ',' !in a && ',' !in b && ',' !in c
    ensures Split(a + "," + b + "," + c, ',') == [a, b, c]
  {
    SplitWithoutSeparator(c, ',');
    SplitAtSeparator(b, ',', c);
    assert a + "," + b + "," + c == a + [','] + (b + [','] + c);
    SplitAtSeparator(a, ',', b + [','] + c);
  }

  // --- trim ---

  /** The white space and line terminators that `String.prototype.trim` removes. */
  predicate IsSpace(c: char) {
    c == ' ' || c == '\t' || c == '\n' || c == '\r' || c == '\U{B}' || c == '\U{C}'
    || c == '\U{A0}' || c == '\U{1680}' || ('\U{2000}' <= c <= '\U{200A}')
    || c == '\U{2028}' || c == '\U{2029}' || c == '\U{202F}' || c == '\U{205F}'
    || c == '\U{3000}' || c == '\U{FEFF}'
  }

  /** How many white-space characters `s` starts with. */
  function LeadingSpace(s: string): (n: nat)
    ensures n <= |s|
    ensures forall k :: 0 <= k < n ==> IsSpace(s[k])
    ensures n < |s| ==> !IsSpace(s[n])
  {
    if s != [] && IsSpace(s[0]) then 1 + LeadingSpace(s[1..]) else 0
  }

  /** How many white-space characters `s` ends with. */
  function TrailingSpace(s: string): (n: nat)
    ensures n <= |s|
    ensures forall k :: |s| - n <= k < |s| ==> IsSpace(s[k])
    ensures n < |s| ==> !IsSpace(s[|s| - n - 1])
  {
    if s != [] && IsSpace(s[|s| - 1]) then 1 + TrailingSpace(s[..|s| - 1]) else 0
  }

  /** `trimStart`: the suffix left after the leading white space. */
  function TrimStart(s: string): (r: string)
    ensures |r| <= |s| && r == s[|s| - |r|..]
    ensures forall k :: 0 <= k < |s| - |r| ==> IsSpace(s[k])
    ensures r != [] ==> !IsSpace(r[0])
  {
    s[LeadingSpace(s)..]
  }

  /** `trimEnd`: the prefix left before the trailing white space. */
  function TrimEnd(s: string): (r: string)
    ensures |r| <= |s| && r == s[..|r|]
    ensures forall k :: |r| <= k < |s| ==> IsSpace(s[k])
    ensures r != [] ==> !IsSpace(r[|r| - 1])
  {
    s[..|s| - TrailingSpace(s)]
  }

  /** `r` is the piece of `s` at `i` and only white space surrounds it. */
  predicate TrimmedAt(s: string, r: string, i: int) {
    0 <= i <= |s| - |r| && r == s[i..i + |r|]
    && (forall k :: 0 <= k < i ==> IsSpace(s[k]))
    && (forall k :: i + |r| <= k < |s| ==> IsSpace(s[k]))
  }

  /** White space from `lo` on in the suffix of `s` at `i` is white space from `i + lo` on in `s`. */
  lemma SpaceAfterShift(s: string, i: nat, lo: nat)
    requires i <= |s| && forall k :: lo <= k < |s| - i ==> IsSpace(s[i..][k])
    ensures forall k :: i + lo <= k < |s| ==> IsSpace(s[k])
  {
    forall k | i + lo <= k < |s|
      ensures IsSpace(s[k])
    {
      assert s[k] == s[i..][k - i];
    }
  }

  /** `s.trim()`: removes leading and trailing white space; the result is a
      contiguous piece of `s` that neither starts nor ends with white space. */
  function Trim(s: string): (r: string)
    ensures exists i :: TrimmedAt(s, r, i)
    ensures r != [] ==> !IsSpace(r[0]) && !IsSpace(r[|r| - 1])
  {
    TrimStartThenEnd(s);
    TrimEnd(TrimStart(s))
  }

  /** Trimming the end of what `trimStart` leaves gives a piece of `s` surrounded
      only by white space. */
  lemma TrimStartThenEnd(s: string)
    ensures TrimmedAt(s, TrimEnd(TrimStart(s)), |s| - |TrimStart(s)|)
  {
    var t := TrimStart(s);
    var r := TrimEnd(t);
    var i := |s| - |t|;
    assert t == s[i..] && r == t[..|r|];
    assert r == s[i..i + |r|];
    SpaceAfterShift(s, i, |r|);
  }

  /** A string that starts with a non-space keeps that character at the front. */
  lemma TrimKeepsLeadingText(s: string)
    requires s != [] && !IsSpace(s[0])
    ensures Trim(s) != [] && Trim(s)[0] == s[0]
  {
    assert TrimStart(s) == s;
    assert s[..1] == [s[0]];
    TrimEndKeepsFirst(s);
  }

  lemma TrimEndKeepsFirst(s: string)
    requires s != [] && !IsSpace(s[0])
    ensures TrimEnd(s) != [] && TrimEnd(s)[0] == s[0]
  {
    assert TrailingSpace(s) < |s|;
  }

  /** A string with no white space at either end is its own trim. */
  lemma TrimUnchanged(s: string)
    requires s != [] && !IsSpace(s[0]) && !IsSpace(s[|s| - 1])
    ensures Trim(s) == s
  {
    assert TrimStart(s) == s;
    assert TrimEnd(s) == s;
  }

  /** A string of white space alone trims to the empty string. */
  lemma TrimAllSpace(s: string)
    requires forall k :: 0 <= k < |s| ==> IsSpace(s[k])
    ensures Trim(s) == ""
  {
    LeadingSpaceOfSpace(s);
    assert TrimStart(s) == "";
  }

  lemma {:induction false} LeadingSpaceOfSpace(s: string)
    requires forall k :: 0 <= k < |s| ==> IsSpace(s[k])
    ensures LeadingSpace(s) == |s|
  {
    if s != [] {
      LeadingSpaceOfSpace(s[1..]);
    }
  }

  /** Trimming twice is trimming once. */
  lemma TrimIdempotent(s: string)
    ensures Trim(Trim(s)) == Trim(s)
  {
    var r := Trim(s);
    if r != [] {
      assert TrimStart(r) == r;
      assert TrimEnd(r) == r;
    }
  }

  // --- Number on digit strings ---

  predicate IsDigit(c: char) { '0' <= c <= '9' }

  predicate AllDigits(s: string) { forall k :: 0 <= k < |s| ==> IsDigit(s[k]) }

  function DigitsValue(s: string): nat
    requires AllDigits(s)
  {
    if s == [] then 0 else 10 * DigitsValue(s[..|s| - 1]) + (s[|s| - 1] as int - '0' as int)
  }

  /** `Number(s)` for a non-empty string of decimal digits; None stands for every
      other string (for which this model does not follow JavaScript's conversion). */
  function DecimalNumber(s: string): (r: Option<nat>)
    ensures r.Some? <==> s != [] && AllDigits(s)
  {
    if s != [] && AllDigits(s) then Some(DigitsValue(s)) else None
  }

  lemma DigitNotSpace(c: char)
    requires IsDigit(c)
    ensures !IsSpace(c)
  {
  }

  /** `Number(s)` as far as this model follows it: surrounding white space is
      ignored, an empty or all-white-space string is 0, a run of decimal digits is
      its value, and None (NaN) stands for every other string. */
  function JsNumber(s: string): (r: Option<nat>)
    ensures Trim(s) == [] ==> r == Some(0)
    ensures s != [] && AllDigits(s) ==> r == DecimalNumber(s)
    ensures r.Some? <==> AllDigits(Trim(s))
  {
    var t := Trim(s);
    if s != [] && AllDigits(s) then
      DigitNotSpace(s[0]);
      DigitNotSpace(s[|s| - 1]);
      assert TrimStart(s) == s;
      assert TrimEnd(s) == s;
      DecimalNumber(t)
    else if t == [] then Some(0) else DecimalNumber(t)
  }

  /** Two-digit zero-padded rendering, as in "07". */
  function TwoDigits(n: nat): (r: string)
    requires n < 100
    ensures |r| == 2 && AllDigits(r)
  {
    [((n / 10) + '0' as int) as char, ((n % 10) + '0' as int) as char]
  }

  /** Parsing a two-digit rendering gives the number back. */
  lemma DecimalOfTwoDigits(n: nat)
    requires n < 100
    ensures DecimalNumber(TwoDigits(n)) == Some(n)
  {
    var s := TwoDigits(n);
    assert s[..1][..0] == [];
    assert DigitsValue(s[..1]) == n / 10;
  }
}
