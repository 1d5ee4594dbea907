/**
 * The pieces of Rust's string library that the IR parser relies on:
 * `str::lines`, `str::trim`, `str::split_whitespace`, `str::to_uppercase`
 * and `i32::from_str_radix(_, 10)`, each stated over `seq<char>`.
 */
module Text {
  import opened Wrappers

  /** Unicode White_Space, the class `char::is_whitespace` tests. */
  predicate IsWhitespace(c: char) {
    ('\t' <= c <= '\r') || c == ' ' || c == '\U{0085}' || c == '\U{00A0}' || c == '\U{1680}'
    || ('\U{2000}' <= c <= '\U{200A}') || c == '\U{2028}' || c == '\U{2029}'
    || c == '\U{202F}' || c == '\U{205F}' || c == '\U{3000}'
  }

  predicate AllWhitespace(s: string) {
    forall i :: 0 <= i < |s| ==> IsWhitespace(s[i])
  }

  predicate NoWhitespace(s: string) {
    forall i :: 0 <= i < |s| ==> !IsWhitespace(s[i])
  }

  // ---------------------------------------------------------------- lines

  /** Index of the first '\n' in `s`, or |s| when there is none. */
  function FirstNewline(s: string): (k: nat)
    ensures k <= |s|
    ensures k < |s| ==> s[k] == '\n'
    ensures forall i :: 0 <= i < k ==> s[i] != '\n'
  {
    if s == [] || s[0] == '\n' then 0 else 1 + FirstNewline(s[1..])
  }

  /** The text between consecutive '\n' characters, in order. */
  function Lines(s: string): (lines: seq<string>)
    ensures |lines| > 0
    ensures forall i, j :: 0 <= i < |lines| && 0 <= j < |lines[i]| ==> lines[i][j] != '\n'
    decreases |s|
  {
    var k := FirstNewline(s);
    if k == |s| then [s] else [s[..k]] + Lines(s[k + 1..])
  }

  /** The inverse of Lines: the lines glued back together with '\n'. */
  function JoinLines(lines: seq<string>): string {
    if lines == [] then []
    else if |lines| == 1 then lines[0]
    else lines[0] + "\n" + JoinLines(lines[1..])
  }

  lemma JoinLinesCons(first: string, rest: seq<string>)
    requires rest != []
    ensures JoinLines([first] + rest) == first + "\n" + JoinLines(rest)
  {
    assert ([first] + rest)[0] == first && ([first] + rest)[1..] == rest;
  }

  lemma SplitAround(s: string, k: nat)
    requires k < |s| && s[k] == '\n'
    ensures s == s[..k] + "\n" + s[k + 1..]
  {
  }

  /** Splitting is undone by joining: no character is lost or added. */
  lemma {:induction false} LinesRoundTrip(s: string)
    ensures JoinLines(Lines(s)) == s
    decreases |s|
  {
    var k := FirstNewline(s);
    if k < |s| {
      var first, rest := s[..k], s[k + 1..];
      calc {
        JoinLines(Lines(s));
        JoinLines([first] + Lines(rest));
        { JoinLinesCons(first, Lines(rest)); }
        first + "\n" + JoinLines(Lines(rest));
        { LinesRoundTrip(rest); }
        first + "\n" + rest;
        { SplitAround(s, k); }
        s;
      }
    }
  }

  /** Joining lines free of '\n' and splitting again gives back the same lines. */
  lemma {:induction false} LinesOfJoin(lines: seq<string>)
    requires |lines| > 0
    requires forall i, j :: 0 <= i < |lines| && 0 <= j < |lines[i]| ==> lines[i][j] != '\n'
    ensures Lines(JoinLines(lines)) == lines
    decreases |lines|
  {
    var first := lines[0];
    if |lines| == 1 {
      assert FirstNewline(first) == |first|;
    } else {
      var rest := lines[1..];
      var s := first + "\n" + JoinLines(rest);
      assert s[|first|] == '\n';
      assert forall i :: 0 <= i < |first| ==> s[i] == first[i];
      assert FirstNewline(s) == |first|;
      assert s[..|first|] == first && s[|first| + 1..] == JoinLines(rest);
      LinesOfJoin(rest);
    }
  }

  // ---------------------------------------------------------------- trim

  /** Number of whitespace characters at the start of `s`. */
  function LeadingWhitespace(s: string): (k: nat)
    ensures k <= |s|
    ensures AllWhitespace(s[..k])
    ensures k < |s| ==> !IsWhitespace(s[k])
  {
    if s != [] && IsWhitespace(s[0]) then 1 + LeadingWhitespace(s[1..]) else 0
  }

  /** Length of `s` without the whitespace at its end. */
  function TextEnd(s: string): (k: nat)
    ensures k <= |s|
    ensures AllWhitespace(s[k..])
    ensures k > 0 ==> !IsWhitespace(s[k - 1])
  {
    if s != [] && IsWhitespace(s[|s| - 1]) then TextEnd(s[..|s| - 1]) else |s|
  }

  /** `str::trim`: the slice of `s` left after dropping whitespace at both ends. */
  function Trim(s: string): (r: string)
    ensures r == [] <==> AllWhitespace(s)
    ensures r != [] ==> !IsWhitespace(r[0]) && !IsWhitespace(r[|r| - 1])
  {
    var e := TextEnd(s);
    var b := LeadingWhitespace(s[..e]);
    assert b == e ==> s == s[..e] + s[e..];
    assert e == 0 ==> AllWhitespace(s[..|s|]);
    s[b..e]
  }

  /** Trim removes only whitespace, and only at the two ends. */
  lemma TrimDropsOnlyTheEnds(s: string)
    ensures exists b, e :: 0 <= b <= e <= |s| && Trim(s) == s[b..e] && AllWhitespace(s[..b]) && AllWhitespace(s[e..])
  {
    var e := TextEnd(s);
    var b := LeadingWhitespace(s[..e]);
    assert s[..e][..b] == s[..b];
  }

  /** Text with no whitespace at either end is its own trim. */
  lemma TrimOfTrimmed(s: string)
    requires s != [] && !IsWhitespace(s[0]) && !IsWhitespace(s[|s| - 1])
    ensures Trim(s) == s
  {
    assert s[..|s|] == s;
  }

  // ---------------------------------------------------------------- split_whitespace

  /** Length of the longest whitespace-free prefix of `s`. */
  function WordLength(s: string): (n: nat)
    ensures n <= |s|
    ensures NoWhitespace(s[..n])
    ensures n < |s| ==> IsWhitespace(s[n])
  {
    if s == [] || IsWhitespace(s[0]) then 0 else 1 + WordLength(s[1..])
  }

  /** `str::split_whitespace`: the maximal whitespace-free runs of `s`, in order. */
  function SplitWhitespace(s: string): (parts: seq<string>)
    ensures forall i :: 0 <= i < |parts| ==> parts[i] != [] && NoWhitespace(parts[i])
    ensures parts == [] <==> AllWhitespace(s)
    decreases |s|
  {
    var k := LeadingWhitespace(s);
    if k == |s| then
      assert s[..|s|] == s;
      []
    else
      var t := s[k..];
      var n := WordLength(t);
      assert n > 0;
      [t[..n]] + SplitWhitespace(t[n..])
  }

  /** The whitespace run at the start of `s` is exactly `k` long when `s[..k]` is blank and `s[k]` is not. */
  lemma {:induction false} LeadingWhitespaceIs(s: string, k: nat)
    requires k <= |s| && AllWhitespace(s[..k]) && (k < |s| ==> !IsWhitespace(s[k]))
    ensures LeadingWhitespace(s) == k
    decreases k
  {
    if k > 0 {
      assert s[..k][0] == s[0];
      assert s[1..][..k - 1] == s[..k][1..];
      LeadingWhitespaceIs(s[1..], k - 1);
    }
  }

  /** The word at the start of `s` is exactly `n` long when `s[..n]` has no whitespace and `s[n]` is whitespace. */
  lemma {:induction false} WordLengthIs(s: string, n: nat)
    requires n <= |s| && NoWhitespace(s[..n]) && (n < |s| ==> IsWhitespace(s[n]))
    ensures WordLength(s) == n
    decreases n
  {
    if n > 0 {
      assert s[..n][0] == s[0];
      assert s[1..][..n - 1] == s[..n][1..];
      WordLengthIs(s[1..], n - 1);
    }
  }

  /** A single word splits into itself. */
  lemma SplitWhitespaceOfWord(w: string)
    requires w != [] && NoWhitespace(w)
    ensures SplitWhitespace(w) == [w]
  {
    LeadingWhitespaceIs(w, 0);
    assert w[..|w|] == w;
    WordLengthIs(w, |w|);
    assert SplitWhitespace(w[|w|..]) == [];
  }

  /** Two words with one space between them split into exactly those words. */
  lemma SplitWhitespaceOfTwoWords(a: string, b: string)
    requires a != [] && NoWhitespace(a) && b != [] && NoWhitespace(b)
    ensures SplitWhitespace(a + " " + b) == [a, b]
  {
    var s := a + " " + b;
    assert s[0] == a[0];
    LeadingWhitespaceIs(s, 0);
    assert s[..|a|] == a && s[|a|] == ' ';
    WordLengthIs(s, |a|);
    var rest := s[|a|..];
    assert rest[..1] == " " && rest[1] == b[0];
    LeadingWhitespaceIs(rest, 1);
    assert rest[1..] == b;
    SplitWhitespaceOfWord(b);
    assert SplitWhitespace(s) == [a] + SplitWhitespace(rest);
    assert SplitWhitespace(rest) == [b] + SplitWhitespace(b[|b|..]) by {
      assert b[..|b|] == b;
      WordLengthIs(b, |b|);
    }
  }

  /**
   * Words laid out between whitespace gaps: `gaps[0] + words[0] + gaps[1] +
   * ... + words[n - 1] + gaps[n]`.
   */
  function Spaced(words: seq<string>, gaps: seq<string>): string
    requires |gaps| == |words| + 1
  {
    if words == [] then gaps[0] else gaps[0] + words[0] + Spaced(words[1..], gaps[1..])
  }

  /**
   * `words` are non-empty and whitespace-free, the gaps are whitespace, and
   * every gap between two words is non-empty: the words are maximal runs.
   */
  predicate WellSpaced(words: seq<string>, gaps: seq<string>) {
    && |gaps| == |words| + 1
    && (forall i :: 0 <= i < |words| ==> words[i] != [] && NoWhitespace(words[i]))
    && (forall i :: 0 <= i < |gaps| ==> AllWhitespace(gaps[i]))
    && (forall i :: 0 < i < |words| ==> gaps[i] != [])
  }

  /** Dropping the first word and gap of a well-spaced layout leaves one that starts at a gap. */
  lemma WellSpacedTail(words: seq<string>, gaps: seq<string>)
    requires WellSpaced(words, gaps) && words != []
    ensures WellSpaced(words[1..], gaps[1..])
    ensures words[1..] != [] ==> gaps[1..][0] != []
    ensures AllWhitespace(gaps[0]) && words[0] != [] && NoWhitespace(words[0])
  {
  }

  /** A gap and a word in front of a layout that starts at a gap make a well-spaced layout. */
  lemma WellSpacedCons(g: string, w: string, words: seq<string>, gaps: seq<string>)
    requires WellSpaced(words, gaps) && (words != [] ==> gaps[0] != [])
    requires AllWhitespace(g) && w != [] && NoWhitespace(w)
    ensures WellSpaced([w] + words, [g] + gaps)
  {
  }

  /** The gaps around the words of `s`: the whitespace runs, the first and last possibly empty. */
  function Gaps(s: string): (gaps: seq<string>)
    ensures |gaps| == |SplitWhitespace(s)| + 1
    ensures gaps[0] == s[..LeadingWhitespace(s)]
    decreases |s|
  {
    var k := LeadingWhitespace(s);
    if k == |s| then
      [s[..k]]
    else
      var t := s[k..];
      [s[..k]] + Gaps(t[WordLength(t)..])
  }

  lemma SpacedUnfold(words: seq<string>, gaps: seq<string>)
    requires |gaps| == |words| + 1 && words != []
    ensures Spaced(words, gaps) == gaps[0] + (words[0] + Spaced(words[1..], gaps[1..]))
  {
  }

  /** A well-spaced text that is not all gap begins with whitespace when its first gap is non-empty. */
  lemma SpacedStartsWithGap(words: seq<string>, gaps: seq<string>)
    requires WellSpaced(words, gaps) && (words != [] ==> gaps[0] != [])
    ensures Spaced(words, gaps) != [] ==> IsWhitespace(Spaced(words, gaps)[0])
  {
    if words != [] {
      SpacedUnfold(words, gaps);
      assert Spaced(words, gaps)[0] == gaps[0][0];
    }
  }

  /** A gap, then a word, then text that starts at a gap: the word is split off whole. */
  lemma SplitOffWord(g: string, w: string, rest: string)
    requires AllWhitespace(g) && w != [] && NoWhitespace(w)
    requires rest != [] ==> IsWhitespace(rest[0])
    ensures SplitWhitespace(g + (w + rest)) == [w] + SplitWhitespace(rest)
  {
    var s := g + (w + rest);
    assert s[..|g|] == g && s[|g|] == w[0];
    LeadingWhitespaceIs(s, |g|);
    var t := s[|g|..];
    assert t == w + rest;
    assert t[..|w|] == w;
    WordLengthIs(t, |w|);
    assert t[|w|..] == rest;
  }

  /** `split_whitespace` of words laid out between whitespace gaps gives back exactly those words. */
  lemma {:induction false} SplitWhitespaceOfSpaced(words: seq<string>, gaps: seq<string>)
    requires WellSpaced(words, gaps)
    ensures SplitWhitespace(Spaced(words, gaps)) == words
    decreases |words|
  {
    if words != [] {
      SpacedUnfold(words, gaps);
      WellSpacedTail(words, gaps);
      SpacedStartsWithGap(words[1..], gaps[1..]);
      SplitOffWord(gaps[0], words[0], Spaced(words[1..], gaps[1..]));
      SplitWhitespaceOfSpaced(words[1..], gaps[1..]);
      assert [words[0]] + words[1..] == words;
    }
  }

  /** The first word of `s` and its leading gap, and what is left after them. */
  lemma SplitStep(s: string)
    requires LeadingWhitespace(s) < |s|
    ensures var k := LeadingWhitespace(s);
      var t := s[k..];
      var n := WordLength(t);
      n > 0
      && SplitWhitespace(s) == [t[..n]] + SplitWhitespace(t[n..])
      && Gaps(s) == [s[..k]] + Gaps(t[n..])
      && (t[n..] != [] ==> IsWhitespace(t[n..][0]))
  {
  }

  /** The words and gaps of any text are well spaced. */
  lemma {:induction false} GapsAreWellSpaced(s: string)
    ensures WellSpaced(SplitWhitespace(s), Gaps(s))
    decreases |s|
  {
    var k := LeadingWhitespace(s);
    if k < |s| {
      var t := s[k..];
      var n := WordLength(t);
      var rest := t[n..];
      SplitStep(s);
      GapsAreWellSpaced(rest);
      assert rest != [] ==> Gaps(rest)[0] != [];
      WellSpacedCons(s[..k], t[..n], SplitWhitespace(rest), Gaps(rest));
    } else {
      assert s[..k] == s;
    }
  }

  /** Conversely every text is its own words laid out between its own gaps. */
  lemma {:induction false} SpacedOfSplitWhitespace(s: string)
    ensures Spaced(SplitWhitespace(s), Gaps(s)) == s
    decreases |s|
  {
    var k := LeadingWhitespace(s);
    if k < |s| {
      var t := s[k..];
      var n := WordLength(t);
      var rest := t[n..];
      SplitStep(s);
      SpacedOfSplitWhitespace(rest);
      var words, gaps := SplitWhitespace(s), Gaps(s);
      assert words[0] == t[..n] && gaps[0] == s[..k];
      assert words[1..] == SplitWhitespace(rest) && gaps[1..] == Gaps(rest);
      SpacedUnfold(words, gaps);
      assert s == s[..k] + (t[..n] + rest);
    } else {
      assert s[..k] == s;
    }
  }

  /** The non-whitespace characters of `s`, in order. */
  function RemoveWhitespace(s: string): string {
    if s == [] then [] else (if IsWhitespace(s[0]) then [] else [s[0]]) + RemoveWhitespace(s[1..])
  }

  function Concat(parts: seq<string>): string {
    if parts == [] then [] else parts[0] + Concat(parts[1..])
  }

  lemma {:induction false} RemoveWhitespaceAppend(a: string, b: string)
    ensures RemoveWhitespace(a + b) == RemoveWhitespace(a) + RemoveWhitespace(b)
    decreases |a|
  {
    if a != [] {
      assert (a + b)[0] == a[0] && (a + b)[1..] == a[1..] + b;
      RemoveWhitespaceAppend(a[1..], b);
    } else {
      assert a + b == b;
    }
  }

  lemma {:induction false} RemoveWhitespaceOfBlank(s: string)
    requires AllWhitespace(s)
    ensures RemoveWhitespace(s) == []
    decreases |s|
  {
    if s != [] {
      RemoveWhitespaceOfBlank(s[1..]);
    }
  }

  lemma {:induction false} RemoveWhitespaceOfWord(s: string)
    requires NoWhitespace(s)
    ensures RemoveWhitespace(s) == s
    decreases |s|
  {
    if s != [] {
      RemoveWhitespaceOfWord(s[1..]);
    }
  }

  /** Splitting loses exactly the whitespace: the parts glued together are `s` without it. */
  lemma {:induction false} SplitWhitespaceKeepsText(s: string)
    ensures Concat(SplitWhitespace(s)) == RemoveWhitespace(s)
    decreases |s|
  {
    var k := LeadingWhitespace(s);
    LeadingWhitespaceHasNoText(s);
    if k < |s| {
      var t := s[k..];
      var n := WordLength(t);
      var w, r := t[..n], t[n..];
      calc {
        Concat(SplitWhitespace(s));
        { ConcatSplitStep(s); }
        w + Concat(SplitWhitespace(r));
        { SplitWhitespaceKeepsText(r); }
        w + RemoveWhitespace(r);
        { RemoveWhitespaceOfWordThen(w, r); }
        RemoveWhitespace(w + r);
        { assert w + r == t; }
        RemoveWhitespace(t);
      }
    }
  }

  /** Gluing the parts of `s` back: its first word, then the parts of what follows it. */
  lemma ConcatSplitStep(s: string)
    requires LeadingWhitespace(s) < |s|
    ensures var t := s[LeadingWhitespace(s)..];
      var n := WordLength(t);
      Concat(SplitWhitespace(s)) == t[..n] + Concat(SplitWhitespace(t[n..]))
  {
    var t := s[LeadingWhitespace(s)..];
    var n := WordLength(t);
    var parts := [t[..n]] + SplitWhitespace(t[n..]);
    assert SplitWhitespace(s) == parts;
    assert parts[0] == t[..n] && parts[1..] == SplitWhitespace(t[n..]);
  }

  lemma RemoveWhitespaceOfWordThen(w: string, r: string)
    requires NoWhitespace(w)
    ensures RemoveWhitespace(w + r) == w + RemoveWhitespace(r)
  {
    RemoveWhitespaceAppend(w, r);
    RemoveWhitespaceOfWord(w);
  }


  lemma LeadingWhitespaceHasNoText(s: string)
    ensures RemoveWhitespace(s[LeadingWhitespace(s)..]) == RemoveWhitespace(s)
  {
    var k := LeadingWhitespace(s);
    assert s == s[..k] + s[k..];
    RemoveWhitespaceAppend(s[..k], s[k..]);
    RemoveWhitespaceOfBlank(s[..k]);
  }

  // ---------------------------------------------------------------- to_uppercase

  predicate IsAsciiLower(c: char) {
    'a' <= c <= 'z'
  }

  /**
   * `char::to_uppercase` for every character whose upper-case form is plain
   * ASCII; any other character is kept as it is.
   */
  function UpperChar(c: char): string {
    if IsAsciiLower(c) then [(c as int - 32) as char]
    else if c == '\U{00DF}' then "SS"     // sharp s
    else if c == '\U{0131}' then "I"      // dotless i
    else if c == '\U{017F}' then "S"      // long s
    else if c == '\U{FB00}' then "FF"
    else if c == '\U{FB01}' then "FI"
    else if c == '\U{FB02}' then "FL"
    else if c == '\U{FB03}' then "FFI"
    else if c == '\U{FB04}' then "FFL"
    else if c == '\U{FB05}' || c == '\U{FB06}' then "ST"
    else [c]
  }

  /** `str::to_uppercase`, character by character. */
  function Upper(s: string): string {
    if s == [] then [] else UpperChar(s[0]) + Upper(s[1..])
  }

  /** Text made of capital ASCII letters is its own upper case. */
  lemma {:induction false} UpperOfCapitals(s: string)
    requires forall i :: 0 <= i < |s| ==> 'A' <= s[i] <= 'Z'
    ensures Upper(s) == s
    decreases |s|
  {
    if s != [] {
      UpperOfCapitals(s[1..]);
    }
  }

  /** ASCII lower-casing, the other spelling of a mnemonic. */
  function AsciiLower(s: string): (r: string)
    ensures |r| == |s|
  {
    if s == [] then []
    else ([if 'A' <= s[0] <= 'Z' then (s[0] as int + 32) as char else s[0]]) + AsciiLower(s[1..])
  }

  /** Upper-casing does not see how the ASCII letters of `s` were cased. */
  lemma {:induction false} UpperIgnoresAsciiCase(s: string)
    ensures Upper(AsciiLower(s)) == Upper(s)
    decreases |s|
  {
    if s != [] {
      assert AsciiLower(s)[1..] == AsciiLower(s[1..]);
      UpperIgnoresAsciiCase(s[1..]);
    }
  }

  // ---------------------------------------------------------------- from_str_radix

  const I32_MIN: int := -0x8000_0000
  const I32_MAX: int := 0x7FFF_FFFF

  predicate IsDigit(c: char) {
    '0' <= c <= '9'
  }

  predicate AllDigits(s: string) {
    forall i :: 0 <= i < |s| ==> IsDigit(s[i])
  }

  /** Base-10 value of a string of ASCII digits, most significant first. */
  function DecimalValue(s: string): nat
    requires AllDigits(s)
  {
    if s == [] then 0 else DecimalValue(s[..|s| - 1]) * 10 + (s[|s| - 1] as int - '0' as int)
  }

  /**
   * `i32::from_str_radix(s, 10)`: an optional `+` or `-`, then one or more
   * ASCII digits, whose value must fit in 32 bits.
   */
  function ParseI32(s: string): (r: Option<int>)
    ensures r.Some? ==> I32_MIN <= r.value <= I32_MAX
  {
    var signed := |s| > 0 && (s[0] == '+' || s[0] == '-');
    var digits := if signed then s[1..] else s;
    if digits == [] || !AllDigits(digits) then None
    else
      var v := if signed && s[0] == '-' then 0 - DecimalValue(digits) else DecimalValue(digits);
      if I32_MIN <= v <= I32_MAX then Some(v) else None
  }

  /** Decimal digits of `n`, as `Display` writes them. */
  function NatToDecimal(n: nat): (r: string)
    ensures r != [] && AllDigits(r) && DecimalValue(r) == n
  {
    var last := ('0' as int + n % 10) as char;
    if n < 10 then
      assert [last][..0] == [];
      [last]
    else
      var r := NatToDecimal(n / 10) + [last];
      assert r[..|r| - 1] == NatToDecimal(n / 10);
      r
  }

  /** `i32`'s `Display`: a `-` for negative values, then the digits. */
  function I32ToDecimal(v: int): string {
    if v < 0 then "-" + NatToDecimal(-v) else NatToDecimal(v)
  }

  /** Every 32-bit value survives printing and parsing back. */
  lemma I32RoundTrip(v: int)
    requires I32_MIN <= v <= I32_MAX
    ensures ParseI32(I32ToDecimal(v)) == Some(v)
  {
    var s := I32ToDecimal(v);
    if v < 0 {
      assert s[1..] == NatToDecimal(-v);
    } else {
      assert IsDigit(s[0]);
    }
  }

  /** A value outside 32 bits prints fine but does not parse back. */
  lemma WideValuesDoNotParse(v: int)
    requires v < I32_MIN || I32_MAX < v
    ensures ParseI32(I32ToDecimal(v)) == None
  {
    var s := I32ToDecimal(v);
    if v < 0 {
      assert s[1..] == NatToDecimal(-v);
    } else {
      assert IsDigit(s[0]);
    }
  }
}
