/**
 * The string primitives the analyzer relies on, with the ECMAScript
 * semantics the source gets from `String.prototype.trim`, `toLowerCase`,
 * `includes`, `Array.prototype.join` and `split`, plus decimal digits.
 */
module Text {
  import opened Types

  // ---------------------------------------------------------------------------
  // trim()
  // ---------------------------------------------------------------------------

  /**
   * The characters `String.prototype.trim` strips: ECMAScript WhiteSpace
   * (TAB, VT, FF, ZWNBSP and every space separator) and LineTerminator
   * (LF, CR, LS, PS).
   */
  predicate IsJsWhitespace(c: char) {
    || c == '\t' || c == '\n' || c == '\U{0B}' || c == '\U{0C}' || c == '\r'
    || c == ' ' || c == '\U{A0}' || c == '\U{1680}'
    || ('\U{2000}' <= c <= '\U{200A}')
    || c == '\U{2028}' || c == '\U{2029}' || c == '\U{202F}' || c == '\U{205F}'
    || c == '\U{3000}' || c == '\U{FEFF}'
  }

  /** Drops leading whitespace: the result is the longest suffix starting with a non-blank. */
  function TrimStart(s: string): (r: string)
    ensures |r| <= |s| && r == s[|s| - |r|..]
    ensures |r| == 0 || !IsJsWhitespace(r[0])
  {
    if |s| > 0 && IsJsWhitespace(s[0]) then TrimStart(s[1..]) else s
  }

  /** Drops trailing whitespace: the result is the longest prefix ending with a non-blank. */
  function TrimEnd(s: string): (r: string)
    ensures |r| <= |s| && r == s[..|r|]
    ensures |r| == 0 || !IsJsWhitespace(r[|r| - 1])
  {
    if |s| > 0 && IsJsWhitespace(s[|s| - 1]) then TrimEnd(s[..|s| - 1]) else s
  }

  /** `s.trim()` */
  function Trim(s: string): (r: string)
    ensures exists k :: OccursAt(s, r, k)
    ensures |r| == 0 || (!IsJsWhitespace(r[0]) && !IsJsWhitespace(r[|r| - 1]))
  {
    var t := TrimStart(s);
    var r := TrimEnd(t);
    var k := |s| - |t|;
    assert t == s[k..] && r == t[..|r|];
    assert r == s[k..k + |r|];
    assert OccursAt(s, r, k);
    r
  }

  /** `!s.trim()`: the string is empty once trimmed (an empty string is falsy). */
  predicate IsBlank(s: string)
    ensures IsBlank(s) <==> AllWhitespace(s)
  {
    TrimEmptyIffAllWhitespace(s);
    Trim(s) == []
  }

  /** Everything `TrimStart` removes is whitespace. */
  lemma {:induction false} TrimStartDropsWhitespace(s: string)
    ensures forall i :: 0 <= i < |s| - |TrimStart(s)| ==> IsJsWhitespace(s[i])
    decreases |s|
  {
    if |s| > 0 && IsJsWhitespace(s[0]) {
      TrimStartDropsWhitespace(s[1..]);
      assert forall i :: 1 <= i < |s| ==> s[i] == s[1..][i - 1];
    }
  }

  /** Everything `TrimEnd` removes is whitespace. */
  lemma {:induction false} TrimEndDropsWhitespace(s: string)
    ensures forall i :: |TrimEnd(s)| <= i < |s| ==> IsJsWhitespace(s[i])
    decreases |s|
  {
    if |s| > 0 && IsJsWhitespace(s[|s| - 1]) {
      TrimEndDropsWhitespace(s[..|s| - 1]);
      assert forall i :: 0 <= i < |s| - 1 ==> s[i] == s[..|s| - 1][i];
    }
  }

  /** A string trims to nothing exactly when every one of its characters is whitespace. */
  lemma TrimEmptyIffAllWhitespace(s: string)
    ensures Trim(s) == [] <==> AllWhitespace(s)
  {
    if Trim(s) == [] {
      var t := TrimStart(s);
      TrimEndDropsWhitespace(t);
      assert t == [];
      TrimStartDropsWhitespace(s);
    } else {
      var r := Trim(s);
      assert r[0] in s && !IsJsWhitespace(r[0]);
    }
  }

  /** True iff every character of `s` is whitespace. */
  predicate AllWhitespace(s: string) {
    forall i :: 0 <= i < |s| ==> IsJsWhitespace(s[i])
  }

  /** A leading whitespace character is dropped. */
  lemma TrimStartCons(c: char, t: string)
    requires IsJsWhitespace(c)
    ensures TrimStart([c] + t) == TrimStart(t)
  {
    assert ([c] + t)[0] == c && ([c] + t)[1..] == t;
  }

  /** Leading padding is dropped up to the first non-blank character. */
  lemma {:induction false} TrimStartPadding(pad: string, s: string)
    requires AllWhitespace(pad)
    requires |s| > 0 && !IsJsWhitespace(s[0])
    ensures TrimStart(pad + s) == s
    decreases |pad|
  {
    if |pad| == 0 {
      assert pad + s == s;
    } else {
      var c, rest := pad[0], pad[1..];
      AllWhitespaceTail(pad);
      TrimStartPadding(rest, s);
      TrimStartCons(c, rest + s);
      ConsConcat(pad, s);
    }
  }

  /** The characters after the first of a blank string are blank too. */
  lemma AllWhitespaceTail(pad: string)
    requires |pad| > 0 && AllWhitespace(pad)
    ensures IsJsWhitespace(pad[0]) && AllWhitespace(pad[1..])
  {
    assert forall i :: 0 <= i < |pad[1..]| ==> pad[1..][i] == pad[i + 1];
  }

  /** A non-empty left operand splits into its first element and the rest. */
  lemma ConsConcat<T>(xs: seq<T>, ys: seq<T>)
    requires |xs| > 0
    ensures [xs[0]] + (xs[1..] + ys) == xs + ys
  {
  }

  /** A trailing whitespace character is dropped. */
  lemma TrimEndSnoc(t: string, c: char)
    requires IsJsWhitespace(c)
    ensures TrimEnd(t + [c]) == TrimEnd(t)
  {
    assert (t + [c])[|t|] == c && (t + [c])[..|t|] == t;
  }

  /** Trailing padding is dropped back to the last non-blank character. */
  lemma {:induction false} TrimEndPadding(s: string, pad: string)
    requires AllWhitespace(pad)
    requires |s| > 0 && !IsJsWhitespace(s[|s| - 1])
    ensures TrimEnd(s + pad) == s
    decreases |pad|
  {
    if |pad| > 0 {
      var init := pad[..|pad| - 1];
      assert AllWhitespace(init) by {
        assert forall i :: 0 <= i < |init| ==> init[i] == pad[i];
      }
      TrimEndPadding(s, init);
      TrimEndSnoc(s + init, pad[|pad| - 1]);
      assert (s + init) + [pad[|pad| - 1]] == s + pad;
    } else {
      assert s + pad == s;
    }
  }

  /** Trimming removes exactly the whitespace padding around a string with non-blank ends. */
  lemma TrimPadded(pre: string, s: string, post: string)
    requires AllWhitespace(pre) && AllWhitespace(post)
    requires |s| > 0 && !IsJsWhitespace(s[0]) && !IsJsWhitespace(s[|s| - 1])
    ensures Trim(pre + s + post) == s
  {
    assert pre + s + post == pre + (s + post);
    TrimStartPadding(pre, s + post);
    TrimEndPadding(s, post);
  }

  // ---------------------------------------------------------------------------
  // toLowerCase()
  // ---------------------------------------------------------------------------

  /**
   * Lower-cases one character. ASCII capitals map to their small letter, and
   * KELVIN SIGN (U+212A) to 'k', its Unicode lower-case mapping. Every other
   * character is kept.
   */
  function LowerChar(c: char): char {
    if IsAsciiUpper(c) then (c as int + 32) as char
    else if c == '\U{212A}' then 'k'
    else c
  }

  /** An ASCII capital letter. */
  predicate IsAsciiUpper(c: char) {
    'A' <= c <= 'Z'
  }

  /**
   * `s.toLowerCase()`, character by character: capitals become their small
   * letter 32 code points further on, the Kelvin sign becomes 'k', and every
   * other character, small letters included, stays where it is.
   */
  function ToLower(s: string): (r: string)
    ensures |r| == |s|
    ensures forall i :: 0 <= i < |r| ==> !IsAsciiUpper(r[i]) && r[i] != '\U{212A}'
    ensures forall i :: 0 <= i < |s| && IsAsciiUpper(s[i]) ==> r[i] as int == s[i] as int + 32
    ensures forall i :: 0 <= i < |s| && s[i] == '\U{212A}' ==> r[i] == 'k'
    ensures forall i :: 0 <= i < |s| && !IsAsciiUpper(s[i]) && s[i] != '\U{212A}' ==> r[i] == s[i]
  {
    seq(|s|, i requires 0 <= i < |s| => LowerChar(s[i]))
  }

  /** Lower-casing keeps every occurrence in place, itself lower-cased. */
  lemma LowerOccurrence(s: string, w: string, k: int)
    requires OccursAt(s, w, k)
    ensures OccursAt(ToLower(s), ToLower(w), k)
  {
    forall j | 0 <= j < |w|
      ensures ToLower(s)[k..k + |w|][j] == ToLower(w)[j]
    {
      assert s[k + j] == w[j];
    }
  }

  /** If the text contains a word in any casing, the lower-cased text contains the lower-cased word. */
  lemma LowerFindsWord(s: string, w: string)
    requires Contains(s, w)
    ensures Contains(ToLower(s), ToLower(w))
  {
    ContainsIff(s, w);
    var k :| OccursAt(s, w, k);
    LowerOccurrence(s, w, k);
    ContainsIff(ToLower(s), ToLower(w));
  }

  /** A word written in small ASCII letters survives lower-casing of the text around it. */
  lemma LowerKeepsWord(s: string, w: string)
    requires forall j :: 0 <= j < |w| ==> 'a' <= w[j] <= 'z'
    requires Contains(s, w)
    ensures Contains(ToLower(s), w)
  {
    LowerFindsWord(s, w);
    assert ToLower(w) == w;
  }

  /**
   * A small letter appears after lower-casing only where it, its capital,
   * the Kelvin sign (for 'k') or the dotted capital I (for 'i', which
   * `toLowerCase` turns into 'i' and a combining dot) was.
   */
  lemma LowerMissesLetter(s: string, c: char)
    requires 'a' <= c <= 'z'
    requires c !in s && (c as int - 32) as char !in s
    requires c == 'k' ==> '\U{212A}' !in s
    requires c == 'i' ==> '\U{0130}' !in s
    ensures c !in ToLower(s)
  {
    forall i | 0 <= i < |s|
      ensures ToLower(s)[i] != c
    {
      assert s[i] != c && s[i] != (c as int - 32) as char;
    }
  }

  /** A string that lacks one character of a word does not contain the word. */
  lemma MissingCharNotContained(s: string, w: string, j: nat)
    requires j < |w|
    ensures w[j] !in s ==> !Contains(s, w)
  {
    if Contains(s, w) {
      ContainsIff(s, w);
      var k :| OccursAt(s, w, k);
      assert s[k..k + |w|][j] == s[k + j];
      assert w[j] in s;
    }
  }

  /** Lower-casing twice is lower-casing once. */
  lemma ToLowerIdempotent(s: string)
    ensures ToLower(ToLower(s)) == ToLower(s)
  {
    var once := ToLower(s);
    forall i | 0 <= i < |s|
      ensures ToLower(once)[i] == once[i]
    {
      assert LowerChar(once[i]) == once[i];
    }
  }

  // ---------------------------------------------------------------------------
  // includes()
  // ---------------------------------------------------------------------------

  /** `sub` occurs in `s` starting at index `i`. */
  predicate OccursAt(s: string, sub: string, i: int) {
    0 <= i && i + |sub| <= |s| && s[i..i + |sub|] == sub
  }

  /** `s.includes(sub)`, scanning left to right. */
  predicate Contains(s: string, sub: string)
    ensures |sub| == 0 ==> Contains(s, sub)
    ensures Contains(s, sub) ==> |sub| <= |s|
    decreases |s|
  {
    if |sub| > |s| then false
    else s[..|sub|] == sub || Contains(s[1..], sub)
  }

  /** The scan finds `sub` exactly when `sub` occurs at some index of `s`. */
  lemma {:induction false} ContainsIff(s: string, sub: string)
    ensures Contains(s, sub) <==> exists i :: OccursAt(s, sub, i)
    decreases |s|
  {
    if |sub| > |s| {
      assert forall i :: !OccursAt(s, sub, i);
    } else if s[..|sub|] == sub {
      assert OccursAt(s, sub, 0);
    } else {
      ContainsIff(s[1..], sub);
      forall i | OccursAt(s, sub, i)
        ensures OccursAt(s[1..], sub, i - 1)
      {
        assert s[1..][i - 1..i - 1 + |sub|] == s[i..i + |sub|];
      }
      if Contains(s[1..], sub) {
        var i :| OccursAt(s[1..], sub, i);
        assert s[1..][i..i + |sub|] == s[i + 1..i + 1 + |sub|];
        assert OccursAt(s, sub, i + 1);
      }
    }
  }

  /** `s.lastIndexOf(c)`, with `None` for -1. */
  function LastIndexOf(s: string, c: char): (r: Option<nat>)
    ensures r.Some? ==> r.value < |s| && s[r.value] == c && c !in s[r.value + 1..]
    ensures r.None? ==> c !in s
  {
    if |s| == 0 then None
    else if s[|s| - 1] == c then Some(|s| - 1)
    else LastIndexOf(s[..|s| - 1], c)
  }

  /** The last `c` of `a + [c] + b` is the one after `a` when `b` has none. */
  lemma LastIndexOfAfter(a: string, c: char, b: string)
    requires c !in b
    ensures LastIndexOf(a + [c] + b, c) == Some(|a|)
  {
    var s := a + [c] + b;
    var r := LastIndexOf(s, c);
    assert s[|a|] == c;
  }

  // ---------------------------------------------------------------------------
  // join('\n'), and splitting its result back into lines
  // ---------------------------------------------------------------------------

  /** `lines.join(sep)` for a one-character separator. */
  function Join(lines: seq<string>, sep: char): (r: string)
    ensures |lines| == 0 ==> r == []
    ensures |lines| > 0 ==> |r| >= |lines| - 1
  {
    if |lines| == 0 then []
    else if |lines| == 1 then lines[0]
    else lines[0] + [sep] + Join(lines[1..], sep)
  }

  /** `s.split(sep)` for a one-character separator: never empty, `"".split(sep)` is `[""]`. */
  function Split(s: string, sep: char): (r: seq<string>)
    ensures |r| > 0
  {
    if |s| == 0 then [[]] else AddChar(s[0], sep, Split(s[1..], sep))
  }

  /** Puts `c` in front of the pieces: a separator opens a new piece, any other character joins the first. */
  function AddChar(c: char, sep: char, pieces: seq<string>): (r: seq<string>)
    requires |pieces| > 0
    ensures |r| > 0
  {
    if c == sep then [[]] + pieces else [[c] + pieces[0]] + pieces[1..]
  }

  /** Adding a character only touches the first pieces, never the ones appended after them. */
  lemma AddCharAppend(c: char, sep: char, pieces: seq<string>, right: seq<string>)
    requires |pieces| > 0
    ensures AddChar(c, sep, pieces + right) == AddChar(c, sep, pieces) + right
  {
    if c != sep {
      assert (pieces + right)[0] == pieces[0];
      assert (pieces + right)[1..] == pieces[1..] + right;
    }
  }

  /** Splitting a string with one more character in front. */
  lemma SplitCons(c: char, t: string, sep: char)
    ensures Split([c] + t, sep) == AddChar(c, sep, Split(t, sep))
  {
    assert ([c] + t)[0] == c && ([c] + t)[1..] == t;
  }

  /** One more character in front of both sides keeps a split relation. */
  lemma SplitPrefixStep(c: char, a: string, t: string, sep: char, right: seq<string>)
    requires Split(t, sep) == Split(a, sep) + right
    ensures Split([c] + t, sep) == Split([c] + a, sep) + right
  {
    SplitCons(c, t, sep);
    SplitCons(c, a, sep);
    AddCharAppend(c, sep, Split(a, sep), right);
  }

  /** Splitting at a separator splits each side independently. */
  lemma {:induction false} SplitConcat(a: string, sep: char, b: string)
    ensures Split(a + [sep] + b, sep) == Split(a, sep) + Split(b, sep)
    decreases |a|
  {
    if |a| == 0 {
      assert a + [sep] + b == [sep] + b;
      SplitCons(sep, b, sep);
    } else {
      SplitConcat(a[1..], sep, b);
      SplitPrefixStep(a[0], a[1..], a[1..] + [sep] + b, sep, Split(b, sep));
      assert [a[0]] + a[1..] == a;
      assert [a[0]] + (a[1..] + [sep] + b) == a + [sep] + b;
    }
  }

  /** Splitting a separator-free string gives the string alone. */
  lemma {:induction false} SplitNoSeparator(a: string, sep: char)
    requires sep !in a
    ensures Split(a, sep) == [a]
    decreases |a|
  {
    if |a| > 0 {
      SplitNoSeparator(a[1..], sep);
      assert [a[0]] + a[1..] == a;
    }
  }

  /** Splitting what `Join` produced recovers the lines, when no line holds the separator. */
  lemma {:induction false} SplitJoin(lines: seq<string>, sep: char)
    requires |lines| > 0
    requires forall k :: 0 <= k < |lines| ==> sep !in lines[k]
    ensures Split(Join(lines, sep), sep) == lines
    decreases |lines|
  {
    if |lines| == 1 {
      SplitNoSeparator(lines[0], sep);
    } else {
      SplitJoin(lines[1..], sep);
      SplitConcat(lines[0], sep, Join(lines[1..], sep));
      SplitNoSeparator(lines[0], sep);
      assert [lines[0]] + lines[1..] == lines;
    }
  }

  // ---------------------------------------------------------------------------
  // Decimal digits
  // ---------------------------------------------------------------------------

  predicate IsDigit(c: char) {
    '0' <= c <= '9'
  }

  function DigitChar(d: nat): (c: char)
    requires d < 10
    ensures IsDigit(c)
  {
    ('0' as int + d) as char
  }

  function DigitValue(c: char): (d: nat)
    requires IsDigit(c)
    ensures d < 10
  {
    c as int - '0' as int
  }

  /** The decimal numeral of `n`, without leading zeros (`String(n)`). */
  function NatToString(n: nat): (r: string)
    ensures |r| > 0
    ensures forall i :: 0 <= i < |r| ==> IsDigit(r[i])
    ensures |r| > 1 ==> r[0] != '0'
  {
    if n < 10 then [DigitChar(n)] else NatToString(n / 10) + [DigitChar(n % 10)]
  }

  /** Reads a non-empty run of decimal digits. */
  function ParseNat(s: string): (r: Option<nat>)
    ensures r.Some? <==> |s| > 0 && forall i :: 0 <= i < |s| ==> IsDigit(s[i])
  {
    if |s| == 0 || !IsDigit(s[|s| - 1]) then None
    else if |s| == 1 then Some(DigitValue(s[0]))
    else match ParseNat(s[..|s| - 1])
      case None => None
      case Some(m) => Some(m * 10 + DigitValue(s[|s| - 1]))
  }

  /** Reading back a numeral gives the number it was written from. */
  lemma {:induction false} ParseNatToString(n: nat)
    ensures ParseNat(NatToString(n)) == Some(n)
  {
    if n >= 10 {
      ParseNatToString(n / 10);
      var s := NatToString(n);
      assert s[..|s| - 1] == NatToString(n / 10);
    }
  }
}
