/**
 * The pieces of Python's `str` that the label pipeline uses: whitespace,
 * strip, split with maxsplit=1, int(), f"{k}", lower, upper, capitalize,
 * title, `in` and endswith, and the line splitting done by iterating over a
 * file opened in text mode.
 *
 * Whitespace is exactly the set of characters for which str.isspace() holds.
 * Case mapping covers ASCII letters only; every other character is treated
 * as having no case.
 */
module Text {
  import opened Wrappers

  // ---------------------------------------------------------------------------
  // Characters
  // ---------------------------------------------------------------------------

  /** str.isspace() for one character; split() and strip() drop these. */
  predicate IsSpace(c: char) {
    || ('\t' <= c <= '\r')
    || ('\U{1C}' <= c <= ' ')
    || c == '\U{85}' || c == '\U{A0}' || c == '\U{1680}'
    || ('\U{2000}' <= c <= '\U{200A}')
    || c == '\U{2028}' || c == '\U{2029}' || c == '\U{202F}' || c == '\U{205F}' || c == '\U{3000}'
  }

  predicate IsDigit(c: char) { '0' <= c <= '9' }
  predicate IsUpper(c: char) { 'A' <= c <= 'Z' }
  predicate IsLower(c: char) { 'a' <= c <= 'z' }
  predicate IsLetter(c: char) { IsUpper(c) || IsLower(c) }

  function ToLower(c: char): char { if IsUpper(c) then (c as int + 32) as char else c }
  function ToUpper(c: char): char { if IsLower(c) then (c as int - 32) as char else c }

  predicate AllSpace(s: string) { forall i | 0 <= i < |s| :: IsSpace(s[i]) }
  predicate HasSpace(s: string) { exists i | 0 <= i < |s| :: IsSpace(s[i]) }

  // ---------------------------------------------------------------------------
  // Case: lower, capitalize, title
  // ---------------------------------------------------------------------------

  /** str.lower() */
  function Lower(s: string): string {
    seq(|s|, i requires 0 <= i < |s| => ToLower(s[i]))
  }

  /** str.capitalize(): the first character upper-cased, all the others lower-cased. */
  function Capitalize(s: string): string {
    if s == [] then [] else [ToUpper(s[0])] + Lower(s[1..])
  }

  /**
   * str.title(): a letter that follows a non-letter (or starts the string) is
   * upper-cased, a letter that follows a letter is lower-cased, and every
   * other character is kept.
   */
  function Title(s: string): string {
    seq(|s|, i requires 0 <= i < |s| =>
      if !IsLetter(s[i]) then s[i]
      else if i == 0 || !IsLetter(s[i - 1]) then ToUpper(s[i])
      else ToLower(s[i]))
  }

  /** Capitalizing changes only case: lower-casing afterwards gives the lower-cased input. */
  lemma LowerCapitalize(s: string)
    ensures |Capitalize(s)| == |s|
    ensures Lower(Capitalize(s)) == Lower(s)
  {
    if s != [] {
      var c := Capitalize(s);
      forall i | 0 <= i < |s| ensures Lower(c)[i] == Lower(s)[i] {
        if i > 0 { assert c[i] == Lower(s[1..])[i - 1]; }
      }
    }
  }

  /** Capitalizing is idempotent. */
  lemma CapitalizeIdempotent(s: string)
    ensures Capitalize(Capitalize(s)) == Capitalize(s)
  {
    if s != [] {
      var c := Capitalize(s);
      assert c[1..] == Lower(s[1..]);
      assert Lower(c[1..]) == c[1..];
    }
  }

  /** Title-casing changes only case, and title-casing twice is title-casing once. */
  lemma TitleOnlyChangesCase(s: string)
    ensures |Title(s)| == |s|
    ensures Lower(Title(s)) == Lower(s)
    ensures Title(Title(s)) == Title(s)
  {
  }

  // ---------------------------------------------------------------------------
  // strip
  // ---------------------------------------------------------------------------

  /** str.lstrip(): drops leading whitespace. */
  function TrimLeft(s: string): string
    decreases |s|
  {
    if |s| > 0 && IsSpace(s[0]) then TrimLeft(s[1..]) else s
  }

  /** str.rstrip(): drops trailing whitespace. */
  function TrimRight(s: string): string
    decreases |s|
  {
    if |s| > 0 && IsSpace(s[|s| - 1]) then TrimRight(s[..|s| - 1]) else s
  }

  /** str.strip(): removes leading and trailing whitespace. */
  function Strip(s: string): string {
    TrimRight(TrimLeft(s))
  }

  /** lstrip() keeps a suffix, drops only whitespace, and leaves no whitespace in front. */
  lemma {:induction false} TrimLeftSpec(s: string)
    ensures var r := TrimLeft(s); |r| <= |s| && r == s[|s| - |r|..]
    ensures var r := TrimLeft(s); forall i | 0 <= i < |s| - |r| :: IsSpace(s[i])
    ensures var r := TrimLeft(s); r == [] || !IsSpace(r[0])
    decreases |s|
  {
    if |s| > 0 && IsSpace(s[0]) {
      TrimLeftSpec(s[1..]);
    }
  }

  /** rstrip() keeps a prefix, drops only whitespace, and leaves no whitespace at the end. */
  lemma {:induction false} TrimRightSpec(s: string)
    ensures var r := TrimRight(s); |r| <= |s| && r == s[..|r|]
    ensures var r := TrimRight(s); forall i | |r| <= i < |s| :: IsSpace(s[i])
    ensures var r := TrimRight(s); r == [] || !IsSpace(r[|r| - 1])
    decreases |s|
  {
    if |s| > 0 && IsSpace(s[|s| - 1]) {
      TrimRightSpec(s[..|s| - 1]);
    }
  }

  /** strip() leaves a string that neither starts nor ends with whitespace. */
  lemma StripSpec(s: string)
    ensures var r := Strip(s); r == [] || (!IsSpace(r[0]) && !IsSpace(r[|r| - 1]))
  {
    var l := TrimLeft(s);
    TrimLeftSpec(s);
    TrimRightSpec(l);
    var r := TrimRight(l);
    if r != [] {
      assert r[0] == l[0];
    }
  }

  /** str.strip('"'): removes leading and trailing double quotes. */
  function StripQuotes(s: string): (r: string)
    ensures r == [] || (r[0] != '"' && r[|r| - 1] != '"')
    decreases |s|
  {
    if |s| > 0 && s[0] == '"' then StripQuotes(s[1..])
    else if |s| > 0 && s[|s| - 1] == '"' then StripQuotes(s[..|s| - 1])
    else s
  }

  /**
   * strip('"') cuts the text down to a slice of itself, and everything it cut
   * away on either side is a double quote.
   */
  lemma {:induction false} StripQuotesInfix(s: string) returns (i: nat, j: nat)
    ensures i <= j <= |s| && StripQuotes(s) == s[i..j]
    ensures forall k | 0 <= k < i :: s[k] == '"'
    ensures forall k | j <= k < |s| :: s[k] == '"'
    decreases |s|
  {
    if |s| > 0 && s[0] == '"' {
      var i', j' := StripQuotesInfix(s[1..]);
      i, j := i' + 1, j' + 1;
      assert s[1..][i'..j'] == s[i..j];
      forall k | 0 <= k < i ensures s[k] == '"' {
        if k > 0 { assert s[k] == s[1..][k - 1]; }
      }
      forall k | j <= k < |s| ensures s[k] == '"' {
        assert s[k] == s[1..][k - 1];
      }
    } else if |s| > 0 && s[|s| - 1] == '"' {
      var init := s[..|s| - 1];
      i, j := StripQuotesInfix(init);
      assert init[i..j] == s[i..j];
      forall k | j <= k < |s| ensures s[k] == '"' {
        if k < |s| - 1 { assert s[k] == init[k]; }
      }
    } else {
      i, j := 0, |s|;
    }
  }

  /** A text that neither starts nor ends with a double quote is left alone by strip('"'). */
  lemma StripQuotesUnquoted(s: string)
    requires s == [] || (s[0] != '"' && s[|s| - 1] != '"')
    ensures StripQuotes(s) == s
  {
  }

  lemma {:induction false} TrimLeftOf(p: string, m: string)
    requires AllSpace(p)
    requires m == [] || !IsSpace(m[0])
    ensures TrimLeft(p + m) == m
    decreases |p|
  {
    if p == [] {
      assert p + m == m;
    } else {
      assert (p + m)[1..] == p[1..] + m;
      TrimLeftOf(p[1..], m);
    }
  }

  lemma {:induction false} TrimRightOf(m: string, q: string)
    requires AllSpace(q)
    requires m == [] || !IsSpace(m[|m| - 1])
    ensures TrimRight(m + q) == m
    decreases |q|
  {
    if q == [] {
      assert m + q == m;
    } else {
      assert (m + q)[..|m + q| - 1] == m + q[..|q| - 1];
      TrimRightOf(m, q[..|q| - 1]);
    }
  }

  /** Stripping removes exactly the surrounding whitespace and nothing inside. */
  lemma StripOf(p: string, m: string, q: string)
    requires AllSpace(p) && AllSpace(q)
    requires m == [] || (!IsSpace(m[0]) && !IsSpace(m[|m| - 1]))
    ensures Strip(p + m + q) == m
  {
    if m == [] {
      assert p + m + q == p + q;
      assert AllSpace(p + q);
      TrimLeftOf(p + q, []);
      assert p + q + [] == p + q;
    } else {
      assert p + m + q == p + (m + q);
      TrimLeftOf(p, m + q);
      TrimRightOf(m, q);
    }
  }

  /** A string that neither starts nor ends with whitespace is left alone by strip(). */
  lemma StripUnpadded(s: string)
    requires s == [] || (!IsSpace(s[0]) && !IsSpace(s[|s| - 1]))
    ensures Strip(s) == s
  {
    StripOf([], s, []);
    assert [] + s + [] == s;
  }

  // ---------------------------------------------------------------------------
  // split(maxsplit=1)
  // ---------------------------------------------------------------------------

  /** Index of the first whitespace character of `s`, or |s| when there is none. */
  function TokenEnd(s: string): (e: nat)
    ensures e <= |s|
    decreases |s|
  {
    if s == [] || IsSpace(s[0]) then 0 else 1 + TokenEnd(s[1..])
  }

  /**
   * str.split(maxsplit=1): skip leading whitespace, take the first token,
   * skip the whitespace after it, and keep whatever is left (if anything) as
   * the second part, internal whitespace included.
   */
  function SplitOnce(s: string): (parts: seq<string>)
    ensures |parts| <= 2
  {
    var a := TrimLeft(s);
    if a == [] then []
    else
      var e := TokenEnd(a);
      var rest := TrimLeft(a[e..]);
      if rest == [] then [a[..e]] else [a[..e], rest]
  }

  /** The token ends at the first whitespace character. */
  lemma {:induction false} TokenEndSpec(s: string)
    ensures forall i | 0 <= i < TokenEnd(s) :: !IsSpace(s[i])
    ensures TokenEnd(s) < |s| ==> IsSpace(s[TokenEnd(s)])
    decreases |s|
  {
    if s != [] && !IsSpace(s[0]) {
      TokenEndSpec(s[1..]);
    }
  }

  /**
   * split(maxsplit=1) gives at most two parts, none empty; none at all exactly
   * when the text is blank; the first part is one whitespace-free token and the
   * second part does not start with whitespace.
   */
  lemma SplitOnceSpec(s: string)
    ensures var parts := SplitOnce(s); forall i | 0 <= i < |parts| :: parts[i] != []
    ensures SplitOnce(s) == [] <==> AllSpace(s)
    ensures var parts := SplitOnce(s); |parts| >= 1 ==> !HasSpace(parts[0])
    ensures var parts := SplitOnce(s); |parts| == 2 ==> !IsSpace(parts[1][0])
  {
    var a := TrimLeft(s);
    TrimLeftSpec(s);
    if a != [] {
      assert s[|s| - |a|] == a[0];
      var e := TokenEnd(a);
      TokenEndSpec(a);
      TrimLeftSpec(a[e..]);
      assert !HasSpace(a[..e]);
    }
  }

  lemma {:induction false} TokenEndOf(token: string, rest: string)
    requires !HasSpace(token)
    requires rest == [] || IsSpace(rest[0])
    ensures TokenEnd(token + rest) == |token|
    decreases |token|
  {
    if token == [] {
      assert token + rest == rest;
    } else {
      assert !IsSpace(token[0]);
      assert (token + rest)[1..] == token[1..] + rest;
      assert !HasSpace(token[1..]) by {
        forall i | 0 <= i < |token[1..]| ensures !IsSpace(token[1..][i]) {
          assert token[1..][i] == token[i + 1];
        }
      }
      TokenEndOf(token[1..], rest);
    }
  }

  /** A token, a run of whitespace and a name split into exactly the token and the name. */
  lemma SplitOnceOf(token: string, sep: string, name: string)
    requires token != [] && !HasSpace(token)
    requires sep != [] && AllSpace(sep)
    requires name != [] && !IsSpace(name[0])
    ensures SplitOnce(token + sep + name) == [token, name]
  {
    var s := token + (sep + name);
    assert s == token + sep + name;
    assert s[0] == token[0];
    TrimLeftOf([], s);
    assert [] + s == s;
    TokenEndOf(token, sep + name);
    assert s[..|token|] == token;
    assert s[|token|..] == sep + name;
    TrimLeftOf(sep, name);
  }

  /** A stripped line splits into two parts exactly when it contains whitespace. */
  lemma TwoPartsIff(t: string)
    requires t == [] || (!IsSpace(t[0]) && !IsSpace(t[|t| - 1]))
    ensures |SplitOnce(t)| == 2 <==> HasSpace(t)
  {
    if t != [] {
      StripUnpaddedLeft(t);
      var e := TokenEnd(t);
      TokenEndSpec(t);
      if e == |t| {
        assert t[e..] == [];
        assert !HasSpace(t);
      } else {
        assert IsSpace(t[e]);
        NonBlankTail(t[e..]);
      }
    }
  }

  lemma StripUnpaddedLeft(t: string)
    requires t != [] && !IsSpace(t[0])
    ensures TrimLeft(t) == t
  {
    TrimLeftOf([], t);
    assert [] + t == t;
  }

  /** A text that ends in a non-space keeps a non-empty rest after TrimLeft. */
  lemma NonBlankTail(u: string)
    requires u != [] && !IsSpace(u[|u| - 1])
    ensures TrimLeft(u) != []
  {
    TrimLeftSpec(u);
  }

  // ---------------------------------------------------------------------------
  // int() and f"{k}"
  // ---------------------------------------------------------------------------

  function DigitValue(c: char): nat
    requires IsDigit(c)
  {
    c as int - '0' as int
  }

  function DigitChar(d: nat): char
    requires d < 10
  {
    ('0' as int + d) as char
  }

  /** Decimal digits, with single underscores allowed between two digits. */
  predicate IsDigitRun(s: string) {
    && |s| > 0
    && IsDigit(s[0])
    && IsDigit(s[|s| - 1])
    && (forall i | 0 <= i < |s| :: IsDigit(s[i]) || s[i] == '_')
    && (forall i | 0 <= i < |s| - 1 :: s[i] == '_' ==> s[i + 1] != '_')
  }

  /** The number a run of digits and underscores denotes, underscores ignored. */
  function RunValue(s: string): nat
    requires forall i | 0 <= i < |s| :: IsDigit(s[i]) || s[i] == '_'
    decreases |s|
  {
    if s == [] then 0
    else
      var init := RunValue(s[..|s| - 1]);
      var c := s[|s| - 1];
      if c == '_' then init else 10 * init + DigitValue(c)
  }

  /**
   * Python's int(s) on a str in base 10: surrounding whitespace is ignored,
   * one optional sign, then a digit run. None stands for the ValueError it
   * raises on anything else.
   */
  function ParseInt(s: string): Option<int> {
    var t := Strip(s);
    if |t| > 0 && (t[0] == '+' || t[0] == '-') then
      if IsDigitRun(t[1..]) then
        var v: int := RunValue(t[1..]);
        Some(if t[0] == '-' then -v else v)
      else None
    else if IsDigitRun(t) then Some(RunValue(t))
    else None
  }

  /** str(n) for a natural number: its decimal digits, no leading zeros. */
  function NatToString(n: nat): string
    decreases n
  {
    if n < 10 then [DigitChar(n)] else NatToString(n / 10) + [DigitChar(n % 10)]
  }

  /** f"{k}" for a Python int. */
  function IntToString(k: int): string {
    if k < 0 then "-" + NatToString(-k) else NatToString(k)
  }

  lemma {:induction false} NatToStringDigits(n: nat)
    ensures |NatToString(n)| > 0
    ensures forall i | 0 <= i < |NatToString(n)| :: IsDigit(NatToString(n)[i])
    ensures RunValue(NatToString(n)) == n
    decreases n
  {
    if n >= 10 {
      NatToStringDigits(n / 10);
      var s := NatToString(n);
      assert s[..|s| - 1] == NatToString(n / 10);
    }
  }

  lemma DigitsAreRun(s: string)
    requires s != [] && forall i | 0 <= i < |s| :: IsDigit(s[i])
    ensures IsDigitRun(s)
  {
  }

  /** int() reads a plain run of digits as its value. */
  lemma ParseIntOfDigits(d: string)
    requires d != [] && forall i | 0 <= i < |d| :: IsDigit(d[i])
    ensures ParseInt(d) == Some(RunValue(d))
  {
    DigitsAreRun(d);
    assert !IsSpace(d[0]) && !IsSpace(d[|d| - 1]);
    StripUnpadded(d);
    assert d[0] != '+' && d[0] != '-';
  }

  /** int() reads a minus sign followed by a run of digits as the negated value. */
  lemma ParseIntOfNegatedDigits(d: string)
    requires d != [] && forall i | 0 <= i < |d| :: IsDigit(d[i])
    ensures var v: int := RunValue(d); ParseInt("-" + d) == Some(-v)
  {
    DigitsAreRun(d);
    NegatedDigitsUnpadded(d);
    ParseIntOfSigned("-" + d, d);
  }

  lemma NegatedDigitsUnpadded(d: string)
    requires d != [] && forall i | 0 <= i < |d| :: IsDigit(d[i])
    ensures Strip("-" + d) == "-" + d
  {
    var s := "-" + d;
    assert s[0] == '-' && s[|s| - 1] == d[|d| - 1];
    StripUnpadded(s);
  }

  lemma ParseIntOfSigned(t: string, d: string)
    requires t == "-" + d && Strip(t) == t && IsDigitRun(d)
    ensures var v: int := RunValue(d); ParseInt(t) == Some(-v)
  {
    assert t[1..] == d;
  }

  /** int() reads back what f"{k}" writes. */
  lemma ParseIntOfIntToString(k: int)
    ensures ParseInt(IntToString(k)) == Some(k)
  {
    if k < 0 {
      NatToStringDigits(-k);
      ParseIntOfNegatedDigits(NatToString(-k));
    } else {
      NatToStringDigits(k);
      ParseIntOfDigits(NatToString(k));
    }
  }

  /** f"{k}" never contains whitespace and never starts with a space, so it is one token. */
  lemma IntToStringIsToken(k: int)
    ensures IntToString(k) != [] && !HasSpace(IntToString(k))
    ensures forall i | 0 <= i < |IntToString(k)| :: IntToString(k)[i] != '\n' && IntToString(k)[i] != '\r'
    ensures !IsSpace(IntToString(k)[0])
  {
    NatToStringDigits(if k < 0 then -k else k);
  }

  // ---------------------------------------------------------------------------
  // Substrings
  // ---------------------------------------------------------------------------

  /** Python's `key in text` on two strings. */
  predicate Occurs(key: string, text: string)
    decreases |text|
  {
    |key| <= |text| && (text[..|key|] == key || Occurs(key, text[1..]))
  }

  /** str.endswith(suffix) */
  predicate EndsWith(s: string, suffix: string) {
    |suffix| <= |s| && s[|s| - |suffix|..] == suffix
  }

  /** Every string occurs in itself. */
  lemma OccursInItself(s: string)
    ensures Occurs(s, s)
  {
  }

  // ---------------------------------------------------------------------------
  // Reading a text file line by line
  // ---------------------------------------------------------------------------

  /** Universal newlines: reading in text mode turns "\r\n" and a lone "\r" into "\n". */
  function Translate(t: string): string
    decreases |t|
  {
    if t == [] then []
    else if t[0] == '\r' then
      if |t| > 1 && t[1] == '\n' then "\n" + Translate(t[2..]) else "\n" + Translate(t[1..])
    else [t[0]] + Translate(t[1..])
  }

  /** Index just past the first "\n" of a non-empty text, or its length. */
  function LineEnd(t: string): (e: nat)
    requires t != []
    ensures 0 < e <= |t|
    ensures forall i | 0 <= i < e - 1 :: t[i] != '\n'
    ensures e < |t| ==> t[e - 1] == '\n'
    decreases |t|
  {
    if t[0] == '\n' || |t| == 1 then 1 else 1 + LineEnd(t[1..])
  }

  /** The lines `for line in f` yields: each keeps its "\n"; a last line may lack one. */
  function SplitLines(t: string): seq<string>
    decreases |t|
  {
    if t == [] then [] else var e := LineEnd(t); [t[..e]] + SplitLines(t[e..])
  }

  /** The lines of a file whose stored text is `text`. */
  function ReadLines(text: string): seq<string> {
    SplitLines(Translate(text))
  }

  function Concat(lines: seq<string>): string
    decreases |lines|
  {
    if lines == [] then [] else lines[0] + Concat(lines[1..])
  }

  /**
   * Splitting into lines loses nothing: the lines put back together give the
   * text, no line is empty, and each line holds a "\n" only as its last
   * character, which only the final line may lack.
   */
  lemma {:induction false} SplitLinesInverse(t: string)
    ensures Concat(SplitLines(t)) == t
    ensures forall i | 0 <= i < |SplitLines(t)| :: SplitLines(t)[i] != []
    ensures forall i, j | 0 <= i < |SplitLines(t)| && 0 <= j < |SplitLines(t)[i]| - 1 :: SplitLines(t)[i][j] != '\n'
    ensures forall i | 0 <= i < |SplitLines(t)| - 1 :: SplitLines(t)[i][|SplitLines(t)[i]| - 1] == '\n'
    decreases |t|
  {
    if t != [] {
      var e := LineEnd(t);
      SplitLinesInverse(t[e..]);
      assert t == t[..e] + t[e..];
      var ls := SplitLines(t);
      assert ls[1..] == SplitLines(t[e..]);
    }
  }

  /** A text made of one "\n"-terminated line followed by more text splits off that line first. */
  lemma SplitLinesCons(a: string, b: string)
    requires a != [] && a[|a| - 1] == '\n'
    requires forall i | 0 <= i < |a| - 1 :: a[i] != '\n'
    ensures SplitLines(a + b) == [a] + SplitLines(b)
  {
    var t := a + b;
    var e := LineEnd(t);
    assert t[|a| - 1] == '\n';
    assert e == |a|;
    assert t[..e] == a && t[e..] == b;
  }

  /** Text without carriage returns reads back unchanged. */
  lemma {:induction false} TranslateWithoutCR(t: string)
    requires forall i | 0 <= i < |t| :: t[i] != '\r'
    ensures Translate(t) == t
    decreases |t|
  {
    if t != [] {
      TranslateWithoutCR(t[1..]);
    }
  }

  lemma {:induction false} ConcatSnoc(lines: seq<string>, x: string)
    ensures Concat(lines + [x]) == Concat(lines) + x
    decreases |lines|
  {
    if lines != [] {
      assert (lines + [x])[1..] == lines[1..] + [x];
      ConcatSnoc(lines[1..], x);
    }
  }

  /** Lines without a carriage return put together have none either. */
  lemma {:induction false} ConcatWithoutCR(lines: seq<string>)
    requires forall i, j | 0 <= i < |lines| && 0 <= j < |lines[i]| :: lines[i][j] != '\r'
    ensures forall k | 0 <= k < |Concat(lines)| :: Concat(lines)[k] != '\r'
    decreases |lines|
  {
    if lines != [] {
      ConcatWithoutCR(lines[1..]);
      var c := Concat(lines);
      forall k | 0 <= k < |c| ensures c[k] != '\r' {
        if k >= |lines[0]| {
          assert c[k] == Concat(lines[1..])[k - |lines[0]|];
        }
      }
    }
  }

  /** Text made of "\n"-terminated lines splits back into exactly those lines. */
  lemma {:induction false} SplitLinesOfConcat(lines: seq<string>)
    requires forall i | 0 <= i < |lines| :: lines[i] != [] && lines[i][|lines[i]| - 1] == '\n'
    requires forall i, j | 0 <= i < |lines| && 0 <= j < |lines[i]| - 1 :: lines[i][j] != '\n'
    ensures SplitLines(Concat(lines)) == lines
    decreases |lines|
  {
    if lines != [] {
      SplitLinesOfConcat(lines[1..]);
      SplitLinesCons(lines[0], Concat(lines[1..]));
    }
  }
}
