/**
 * The few pieces of Python's `str` and `int` built-ins the lottery code relies on:
 * `str.split(sep)` with a one-character separator, `sep.join(parts)`, `str.startswith`,
 * `str(n)` for an integer, `int(s)` for a string, and the `repr` text `int(s)` puts in its error.
 */
module Text {
  import opened Wrappers

  /** `s.split(sep)`: every occurrence of `sep` cuts, empty pieces are kept. */
  function Split(s: string, sep: char): (parts: seq<string>)
    ensures |parts| >= 1
    decreases |s|
  {
    if s == [] then [""]
    else if s[0] == sep then [""] + Split(s[1..], sep)
    else
      var rest := Split(s[1..], sep);
      [[s[0]] + rest[0]] + rest[1..]
  }

  /** A string without the separator is a single piece. */
  lemma {:induction false} SplitWithoutSeparator(s: string, sep: char)
    requires sep !in s
    ensures Split(s, sep) == [s]
    decreases |s|
  {
    if s != [] {
      SplitWithoutSeparator(s[1..], sep);
      assert [s[0]] + s[1..] == s;
    }
  }

  /** Splitting distributes over a separator placed between two strings. */
  lemma {:induction false} SplitAround(x: string, y: string, sep: char)
    ensures Split(x + [sep] + y, sep) == Split(x, sep) + Split(y, sep)
    decreases |x|
  {
    if x == [] {
      assert x + [sep] + y == [sep] + y;
      assert ([sep] + y)[1..] == y;
    } else {
      assert (x + [sep] + y)[0] == x[0];
      assert (x + [sep] + y)[1..] == x[1..] + [sep] + y;
      SplitAround(x[1..], y, sep);
    }
  }

  /** `sep.join(parts)`. */
  function Join(parts: seq<string>, sep: string): string
  {
    if parts == [] then ""
    else if |parts| == 1 then parts[0]
    else Join(parts[..|parts| - 1], sep) + sep + parts[|parts| - 1]
  }

  /** `s.startswith(prefix)`. */
  predicate StartsWith(s: string, prefix: string)
  {
    |prefix| <= |s| && s[..|prefix|] == prefix
  }

  function DigitChar(d: nat): char
    requires d < 10
  {
    "0123456789"[d]
  }

  predicate IsDigit(c: char)
  {
    '0' <= c <= '9'
  }

  function NatToString(n: nat): (s: string)
    ensures |s| >= 1 && forall i :: 0 <= i < |s| ==> IsDigit(s[i])
  {
    if n < 10 then [DigitChar(n)] else NatToString(n / 10) + [DigitChar(n % 10)]
  }

  /** `str(n)` for an integer. */
  function IntToString(n: int): string
  {
    if n < 0 then "-" + NatToString(-n) else NatToString(n)
  }

  function DigitsValue(s: string): nat
    requires forall i :: 0 <= i < |s| ==> IsDigit(s[i])
  {
    if s == [] then 0
    else
      assert IsDigit(s[|s| - 1]);
      10 * DigitsValue(s[..|s| - 1]) + (s[|s| - 1] as int - '0' as int)
  }

  predicate AllDigits(s: string)
  {
    |s| >= 1 && forall i :: 0 <= i < |s| ==> IsDigit(s[i])
  }

  /**
   * `int(s)` for a string: an optional sign followed by ASCII decimal digits, read in base 10;
   * anything else raises ValueError, modelled as None. Python also accepts surrounding
   * whitespace, `_` between digits and the other Unicode decimal digits; those are not modelled.
   */
  function ParseInt(s: string): (r: Option<int>)
    ensures r.Some? <==> (AllDigits(s) || (|s| >= 2 && (s[0] == '-' || s[0] == '+') && AllDigits(s[1..])))
    ensures AllDigits(s) ==> r == Some(DigitsValue(s))
    ensures |s| >= 2 && s[0] == '-' && AllDigits(s[1..]) ==> r == Some(-(DigitsValue(s[1..]) as int))
    ensures |s| >= 2 && s[0] == '+' && AllDigits(s[1..]) ==> r == Some(DigitsValue(s[1..]))
  {
    if AllDigits(s) then Some(DigitsValue(s))
    else if |s| >= 2 && s[0] == '-' && AllDigits(s[1..]) then Some(-(DigitsValue(s[1..]) as int))
    else if |s| >= 2 && s[0] == '+' && AllDigits(s[1..]) then Some(DigitsValue(s[1..]))
    else None
  }

  /** Reading back the digits `str` writes gives the number. */
  lemma {:induction false} DigitsRoundTrip(n: nat)
    ensures AllDigits(NatToString(n))
    ensures DigitsValue(NatToString(n)) == n
  {
    if n >= 10 {
      var s := NatToString(n);
      var init := NatToString(n / 10);
      assert s == init + [DigitChar(n % 10)];
      assert s[..|s| - 1] == init;
      DigitsRoundTrip(n / 10);
    }
  }

  /** A minus sign before a run of digits parses as the negated number. */
  lemma NegativeParse(digits: string)
    requires AllDigits(digits)
    ensures ParseInt("-" + digits) == Some(-(DigitsValue(digits) as int))
  {
    var s := "-" + digits;
    assert s[1..] == digits;
    assert !IsDigit(s[0]);
  }

  /** `int(str(n)) == n`. */
  lemma IntRoundTrip(n: int)
    ensures ParseInt(IntToString(n)) == Some(n)
  {
    var m: nat := if n < 0 then -n else n;
    var digits := NatToString(m);
    DigitsRoundTrip(m);
    if n < 0 {
      assert IntToString(n) == "-" + digits;
      NegativeParse(digits);
    } else {
      assert IntToString(n) == digits;
    }
  }

  // ---------------------------------------------------------------------------
  // The message of the ValueError `int(s)` raises: "invalid literal for int() with
  // base 10: " followed by `%.200R` of s, i.e. repr(s) cut to its first 200 characters.
  // ---------------------------------------------------------------------------

  const IntErrorPrefix := "invalid literal for int() with base 10: "

  /** The characters below U+0100 that `repr` writes as `\xNN` (the C0 controls other than
      tab, newline and carriage return, DEL, the C1 controls, the no-break space and the
      soft hyphen). */
  predicate HexEscaped(c: char)
  {
    && c != '\t' && c != '\n' && c != '\r'
    && (c < ' ' || ('\U{7F}' <= c <= '\U{A0}') || c == '\U{AD}')
  }

  /** A lower-case hexadecimal digit. */
  function HexDigit(d: int): (h: char)
    requires 0 <= d < 16
    ensures HexValue(h) == d
  {
    if d < 10 then ('0' as int + d) as char else ('a' as int + d - 10) as char
  }

  function HexValue(h: char): (d: nat)
    ensures d < 16
  {
    if '0' <= h <= '9' then h as int - '0' as int
    else if 'a' <= h <= 'f' then h as int - 'a' as int + 10
    else 0
  }

  /** How `repr` writes one character between the quotes q. */
  function EscapeChar(c: char, q: char): (r: string)
    ensures |r| >= 1
  {
    if c == '\\' then "\\\\"
    else if c == q then ['\\', q]
    else if c == '\n' then "\\n"
    else if c == '\r' then "\\r"
    else if c == '\t' then "\\t"
    else if HexEscaped(c) then "\\x" + [HexDigit(c as int / 16), HexDigit(c as int % 16)]
    else [c]
  }

  function EscapeAll(s: string, q: char): (r: string)
    ensures |r| >= |s|
  {
    if s == [] then "" else EscapeChar(s[0], q) + EscapeAll(s[1..], q)
  }

  /** The quote `repr` puts around s: a double quote only when s holds a single quote and
      no double quote. */
  function ReprQuote(s: string): char
  {
    if '\'' in s && '"' !in s then '"' else '\''
  }

  /** `repr(s)` of a Python string. */
  function Repr(s: string): (r: string)
    ensures |r| >= |s| + 2
    ensures r[0] == r[|r| - 1] == ReprQuote(s)
  {
    [ReprQuote(s)] + EscapeAll(s, ReprQuote(s)) + [ReprQuote(s)]
  }

  /** The text of the ValueError `int(s)` raises. */
  function BadIntLiteral(s: string): (r: string)
    ensures |IntErrorPrefix| < |r| <= |IntErrorPrefix| + 200
    ensures r[..|IntErrorPrefix|] == IntErrorPrefix
  {
    var rep := Repr(s);
    IntErrorPrefix + (if |rep| <= 200 then rep else rep[..200])
  }

  /** Reads the escapes `repr` writes back to the characters they stand for. */
  function Unescape(t: string): string
    decreases |t|
  {
    if t == [] then []
    else if t[0] == '\\' && |t| >= 4 && t[1] == 'x' then
      [(HexValue(t[2]) * 16 + HexValue(t[3])) as char] + Unescape(t[4..])
    else if t[0] == '\\' && |t| >= 2 then [Unescaped(t[1])] + Unescape(t[2..])
    else [t[0]] + Unescape(t[1..])
  }

  function Unescaped(e: char): char
  {
    if e == 'n' then '\n' else if e == 'r' then '\r' else if e == 't' then '\t' else e
  }

  lemma UnescapeStep(c: char, q: char, rest: string)
    requires q == '\'' || q == '"'
    ensures Unescape(EscapeChar(c, q) + rest) == [c] + Unescape(rest)
  {
    var t := EscapeChar(c, q) + rest;
    if HexEscaped(c) && c != '\\' && c != q {
      var hi, lo := c as int / 16, c as int % 16;
      assert t[..4] == "\\x" + [HexDigit(hi), HexDigit(lo)];
      assert t[4..] == rest;
      assert (HexValue(t[2]) * 16 + HexValue(t[3])) == c as int;
    } else if c == '\\' || c == q || c == '\n' || c == '\r' || c == '\t' {
      assert t[2..] == rest;
    } else {
      assert t[1..] == rest;
    }
  }

  /** Unescaping undoes `repr`'s escaping, whichever quote it chose. */
  lemma {:induction false} UnescapeEscapeAll(s: string, q: char)
    requires q == '\'' || q == '"'
    ensures Unescape(EscapeAll(s, q)) == s
  {
    if s != [] {
      UnescapeStep(s[0], q, EscapeAll(s[1..], q));
      UnescapeEscapeAll(s[1..], q);
    }
  }

  /** The text between `repr`'s quotes reads back as the original string. */
  lemma ReprRoundTrip(s: string)
    ensures var r := Repr(s); Unescape(r[1..|r| - 1]) == s
  {
    var r := Repr(s);
    assert r[1..|r| - 1] == EscapeAll(s, ReprQuote(s));
    UnescapeEscapeAll(s, ReprQuote(s));
  }

  /** A character `repr` writes as itself between single quotes. */
  predicate PlainChar(c: char)
  {
    c != '\\' && c != '\'' && c != '\n' && c != '\r' && c != '\t' && !HexEscaped(c)
  }

  lemma {:induction false} EscapeAllPlain(s: string)
    requires forall i :: 0 <= i < |s| ==> PlainChar(s[i])
    ensures EscapeAll(s, '\'') == s
  {
    if s != [] {
      EscapeAllPlain(s[1..]);
    }
  }

  /** An id of at most 198 plain characters appears whole, in single quotes. */
  lemma PlainIdMessage(s: string)
    requires |s| <= 198
    requires forall i :: 0 <= i < |s| ==> PlainChar(s[i])
    ensures BadIntLiteral(s) == IntErrorPrefix + "'" + s + "'"
  {
    EscapeAllPlain(s);
    assert forall i :: 0 <= i < |s| ==> s[i] != '\'';
  }

  /** A longer id is cut: the message keeps the opening quote and 199 further characters
      of repr, and loses the closing quote. */
  lemma LongIdIsCut(s: string)
    requires |s| >= 199
    ensures BadIntLiteral(s) == IntErrorPrefix + Repr(s)[..200]
  {
  }

  /** An id holding a single quote and no double quote is shown in double quotes. */
  lemma SingleQuoteIdMessage()
    ensures BadIntLiteral("a'b") == IntErrorPrefix + "\"a'b\""
  {
    assert '\'' in "a'b";
    assert "a'b"[1..] == "'b";
    assert "a'b"[2..] == "b";
  }
}
