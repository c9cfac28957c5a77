/** The few string operations the registry layer relies on: ASCII upper-casing,
    decimal rendering of integers, prefix and substring tests, and `repr` of a
    string. */
module Text {

  /** Upper-cases one ASCII letter and leaves every other character alone. */
  function UpperChar(c: char): char
  {
    if 'a' <= c <= 'z' then (c as int - 32) as char else c
  }

  /** `str.upper()` restricted to the ASCII letters. */
  function Upper(s: string): (u: string)
    ensures |u| == |s|
    ensures forall i :: 0 <= i < |s| ==> u[i] == UpperChar(s[i])
  {
    seq(|s|, i requires 0 <= i < |s| => UpperChar(s[i]))
  }

  /** Upper-casing twice is upper-casing once, so an upper-cased name is its own key. */
  lemma UpperIdempotent(s: string)
    ensures Upper(Upper(s)) == Upper(s)
  {
  }

  predicate StartsWith(s: string, prefix: string)
  {
    |prefix| <= |s| && s[..|prefix|] == prefix
  }

  predicate EndsWith(s: string, suffix: string)
  {
    |suffix| <= |s| && s[|s| - |suffix|..] == suffix
  }

  /** Python's `sub in s`. */
  predicate Contains(s: string, sub: string)
    decreases |s|
  {
    StartsWith(s, sub) || (|s| > 0 && Contains(s[1..], sub))
  }

  lemma {:induction false} ContainsInfix(a: string, m: string, b: string)
    ensures Contains(a + m + b, m)
  {
    if a == [] {
      assert a + m + b == m + b;
      assert (m + b)[..|m|] == m;
    } else {
      ContainsInfix(a[1..], m, b);
      assert (a + m + b)[1..] == a[1..] + m + b;
    }
  }

  predicate IsDigit(c: char)
  {
    '0' <= c <= '9'
  }

  function DigitChar(d: nat): (c: char)
    requires d < 10
    ensures IsDigit(c)
  {
    ('0' as int + d) as char
  }

  /** `str(n)` for a natural number: its decimal digits, most significant first. */
  function NatToString(n: nat): (s: string)
    decreases n
  {
    if n < 10 then [DigitChar(n)] else NatToString(n / 10) + [DigitChar(n % 10)]
  }

  /** `str(i)` for an int: decimal digits with a leading '-' for negatives. */
  function IntToString(i: int): string
  {
    if i < 0 then "-" + NatToString(-i) else NatToString(i)
  }

  /** The number a string of decimal digits denotes (`int(s)` on digit strings). */
  function DigitsValue(s: string): nat
    requires forall k :: 0 <= k < |s| ==> IsDigit(s[k])
  {
    if s == [] then 0
    else
      var last := s[|s| - 1];
      assert IsDigit(last);
      DigitsValue(s[..|s| - 1]) * 10 + (last as int - '0' as int)
  }

  /** Decimal rendering is non-empty, all digits and reads back as the same number,
      so a count embedded in a message is recoverable exactly. */
  lemma {:induction false} NatToStringRoundTrip(n: nat)
    ensures var s := NatToString(n);
      |s| > 0 && (forall k :: 0 <= k < |s| ==> IsDigit(s[k])) && DigitsValue(s) == n
    decreases n
  {
    var s := NatToString(n);
    if n >= 10 {
      NatToStringRoundTrip(n / 10);
      var t := NatToString(n / 10);
      assert s == t + [DigitChar(n % 10)];
      assert s[..|s| - 1] == t;
    }
  }

  /** `int(s)` on the strings `IntToString` produces. */
  function ParseInt(s: string): (r: int)
    requires |s| > 0
    requires forall k :: 1 <= k < |s| ==> IsDigit(s[k])
    requires s[0] == '-' || IsDigit(s[0])
  {
    if s[0] == '-' then -(DigitsValue(s[1..]) as int) else DigitsValue(s)
  }

  lemma IntToStringRoundTrip(i: int)
    ensures var s := IntToString(i);
      |s| > 0 && (s[0] == '-' || IsDigit(s[0])) && (forall k :: 1 <= k < |s| ==> IsDigit(s[k]))
      && ParseInt(s) == i
  {
    if i < 0 {
      NatToStringRoundTrip(-i);
      assert IntToString(i)[1..] == NatToString(-i);
    } else {
      NatToStringRoundTrip(i);
    }
  }

  /** The lower-case hexadecimal digit of `d`. */
  function HexDigit(d: nat): (c: char)
    requires d < 16
  {
    if d < 10 then DigitChar(d) else ('a' as int + d - 10) as char
  }

  /** The value of a hexadecimal digit `HexDigit` produces. */
  function HexValue(c: char): nat
  {
    if '0' <= c <= '9' then c as int - '0' as int
    else if 'a' <= c <= 'f' then c as int - 'a' as int + 10
    else 0
  }

  /** A character `repr` writes as a `\xHH` escape: the ASCII control characters
      other than tab, newline and carriage return. */
  predicate HexEscaped(c: char)
  {
    c != '\t' && c != '\n' && c != '\r' && ((c as int) < 0x20 || c as int == 0x7f)
  }

  /** The quote `repr` puts around a string: a double quote when the string holds
      a single quote and no double quote, else a single quote. */
  function ReprQuote(s: string): (q: char)
    ensures q == '\'' || q == '"'
    ensures q == '"' <==> '\'' in s && '"' !in s
  {
    if '\'' in s && '"' !in s then '"' else '\''
  }

  /** How `repr` writes one character inside quotes `q`. */
  function EscapeChar(c: char, q: char): string
  {
    if c == '\\' then "\\\\"
    else if c == q then ['\\', q]
    else if c == '\t' then "\\t"
    else if c == '\n' then "\\n"
    else if c == '\r' then "\\r"
    else if HexEscaped(c) then ['\\', 'x', HexDigit(c as int / 16), HexDigit(c as int % 16)]
    else [c]
  }

  function Escape(s: string, q: char): string
    decreases |s|
  {
    if s == [] then [] else EscapeChar(s[0], q) + Escape(s[1..], q)
  }

  /** Python's `repr` of a `str`, for the characters whose printability does not
      depend on the Unicode database. */
  function StrRepr(s: string): (r: string)
    ensures |r| >= 2 && r[0] == r[|r| - 1] == ReprQuote(s)
  {
    var q := ReprQuote(s);
    [q] + Escape(s, q) + [q]
  }

  /** Reading the escapes of a `repr` body back. */
  function Unescape(t: string): string
    decreases |t|
  {
    if |t| >= 4 && t[0] == '\\' && t[1] == 'x' then [(HexValue(t[2]) * 16 + HexValue(t[3])) as char] + Unescape(t[4..])
    else if |t| >= 2 && t[0] == '\\' then
      [if t[1] == 't' then '\t' else if t[1] == 'n' then '\n' else if t[1] == 'r' then '\r' else t[1]] + Unescape(t[2..])
    else if t == [] then []
    else [t[0]] + Unescape(t[1..])
  }

  lemma UnescapeChar(c: char, q: char, rest: string)
    requires q == '\'' || q == '"'
    ensures Unescape(EscapeChar(c, q) + rest) == [c] + Unescape(rest)
  {
    var t := EscapeChar(c, q) + rest;
    if HexEscaped(c) && c != '\\' && c != q {
      var v := c as int;
      assert t[2] == HexDigit(v / 16) && t[3] == HexDigit(v % 16);
      assert HexValue(t[2]) * 16 + HexValue(t[3]) == v;
      assert t[4..] == rest;
    } else if c == '\\' || c == q || c == '\t' || c == '\n' || c == '\r' {
      assert t[2..] == rest;
    } else {
      assert t[1..] == rest;
    }
  }

  /** The body of a `repr` reads back as the string: no two strings share a repr. */
  lemma {:induction false} UnescapeEscape(s: string, q: char)
    requires q == '\'' || q == '"'
    ensures Unescape(Escape(s, q)) == s
    decreases |s|
  {
    if s != [] {
      UnescapeChar(s[0], q, Escape(s[1..], q));
      UnescapeEscape(s[1..], q);
    }
  }

  /** A character `repr` shows as it is between single quotes. */
  predicate PlainChar(c: char)
  {
    c != '\\' && c != '\'' && c != '\t' && c != '\n' && c != '\r' && !HexEscaped(c)
  }

  /** A string with nothing to escape is shown between single quotes as it is. */
  lemma {:induction false} ReprOfPlain(s: string)
    requires forall k :: 0 <= k < |s| ==> PlainChar(s[k])
    ensures StrRepr(s) == "'" + s + "'"
    decreases |s|
  {
    EscapePlain(s);
  }

  lemma {:induction false} EscapePlain(s: string)
    requires forall k :: 0 <= k < |s| ==> PlainChar(s[k])
    ensures Escape(s, '\'') == s
    decreases |s|
  {
    if s != [] {
      EscapePlain(s[1..]);
    }
  }

  /** A backslash is shown doubled. */
  lemma EscapeBackslash(a: string, b: string, q: char)
    ensures Escape(a + "\\" + b, q) == Escape(a, q) + "\\\\" + Escape(b, q)
  {
    var t := "\\" + b;
    assert a + "\\" + b == a + t;
    EscapeAppend(a, t, q);
    assert t[1..] == b;
    assert Escape(t, q) == "\\\\" + Escape(b, q);
  }

  lemma {:induction false} EscapeAppend(a: string, b: string, q: char)
    ensures Escape(a + b, q) == Escape(a, q) + Escape(b, q)
    decreases |a|
  {
    if a != [] {
      EscapeAppend(a[1..], b, q);
      assert (a + b)[1..] == a[1..] + b;
    } else {
      assert a + b == b;
    }
  }
}
