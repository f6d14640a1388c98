/** Python's `repr` of the scalar configuration values: ints in decimal, bools
    as `True`/`False`, strings as a quoted literal with escapes. `Unescape` reads
    such a literal back and is the reference the string encoder is proved
    against. */
module PyRepr {
  import opened Wrappers

  predicate IsDigit(c: char)
  {
    '0' <= c <= '9'
  }

  /** The value of a decimal digit character. */
  function DigitValue(c: char): nat
  {
    if IsDigit(c) then c as int - '0' as int else 0
  }

  function DigitChar(d: nat): (c: char)
    requires d < 10
    ensures IsDigit(c) && DigitValue(c) == d
  {
    ('0' as int + d) as char
  }

  /** The number a string of decimal digits denotes. */
  function DecimalValue(ds: string): nat
  {
    if |ds| == 0 then 0 else DecimalValue(ds[..|ds| - 1]) * 10 + DigitValue(ds[|ds| - 1])
  }

  /** The decimal digits of `n`, most significant first: they denote `n`, and
      only zero itself starts with `0`. */
  function Digits(n: nat): (r: string)
    ensures |r| > 0 && (r[0] == '0' <==> n == 0)
    ensures forall k :: 0 <= k < |r| ==> IsDigit(r[k])
    ensures DecimalValue(r) == n
  {
    if n < 10 then [DigitChar(n)]
    else
      var front := Digits(n / 10);
      var r := front + [DigitChar(n % 10)];
      assert r[..|r| - 1] == front;
      r
  }

  /** `repr` of an int (or of a bool, which Python treats as an int): a minus
      sign exactly for a negative number, then its digits. */
  function ReprInt(i: int): (r: string)
    ensures |r| > 0 && (r[0] == '-' <==> i < 0)
  {
    if i < 0 then "-" + Digits(-i) else Digits(i)
  }

  /** The digits of an int's `repr` are its absolute value in decimal, with no
      leading zero. */
  lemma ReprIntDigits(i: int)
    ensures var r := ReprInt(i);
      var ds := if i < 0 then r[1..] else r;
      && |ds| > 0 && (forall k :: 0 <= k < |ds| ==> IsDigit(ds[k]))
      && DecimalValue(ds) == (if i < 0 then -i else i)
      && (ds[0] == '0' <==> i == 0)
  {
    if i < 0 {
      assert ReprInt(i)[1..] == Digits(-i);
    }
  }

  function ReprBool(b: bool): string
  {
    if b then "True" else "False"
  }

  predicate IsHexDigit(c: char)
  {
    IsDigit(c) || 'a' <= c <= 'f'
  }

  /** The value of a lower-case hexadecimal digit character. */
  function HexValue(c: char): nat
  {
    if IsDigit(c) then DigitValue(c) else if 'a' <= c <= 'f' then c as int - 'a' as int + 10 else 0
  }

  function HexDigit(d: nat): (c: char)
    requires d < 16
    ensures IsHexDigit(c) && HexValue(c) == d
  {
    if d < 10 then DigitChar(d) else ('a' as int + d - 10) as char
  }

  /** Two lower-case hexadecimal digits, as in `\xNN`. */
  function HexByte(n: nat): (r: string)
    requires n < 256
    ensures |r| == 2 && IsHexDigit(r[0]) && IsHexDigit(r[1]) && HexValue(r[0]) * 16 + HexValue(r[1]) == n
  {
    [HexDigit(n / 16), HexDigit(n % 16)]
  }

  /** Characters Python's `repr` writes as `\xNN`: the C0 and Latin-1 control
      characters, DEL, the no-break space and the soft hyphen. */
  predicate HexEscaped(c: char)
  {
    (c as int < 32 || 127 <= c as int <= 160 || c as int == 173) && c != '\t' && c != '\n' && c != '\r'
  }

  /** Python uses double quotes when the text holds a single quote but no double
      quote, and single quotes otherwise. */
  function QuoteFor(s: string): (q: char)
    ensures q == '"' <==> '\'' in s && '"' !in s
    ensures q == '"' || q == '\''
  {
    if '\'' in s && '"' !in s then '"' else '\''
  }

  function EscapeChar(c: char, q: char): string
  {
    if c == q || c == '\\' then ['\\', c]
    else if c == '\t' then "\\t"
    else if c == '\n' then "\\n"
    else if c == '\r' then "\\r"
    else if HexEscaped(c) then "\\x" + HexByte(c as int)
    else [c]
  }

  function EscapeAll(s: string, q: char): string
  {
    if |s| == 0 then "" else EscapeChar(s[0], q) + EscapeAll(s[1..], q)
  }

  /** `c` in front of the text read so far, if the reading succeeded. */
  function Cons(c: char, o: Option<string>): (r: Option<string>)
    ensures r.Some? <==> o.Some?
    ensures r.Some? ==> r.value == [c] + o.value
  {
    match o
    case None => None
    case Some(u) => Some([c] + u)
  }

  /** The character a one-letter escape other than `\x` stands for. */
  function SimpleEscape(c: char): Option<char>
  {
    if c == '\\' || c == '\'' || c == '"' then Some(c)
    else if c == 't' then Some('\t')
    else if c == 'n' then Some('\n')
    else if c == 'r' then Some('\r')
    else None
  }

  /** Reads the inside of a Python string literal quoted with `q`, as far as the
      escapes `repr` writes go: `\\`, `\'`, `\"`, `\t`, `\n`, `\r` and `\xNN`.
      An unescaped `q` would end the literal, so it is an error here, and so is
      any other escape. */
  function Unescape(t: string, q: char): Option<string>
    decreases |t|
  {
    if |t| == 0 then Some("")
    else if t[0] == q then None
    else if t[0] != '\\' then Cons(t[0], Unescape(t[1..], q))
    else if |t| < 2 then None
    else if t[1] == 'x' then
      if |t| < 4 || !IsHexDigit(t[2]) || !IsHexDigit(t[3]) then None
      else Cons((HexValue(t[2]) * 16 + HexValue(t[3])) as char, Unescape(t[4..], q))
    else
      match SimpleEscape(t[1])
      case None => None
      case Some(c) => Cons(c, Unescape(t[2..], q))
  }

  /** Reading back one escaped character. */
  lemma EscapeCharRoundTrip(c: char, q: char, rest: string)
    requires q == '\'' || q == '"'
    ensures Unescape(EscapeChar(c, q) + rest, q) == Cons(c, Unescape(rest, q))
  {
    var t := EscapeChar(c, q) + rest;
    if c == q || c == '\\' || c == '\t' || c == '\n' || c == '\r' {
      assert t[2..] == rest;
    } else if HexEscaped(c) {
      var h := HexByte(c as int);
      assert t == ['\\', 'x', h[0], h[1]] + rest;
      assert t[4..] == rest;
    } else {
      assert t[1..] == rest;
    }
  }

  /** Reading back the escaped text gives the original text. */
  lemma {:induction false} EscapeAllRoundTrip(s: string, q: char)
    requires q == '\'' || q == '"'
    ensures Unescape(EscapeAll(s, q), q) == Some(s)
  {
    if |s| > 0 {
      EscapeAllRoundTrip(s[1..], q);
      EscapeCharRoundTrip(s[0], q, EscapeAll(s[1..], q));
      assert [s[0]] + s[1..] == s;
    }
  }

  /** `repr` of a string: a literal in the quote `QuoteFor` picks. */
  function ReprStr(s: string): (r: string)
    ensures |r| >= 2 && r[0] == QuoteFor(s) && r[|r| - 1] == QuoteFor(s)
  {
    var q := QuoteFor(s);
    [q] + EscapeAll(s, q) + [q]
  }

  /** The inside of a string's `repr` reads back as the string. */
  lemma ReprStrRoundTrip(s: string)
    ensures var r := ReprStr(s);
      Unescape(r[1..|r| - 1], QuoteFor(s)) == Some(s)
  {
    var r := ReprStr(s);
    assert r[1..|r| - 1] == EscapeAll(s, QuoteFor(s));
    EscapeAllRoundTrip(s, QuoteFor(s));
  }

  /** A character `repr` writes as itself: no quote, no backslash, nothing it
      escapes (controls, DEL, U+0080 to U+00A0, U+00AD). */
  predicate PlainChar(c: char)
  {
    c != '\'' && c != '"' && c != '\\' && !HexEscaped(c) && c != '\t' && c != '\n' && c != '\r'
  }

  lemma {:induction false} EscapePlain(s: string)
    requires forall i :: 0 <= i < |s| ==> PlainChar(s[i])
    ensures EscapeAll(s, '\'') == s
  {
    if |s| > 0 {
      EscapePlain(s[1..]);
      assert s == [s[0]] + s[1..];
    }
  }

  /** A plain string's `repr` is the string in single quotes. */
  lemma PlainRepr(s: string)
    requires forall i :: 0 <= i < |s| ==> PlainChar(s[i])
    ensures ReprStr(s) == "'" + s + "'"
  {
    assert forall i :: 0 <= i < |s| ==> s[i] != '\'';
    EscapePlain(s);
  }
}
