/**
 * Python's `repr` of a string, which `str()` of a list uses for its string
 * items: the quote it picks, the escapes it writes, and a reader for the
 * literal it produces. Characters up to U+00FF are treated exactly; every
 * character above is taken to be printable.
 */
module StrRepr {
  import opened Options

  /** The quote `repr` puts around `s`: `"` when `s` holds a `'` and no `"`, otherwise `'`. */
  function Quote(s: string): (q: char)
    ensures q == '\'' || q == '"'
    ensures q == '"' <==> '\'' in s && '"' !in s
  {
    if '\'' in s && '"' !in s then '"' else '\''
  }

  /** The characters up to U+00FF that `repr` writes as `\xhh`: controls other than tab, newline and return, U+007F to U+00A0, and the soft hyphen. */
  predicate HexEscaped(c: char) {
    (c < ' ' && c != '\t' && c != '\n' && c != '\r') || ('\U{7F}' <= c <= '\U{A0}') || c == '\U{AD}'
  }

  /** A lower-case hexadecimal digit. */
  function HexDigit(d: nat): (c: char)
    requires d < 16
  {
    if d < 10 then ('0' as int + d) as char else ('a' as int + d - 10) as char
  }

  /** The value of a hexadecimal digit, either case. */
  function HexValue(c: char): (r: Option<nat>)
    ensures r.Some? ==> r.value < 16
  {
    if '0' <= c <= '9' then Some(c as int - '0' as int)
    else if 'a' <= c <= 'f' then Some(c as int - 'a' as int + 10)
    else if 'A' <= c <= 'F' then Some(c as int - 'A' as int + 10)
    else None
  }

  /** How `repr` writes one character inside quotes `q`. */
  function EscapeChar(c: char, q: char): (r: string)
    ensures r != []
    ensures r[0] == '\\' <==> c == '\\' || c == q || c == '\t' || c == '\n' || c == '\r' || HexEscaped(c)
  {
    if c == '\\' || c == q then ['\\', c]
    else if c == '\t' then "\\t"
    else if c == '\n' then "\\n"
    else if c == '\r' then "\\r"
    else if HexEscaped(c) then ['\\', 'x', HexDigit(c as int / 16), HexDigit(c as int % 16)]
    else [c]
  }

  /** The characters of `s`, each as `repr` writes it inside quotes `q`. */
  function Escaped(s: string, q: char): (r: string)
    ensures |r| >= |s|
  {
    if s == [] then [] else EscapeChar(s[0], q) + Escaped(s[1..], q)
  }

  /** Python's `repr(s)`. */
  function Repr(s: string): (r: string)
    ensures |r| >= |s| + 2
    ensures r[0] == r[|r| - 1] == Quote(s)
  {
    var q := Quote(s);
    [q] + Escaped(s, q) + [q]
  }

  function Prepend(c: char, rest: Option<string>): Option<string> {
    match rest
    case Some(t) => Some([c] + t)
    case None => None
  }

  /**
   * Reads the inside of a Python string literal that uses only the escapes
   * `repr` writes: `\t`, `\n`, `\r`, `\xhh`, and a backslash before any
   * other character standing for that character. `None` for a lone
   * backslash at the end or a malformed `\x`.
   */
  function Unescape(b: string): Option<string>
    decreases |b|
  {
    if b == [] then Some([])
    else if b[0] != '\\' then Prepend(b[0], Unescape(b[1..]))
    else if |b| < 2 then None
    else if b[1] == 't' then Prepend('\t', Unescape(b[2..]))
    else if b[1] == 'n' then Prepend('\n', Unescape(b[2..]))
    else if b[1] == 'r' then Prepend('\r', Unescape(b[2..]))
    else if b[1] == 'x' then
      if |b| < 4 then None
      else
        match (HexValue(b[2]), HexValue(b[3]))
        case (Some(h), Some(l)) => Prepend((16 * h + l) as char, Unescape(b[4..]))
        case _ => None
    else Prepend(b[1], Unescape(b[2..]))
  }

  lemma HexDigitValue(d: nat)
    requires d < 16
    ensures HexValue(HexDigit(d)) == Some(d)
  {
  }

  /** Reading back one written character, then the rest. */
  lemma UnescapeEscapeChar(c: char, q: char, rest: string)
    requires q == '\'' || q == '"'
    ensures Unescape(EscapeChar(c, q) + rest) == Prepend(c, Unescape(rest))
  {
    var e := EscapeChar(c, q);
    if HexEscaped(c) && c != '\\' && c != q && c != '\t' && c != '\n' && c != '\r' {
      var h := c as int / 16;
      var l := c as int % 16;
      HexDigitValue(h);
      HexDigitValue(l);
      assert (e + rest)[..4] == e && (e + rest)[4..] == rest;
      assert (16 * h + l) as char == c;
    } else if |e| == 2 {
      assert (e + rest)[2..] == rest;
    } else {
      assert (e + rest)[1..] == rest;
    }
  }

  lemma {:induction false} UnescapeEscaped(s: string, q: char)
    requires q == '\'' || q == '"'
    ensures Unescape(Escaped(s, q)) == Some(s)
  {
    if s != [] {
      var rest := Escaped(s[1..], q);
      assert Escaped(s, q) == EscapeChar(s[0], q) + rest;
      UnescapeEscaped(s[1..], q);
      UnescapeEscapeChar(s[0], q, rest);
      assert [s[0]] + s[1..] == s;
    }
  }

  /** Reading the literal `repr` writes gives the string back: the quotes are outermost and the inside reads as `s`. */
  lemma ReprRoundTrip(s: string)
    ensures var r := Repr(s);
      Unescape(r[1..|r| - 1]) == Some(s)
  {
    var q := Quote(s);
    var r := Repr(s);
    assert r[1..|r| - 1] == Escaped(s, q);
    UnescapeEscaped(s, q);
  }

  /** A string with no quote, backslash or character needing an escape is written as itself in single quotes. */
  lemma {:induction false} ReprPlain(s: string)
    requires '\'' !in s && '\\' !in s
    requires forall i :: 0 <= i < |s| ==> s[i] != '\t' && s[i] != '\n' && s[i] != '\r' && !HexEscaped(s[i])
    ensures Repr(s) == "'" + s + "'"
  {
    PlainEscaped(s, '\'');
  }

  lemma {:induction false} PlainEscaped(s: string, q: char)
    requires q !in s && '\\' !in s
    requires forall i :: 0 <= i < |s| ==> s[i] != '\t' && s[i] != '\n' && s[i] != '\r' && !HexEscaped(s[i])
    ensures Escaped(s, q) == s
  {
    if s != [] {
      assert s[0] != q && s[0] != '\\';
      forall i | 0 <= i < |s[1..]|
        ensures s[1..][i] != '\t' && s[1..][i] != '\n' && s[1..][i] != '\r' && !HexEscaped(s[1..][i])
      {
        assert s[1..][i] == s[i + 1];
      }
      assert q !in s[1..] && '\\' !in s[1..] by {
        assert forall c :: c in s[1..] ==> c in s;
      }
      PlainEscaped(s[1..], q);
      assert [s[0]] + s[1..] == s;
    }
  }

  /** A string holding `'` and no `"` is put in double quotes, the `'` unescaped; a backslash is doubled. */
  lemma ReprExamples()
    ensures Repr("it's") == "\"it's\""
    ensures Repr("a\\b") == "'a\\\\b'"
  {
    assert '\'' in "it's";
    assert Escaped("s", '"') == "s";
    assert Escaped("'s", '"') == "'s";
    assert Escaped("t's", '"') == "t's";
    assert Escaped("b", '\'') == "b";
    assert Escaped("\\b", '\'') == "\\\\b";
  }
}
