/**
 * Python's `str()` of a `bytes` object, which is what the client stores as the
 * device's reply: the letter b, a quote, the bytes with escapes, the same quote.
 * The rendering follows CPython's `bytes.__repr__`: the quote is `"` when the
 * bytes contain a `'` and no `"`, and `'` otherwise; the chosen quote and the
 * backslash are escaped with a backslash; tab, newline and carriage return are
 * written \t, \n, \r; any other byte below 0x20 or from 0x7f up is written
 * \xhh with lower-case hex digits; every other byte is its ASCII character.
 */
module PyBytes {
  import opened Wrappers

  newtype byte = x: int | 0 <= x < 256

  const Backslash: byte := 92
  const SingleQuote: byte := 39
  const DoubleQuote: byte := 34

  predicate IsQuote(q: char) {
    q == '\'' || q == '"'
  }

  /** The quote CPython puts around the rendering of `b`. */
  function Quote(b: seq<byte>): (q: char)
    ensures IsQuote(q)
    ensures q == '"' <==> SingleQuote in b && DoubleQuote !in b
  {
    if SingleQuote in b && DoubleQuote !in b then '"' else '\''
  }

  function HexDigit(d: int): (c: char)
    requires 0 <= d < 16
  {
    if d < 10 then ('0' as int + d) as char else ('a' as int + d - 10) as char
  }

  function HexValue(c: char): Option<int> {
    if '0' <= c <= '9' then Some(c as int - '0' as int)
    else if 'a' <= c <= 'f' then Some(c as int - 'a' as int + 10)
    else None
  }

  /** A byte that stands for itself inside quotes `q`. */
  predicate Printable(x: byte, q: char) {
    32 <= x < 127 && x != Backslash && x as int != q as int
  }

  /** The characters one byte becomes inside quotes `q`. */
  function EscapeByte(x: byte, q: char): (s: string)
    requires IsQuote(q)
  {
    if x as int == q as int || x == Backslash then ['\\', x as int as char]
    else if x == 9 then "\\t"
    else if x == 10 then "\\n"
    else if x == 13 then "\\r"
    else if x < 32 || x >= 127 then ['\\', 'x', HexDigit(x as int / 16), HexDigit(x as int % 16)]
    else [x as int as char]
  }

  function EscapeAll(b: seq<byte>, q: char): string
    requires IsQuote(q)
  {
    if b == [] then "" else EscapeByte(b[0], q) + EscapeAll(b[1..], q)
  }

  /** `str(b)` for a bytes object `b`. */
  function Repr(b: seq<byte>): (s: string)
    ensures |s| >= 3 && s[0] == 'b' && s[1] == Quote(b) && s[|s| - 1] == Quote(b)
  {
    var q := Quote(b);
    ['b', q] + EscapeAll(b, q) + [q]
  }

  function Prepend(x: byte, rest: Option<seq<byte>>): Option<seq<byte>> {
    match rest
    case Some(r) => Some([x] + r)
    case None => None
  }

  /** Reads back the text between the quotes `q` of a rendering. */
  function Unescape(s: string, q: char): Option<seq<byte>>
    decreases |s|
  {
    if s == [] then Some([])
    else if s[0] == '\\' then
      if |s| < 2 then None
      else if s[1] == '\\' || (IsQuote(q) && s[1] == q) then Prepend(s[1] as int as byte, Unescape(s[2..], q))
      else if s[1] == 't' then Prepend(9, Unescape(s[2..], q))
      else if s[1] == 'n' then Prepend(10, Unescape(s[2..], q))
      else if s[1] == 'r' then Prepend(13, Unescape(s[2..], q))
      else if s[1] == 'x' && |s| >= 4 && HexValue(s[2]).Some? && HexValue(s[3]).Some? then
        Prepend((HexValue(s[2]).value * 16 + HexValue(s[3]).value) as byte, Unescape(s[4..], q))
      else None
    else if ' ' <= s[0] <= '~' && s[0] != q then Prepend(s[0] as int as byte, Unescape(s[1..], q))
    else None
  }

  /** Reads back a whole rendering `b'...'` or `b"..."`. */
  function Unrepr(s: string): Option<seq<byte>> {
    if |s| >= 3 && s[0] == 'b' && IsQuote(s[1]) && s[|s| - 1] == s[1] then Unescape(s[2..|s| - 1], s[1])
    else None
  }

  /** Reading back the escape of one byte yields that byte, whatever follows. */
  lemma UnescapeByte(x: byte, q: char, rest: string)
    requires IsQuote(q)
    ensures Unescape(EscapeByte(x, q) + rest, q) == Prepend(x, Unescape(rest, q))
  {
  }

  lemma {:induction false} UnescapeEscapeAll(b: seq<byte>, q: char)
    requires IsQuote(q)
    ensures Unescape(EscapeAll(b, q), q) == Some(b)
  {
    if b != [] {
      assert EscapeAll(b, q) == EscapeByte(b[0], q) + EscapeAll(b[1..], q);
      UnescapeEscapeAll(b[1..], q);
      UnescapeByte(b[0], q, EscapeAll(b[1..], q));
      assert [b[0]] + b[1..] == b;
    }
  }

  /** `str()` of a bytes object loses nothing: the bytes can be read back. */
  lemma ReprRoundTrip(b: seq<byte>)
    ensures Unrepr(Repr(b)) == Some(b)
  {
    var q := Quote(b);
    var s := Repr(b);
    assert s[2..|s| - 1] == EscapeAll(b, q);
    UnescapeEscapeAll(b, q);
  }

  lemma ReprInjective(a: seq<byte>, b: seq<byte>)
    requires Repr(a) == Repr(b)
    ensures a == b
  {
    ReprRoundTrip(a);
    ReprRoundTrip(b);
  }

  /** Bytes every one of which is printed as itself between single quotes. */
  predicate AllPrintable(b: seq<byte>) {
    forall k :: 0 <= k < |b| ==> Printable(b[k], '\'')
  }

  lemma {:induction false} EscapeAllPrintable(b: seq<byte>)
    requires AllPrintable(b)
    ensures |EscapeAll(b, '\'')| == |b|
    ensures forall k :: 0 <= k < |b| ==> EscapeAll(b, '\'')[k] == b[k] as int as char
  {
    if b != [] {
      EscapeAllPrintable(b[1..]);
    }
  }

  /**
   * For printable bytes the rendering is b'...' around the bytes' own
   * characters: byte k of the payload is character k + 2 of the rendering.
   */
  lemma ReprOfPrintable(b: seq<byte>)
    requires AllPrintable(b)
    ensures |Repr(b)| == |b| + 3
    ensures Repr(b)[1] == '\'' && Repr(b)[|b| + 2] == '\''
    ensures forall k :: 0 <= k < |b| ==> Repr(b)[k + 2] == b[k] as int as char
  {
    assert SingleQuote !in b by {
      forall k | 0 <= k < |b| ensures b[k] != SingleQuote {
      }
    }
    EscapeAllPrintable(b);
  }
}
