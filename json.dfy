/**
  The part of ECMAScript's `JSON.stringify` that both scripts rely on: quoting a
  string (section 25.5.2.3 QuoteJSONString of ECMA-262) and writing an object
  whose members are already serialised, in insertion order. `Unescape` reads
  the body of a JSON string literal back, and `UnescapeEscape` proves that
  quoting loses nothing.
 */
module Json {
  import opened Wrappers

  /** Lower-case hexadecimal digit, as QuoteJSONString's UnicodeEscape writes it. */
  function HexDigit(n: nat): (c: char)
    requires n < 16
  {
    if n < 10 then ('0' as int + n) as char else ('a' as int + n - 10) as char
  }

  /** Value of a hexadecimal digit of either case. */
  function HexValue(c: char): (v: Option<nat>)
  {
    if '0' <= c <= '9' then Some(c as int - '0' as int)
    else if 'a' <= c <= 'f' then Some(c as int - 'a' as int + 10)
    else if 'A' <= c <= 'F' then Some(c as int - 'A' as int + 10)
    else None
  }

  lemma HexValueOfDigit(n: nat)
    requires n < 16
    ensures HexValue(HexDigit(n)) == Some(n)
  {
  }

  /** The escape JSON.stringify writes for one code point. */
  function EscapeChar(c: char): (e: string)
    ensures 1 <= |e| <= 6
  {
    if c == '"' then ['\\', '"']
    else if c == '\\' then ['\\', '\\']
    else if c as int == 8 then ['\\', 'b']
    else if c == '\t' then ['\\', 't']
    else if c == '\n' then ['\\', 'n']
    else if c as int == 12 then ['\\', 'f']
    else if c == '\r' then ['\\', 'r']
    else if (c as int) < 0x20 then ['\\', 'u', '0', '0', HexDigit(c as int / 16), HexDigit(c as int % 16)]
    else [c]
  }

  /** The body of the string literal JSON.stringify writes for `s`. */
  function Escape(s: string): (body: string)
  {
    if s == [] then [] else EscapeChar(s[0]) + Escape(s[1..])
  }

  /** The string literal JSON.stringify writes for `s`, quotes included. */
  function Quote(s: string): (q: string)
    ensures |q| >= 2 && q[0] == '"' && q[|q| - 1] == '"'
  {
    "\"" + Escape(s) + "\""
  }

  /** The character a two-character escape `\e` stands for. */
  function ShortEscape(e: char): (decoded: Option<char>)
  {
    if e == '"' then Some('"')
    else if e == '\\' then Some('\\')
    else if e == '/' then Some('/')
    else if e == 'b' then Some(8 as char)
    else if e == 'f' then Some(12 as char)
    else if e == 'n' then Some('\n')
    else if e == 'r' then Some('\r')
    else if e == 't' then Some('\t')
    else None
  }

  /** The number four hexadecimal digits spell. */
  function HexQuad(d: string): (n: Option<nat>)
    requires |d| == 4
  {
    match (HexValue(d[0]), HexValue(d[1]), HexValue(d[2]), HexValue(d[3]))
    case (Some(a), Some(b), Some(c), Some(e)) => Some(((a * 16 + b) * 16 + c) * 16 + e)
    case _ => None
  }

  function Prepend(c: char, r: Option<string>): (res: Option<string>)
  {
    match r
    case Some(t) => Some([c] + t)
    case None => None
  }

  /**
    Reads the body of a JSON string literal; None when it is malformed (an
    unescaped quote or control character, an unknown escape, a surrogate).
   */
  function Unescape(t: string): (decoded: Option<string>)
    decreases |t|
  {
    if t == [] then Some([])
    else if t[0] != '\\' then
      if t[0] == '"' || (t[0] as int) < 0x20 then None else Prepend(t[0], Unescape(t[1..]))
    else if |t| < 2 then None
    else if t[1] == 'u' then
      if |t| < 6 then None
      else
        match HexQuad(t[2..6])
        case Some(n) =>
          if n < 0xD800 || 0xE000 <= n < 0x11_0000 then Prepend(n as char, Unescape(t[6..])) else None
        case None => None
    else
      match ShortEscape(t[1])
      case Some(c) => Prepend(c, Unescape(t[2..]))
      case None => None
  }

  lemma UnescapeEscapeChar(c: char, rest: string)
    ensures Unescape(EscapeChar(c) + rest) == Prepend(c, Unescape(rest))
  {
    var t := EscapeChar(c) + rest;
    if |EscapeChar(c)| == 1 {
      assert t[1..] == rest;
    } else if |EscapeChar(c)| == 2 {
      assert t[2..] == rest;
      if c as int == 8 {
        assert 8 as char == c;
      } else if c as int == 12 {
        assert 12 as char == c;
      }
    } else {
      var hi, lo := c as int / 16, c as int % 16;
      HexValueOfDigit(hi);
      HexValueOfDigit(lo);
      assert t[2..6] == ['0', '0', HexDigit(hi), HexDigit(lo)];
      assert HexQuad(t[2..6]) == Some(c as int);
      assert t[6..] == rest;
    }
  }

  /** Quoting is lossless: the literal's body reads back as the original string. */
  lemma {:induction false} UnescapeEscape(s: string)
    ensures Unescape(Escape(s)) == Some(s)
  {
    if s != [] {
      UnescapeEscape(s[1..]);
      UnescapeEscapeChar(s[0], Escape(s[1..]));
      assert [s[0]] + s[1..] == s;
    }
  }

  /** An object member `"key":value`, where `value` is already JSON text. */
  function Member(key: string, value: string): (text: string)
  {
    Quote(key) + ":" + value
  }

  function Members(entries: seq<(string, string)>): (text: string)
  {
    if |entries| == 0 then ""
    else if |entries| == 1 then Member(entries[0].0, entries[0].1)
    else Member(entries[0].0, entries[0].1) + "," + Members(entries[1..])
  }

  /** JSON.stringify of an object whose properties, in insertion order, are `entries`. */
  function ObjectText(entries: seq<(string, string)>): (t: string)
    ensures |t| >= 2 && t[0] == '{' && t[|t| - 1] == '}'
  {
    "{" + Members(entries) + "}"
  }

  /** Appending a property appends its member text before the closing brace. */
  lemma {:induction false} MembersAppend(entries: seq<(string, string)>, key: string, value: string)
    requires |entries| >= 1
    ensures Members(entries + [(key, value)]) == Members(entries) + "," + Member(key, value)
  {
    var e := entries + [(key, value)];
    var last := Member(key, value);
    if |entries| > 1 {
      var first := Member(entries[0].0, entries[0].1);
      assert e[0] == entries[0];
      assert e[1..] == entries[1..] + [(key, value)];
      MembersAppend(entries[1..], key, value);
      assert Members(e) == first + "," + (Members(entries[1..]) + "," + last);
      JoinAssoc(first, Members(entries[1..]), last);
    } else {
      assert e == [entries[0], (key, value)];
      assert e[1..] == [(key, value)];
    }
  }

  lemma JoinAssoc(a: string, b: string, c: string)
    ensures a + "," + (b + "," + c) == (a + "," + b) + "," + c
  {
  }
}
