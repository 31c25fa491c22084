/**
 * The JSON text that Go's `encoding/json.Marshal` writes for a `[]string`,
 * as beater/rsbeat.go stores it in the `args` field of an event, together
 * with a reference decoder for that text. Every string becomes a quoted
 * literal; `"` and `\` get a backslash, newline, carriage return and tab
 * get their short escapes, the other control characters and the
 * HTML-sensitive `<`, `>` and `&` become `\u00XX` (lower-case hex), and
 * U+2028 and U+2029 become `\u2028` and `\u2029`.
 */
module Json {
  import opened Wrappers

  const HexDigits: string := "0123456789abcdef"

  /** The escape sequence (or the character itself) written for `c`. */
  function EscapeChar(c: char): (e: string)
    ensures |e| >= 1
    ensures e[0] == '\\' <==> (c == '"' || c == '\\' || c < ' ' || c == '<' || c == '>' || c == '&'
                               || c as int == 0x2028 || c as int == 0x2029)
  {
    if c == '"' || c == '\\' then ['\\', c]
    else if c == '\n' then "\\n"
    else if c == '\r' then "\\r"
    else if c == '\t' then "\\t"
    else if c < ' ' || c == '<' || c == '>' || c == '&' then
      "\\u00" + [HexDigits[c as int / 16], HexDigits[c as int % 16]]
    else if c as int == 0x2028 || c as int == 0x2029 then
      "\\u202" + [HexDigits[c as int % 16]]
    else [c]
  }

  function Escape(s: string): string
  {
    if s == [] then [] else EscapeChar(s[0]) + Escape(s[1..])
  }

  /** A JSON string literal for `s`. */
  function Quote(s: string): string
  {
    "\"" + Escape(s) + "\""
  }

  function EncodeItems(items: seq<string>): string
    decreases |items|
  {
    if items == [] then ""
    else if |items| == 1 then Quote(items[0])
    else Quote(items[0]) + "," + EncodeItems(items[1..])
  }

  /** `json.Marshal` of a non-nil `[]string`. */
  function EncodeArray(items: seq<string>): string
  {
    "[" + EncodeItems(items) + "]"
  }

  // ----- reference decoder -----

  function HexValue(d: char): Option<nat>
  {
    if '0' <= d <= '9' then Some(d as int - '0' as int)
    else if 'a' <= d <= 'f' then Some(d as int - 'a' as int + 10)
    else if 'A' <= d <= 'F' then Some(d as int - 'A' as int + 10)
    else None
  }

  /** The character of a `\uXXXX` escape, if the four digits name one. */
  function HexChar(h: string): (r: Option<char>)
    requires |h| == 4
  {
    match (HexValue(h[0]), HexValue(h[1]), HexValue(h[2]), HexValue(h[3]))
    case (Some(a), Some(b), Some(c), Some(d)) =>
      var code := ((a * 16 + b) * 16 + c) * 16 + d;
      if code < 0xD800 || 0xE000 <= code < 0x11_0000 then Some(code as char) else None
    case _ => None
  }

  /**
   * Decodes what follows a backslash: the character it stands for and the
   * text after the escape.
   */
  function DecodeEscape(t: string): (r: Option<(char, string)>)
    ensures r.Some? ==> |r.value.1| < |t|
  {
    if t == [] then None
    else if t[0] == '"' || t[0] == '\\' || t[0] == '/' then Some((t[0], t[1..]))
    else if t[0] == 'n' then Some(('\n', t[1..]))
    else if t[0] == 'r' then Some(('\r', t[1..]))
    else if t[0] == 't' then Some(('\t', t[1..]))
    else if t[0] == 'u' && |t| >= 5 then
      match HexChar(t[1..5])
      case Some(c) => Some((c, t[5..]))
      case None => None
    else None
  }

  /**
   * Decodes the body of a string literal up to and including its closing
   * quote: the string it denotes and the text after the quote.
   */
  function DecodeBody(t: string): (r: Option<(string, string)>)
    ensures r.Some? ==> |r.value.1| < |t|
    decreases |t|
  {
    if t == [] then None
    else if t[0] == '"' then Some(("", t[1..]))
    else if t[0] < ' ' then None
    else if t[0] == '\\' then
      match DecodeEscape(t[1..])
      case None => None
      case Some((c, rest)) =>
        match DecodeBody(rest)
        case None => None
        case Some((s, after)) => Some(([c] + s, after))
    else
      match DecodeBody(t[1..])
      case None => None
      case Some((s, after)) => Some(([t[0]] + s, after))
  }

  /** Decodes `"..."` followed by `,` and more items, or by the final `]`. */
  function DecodeItems(t: string): Option<seq<string>>
    decreases |t|
  {
    if t == [] || t[0] != '"' then None
    else
      match DecodeBody(t[1..])
      case None => None
      case Some((s, after)) =>
        if after == "]" then Some([s])
        else if after != [] && after[0] == ',' then
          match DecodeItems(after[1..])
          case None => None
          case Some(more) => Some([s] + more)
        else None
  }

  /** Decodes a JSON array of strings written without white space. */
  function DecodeArray(t: string): Option<seq<string>>
  {
    if t == "[]" then Some([])
    else if t != [] && t[0] == '[' then DecodeItems(t[1..])
    else None
  }

  // ----- round trip -----

  lemma HexDigitValue(i: nat)
    requires i < 16
    ensures HexValue(HexDigits[i]) == Some(i)
  {
  }

  lemma EscapeCharDecodes(c: char, rest: string)
    requires EscapeChar(c)[0] == '\\'
    ensures DecodeEscape(EscapeChar(c)[1..] + rest) == Some((c, rest))
  {
    if c == '"' || c == '\\' || c == '\n' || c == '\r' || c == '\t' {
      var t := EscapeChar(c)[1..] + rest;
      assert t[0] == EscapeChar(c)[1] && t[1..] == rest;
    } else if c < ' ' || c == '<' || c == '>' || c == '&' {
      HexEscapeDecodes(c, rest);
    } else {
      LineSeparatorDecodes(c, rest);
    }
  }

  lemma HexEscapeDecodes(c: char, rest: string)
    requires c < ' ' || c == '<' || c == '>' || c == '&'
    requires c != '\n' && c != '\r' && c != '\t'
    ensures DecodeEscape(EscapeChar(c)[1..] + rest) == Some((c, rest))
  {
    var hi, lo := c as int / 16, c as int % 16;
    var t := EscapeChar(c)[1..] + rest;
    assert t == ['u', '0', '0', HexDigits[hi], HexDigits[lo]] + rest;
    HexDigitValue(hi);
    HexDigitValue(lo);
    HexDigitValue(0);
    assert t[1..5] == ['0', '0', HexDigits[hi], HexDigits[lo]];
    assert HexChar(t[1..5]) == Some(c);
  }

  lemma LineSeparatorDecodes(c: char, rest: string)
    requires c as int == 0x2028 || c as int == 0x2029
    ensures DecodeEscape(EscapeChar(c)[1..] + rest) == Some((c, rest))
  {
    var lo := c as int - 0x2020;
    assert EscapeChar(c) == "\\u202" + [HexDigits[lo]];
    LineSeparatorEscape(lo, rest);
  }

  lemma LineSeparatorEscape(lo: int, rest: string)
    requires lo == 8 || lo == 9
    ensures DecodeEscape("u202" + [HexDigits[lo]] + rest) == Some(((0x2020 + lo) as char, rest))
  {
    var t := "u202" + [HexDigits[lo]] + rest;
    assert t[1..5] == ['2', '0', '2', HexDigits[lo]];
    assert t[5..] == rest;
    HexDigitValue(lo);
    assert HexValue('2') == Some(2) && HexValue('0') == Some(0);
  }

  /** Decoding the text written for `c` yields `c` and goes on with what follows. */
  lemma DecodeBodyAfterChar(c: char, tail: string)
    ensures DecodeBody(EscapeChar(c) + tail)
         == match DecodeBody(tail)
            case None => None
            case Some((x, after)) => Some(([c] + x, after))
  {
    var e := EscapeChar(c);
    var t := e + tail;
    if e[0] == '\\' {
      EscapeCharDecodes(c, tail);
      assert t[1..] == e[1..] + tail;
    } else {
      assert e == [c];
      assert t[1..] == tail;
    }
  }

  lemma {:induction false} BodyRoundTrip(s: string, rest: string)
    ensures DecodeBody(Escape(s) + "\"" + rest) == Some((s, rest))
  {
    if s == [] {
      assert Escape(s) + "\"" + rest == "\"" + rest;
    } else {
      var tail := Escape(s[1..]) + "\"" + rest;
      assert Escape(s) + "\"" + rest == EscapeChar(s[0]) + tail;
      BodyRoundTrip(s[1..], rest);
      DecodeBodyAfterChar(s[0], tail);
      assert [s[0]] + s[1..] == s;
    }
  }

  lemma LastItem(s: string)
    ensures DecodeItems(Quote(s) + "]") == Some([s])
  {
    var t := Quote(s) + "]";
    BodyRoundTrip(s, "]");
    assert t[1..] == Escape(s) + "\"" + "]";
  }

  lemma NextItem(s: string, more: string, rest: seq<string>)
    requires DecodeItems(more) == Some(rest)
    ensures DecodeItems(Quote(s) + "," + more) == Some([s] + rest)
  {
    var t := Quote(s) + "," + more;
    BodyRoundTrip(s, "," + more);
    assert t[1..] == Escape(s) + "\"" + ("," + more);
    assert ("," + more)[1..] == more;
  }

  lemma {:induction false} ItemsRoundTrip(items: seq<string>)
    requires items != []
    ensures DecodeItems(EncodeItems(items) + "]") == Some(items)
    decreases |items|
  {
    if |items| == 1 {
      LastItem(items[0]);
      assert items == [items[0]];
    } else {
      ItemsRoundTrip(items[1..]);
      NextItem(items[0], EncodeItems(items[1..]) + "]", items[1..]);
      assert EncodeItems(items) + "]" == Quote(items[0]) + "," + (EncodeItems(items[1..]) + "]");
      assert [items[0]] + items[1..] == items;
    }
  }

  /**
   * Decoding the encoded array gives back the same strings, in the same
   * order and the same number.
   */
  lemma {:induction false} ArrayRoundTrip(items: seq<string>)
    ensures DecodeArray(EncodeArray(items)) == Some(items)
  {
    if items == [] {
      assert EncodeArray(items) == "[]";
    } else {
      ItemsRoundTrip(items);
      var t := EncodeArray(items);
      assert t[1..] == EncodeItems(items) + "]";
      assert t != "[]" by {
        assert t[1] == '"';
      }
    }
  }
}
