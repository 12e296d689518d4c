/**
  The text of the server-sent events pushed to viewers.

  Every event is one `data:` line holding a JSON object, closed by a blank line:
  `data: {"dynamicString":<quoted text>}\n\n` for a text update and
  `data: {"type":"connected"}\n\n` for the greeting sent on connect.
  JSON quoting of a string follows QuoteJSONString of ECMA-262 (section 25.5.2.3,
  the algorithm behind JSON.stringify); a Dafny `char` is a Unicode scalar value,
  so the lone-surrogate case of that algorithm cannot arise here.
  The parsers are the inverse a client would apply; the round-trip lemmas show
  that the framing loses nothing and that distinct texts give distinct events.
*/
module EventFormat {
  import opened Wrappers

  // ---------------------------------------------------------------- hex digits

  /** Lower-case hexadecimal digit, as UnicodeEscape writes it. */
  function HexDigit(d: nat): (c: char)
    requires d < 16
    ensures '0' <= c <= '9' || 'a' <= c <= 'f'
  {
    if d < 10 then ('0' as int + d) as char else ('a' as int + d - 10) as char
  }

  /** The value of a hexadecimal digit of either case. */
  function HexValue(c: char): (r: Option<nat>)
    ensures r.Some? ==> r.value < 16
    ensures r.Some? <==> ('0' <= c <= '9' || 'a' <= c <= 'f' || 'A' <= c <= 'F')
  {
    if '0' <= c <= '9' then Some(c as int - '0' as int)
    else if 'a' <= c <= 'f' then Some(c as int - 'a' as int + 10)
    else if 'A' <= c <= 'F' then Some(c as int - 'A' as int + 10)
    else None
  }

  lemma HexValueOfDigit(d: nat)
    requires d < 16
    ensures HexValue(HexDigit(d)) == Some(d)
  {
  }

  /** The value of four hexadecimal digits, as in a `\uXXXX` escape. */
  function HexQuad(s: string): (r: Option<nat>)
    requires |s| == 4
    ensures r.Some? ==> r.value < 0x1_0000
  {
    match (HexValue(s[0]), HexValue(s[1]), HexValue(s[2]), HexValue(s[3]))
    case (Some(a), Some(b), Some(c), Some(d)) => Some(((a * 16 + b) * 16 + c) * 16 + d)
    case _ => None
  }

  /** Code points a `char` can hold: everything below 0x110000 except surrogates. */
  predicate IsScalar(v: nat)
  {
    v < 0xD800 || 0xE000 <= v < 0x11_0000
  }

  // ---------------------------------------------------------------- quoting

  /** The JSON text of one character inside a string literal. */
  function EscapeChar(c: char): string
  {
    if c == '"' then "\\\""
    else if c == '\\' then "\\\\"
    else if c as int == 0x08 then "\\b"
    else if c as int == 0x0C then "\\f"
    else if c == '\n' then "\\n"
    else if c == '\r' then "\\r"
    else if c == '\t' then "\\t"
    else if c < ' ' then "\\u00" + [HexDigit(c as int / 16), HexDigit(c as int % 16)]
    else [c]
  }

  function Escape(s: string): string
  {
    if s == [] then [] else EscapeChar(s[0]) + Escape(s[1..])
  }

  /** JSON.stringify of a string value. */
  function Quote(s: string): string
  {
    "\"" + Escape(s) + "\""
  }

  // ---------------------------------------------------------------- unquoting

  function Prepend(c: char, r: Option<string>): Option<string>
  {
    match r
    case None => None
    case Some(t) => Some([c] + t)
  }

  /** The character a two-character escape `\x` stands for. */
  function ShortEscape(c: char): Option<char>
  {
    if c == '"' then Some('"')
    else if c == '\\' then Some('\\')
    else if c == '/' then Some('/')
    else if c == 'b' then Some(0x08 as char)
    else if c == 'f' then Some(0x0C as char)
    else if c == 'n' then Some('\n')
    else if c == 'r' then Some('\r')
    else if c == 't' then Some('\t')
    else None
  }

  /**
    The characters denoted by the body of a JSON string literal, or None when the
    body is not well formed (a bare quote, a raw control character, a bad escape).
  */
  function Unescape(s: string): Option<string>
    decreases |s|
  {
    if s == [] then Some([])
    else if s[0] == '\\' then
      if |s| >= 2 && ShortEscape(s[1]).Some? then
        Prepend(ShortEscape(s[1]).value, Unescape(s[2..]))
      else if |s| >= 6 && s[1] == 'u' && HexQuad(s[2..6]).Some? && IsScalar(HexQuad(s[2..6]).value) then
        Prepend(HexQuad(s[2..6]).value as char, Unescape(s[6..]))
      else None
    else if s[0] == '"' || s[0] < ' ' then None
    else Prepend(s[0], Unescape(s[1..]))
  }

  /** JSON.parse of a string literal. */
  function Unquote(q: string): Option<string>
  {
    if |q| >= 2 && q[0] == '"' && q[|q| - 1] == '"' then Unescape(q[1..|q| - 1]) else None
  }

  lemma UnescapeEscapeChar(c: char, rest: string)
    ensures Unescape(EscapeChar(c) + rest) == Prepend(c, Unescape(rest))
  {
    var s := EscapeChar(c) + rest;
    if c == '"' || c == '\\' || c as int == 0x08 || c as int == 0x0C || c == '\n' || c == '\r' || c == '\t' {
      assert s[2..] == rest;
    } else if c < ' ' {
      var hi, lo := c as int / 16, c as int % 16;
      HexValueOfDigit(hi);
      HexValueOfDigit(lo);
      HexValueOfDigit(0);
      assert s[2..6] == [HexDigit(0), HexDigit(0), HexDigit(hi), HexDigit(lo)];
      assert HexQuad(s[2..6]) == Some(c as int);
      assert s[6..] == rest;
    } else {
      assert s[1..] == rest;
    }
  }

  lemma {:induction false} UnescapeEscape(s: string)
    ensures Unescape(Escape(s)) == Some(s)
  {
    if s != [] {
      UnescapeEscape(s[1..]);
      UnescapeEscapeChar(s[0], Escape(s[1..]));
      assert [s[0]] + s[1..] == s;
    }
  }

  /** Quoting is undone by unquoting: JSON.parse(JSON.stringify(s)) == s. */
  lemma UnquoteQuote(s: string)
    ensures Unquote(Quote(s)) == Some(s)
  {
    var q := Quote(s);
    assert q[1..|q| - 1] == Escape(s);
    UnescapeEscape(s);
  }

  lemma {:induction false} EscapeHasNoLineBreak(s: string)
    ensures NoLineBreak(Escape(s))
  {
    if s != [] {
      EscapeHasNoLineBreak(s[1..]);
      assert NoLineBreak(EscapeChar(s[0]));
      NoLineBreakConcat(EscapeChar(s[0]), Escape(s[1..]));
    }
  }

  // ---------------------------------------------------------------- events

  /** The JSON object `{dynamicString: text}` as JSON.stringify writes it. */
  function DynamicStringPayload(text: string): string
  {
    "{\"dynamicString\":" + Quote(text) + "}"
  }

  const PayloadPrefix: string := "{\"dynamicString\":"

  /** The text inside a `{"dynamicString":...}` object, if it is one. */
  function ParseDynamicString(p: string): Option<string>
  {
    if |p| >= |PayloadPrefix| + 1 && p[..|PayloadPrefix|] == PayloadPrefix && p[|p| - 1] == '}'
    then Unquote(p[|PayloadPrefix|..|p| - 1])
    else None
  }

  /** One server-sent event: a `data:` line and the blank line that ends it. */
  function Frame(payload: string): string
  {
    "data: " + payload + "\n\n"
  }

  /** The payload of an event, if the text is one framed event. */
  function ParseFrame(m: string): Option<string>
  {
    if |m| >= 8 && m[..6] == "data: " && m[|m| - 2..] == "\n\n" then Some(m[6..|m| - 2]) else None
  }

  /** The update event every viewer receives when the text changes. */
  function UpdateMessage(text: string): string
  {
    Frame(DynamicStringPayload(text))
  }

  /** The greeting pushed first on every new connection. */
  const ConnectedMessage: string := Frame("{\"type\":\"connected\"}")

  /** What a viewer extracts from an event: the new text, or None if it is not an update. */
  function ParseUpdate(m: string): Option<string>
  {
    match ParseFrame(m)
    case None => None
    case Some(p) => ParseDynamicString(p)
  }

  /** A viewer recovers exactly the published text from the update event. */
  lemma ParseUpdateRoundTrip(text: string)
    ensures ParseUpdate(UpdateMessage(text)) == Some(text)
  {
    var p := DynamicStringPayload(text);
    var m := Frame(p);
    assert m[..6] == "data: " && m[|m| - 2..] == "\n\n";
    assert m[6..|m| - 2] == p;
    assert p[..|PayloadPrefix|] == PayloadPrefix;
    assert p[|PayloadPrefix|..|p| - 1] == Quote(text);
    UnquoteQuote(text);
  }

  /** Distinct texts give distinct update events. */
  lemma UpdateMessageInjective(a: string, b: string)
    ensures UpdateMessage(a) == UpdateMessage(b) <==> a == b
  {
    ParseUpdateRoundTrip(a);
    ParseUpdateRoundTrip(b);
  }

  /** The greeting is never mistaken for a text update. */
  lemma ConnectedIsNotUpdate(text: string)
    ensures ParseUpdate(ConnectedMessage) == None
    ensures ConnectedMessage != UpdateMessage(text)
  {
    var m := ConnectedMessage;
    assert m[6..|m| - 2] == "{\"type\":\"connected\"}";
    ParseUpdateRoundTrip(text);
  }

  /** No raw line feed or carriage return: the text stays on one line of the event stream. */
  predicate NoLineBreak(s: string)
  {
    forall i :: 0 <= i < |s| ==> s[i] != '\n' && s[i] != '\r'
  }

  lemma NoLineBreakConcat(a: string, b: string)
    requires NoLineBreak(a) && NoLineBreak(b)
    ensures NoLineBreak(a + b)
  {
    forall i | 0 <= i < |a + b|
      ensures (a + b)[i] != '\n' && (a + b)[i] != '\r'
    {
      if i >= |a| {
        assert (a + b)[i] == b[i - |a|];
      }
    }
  }

  /**
    An update event is a single `data:` line followed by a blank line: quoting
    leaves no raw line break in the payload, so an event-stream client reads it
    as exactly one event.
  */
  lemma UpdatePayloadIsOneLine(text: string)
    ensures NoLineBreak(DynamicStringPayload(text))
  {
    EscapeHasNoLineBreak(text);
    var pre, e, post := "{\"dynamicString\":\"", Escape(text), "\"}";
    assert NoLineBreak(e);
    assert NoLineBreak(pre) && NoLineBreak(post);
    NoLineBreakConcat(pre, e);
    NoLineBreakConcat(pre + e, post);
    assert DynamicStringPayload(text) == pre + e + post;
  }
}
