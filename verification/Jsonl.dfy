/**
 Escaping terminal controls in a line of JSON that is already serialized. The
 decoder follows sections 7 and 8 of RFC 8259; a decoded string is its sequence
 of UTF-16 code units.
 */
module Jsonl {
  import opened TerminalText
  import opened Wrappers

  // ---------------------------------------------------------------- the escaper

  /** Characters a terminal may act on, other than the ones JSON itself escapes. */
  predicate RequiresEscape(c: char) {
    (IsControl(c) && Code(c) >= 0x7f) || IsBidiControl(c) || IsLineSeparator(c)
  }

  function Hex4(n: nat): (s: string)
    requires n < 0x1_0000
    ensures |s| == 4 && forall k | 0 <= k < 4 :: IsHex(s[k]) && !RequiresEscape(s[k])
  {
    [HexDigit(n / 16 / 16 / 16), HexDigit(n / 16 / 16 % 16), HexDigit(n / 16 % 16), HexDigit(n % 16)]
  }

  function EscapeUnit(c: char): string {
    if RequiresEscape(c) then "\\u" + Hex4(Code(c)) else [c]
  }

  function Escaped(json: string): string {
    if json == [] then [] else EscapeUnit(json[0]) + Escaped(json[1..])
  }

  lemma {:induction false} EscapedAppend(a: string, b: string)
    ensures Escaped(a + b) == Escaped(a) + Escaped(b)
  {
    if a == [] {
      assert a + b == b;
    } else {
      assert (a + b)[1..] == a[1..] + b;
      EscapedAppend(a[1..], b);
    }
  }

  lemma {:induction false} EscapedUntouched(json: string)
    requires forall k | 0 <= k < |json| :: !RequiresEscape(json[k])
    ensures Escaped(json) == json
  {
    if json != [] {
      EscapedUntouched(json[1..]);
    }
  }

  /** Escape in one pass, or hand the text back untouched when nothing needs it. */
  method EscapeTerminalControls(json: string) returns (escaped: string)
    ensures escaped == Escaped(json)
  {
    var any := false;
    var k := 0;
    while k < |json|
      invariant k <= |json| && (any <==> exists j :: 0 <= j < k && RequiresEscape(json[j]))
    {
      any := any || RequiresEscape(json[k]);
      k := k + 1;
    }
    if !any {
      EscapedUntouched(json);
      return json;
    }
    escaped := "";
    k := 0;
    while k < |json|
      invariant k <= |json| && escaped + Escaped(json[k..]) == Escaped(json)
    {
      assert json[k..][1..] == json[k + 1..];
      escaped := escaped + EscapeUnit(json[k]);
      k := k + 1;
    }
  }

  /** No character of the class is left. */
  lemma {:induction false} NothingLeftToEscape(json: string)
    ensures forall c :: c in Escaped(json) ==> !RequiresEscape(c)
  {
    if json != [] {
      NothingLeftToEscape(json[1..]);
      assert forall c :: c in EscapeUnit(json[0]) ==> !RequiresEscape(c);
    }
  }

  // ---------------------------------------------------------------- decoding JSON text

  predicate FourHex(h: string) {
    |h| == 4 && IsHex(h[0]) && IsHex(h[1]) && IsHex(h[2]) && IsHex(h[3])
  }

  function HexNumber(h: string): nat
    requires FourHex(h)
  {
    HexValue(h[0]) * 0x1000 + HexValue(h[1]) * 0x100 + HexValue(h[2]) * 0x10 + HexValue(h[3])
  }

  /** The code units of one character. */
  function Utf16(c: char): seq<nat> {
    var n := Code(c);
    if n < 0x1_0000 then [n] else [0xd800 + (n - 0x1_0000) / 0x400, 0xdc00 + (n - 0x1_0000) % 0x400]
  }

  function Units(s: string): seq<nat> {
    if s == [] then [] else Utf16(s[0]) + Units(s[1..])
  }

  /** A character outside strings, or a whole decoded string. */
  datatype Token = Punct(c: char) | Str(units: seq<nat>)

  function Cons(t: Token, rest: Option<seq<Token>>): Option<seq<Token>> {
    if rest.Some? then Some([t] + rest.value) else None
  }

  /** One unit of string content at the front of `t`, and how many characters it takes. */
  function Content(t: string): Option<(seq<nat>, nat)>
    requires t != []
  {
    if t[0] != '\\' then
      if Code(t[0]) < 0x20 || t[0] == '"' then None else Some((Utf16(t[0]), 1))
    else if |t| < 2 then None
    else match t[1]
      case '"' => Some(([0x22], 2))
      case '\\' => Some(([0x5c], 2))
      case '/' => Some(([0x2f], 2))
      case 'b' => Some(([0x08], 2))
      case 'f' => Some(([0x0c], 2))
      case 'n' => Some(([0x0a], 2))
      case 'r' => Some(([0x0d], 2))
      case 't' => Some(([0x09], 2))
      case 'u' =>
        if |t| >= 6 && FourHex(t[2..6]) then Some(([HexNumber(t[2..6])], 6)) else None
      case _ => None
  }

  lemma ContentSize(t: string)
    requires t != [] && Content(t).Some?
    ensures 1 <= Content(t).value.1 <= |t|
  {
  }

  /** The tokens of a JSON text; a JSON value is determined by them. */
  function Lex(t: string, inString: bool, units: seq<nat>): Option<seq<Token>>
    decreases |t|
  {
    if t == [] then (if inString then None else Some([]))
    else if !inString then
      if t[0] == '"' then Lex(t[1..], true, []) else Cons(Punct(t[0]), Lex(t[1..], false, []))
    else if t[0] == '"' then Cons(Str(units), Lex(t[1..], false, []))
    else
      var content := Content(t);
      if content.None? then None
      else ContentSize(t); Lex(t[content.value.1..], true, units + content.value.0)
  }

  function Decode(t: string): Option<seq<Token>> {
    Lex(t, false, [])
  }

  /** Nothing the terminal could act on stands outside a string. */
  ghost predicate StructureIsSafe(tokens: seq<Token>) {
    forall k :: 0 <= k < |tokens| ==> tokens[k].Punct? ==> !RequiresEscape(tokens[k].c)
  }

  lemma HexRoundTrip(n: nat)
    requires n < 0x1_0000
    ensures HexNumber(Hex4(n)) == n
  {
    var h := Hex4(n);
    assert HexValue(h[0]) == n / 16 / 16 / 16;
    assert HexValue(h[1]) == n / 16 / 16 % 16;
    assert HexValue(h[2]) == n / 16 % 16;
    assert HexValue(h[3]) == n % 16;
  }

  /** What a `\uXXXX` escape decodes to, whatever follows it. */
  lemma UnicodeEscapeContent(h: string, rest: string)
    requires FourHex(h)
    ensures var t := "\\u" + h + rest;
            && t[0] == '\\' && t[6..] == rest
            && Content(t) == Some(([HexNumber(h)], 6))
  {
    var t := "\\u" + h + rest;
    assert t[1] == 'u' && t[2..6] == h;
  }

  lemma EscapeDecodes(c: char, rest: string)
    requires RequiresEscape(c)
    ensures Content(EscapeUnit(c) + rest) == Some((Utf16(c), 6))
    ensures (EscapeUnit(c) + rest)[6..] == rest && (EscapeUnit(c) + rest)[0] == '\\'
  {
    HexRoundTrip(Code(c));
    UnicodeEscapeContent(Hex4(Code(c)), rest);
  }

  /** A unit of content is decided by its own characters alone. */
  lemma ContentIsLocal(t: string, t': string)
    requires t != [] && Content(t).Some? && Content(t).value.1 <= |t'|
    requires forall k | 0 <= k < Content(t).value.1 :: k < |t| && t'[k] == t[k]
    ensures Content(t') == Content(t)
  {
    if Content(t).value.1 == 6 {
      assert t'[2..6] == t[2..6];
    }
  }

  /** The characters of a unit of content are in the class only when one stands bare. */
  lemma ContentNotEscapable(t: string)
    requires t != [] && Content(t).Some? && !RequiresEscape(t[0])
    ensures forall k | 0 <= k < Content(t).value.1 :: k < |t| && !RequiresEscape(t[k])
  {
    if Content(t).value.1 == 6 {
      var h := t[2..6];
      assert t[2] == h[0] && t[3] == h[1] && t[4] == h[2] && t[5] == h[3];
    }
  }

  /** A unit of content that is not a bare class character is not touched by escaping. */
  lemma ContentUntouched(t: string)
    requires t != [] && Content(t).Some? && !RequiresEscape(t[0])
    ensures var n := Content(t).value.1;
            n <= |t| && Escaped(t) == t[..n] + Escaped(t[n..]) && Content(Escaped(t)) == Content(t)
  {
    var n := Content(t).value.1;
    ContentSize(t);
    ContentNotEscapable(t);
    FrontUntouched(t, n);
    ContentIsLocal(t, Escaped(t));
  }

  lemma FrontUntouched(t: string, n: nat)
    requires n <= |t| && forall k | 0 <= k < n :: !RequiresEscape(t[k])
    ensures Escaped(t) == t[..n] + Escaped(t[n..])
    ensures |Escaped(t)| >= n && forall k | 0 <= k < n :: Escaped(t)[k] == t[k]
  {
    assert t == t[..n] + t[n..];
    EscapedAppend(t[..n], t[n..]);
    EscapedUntouched(t[..n]);
  }

  /** Lexing one unit of string content. */
  lemma LexContent(t: string, units: seq<nat>, content: seq<nat>, n: nat)
    requires t != [] && t[0] != '"' && Content(t) == Some((content, n))
    ensures n <= |t| && Lex(t, true, units) == Lex(t[n..], true, units + content)
  {
    ContentSize(t);
  }

  /** Escaping changes no decoded value, exactly as long as every character it
      rewrites stands inside a string. */
  lemma {:induction false} EscapingKeepsTokens(t: string, inString: bool, units: seq<nat>)
    requires Lex(t, inString, units).Some?
    ensures Lex(Escaped(t), inString, units) == Lex(t, inString, units) <==>
              StructureIsSafe(Lex(t, inString, units).value)
    decreases |t|, 1
  {
    if t != [] {
      if !inString {
        EscapingKeepsStructure(t, units);
      } else if t[0] == '"' {
        EscapingKeepsTokens(t[1..], false, []);
        assert Escaped(t) == ['"'] + Escaped(t[1..]);
        TokensCons(Str(units), Lex(t[1..], false, []).value);
        ConsInjective(Str(units), Lex(Escaped(t[1..]), false, []), Lex(t[1..], false, []));
      } else {
        EscapingKeepsContent(t, units);
      }
    }
  }

  lemma {:induction false} EscapingKeepsContent(t: string, units: seq<nat>)
    requires t != [] && t[0] != '"' && Lex(t, true, units).Some?
    ensures Lex(Escaped(t), true, units) == Lex(t, true, units) <==> StructureIsSafe(Lex(t, true, units).value)
    decreases |t|, 0
  {
    var (content, n) := Content(t).value;
    ContentSize(t);
    LexContent(t, units, content, n);
    EscapingKeepsTokens(t[n..], true, units + content);
    if RequiresEscape(t[0]) {
      EscapeDecodes(t[0], Escaped(t[1..]));
      LexContent(Escaped(t), units, content, 6);
    } else {
      ContentUntouched(t);
      assert (t[..n] + Escaped(t[n..]))[n..] == Escaped(t[n..]);
      assert (t[..n] + Escaped(t[n..]))[0] == t[0];
      LexContent(Escaped(t), units, content, n);
    }
  }

  lemma {:induction false} EscapingKeepsStructure(t: string, units: seq<nat>)
    requires t != [] && Lex(t, false, units).Some?
    ensures Lex(Escaped(t), false, units) == Lex(t, false, units) <==> StructureIsSafe(Lex(t, false, units).value)
    decreases |t|, 0
  {
    if t[0] == '"' {
      EscapingKeepsTokens(t[1..], true, []);
      assert Escaped(t) == ['"'] + Escaped(t[1..]);
    } else {
      EscapingKeepsTokens(t[1..], false, []);
      TokensCons(Punct(t[0]), Lex(t[1..], false, []).value);
      if RequiresEscape(t[0]) {
        EscapedPunctDiffers(t, units);
      } else {
        assert Escaped(t) == [t[0]] + Escaped(t[1..]);
        ConsInjective(Punct(t[0]), Lex(Escaped(t[1..]), false, []), Lex(t[1..], false, []));
      }
    }
  }

  lemma ConsInjective(t: Token, a: Option<seq<Token>>, b: Option<seq<Token>>)
    ensures Cons(t, a) == Cons(t, b) <==> a == b
  {
    if Cons(t, a) == Cons(t, b) && a.Some? {
      assert a.value == ([t] + a.value)[1..] && b.value == ([t] + b.value)[1..];
    }
  }

  /** Outside a string an escape is not a spelling of its character. */
  lemma EscapedPunctDiffers(t: string, units: seq<nat>)
    requires t != [] && RequiresEscape(t[0])
    ensures Lex(t, false, units).Some? ==> Lex(Escaped(t), false, units) != Lex(t, false, units)
  {
    assert Escaped(t)[0] == '\\';
    if Lex(t, false, units).Some? && Lex(Escaped(t), false, units).Some? {
      assert Lex(t, false, units).value[0] == Punct(t[0]);
      assert Lex(Escaped(t), false, units).value[0] == Punct('\\');
    }
  }

  lemma TokensCons(t: Token, rest: seq<Token>)
    ensures StructureIsSafe([t] + rest) <==> StructureIsSafe(rest) && (t.Punct? ==> !RequiresEscape(t.c))
  {
    assert ([t] + rest)[0] == t;
    assert forall k :: 0 <= k < |rest| ==> ([t] + rest)[k + 1] == rest[k];
  }

  // ---------------------------------------------------------------- what the serializer writes

  /** The values of one diagnostic record: `null`, a number, or text. */
  datatype Value = Null | Number(n: nat) | Text(s: string)

  datatype Field = Field(key: string, value: Value)

  function Digits(n: nat): (s: string)
    ensures forall c :: c in s ==> '0' <= c <= '9'
  {
    if n < 10 then ['0' + n as char] else Digits(n / 10) + ['0' + (n % 10) as char]
  }

  /** A character of string content, escaped only where JSON demands it. */
  function SerializedChar(c: char): string {
    if c == '"' then "\\\""
    else if c == '\\' then "\\\\"
    else if Code(c) == 0x08 then "\\b"
    else if Code(c) == 0x09 then "\\t"
    else if Code(c) == 0x0a then "\\n"
    else if Code(c) == 0x0c then "\\f"
    else if Code(c) == 0x0d then "\\r"
    else if Code(c) < 0x20 then "\\u" + Hex4(Code(c))
    else [c]
  }

  function SerializedChars(s: string): string {
    if s == [] then [] else SerializedChar(s[0]) + SerializedChars(s[1..])
  }

  function Quoted(s: string): string {
    "\"" + SerializedChars(s) + "\""
  }

  function SerializedValue(v: Value): string {
    match v
    case Null => "null"
    case Number(n) => Digits(n)
    case Text(s) => Quoted(s)
  }

  function SerializedFields(fields: seq<Field>): string {
    if fields == [] then "}"
    else Quoted(fields[0].key) + ":" + SerializedValue(fields[0].value)
         + (if |fields| > 1 then "," else "") + SerializedFields(fields[1..])
  }

  function Serialized(fields: seq<Field>): string {
    "{" + SerializedFields(fields)
  }

  function Puncts(s: string): seq<Token> {
    if s == [] then [] else [Punct(s[0])] + Puncts(s[1..])
  }

  function ValueTokens(v: Value): seq<Token> {
    match v
    case Null => Puncts("null")
    case Number(n) => Puncts(Digits(n))
    case Text(s) => [Str(Units(s))]
  }

  function FieldsTokens(fields: seq<Field>): seq<Token> {
    if fields == [] then [Punct('}')]
    else [Str(Units(fields[0].key)), Punct(':')] + ValueTokens(fields[0].value)
         + (if |fields| > 1 then [Punct(',')] else []) + FieldsTokens(fields[1..])
  }

  function Prepend(tokens: seq<Token>, rest: Option<seq<Token>>): Option<seq<Token>> {
    if rest.Some? then Some(tokens + rest.value) else None
  }

  lemma PrependCons(t: Token, tokens: seq<Token>, rest: Option<seq<Token>>)
    ensures Cons(t, Prepend(tokens, rest)) == Prepend([t] + tokens, rest)
  {
    if rest.Some? {
      assert [t] + (tokens + rest.value) == [t] + tokens + rest.value;
    }
  }

  lemma PrependNothing(rest: Option<seq<Token>>)
    ensures Prepend([], rest) == rest
  {
    if rest.Some? {
      assert [] + rest.value == rest.value;
    }
  }

  lemma {:induction false} LexPuncts(s: string, rest: string)
    requires '"' !in s
    ensures Decode(s + rest) == Prepend(Puncts(s), Decode(rest))
  {
    if s == [] {
      assert s + rest == rest;
      PrependNothing(Decode(rest));
    } else {
      assert (s + rest)[1..] == s[1..] + rest && (s + rest)[0] == s[0];
      LexPuncts(s[1..], rest);
      PrependCons(Punct(s[0]), Puncts(s[1..]), Decode(rest));
    }
  }

  lemma SerializedCharDecodes(c: char, rest: string)
    ensures var t := SerializedChar(c) + rest;
            t[0] != '"' && Content(t) == Some((Utf16(c), |SerializedChar(c)|)) && t[|SerializedChar(c)|..] == rest
  {
    if |SerializedChar(c)| == 6 {
      HexRoundTrip(Code(c));
      UnicodeEscapeContent(Hex4(Code(c)), rest);
    }
  }

  lemma {:induction false} LexChars(s: string, rest: string, units: seq<nat>)
    ensures Lex(SerializedChars(s) + ("\"" + rest), true, units) == Cons(Str(units + Units(s)), Decode(rest))
  {
    var tail := "\"" + rest;
    if s == [] {
      assert SerializedChars(s) + tail == tail && tail[1..] == rest;
      assert units + Units(s) == units;
    } else {
      var more := SerializedChars(s[1..]) + tail;
      assert SerializedChars(s) + tail == SerializedChar(s[0]) + more;
      SerializedCharDecodes(s[0], more);
      LexContent(SerializedChar(s[0]) + more, units, Utf16(s[0]), |SerializedChar(s[0])|);
      LexChars(s[1..], rest, units + Utf16(s[0]));
      assert units + Utf16(s[0]) + Units(s[1..]) == units + Units(s);
    }
  }

  lemma LexQuoted(s: string, rest: string)
    ensures Decode(Quoted(s) + rest) == Cons(Str(Units(s)), Decode(rest))
  {
    var inside := SerializedChars(s) + ("\"" + rest);
    assert (Quoted(s) + rest)[1..] == inside && (Quoted(s) + rest)[0] == '"';
    LexChars(s, rest, []);
    assert [] + Units(s) == Units(s);
  }

  lemma LexValue(v: Value, rest: string)
    ensures Decode(SerializedValue(v) + rest) == Prepend(ValueTokens(v), Decode(rest))
  {
    match v
    case Null => LexPuncts("null", rest);
    case Number(n) => LexPuncts(Digits(n), rest);
    case Text(s) => LexQuoted(s, rest);
  }

  lemma LexKey(key: string, rest: string)
    ensures Decode(Quoted(key) + (":" + rest)) == Prepend([Str(Units(key)), Punct(':')], Decode(rest))
  {
    LexQuoted(key, ":" + rest);
    LexPuncts(":", rest);
    assert Puncts(":") == [Punct(':')];
    PrependCons(Str(Units(key)), [Punct(':')], Decode(rest));
    assert [Str(Units(key))] + [Punct(':')] == [Str(Units(key)), Punct(':')];
  }

  lemma LexValueAndComma(v: Value, comma: string, rest: string)
    requires '"' !in comma
    ensures Decode(SerializedValue(v) + (comma + rest)) == Prepend(ValueTokens(v) + Puncts(comma), Decode(rest))
  {
    LexValue(v, comma + rest);
    LexPuncts(comma, rest);
    PrependPrepend(ValueTokens(v), Puncts(comma), Decode(rest));
  }

  lemma RegroupField(key: string, value: string, comma: string, rest: string)
    ensures key + ":" + value + comma + rest == key + (":" + (value + (comma + rest)))
  {
  }

  lemma LexField(f: Field, comma: string, rest: string)
    requires '"' !in comma
    ensures Decode(Quoted(f.key) + ":" + SerializedValue(f.value) + comma + rest)
         == Prepend([Str(Units(f.key)), Punct(':')] + (ValueTokens(f.value) + Puncts(comma)), Decode(rest))
  {
    var afterKey := SerializedValue(f.value) + (comma + rest);
    RegroupField(Quoted(f.key), SerializedValue(f.value), comma, rest);
    LexKey(f.key, afterKey);
    LexValueAndComma(f.value, comma, rest);
    PrependPrepend([Str(Units(f.key)), Punct(':')], ValueTokens(f.value) + Puncts(comma), Decode(rest));
  }

  lemma PrependPrepend(a: seq<Token>, b: seq<Token>, rest: Option<seq<Token>>)
    ensures Prepend(a, Prepend(b, rest)) == Prepend(a + b, rest)
  {
    if rest.Some? {
      assert a + (b + rest.value) == a + b + rest.value;
    }
  }

  lemma {:induction false} LexFields(fields: seq<Field>)
    ensures Decode(SerializedFields(fields)) == Some(FieldsTokens(fields))
  {
    if fields == [] {
      LexPuncts("}", "");
      assert "}" + "" == "}" && Puncts("}") == [Punct('}')];
      assert [Punct('}')] + [] == [Punct('}')];
    } else {
      var comma := if |fields| > 1 then "," else "";
      LexFields(fields[1..]);
      LexField(fields[0], comma, SerializedFields(fields[1..]));
      assert Puncts(comma) == if |fields| > 1 then [Punct(',')] else [];
      assert [Str(Units(fields[0].key)), Punct(':')] + (ValueTokens(fields[0].value) + Puncts(comma))
          == [Str(Units(fields[0].key)), Punct(':')] + ValueTokens(fields[0].value) + Puncts(comma);
    }
  }

  lemma {:induction false} PunctsSafe(s: string)
    requires forall k | 0 <= k < |s| :: !RequiresEscape(s[k])
    ensures StructureIsSafe(Puncts(s))
  {
    if s != [] {
      PunctsSafe(s[1..]);
      TokensCons(Punct(s[0]), Puncts(s[1..]));
    }
  }

  lemma ValueSafe(v: Value)
    ensures StructureIsSafe(ValueTokens(v))
  {
    match v
    case Null => PunctsSafe("null");
    case Number(n) =>
      assert forall k :: 0 <= k < |Digits(n)| ==> Digits(n)[k] in Digits(n);
      PunctsSafe(Digits(n));
    case Text(_) =>
  }

  lemma TokensAppend(a: seq<Token>, b: seq<Token>)
    requires StructureIsSafe(a) && StructureIsSafe(b)
    ensures StructureIsSafe(a + b)
  {
  }

  lemma {:induction false} FieldsSafe(fields: seq<Field>)
    ensures StructureIsSafe(FieldsTokens(fields))
  {
    if fields != [] {
      var key, comma := [Str(Units(fields[0].key)), Punct(':')], if |fields| > 1 then [Punct(',')] else [];
      FieldsSafe(fields[1..]);
      ValueSafe(fields[0].value);
      TokensAppend(key, ValueTokens(fields[0].value));
      TokensAppend(key + ValueTokens(fields[0].value), comma);
      TokensAppend(key + ValueTokens(fields[0].value) + comma, FieldsTokens(fields[1..]));
    }
  }

  /** Post-escaping a serialized record loses nothing: every field decodes to the
      text it was given, and no terminal control is left on the line. */
  lemma PostEscapingLosesNothing(fields: seq<Field>)
    ensures Decode(Serialized(fields)) == Some([Punct('{')] + FieldsTokens(fields))
    ensures Decode(Escaped(Serialized(fields))) == Decode(Serialized(fields))
    ensures forall c :: c in Escaped(Serialized(fields)) ==> !RequiresEscape(c)
  {
    LexFields(fields);
    LexPuncts("{", SerializedFields(fields));
    FieldsSafe(fields);
    TokensCons(Punct('{'), FieldsTokens(fields));
    EscapingKeepsTokens(Serialized(fields), false, []);
    NothingLeftToEscape(Serialized(fields));
  }
}
