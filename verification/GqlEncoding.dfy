/**
 The nested escaping of a GraphQL payload: Go quoting and a replacement on the
 subscriber's side, a JSON string and then a GraphQL string on the server's side.
 Decoding follows section 7 of RFC 8259 and section 2.9.4 (String Value) of the
 GraphQL specification, October 2021.
 */
module GqlEncoding {
  import opened Wrappers

  // ---- Concatenating per-character pieces ----

  function Flat(s: string, f: char -> string): string {
    if s == "" then "" else f(s[0]) + Flat(s[1..], f)
  }

  lemma {:induction false} FlatConcat(a: string, b: string, f: char -> string)
    ensures Flat(a + b, f) == Flat(a, f) + Flat(b, f)
  {
    if a == "" {
      assert a + b == b;
    } else {
      assert (a + b)[1..] == a[1..] + b;
      FlatConcat(a[1..], b, f);
    }
  }

  lemma {:induction false} FlatIdentity(s: string, f: char -> string)
    requires forall c :: c in s ==> f(c) == [c]
    ensures Flat(s, f) == s
  {
    if s != "" {
      FlatIdentity(s[1..], f);
    }
  }

  lemma {:induction false} FlatSame(s: string, f: char -> string, g: char -> string)
    requires forall c :: c in s ==> f(c) == g(c)
    ensures Flat(s, f) == Flat(s, g)
  {
    if s != "" {
      FlatSame(s[1..], f, g);
    }
  }

  // ---- Go: strconv.Quote, json.Marshal of a string, strings.Replace ----

  function HexDigit(d: nat): char
    requires d < 16
  {
    if d < 10 then ('0' as int + d) as char else ('a' as int + d - 10) as char
  }

  function Hex(n: nat, width: nat): string {
    if width == 0 then "" else Hex(n / 16, width - 1) + [HexDigit(n % 16)]
  }

  predicate AsciiPrintable(c: char) {
    ' ' <= c <= '~'
  }

  /** strconv.IsPrint: the ASCII part is fixed, the rest is a Unicode table. */
  predicate IsPrint(table: char -> bool, c: char) {
    AsciiPrintable(c) || (c >= 0x80 as char && table(c))
  }

  /** One character inside strconv.Quote. */
  function QuoteRune(table: char -> bool, c: char): string {
    if c == '\"' then "\\\""
    else if c == '\\' then "\\\\"
    else if IsPrint(table, c) then [c]
    else if c == 7 as char then "\\a"
    else if c == 8 as char then "\\b"
    else if c == 12 as char then "\\f"
    else if c == '\n' then "\\n"
    else if c == '\r' then "\\r"
    else if c == '\t' then "\\t"
    else if c == 11 as char then "\\v"
    else if c < ' ' || c == 0x7f as char then "\\x" + Hex(c as int, 2)
    else if c as int <= 0xFFFF then "\\u" + Hex(c as int, 4)
    else "\\U" + Hex(c as int, 8)
  }

  function QuoteBody(table: char -> bool, s: string): string {
    Flat(s, (c: char) => QuoteRune(table, c))
  }

  function Quote(table: char -> bool, s: string): string {
    "\"" + QuoteBody(table, s) + "\""
  }

  /** One character inside a string that json.Marshal writes, HTML characters escaped. */
  function JsonRune(c: char): string {
    if c == '\"' then "\\\""
    else if c == '\\' then "\\\\"
    else if c == '\n' then "\\n"
    else if c == '\r' then "\\r"
    else if c == '\t' then "\\t"
    else if c == '<' then "\\u003c"
    else if c == '>' then "\\u003e"
    else if c == '&' then "\\u0026"
    else if c < ' ' then "\\u" + Hex(c as int, 4)
    else if c == 0x2028 as char then "\\u2028"
    else if c == 0x2029 as char then "\\u2029"
    else [c]
  }

  function JsonBody(s: string): string {
    Flat(s, JsonRune)
  }

  /** strings.Replace with no limit and a non-empty pattern. */
  function ReplaceAll(s: string, pattern: string, by_: string): string
    requires pattern != ""
    decreases |s|
  {
    if |s| < |pattern| then s
    else if s[..|pattern|] == pattern then by_ + ReplaceAll(s[|pattern|..], pattern, by_)
    else [s[0]] + ReplaceAll(s[1..], pattern, by_)
  }

  const ESCAPED_QUOTE := "\\\""
  const TWICE_ESCAPED_QUOTE := "\\\\\\\""

  /** MarshalGQLData on the JSON text of its argument. */
  function MarshalGQLData(table: char -> bool, json: string): string {
    ReplaceAll(Quote(table, json), ESCAPED_QUOTE, TWICE_ESCAPED_QUOTE)
  }

  /** What the payload builders splice: the result without its first and last character. */
  function Spliced(table: char -> bool, json: string): string {
    var processed := MarshalGQLData(table, json);
    if |processed| < 2 then "" else processed[1..|processed| - 1]
  }

  // ---- Decoding a string literal ----

  datatype Dialect = Json | GraphQL

  /** The characters that may stand unescaped inside a string literal. */
  predicate Raw(d: Dialect, c: char) {
    && c != '\"' && c != '\\'
    && match d
       case Json => c >= ' '
       case GraphQL => c == '\t' || (c >= ' ' && c as int <= 0xFFFF)
  }

  function HexValue(c: char): Option<nat> {
    if '0' <= c <= '9' then Some(c as int - '0' as int)
    else if 'a' <= c <= 'f' then Some(c as int - 'a' as int + 10)
    else if 'A' <= c <= 'F' then Some(c as int - 'A' as int + 10)
    else None
  }

  function UnicodeEscape(s: string): Option<char>
    requires |s| >= 4
  {
    if forall i :: 0 <= i < 4 ==> HexValue(s[i]).Some? then
      var n := ((HexValue(s[0]).value * 16 + HexValue(s[1]).value) * 16 + HexValue(s[2]).value) * 16 + HexValue(s[3]).value;
      if 0 <= n < 0xD800 || 0xE000 <= n < 0x1_0000 then Some(n as char) else None
    else None
  }

  function SimpleEscape(c: char): Option<char> {
    if c == '\"' || c == '\\' || c == '/' then Some(c)
    else if c == 'b' then Some(8 as char)
    else if c == 'f' then Some(12 as char)
    else if c == 'n' then Some('\n')
    else if c == 'r' then Some('\r')
    else if c == 't' then Some('\t')
    else None
  }

  /** The first character of a literal's body, and how much text it takes. Both dialects share the escapes. */
  function First(d: Dialect, s: string): (r: Option<(char, nat)>)
    ensures r.Some? ==> 0 < r.value.1 <= |s|
  {
    if s == "" then None
    else if s[0] == '\\' then
      if |s| < 2 then None
      else if SimpleEscape(s[1]).Some? then Some((SimpleEscape(s[1]).value, 2))
      else if s[1] == 'u' && |s| >= 6 && UnicodeEscape(s[2..]).Some? then Some((UnicodeEscape(s[2..]).value, 6))
      else None
    else if Raw(d, s[0]) then Some((s[0], 1))
    else None
  }

  /** Text x in front of text that may be malformed. */
  function Join(x: string, y: Option<string>): Option<string> {
    if y.None? then None else Some(x + y.value)
  }

  lemma JoinAssociates(x: string, y: string, z: Option<string>)
    ensures Join(x, Join(y, z)) == Join(x + y, z)
    ensures Join("", z) == z
  {
    if z.Some? {
      assert x + (y + z.value) == x + y + z.value;
      assert "" + z.value == z.value;
    }
  }

  /** A whole body of a literal; None if it is malformed or ends early in a quote. */
  function Decode(d: Dialect, s: string): Option<string>
    decreases |s|
  {
    if s == "" then Some("")
    else
      var first := First(d, s);
      if first.None? then None else Join([first.value.0], Decode(d, s[first.value.1..]))
  }

  /** Lexing from just behind the opening quote: the value and what follows the closing quote. */
  function Lex(d: Dialect, s: string): (r: Option<(string, string)>)
    ensures r.Some? ==> |r.value.1| < |s|
    decreases |s|
  {
    if s == "" then None
    else if s[0] == '\"' then Some(("", s[1..]))
    else
      var first := First(d, s);
      if first.None? then None else LexJoin([first.value.0], Lex(d, s[first.value.1..]))
  }

  lemma FirstOfPrefix(d: Dialect, a: string, b: string)
    requires First(d, a).Some?
    ensures First(d, a + b) == First(d, a)
  {
    assert (a + b)[0] == a[0];
    if a[0] == '\\' {
      assert (a + b)[1] == a[1];
      if SimpleEscape(a[1]).None? {
        assert forall i :: 0 <= i < 4 ==> (a + b)[2..][i] == a[2..][i];
      }
    }
  }

  lemma {:induction false} DecodeConcat(d: Dialect, a: string, b: string)
    requires Decode(d, a).Some?
    ensures Decode(d, a + b) == Join(Decode(d, a).value, Decode(d, b))
    decreases |a|
  {
    if a == "" {
      assert a + b == b;
      JoinAssociates("", "", Decode(d, b));
    } else {
      FirstOfPrefix(d, a, b);
      var (c, n) := First(d, a).value;
      assert (a + b)[n..] == a[n..] + b;
      DecodeConcat(d, a[n..], b);
      JoinAssociates([c], Decode(d, a[n..]).value, Decode(d, b));
    }
  }

  function LexJoin(x: string, y: Option<(string, string)>): Option<(string, string)> {
    if y.None? then None else Some((x + y.value.0, y.value.1))
  }

  lemma LexJoinAssociates(x: string, y: string, z: Option<(string, string)>)
    ensures LexJoin(x, LexJoin(y, z)) == LexJoin(x + y, z)
    ensures LexJoin("", z) == z
  {
    if z.Some? {
      assert x + (y + z.value.0) == x + y + z.value.0;
      assert "" + z.value.0 == z.value.0;
    }
  }

  lemma {:induction false} LexConcat(d: Dialect, a: string, b: string)
    requires Decode(d, a).Some?
    ensures Lex(d, a + b) == LexJoin(Decode(d, a).value, Lex(d, b))
    decreases |a|
  {
    if a == "" {
      assert a + b == b;
      LexJoinAssociates("", "", Lex(d, b));
    } else {
      FirstOfPrefix(d, a, b);
      var (c, n) := First(d, a).value;
      assert (a + b)[n..] == a[n..] + b;
      LexConcat(d, a[n..], b);
      LexJoinAssociates([c], Decode(d, a[n..]).value, Lex(d, b));
    }
  }

  /** A well-formed body followed by a quote lexes to exactly that body. */
  lemma LexDecodes(d: Dialect, body: string, rest: string)
    requires Decode(d, body).Some?
    ensures Lex(d, body + "\"" + rest) == Some((Decode(d, body).value, rest))
  {
    LexConcat(d, body, "\"" + rest);
    assert body + "\"" + rest == body + ("\"" + rest);
    assert ("\"" + rest)[1..] == rest;
    assert Decode(d, body).value + "" == Decode(d, body).value;
  }

  /** Decoding undoes an encoding that is undone character by character. */
  lemma {:induction false} DecodeFlat(d: Dialect, s: string, f: char -> string, g: char -> string)
    requires forall c :: c in s ==> Decode(d, f(c)) == Some(g(c))
    ensures Decode(d, Flat(s, f)) == Some(Flat(s, g))
  {
    if s != "" {
      DecodeFlat(d, s[1..], f, g);
      DecodeConcat(d, f(s[0]), Flat(s[1..], f));
    }
  }

  lemma DecodeOne(d: Dialect, s: string)
    requires First(d, s).Some? && First(d, s).value.1 == |s|
    ensures Decode(d, s) == Some([First(d, s).value.0])
  {
    assert s[|s|..] == "";
    assert [First(d, s).value.0] + "" == [First(d, s).value.0];
  }

  /** No text that starts like this has a first character. */
  ghost predicate Undecodable(d: Dialect, u: string) {
    u != "" && u[0] != '\"' && forall rest :: First(d, u + rest).None?
  }

  /** An encoding that contains a character whose code cannot be decoded fails as a whole. */
  lemma {:induction false} LexFlatFails(d: Dialect, s: string, f: char -> string, bad: char, tail: string)
    requires bad in s && Undecodable(d, f(bad))
    requires forall c :: c in s ==> Decode(d, f(c)).Some? || Undecodable(d, f(c))
    ensures Lex(d, Flat(s, f) + tail) == None
  {
    var rest := Flat(s[1..], f) + tail;
    assert Flat(s, f) + tail == f(s[0]) + rest;
    assert f(bad) + "" == f(bad) && First(d, f(bad) + "").None?;
    if Decode(d, f(s[0])).Some? {
      assert bad in s[1..];
      LexFlatFails(d, s[1..], f, bad, tail);
      LexConcat(d, f(s[0]), rest);
    } else {
      assert First(d, f(s[0]) + rest).None?;
    }
  }

  // ---- What MarshalGQLData writes, character by character ----

  /** Double quotes end up escaped twice, everything else as strconv.Quote writes it. */
  function WireRune(table: char -> bool, c: char): string {
    if c == '\"' then TWICE_ESCAPED_QUOTE else QuoteRune(table, c)
  }

  function Wire(table: char -> bool, s: string): string {
    Flat(s, (c: char) => WireRune(table, c))
  }

  lemma FlatSteps(table: char -> bool, s: string)
    requires s != ""
    ensures QuoteBody(table, s) == QuoteRune(table, s[0]) + QuoteBody(table, s[1..])
    ensures Wire(table, s) == WireRune(table, s[0]) + Wire(table, s[1..])
  {
  }

  /** Text in which no backslash stands before a double quote, given what follows, is left alone. */
  lemma {:induction false} ReplacePasses(u: string, rest: string)
    requires rest != "" && forall i :: 0 <= i < |u| && u[i] == '\\' ==> (u + rest)[i + 1] != '\"'
    ensures ReplaceAll(u + rest, ESCAPED_QUOTE, TWICE_ESCAPED_QUOTE) == u + ReplaceAll(rest, ESCAPED_QUOTE, TWICE_ESCAPED_QUOTE)
  {
    if u == "" {
      assert u + rest == rest;
    } else {
      var s := u + rest;
      assert s[1..] == u[1..] + rest;
      assert s[..2][0] == u[0] && s[..2][1] == s[1];
      forall i | 0 <= i < |u[1..]| && u[1..][i] == '\\' ensures (u[1..] + rest)[i + 1] != '\"' {
        assert u[i + 1] == '\\' && (u + rest)[i + 2] == (u[1..] + rest)[i + 1];
      }
      ReplacePasses(u[1..], rest);
    }
  }

  lemma {:induction false} HexIsPlain(n: nat, width: nat)
    ensures '\\' !in Hex(n, width) && '\"' !in Hex(n, width)
  {
    if width > 0 {
      HexIsPlain(n / 16, width - 1);
    }
  }

  /** No backslash of the text stands before a double quote or at the end. */
  predicate Guarded(q: string) {
    forall i :: 0 <= i < |q| && q[i] == '\\' ==> i + 1 < |q| && q[i + 1] != '\"'
  }

  /** An escape sequence that is one backslash, a letter and hexadecimal digits. */
  lemma EscapeShape(letter: char, hex: string)
    requires letter != '\\' && letter != '\"' && '\\' !in hex && '\"' !in hex
    ensures Guarded(['\\', letter] + hex) && (['\\', letter] + hex)[0] != '\"'
  {
    var q := ['\\', letter] + hex;
    assert forall i :: 2 <= i < |q| ==> q[i] == hex[i - 2] && q[i] in hex;
  }

  /** Characters without a short escape are written in hexadecimal. */
  lemma HexRuneShape(table: char -> bool, c: char)
    requires c != '\"' && c != '\\' && !IsPrint(table, c) && |QuoteRune(table, c)| != 2
    ensures Guarded(QuoteRune(table, c)) && QuoteRune(table, c)[0] != '\"'
  {
    HexIsPlain(c as int, 2);
    HexIsPlain(c as int, 4);
    HexIsPlain(c as int, 8);
    EscapeShape('x', Hex(c as int, 2));
    EscapeShape('u', Hex(c as int, 4));
    EscapeShape('U', Hex(c as int, 8));
  }

  /** A quoted character never starts with a double quote, and holds one only as its own escape. */
  lemma QuoteRuneShape(table: char -> bool, c: char)
    ensures QuoteRune(table, c) != "" && QuoteRune(table, c)[0] != '\"'
    ensures c != '\"' && c != '\\' ==> Guarded(QuoteRune(table, c))
  {
    if c != '\"' && c != '\\' && !IsPrint(table, c) && |QuoteRune(table, c)| != 2 {
      HexRuneShape(table, c);
    }
  }

  lemma {:induction false} ReplaceInQuoted(table: char -> bool, s: string)
    requires s == "" || s[|s| - 1] != '\\'
    ensures ReplaceAll(QuoteBody(table, s) + "\"", ESCAPED_QUOTE, TWICE_ESCAPED_QUOTE) == Wire(table, s) + "\""
  {
    if s == "" {
      assert QuoteBody(table, s) == "" && Wire(table, s) == "";
    } else {
      var c, u := s[0], QuoteRune(table, s[0]);
      var rest := QuoteBody(table, s[1..]) + "\"";
      FlatSteps(table, s);
      assert QuoteBody(table, s) + "\"" == u + rest;
      assert Wire(table, s) + "\"" == WireRune(table, c) + (Wire(table, s[1..]) + "\"");
      ReplaceInQuoted(table, s[1..]);
      QuoteRuneShape(table, c);
      if c == '\"' {
        assert (u + rest)[..2] == ESCAPED_QUOTE && (u + rest)[2..] == rest;
      } else {
        if |s| > 1 {
          FlatSteps(table, s[1..]);
          QuoteRuneShape(table, s[1]);
          assert rest[0] == QuoteRune(table, s[1])[0];
        }
        ReplacePasses(u, rest);
      }
    }
  }

  lemma MarshalIsWire(table: char -> bool, json: string)
    requires json == "" || json[|json| - 1] != '\\'
    ensures MarshalGQLData(table, json) == "\"" + Wire(table, json) + "\""
  {
    var body := QuoteBody(table, json) + "\"";
    assert Quote(table, json) == "\"" + body;
    ReplacePasses("\"", body);
    ReplaceInQuoted(table, json);
    assert "\"" + (Wire(table, json) + "\"") == "\"" + Wire(table, json) + "\"";
  }

  lemma Unwrap(wire: string)
    ensures ("\"" + wire + "\"")[1..|"\"" + wire + "\""| - 1] == wire
  {
  }

  /** The spliced text, for every JSON text that does not end in a backslash (none does). */
  lemma SplicedIsWire(table: char -> bool, json: string)
    requires json == "" || json[|json| - 1] != '\\'
    ensures Spliced(table, json) == Wire(table, json)
  {
    MarshalIsWire(table, json);
    Unwrap(Wire(table, json));
  }
}
