/**
 Round trips through the payload: what the server's JSON and GraphQL layers make
 of spliced JSON text, and what is left of a pod log after the last JSON layer.
 */
module Payloads {
  import opened Wrappers
  import opened GqlEncoding

  /** Printable, and inside the range of a GraphQL source character. */
  predicate Printable(table: char -> bool, c: char) {
    IsPrint(table, c) && c as int <= 0xFFFF
  }

  predicate AllPrintable(table: char -> bool, s: string) {
    forall c :: c in s ==> Printable(table, c)
  }

  // ---- The JSON layer leaves the text with its double quotes escaped once ----

  function OnceRune(c: char): string {
    if c == '\"' then ESCAPED_QUOTE else [c]
  }

  function OnceEscaped(s: string): string {
    Flat(s, OnceRune)
  }

  lemma DecodeEscape(d: Dialect, c: char, e: char)
    requires SimpleEscape(e) == Some(c)
    ensures Decode(d, ['\\', e]) == Some([c])
  {
    DecodeOne(d, ['\\', e]);
  }

  lemma DecodeRaw(d: Dialect, c: char)
    requires Raw(d, c)
    ensures Decode(d, [c]) == Some([c])
  {
    DecodeOne(d, [c]);
  }

  lemma JsonUndoesWire(table: char -> bool, c: char)
    requires Printable(table, c)
    ensures Decode(Json, WireRune(table, c)) == Some(OnceRune(c))
  {
    if c == '\"' {
      DecodeEscape(Json, '\\', '\\');
      DecodeEscape(Json, '\"', '\"');
      DecodeConcat(Json, "\\\\", "\\\"");
      assert TWICE_ESCAPED_QUOTE == "\\\\" + "\\\"";
      assert ESCAPED_QUOTE == "\\" + "\"";
    } else if c == '\\' {
      DecodeEscape(Json, '\\', '\\');
    } else {
      DecodeRaw(Json, c);
    }
  }

  /** True of every printable text, backslashes included. */
  lemma JsonLayer(table: char -> bool, json: string)
    requires AllPrintable(table, json) && (json == "" || json[|json| - 1] != '\\')
    ensures Decode(Json, Spliced(table, json)) == Some(OnceEscaped(json))
  {
    SplicedIsWire(table, json);
    var f := (c: char) => WireRune(table, c);
    forall c | c in json ensures Decode(Json, f(c)) == Some(OnceRune(c)) {
      JsonUndoesWire(table, c);
    }
    DecodeFlat(Json, json, f, OnceRune);
    FlatSame(json, f, (c: char) => WireRune(table, c));
  }

  // ---- Backslash-free text survives; text with a backslash never does ----

  lemma PlainLayer(table: char -> bool, s: string)
    requires AllPrintable(table, s) && '\\' !in s
    ensures Decode(GraphQL, OnceEscaped(s)) == Some(s)
  {
    var id := (c: char) => [c];
    forall c | c in s ensures Decode(GraphQL, OnceRune(c)) == Some(id(c)) {
      if c == '\"' {
        DecodeEscape(GraphQL, '\"', '\"');
      } else {
        DecodeRaw(GraphQL, c);
      }
    }
    DecodeFlat(GraphQL, s, OnceRune, id);
    FlatIdentity(s, id);
  }

  function Count(s: string, c: char): nat {
    if s == "" then 0 else (if s[0] == c then 1 else 0) + Count(s[1..], c)
  }

  lemma {:induction false} CountConcat(a: string, b: string, c: char)
    ensures Count(a + b, c) == Count(a, c) + Count(b, c)
  {
    if a == "" {
      assert a + b == b;
    } else {
      assert (a + b)[1..] == a[1..] + b;
      CountConcat(a[1..], b, c);
    }
  }

  lemma {:induction false} CountPositive(s: string, c: char)
    ensures Count(s, c) > 0 <==> c in s
  {
    if s != "" {
      CountPositive(s[1..], c);
    }
  }

  /**
   Decoding spends at least one extra character on every double quote it yields,
   and if it spends none besides, every backslash it read was for a double quote.
   */
  lemma {:induction false} DecodeBudget(d: Dialect, s: string)
    requires Decode(d, s).Some?
    ensures var r := Decode(d, s).value;
      && |s| >= |r| + Count(r, '\"')
      && (|s| == |r| + Count(r, '\"') ==> Count(s, '\\') == Count(r, '\"'))
    decreases |s|
  {
    if s != "" {
      var (c, n) := First(d, s).value;
      var rest := Decode(d, s[n..]).value;
      DecodeBudget(d, s[n..]);
      assert s == s[..n] + s[n..];
      CountConcat(s[..n], s[n..], '\\');
      CountConcat([c], rest, '\"');
      FirstBudget(d, s);
    }
  }

  lemma FirstBudget(d: Dialect, s: string)
    requires First(d, s).Some?
    ensures var (c, n) := First(d, s).value;
      && n >= 1 + Count([c], '\"')
      && (n == 1 + Count([c], '\"') ==> Count(s[..n], '\\') == Count([c], '\"'))
  {
    var (c, n) := First(d, s).value;
    assert [c][1..] == "";
    if n == 1 {
      assert s[..1] == [s[0]] && s[..1][1..] == "";
    } else if n == 2 && c == '\"' {
      assert s[..2] == ['\\', '\"'] && s[..2][1..] == "\"" && "\""[1..] == "";
      assert Count("\"", '\\') == 0;
    }
  }

  lemma {:induction false} OnceEscapedCounts(s: string)
    ensures |OnceEscaped(s)| == |s| + Count(s, '\"')
    ensures Count(OnceEscaped(s), '\\') == Count(s, '\\') + Count(s, '\"')
  {
    if s != "" {
      OnceEscapedCounts(s[1..]);
      CountConcat(OnceRune(s[0]), OnceEscaped(s[1..]), '\\');
      assert OnceRune(s[0])[1..] == if s[0] == '\"' then "\"" else "";
      assert "\""[1..] == "";
    }
  }

  /** If the GraphQL layer gives back the text, the text had no backslash. */
  lemma BackslashIsLost(s: string)
    requires Decode(GraphQL, OnceEscaped(s)) == Some(s)
    ensures '\\' !in s
  {
    OnceEscapedCounts(s);
    DecodeBudget(GraphQL, OnceEscaped(s));
    CountPositive(s, '\\');
  }

  /**
   For every printable text that does not end in a backslash, as no JSON text
   does: both decoding layers together give the text back exactly when it has no
   backslash.
   */
  lemma MarshalRoundTrip(table: char -> bool, json: string)
    requires AllPrintable(table, json) && (json == "" || json[|json| - 1] != '\\')
    ensures Decode(Json, Spliced(table, json)).Some?
    ensures Decode(GraphQL, Decode(Json, Spliced(table, json)).value) == Some(json) <==> '\\' !in json
  {
    JsonLayer(table, json);
    if '\\' !in json {
      PlainLayer(table, json);
    } else if Decode(GraphQL, OnceEscaped(json)) == Some(json) {
      BackslashIsLost(json);
    }
  }

  // ---- Inside a whole request ----

  /** Texts alternately outside and inside quotes, with the given quote between them. */
  function Quoted(texts: seq<string>, quote: string): string
    requires texts != []
  {
    if |texts| == 1 then texts[0] else texts[0] + quote + Quoted(texts[1..], quote)
  }

  predicate AllRaw(s: string) {
    forall c :: c in s ==> Raw(Json, c)
  }

  lemma {:induction false} RawDecodes(s: string)
    requires AllRaw(s)
    ensures Decode(Json, s) == Some(s)
  {
    var id := (c: char) => [c];
    forall c | c in s ensures Decode(Json, id(c)) == Some(id(c)) {
      DecodeRaw(Json, c);
    }
    DecodeFlat(Json, s, id, id);
    FlatIdentity(s, id);
  }

  lemma DecodeThree(a: string, b: string, c: string)
    requires Decode(Json, a).Some? && Decode(Json, b).Some? && Decode(Json, c).Some?
    ensures Decode(Json, a + b + c) == Some(Decode(Json, a).value + Decode(Json, b).value + Decode(Json, c).value)
  {
    DecodeConcat(Json, a, b);
    DecodeConcat(Json, a + b, c);
  }

  /** Hand-escaped quotes between raw texts come out as plain quotes. */
  lemma {:induction false} QuotedDecodes(texts: seq<string>)
    requires texts != [] && forall t :: t in texts ==> AllRaw(t)
    ensures Decode(Json, Quoted(texts, ESCAPED_QUOTE)) == Some(Quoted(texts, "\""))
  {
    RawDecodes(texts[0]);
    if |texts| > 1 {
      QuotedDecodes(texts[1..]);
      DecodeEscape(Json, '\"', '\"');
      DecodeThree(texts[0], ESCAPED_QUOTE, Quoted(texts[1..], ESCAPED_QUOTE));
    }
  }

  /**
   The query member of a request whose mutation is made of raw texts and one
   spliced value: head ends in the value's opening quote, tail starts with its
   closing one.
   */
  function QueryText(table: char -> bool, head: seq<string>, json: string, tail: seq<string>): string
    requires head != [] && tail != []
  {
    Quoted(head, ESCAPED_QUOTE) + ESCAPED_QUOTE + Spliced(table, json) + ESCAPED_QUOTE + Quoted(tail, ESCAPED_QUOTE)
  }

  /** The GraphQL document up to and including the value's opening quote, and after its closing one. */
  function DocumentHead(head: seq<string>): string
    requires head != []
  {
    Quoted(head, "\"") + "\""
  }

  lemma {:induction false} DecodeFive(a: string, b: string, c: string, d: string, e: string)
    requires Decode(Json, a).Some? && Decode(Json, b).Some? && Decode(Json, c).Some? && Decode(Json, d).Some? && Decode(Json, e).Some?
    ensures Decode(Json, a + b + c + d + e)
         == Some(Decode(Json, a).value + Decode(Json, b).value + Decode(Json, c).value + Decode(Json, d).value + Decode(Json, e).value)
  {
    DecodeThree(a, b, c);
    DecodeConcat(Json, a + b + c, d);
    DecodeConcat(Json, a + b + c + d, e);
  }

  /**
   The server reads the request: its JSON parser takes the query up to the closing
   quote, and in that document its GraphQL lexer takes the spliced text as one
   string, with the value the GraphQL layer gives it, and goes on behind it.
   */
  lemma RequestDelivers(table: char -> bool, head: seq<string>, json: string, tail: seq<string>, rest: string, value: string)
    requires head != [] && tail != []
    requires (forall t :: t in head ==> AllRaw(t)) && (forall t :: t in tail ==> AllRaw(t))
    requires AllPrintable(table, json) && (json == "" || json[|json| - 1] != '\\')
    requires Decode(GraphQL, OnceEscaped(json)) == Some(value)
    ensures Lex(Json, QueryText(table, head, json, tail) + "\"" + rest)
         == Some((DocumentHead(head) + OnceEscaped(json) + "\"" + Quoted(tail, "\""), rest))
    ensures Lex(GraphQL, OnceEscaped(json) + "\"" + Quoted(tail, "\"")) == Some((value, Quoted(tail, "\"")))
  {
    JsonLayer(table, json);
    QuotedDecodes(head);
    QuotedDecodes(tail);
    DecodeEscape(Json, '\"', '\"');
    DecodeFive(Quoted(head, ESCAPED_QUOTE), ESCAPED_QUOTE, Spliced(table, json), ESCAPED_QUOTE, Quoted(tail, ESCAPED_QUOTE));
    LexDecodes(Json, QueryText(table, head, json, tail), rest);
    LexDecodes(GraphQL, OnceEscaped(json), Quoted(tail, "\""));
  }

  /** For backslash-free JSON text the value delivered is the text itself. */
  lemma RequestRoundTrip(table: char -> bool, head: seq<string>, json: string, tail: seq<string>, rest: string)
    requires head != [] && tail != []
    requires (forall t :: t in head ==> AllRaw(t)) && (forall t :: t in tail ==> AllRaw(t))
    requires AllPrintable(table, json) && '\\' !in json
    ensures Lex(Json, QueryText(table, head, json, tail) + "\"" + rest)
         == Some((DocumentHead(head) + OnceEscaped(json) + "\"" + Quoted(tail, "\""), rest))
    ensures Lex(GraphQL, OnceEscaped(json) + "\"" + Quoted(tail, "\"")) == Some((json, Quoted(tail, "\"")))
  {
    PlainLayer(table, json);
    RequestDelivers(table, head, json, tail, rest, json);
  }
}
