/**
 Pod logs: quoted once more before they are marshalled, so that they survive the
 JSON, GraphQL and JSON layers of their way to the browser.
 */
module PodLogs {
  import opened Wrappers
  import opened GqlEncoding
  import opened Payloads
  import opened JsonReader

  // ---- The extra quoting of CreatePodLog ----

  function SingleRune(c: char): string {
    if c == '\"' then "'" else [c]
  }

  /** The log with double quotes replaced by single ones. */
  function SingleQuoted(log: string): string {
    Flat(log, SingleRune)
  }

  /** Character by character. */
  lemma {:induction false} SingleQuotedAt(log: string, i: nat)
    requires i < |log|
    ensures |SingleQuoted(log)| == |log|
    ensures SingleQuoted(log)[i] == if log[i] == '\"' then '\'' else log[i]
  {
    if |log| > 1 {
      SingleQuotedAt(log[1..], if i > 0 then i - 1 else 0);
    } else {
      assert log[1..] == "" && Flat(log[1..], SingleRune) == "";
    }
  }

  /** strconv.Quote of that, without its first and last character. */
  function Shielded(table: char -> bool, log: string): string {
    QuoteBody(table, SingleQuoted(log))
  }

  datatype PodLog = PodLog(mainPod: string, chaosPod: Option<map<string, string>>)

  const NO_MAIN_LOG := "Failed to get argo pod logs"

  /** The log of a pod, unless there is no such pod or it cannot be read. */
  function Readable(pod: Option<string>, log: Option<string>): map<string, string> {
    if pod.Some? && log.Some? then map[pod.value := log.value] else map[]
  }

  /** The logs as they are fetched; for one pod named twice the runner's wins over the experiment's. */
  function Collected(mainLog: Option<string>, isChaosEngine: bool, expPod: Option<string>, expLog: Option<string>,
                     runnerPod: Option<string>, runnerLog: Option<string>): PodLog {
    PodLog(if mainLog.Some? then mainLog.value else NO_MAIN_LOG,
           if isChaosEngine && (expPod.Some? || runnerPod.Some?)
           then Some(Readable(expPod, expLog) + Readable(runnerPod, runnerLog)) else None)
  }

  /** The pod is named, and its log could be read. */
  predicate Read(pod: Option<string>, log: Option<string>, name: string) {
    pod == Some(name) && log.Some?
  }

  /** Each log is filed under its own pod; for one pod named twice the runner's wins if it could be read. */
  lemma CollectedMeans(mainLog: Option<string>, isChaosEngine: bool, expPod: Option<string>, expLog: Option<string>,
                       runnerPod: Option<string>, runnerLog: Option<string>)
    ensures var logs := Collected(mainLog, isChaosEngine, expPod, expLog, runnerPod, runnerLog);
      && logs.mainPod == (if mainLog.Some? then mainLog.value else NO_MAIN_LOG)
      && (logs.chaosPod.Some? <==> isChaosEngine && (expPod.Some? || runnerPod.Some?))
      && (logs.chaosPod.Some? ==> forall pod :: pod in logs.chaosPod.value <==> Read(expPod, expLog, pod) || Read(runnerPod, runnerLog, pod))
      && (logs.chaosPod.Some? ==> forall pod :: Read(runnerPod, runnerLog, pod) ==> logs.chaosPod.value[pod] == runnerLog.value)
      && (logs.chaosPod.Some? ==> forall pod :: Read(expPod, expLog, pod) && !Read(runnerPod, runnerLog, pod) ==>
            logs.chaosPod.value[pod] == expLog.value)
  {
  }

  function ShieldEach(table: char -> bool, logs: map<string, string>): map<string, string> {
    map k | k in logs :: Shielded(table, logs[k])
  }

  function ShieldAll(table: char -> bool, logs: PodLog): PodLog {
    PodLog(Shielded(table, logs.mainPod), if logs.chaosPod.Some? then Some(ShieldEach(table, logs.chaosPod.value)) else None)
  }

  method Shield(table: char -> bool, log: string) returns (shielded: string)
    ensures shielded == Shielded(table, log)
  {
    var quoted := Quote(table, SingleQuoted(log));
    Unwrap(Shielded(table, log));
    shielded := quoted[1..|quoted| - 1];
  }

  /** Printable ASCII without quotes and backslashes. */
  predicate Simple(s: string) {
    forall i :: 0 <= i < |s| ==> AsciiPrintable(s[i]) && s[i] != '\"' && s[i] != '\\'
  }

  lemma SimpleIsShielded(table: char -> bool, s: string)
    requires Simple(s)
    ensures Shielded(table, s) == s
  {
    assert forall c :: c in s ==> AsciiPrintable(c) && c != '\"' && c != '\\';
    FlatIdentity(s, SingleRune);
    var f := (c: char) => QuoteRune(table, c);
    FlatIdentity(s, f);
    FlatSame(s, f, (c: char) => QuoteRune(table, c));
  }

  lemma FailureTextIsSimple()
    ensures Simple(NO_MAIN_LOG)
  {
  }

  /** The failure text is stored as it is, which is also its shielded form. */
  lemma FailureTextIsShielded(table: char -> bool)
    ensures Shielded(table, NO_MAIN_LOG) == NO_MAIN_LOG
  {
    FailureTextIsSimple();
    SimpleIsShielded(table, NO_MAIN_LOG);
  }

  lemma ShieldOneMore(table: char -> bool, logs: map<string, string>, pod: string, log: string)
    ensures ShieldEach(table, logs)[pod := Shielded(table, log)] == ShieldEach(table, logs + map[pod := log])
  {
  }

  /** The chaos logs of CreatePodLog. */
  method CreateChaosLog(table: char -> bool, expPod: Option<string>, expLog: Option<string>,
                        runnerPod: Option<string>, runnerLog: Option<string>) returns (chaosLog: map<string, string>)
    ensures chaosLog == ShieldEach(table, Readable(expPod, expLog) + Readable(runnerPod, runnerLog))
  {
    chaosLog := map[];
    assert map[] + Readable(expPod, expLog) == Readable(expPod, expLog);
    if expPod.Some? && expLog.Some? {
      var shielded := Shield(table, expLog.value);
      ShieldOneMore(table, map[], expPod.value, expLog.value);
      chaosLog := chaosLog[expPod.value := shielded];
    }
    assert chaosLog == ShieldEach(table, Readable(expPod, expLog));
    if runnerPod.Some? && runnerLog.Some? {
      var shielded := Shield(table, runnerLog.value);
      ShieldOneMore(table, Readable(expPod, expLog), runnerPod.value, runnerLog.value);
      chaosLog := chaosLog[runnerPod.value := shielded];
    } else {
      assert Readable(expPod, expLog) + map[] == Readable(expPod, expLog);
    }
  }

  /**
   isChaosEngine stands for the test of the pod type and of the chaos namespace;
   each log is None where GetLogs returns an error.
   */
  method CreatePodLog(table: char -> bool, mainLog: Option<string>, isChaosEngine: bool,
                      expPod: Option<string>, expLog: Option<string>,
                      runnerPod: Option<string>, runnerLog: Option<string>) returns (details: PodLog)
    ensures details.mainPod == if mainLog.Some? then Shielded(table, mainLog.value) else NO_MAIN_LOG
    ensures details.chaosPod.Some? <==> isChaosEngine && (expPod.Some? || runnerPod.Some?)
    ensures details.chaosPod.Some? ==> forall pod :: pod in details.chaosPod.value <==> Read(expPod, expLog, pod) || Read(runnerPod, runnerLog, pod)
    ensures details.chaosPod.Some? ==> forall pod :: Read(runnerPod, runnerLog, pod) ==>
      details.chaosPod.value[pod] == Shielded(table, runnerLog.value)
    ensures details.chaosPod.Some? ==> forall pod :: Read(expPod, expLog, pod) && !Read(runnerPod, runnerLog, pod) ==>
      details.chaosPod.value[pod] == Shielded(table, expLog.value)
    ensures details == ShieldAll(table, Collected(mainLog, isChaosEngine, expPod, expLog, runnerPod, runnerLog))
  {
    FailureTextIsShielded(table);
    CollectedMeans(mainLog, isChaosEngine, expPod, expLog, runnerPod, runnerLog);
    details := PodLog(NO_MAIN_LOG, None);
    if mainLog.Some? {
      var shielded := Shield(table, mainLog.value);
      details := details.(mainPod := shielded);
    }
    if isChaosEngine {
      var chaosLog := CreateChaosLog(table, expPod, expLog, runnerPod, runnerLog);
      details := details.(chaosPod := if expPod.None? && runnerPod.None? then None else Some(chaosLog));
    }
  }

  // ---- JSON text made of fixed pieces and logs ----

  /** A piece of the marshalled struct: fixed JSON text, a pod's name or one log inside its quotes. */
  datatype Piece = Fixed(text: string) | Name(text: string) | Log(text: string)

  /** A piece as json.Marshal writes it, or as it is left behind the GraphQL layer. */
  datatype Form = Encoded | Plain

  function PieceText(table: char -> bool, form: Form, p: Piece): string {
    match p
    case Fixed(text) => text
    case Name(text) => if form.Encoded? then JsonBody(text) else text
    case Log(text) => if form.Encoded? then JsonBody(Shielded(table, text)) else Shielded(table, text)
  }

  function Rendered(table: char -> bool, form: Form, ps: seq<Piece>): string {
    if ps == [] then "" else PieceText(table, form, ps[0]) + Rendered(table, form, ps[1..])
  }

  function JsonText(table: char -> bool, ps: seq<Piece>): string {
    Rendered(table, Encoded, ps)
  }

  /** What is left of the pieces behind the GraphQL layer. */
  function Received(table: char -> bool, ps: seq<Piece>): string {
    Rendered(table, Plain, ps)
  }

  /** Any ASCII character, control characters included, or a printable one beyond. */
  predicate Loggable(table: char -> bool, c: char) {
    c < 0x80 as char || Printable(table, c)
  }

  /** As every name of a pod whose log can be read: no quote, backslash or control character. */
  predicate PlainName(table: char -> bool, name: string) {
    AllPrintable(table, name) && '\"' !in name && '\\' !in name
  }

  predicate WellFormed(table: char -> bool, p: Piece) {
    match p
    case Fixed(text) => AllPrintable(table, text) && '\\' !in text
    case Name(text) => PlainName(table, text)
    case Log(text) => forall c :: c in text ==> Loggable(table, c)
  }

  lemma {:induction false} FlatChars(s: string, f: char -> string, ok: char -> bool)
    requires forall c :: c in s ==> forall x :: x in f(c) ==> ok(x)
    ensures forall x :: x in Flat(s, f) ==> ok(x)
  {
    if s != "" {
      FlatChars(s[1..], f, ok);
    }
  }

  lemma {:induction false} HexIsPrintable(table: char -> bool, n: nat, width: nat)
    ensures AllPrintable(table, Hex(n, width))
  {
    if width > 0 {
      HexIsPrintable(table, n / 16, width - 1);
    }
  }

  lemma QuoteRuneChars(table: char -> bool, c: char)
    requires Loggable(table, c) && c != '\"'
    ensures AllPrintable(table, QuoteRune(table, c)) && '\"' !in QuoteRune(table, c)
  {
    HexIsPrintable(table, c as int, 2);
    HexIsPlain(c as int, 2);
  }

  lemma SingleQuotedChars(table: char -> bool, log: string)
    requires forall c :: c in log ==> Loggable(table, c)
    ensures forall c :: c in SingleQuoted(log) ==> Loggable(table, c) && c != '\"'
  {
    FlatChars(log, SingleRune, (c: char) => Loggable(table, c) && c != '\"');
  }

  lemma ShieldedChars(table: char -> bool, log: string)
    requires forall c :: c in log ==> Loggable(table, c)
    ensures AllPrintable(table, Shielded(table, log)) && '\"' !in Shielded(table, log)
  {
    SingleQuotedChars(table, log);
    var f := (c: char) => QuoteRune(table, c);
    var ok := (x: char) => Printable(table, x) && x != '\"';
    forall c | c in SingleQuoted(log) ensures forall x :: x in f(c) ==> ok(x) {
      QuoteRuneChars(table, c);
    }
    FlatChars(SingleQuoted(log), f, ok);
    FlatSame(SingleQuoted(log), f, (c: char) => QuoteRune(table, c));
  }

  lemma JsonRuneChars(table: char -> bool, c: char)
    requires Printable(table, c) && c != '\"'
    ensures AllPrintable(table, JsonRune(c)) && '\"' !in JsonRune(c)
  {
  }

  lemma HexEscapeDecodes(d: Dialect, s: string, c: char)
    requires |s| == 6 && s[0] == '\\' && s[1] == 'u' && UnicodeEscape(s[2..]) == Some(c)
    ensures Decode(d, s) == Some([c])
  {
    DecodeOne(d, s);
  }

  lemma JsonRuneDecodes(table: char -> bool, c: char)
    requires Printable(table, c) && c != '\"'
    ensures Decode(GraphQL, JsonRune(c)) == Some([c])
  {
    if c == '\\' {
      DecodeEscape(GraphQL, '\\', '\\');
    } else if |JsonRune(c)| == 6 {
      HexEscapeDecodes(GraphQL, JsonRune(c), c);
    } else {
      DecodeRaw(GraphQL, c);
    }
  }

  /** The GraphQL layer takes exactly one level of escaping off a shielded log. */
  lemma LogLayer(table: char -> bool, q: string)
    requires AllPrintable(table, q) && '\"' !in q
    ensures AllPrintable(table, JsonBody(q))
    ensures OnceEscaped(JsonBody(q)) == JsonBody(q)
    ensures Decode(GraphQL, JsonBody(q)) == Some(q)
  {
    var ok := (x: char) => Printable(table, x) && x != '\"';
    var id := (c: char) => [c];
    forall c | c in q ensures (forall x :: x in JsonRune(c) ==> ok(x)) && Decode(GraphQL, JsonRune(c)) == Some(id(c)) {
      JsonRuneChars(table, c);
      JsonRuneDecodes(table, c);
    }
    FlatChars(q, JsonRune, ok);
    FlatIdentity(JsonBody(q), OnceRune);
    DecodeFlat(GraphQL, q, JsonRune, id);
    FlatIdentity(q, id);
  }

  lemma {:induction false} PiecesLayer(table: char -> bool, ps: seq<Piece>)
    requires forall p :: p in ps ==> WellFormed(table, p)
    ensures AllPrintable(table, JsonText(table, ps))
    ensures Decode(GraphQL, OnceEscaped(JsonText(table, ps))) == Some(Received(table, ps))
  {
    if ps != [] {
      var a, b := PieceText(table, Encoded, ps[0]), JsonText(table, ps[1..]);
      PiecesLayer(table, ps[1..]);
      assert WellFormed(table, ps[0]);
      if ps[0].Fixed? {
        PlainLayer(table, a);
      } else if ps[0].Name? {
        LogLayer(table, ps[0].text);
      } else {
        ShieldedChars(table, ps[0].text);
        LogLayer(table, Shielded(table, ps[0].text));
      }
      FlatConcat(a, b, OnceRune);
      DecodeConcat(GraphQL, OnceEscaped(a), OnceEscaped(b));
    }
  }

  // ---- The last JSON layer ----

  /** The characters that strconv.Quote writes in a form JSON reads back. */
  predicate Survives(table: char -> bool, c: char) {
    IsPrint(table, c) || c == 8 as char || c == 12 as char || c == '\n' || c == '\r' || c == '\t'
  }

  lemma SurvivorDecodes(table: char -> bool, c: char)
    requires Survives(table, c) && c != '\"'
    ensures Decode(Json, QuoteRune(table, c)) == Some([c])
  {
    if c == '\\' {
      DecodeEscape(Json, '\\', '\\');
    } else if IsPrint(table, c) {
      DecodeRaw(Json, c);
    } else {
      DecodeEscape(Json, c, QuoteRune(table, c)[1]);
      assert QuoteRune(table, c) == ['\\', QuoteRune(table, c)[1]];
    }
  }

  lemma OthersFail(table: char -> bool, c: char)
    requires c < 0x80 as char && !Survives(table, c)
    ensures Undecodable(Json, QuoteRune(table, c))
  {
    var u := QuoteRune(table, c);
    assert u[0] == '\\' && (u[1] == 'a' || u[1] == 'v' || u[1] == 'x');
    forall rest ensures First(Json, u + rest).None? {
      assert (u + rest)[0] == u[0] && (u + rest)[1] == u[1];
    }
  }

  predicate LogSurvives(table: char -> bool, log: string) {
    forall c :: c in log ==> Survives(table, c)
  }

  lemma QuotedSurvives(table: char -> bool, s: string)
    requires '\"' !in s && LogSurvives(table, s)
    ensures Decode(Json, QuoteBody(table, s)) == Some(s)
  {
    var f, id := (c: char) => QuoteRune(table, c), (c: char) => [c];
    forall c | c in s ensures Decode(Json, f(c)) == Some(id(c)) {
      SurvivorDecodes(table, c);
    }
    DecodeFlat(Json, s, f, id);
    FlatIdentity(s, id);
    FlatSame(s, f, (c: char) => QuoteRune(table, c));
  }

  lemma QuotedFails(table: char -> bool, s: string, tail: string)
    requires '\"' !in s && !LogSurvives(table, s) && forall c :: c in s ==> Loggable(table, c)
    ensures Lex(Json, QuoteBody(table, s) + tail) == None
  {
    var f := (c: char) => QuoteRune(table, c);
    var bad :| bad in s && !Survives(table, bad);
    forall c | c in s ensures Decode(Json, f(c)).Some? || Undecodable(Json, f(c)) {
      if Survives(table, c) {
        SurvivorDecodes(table, c);
      } else {
        OthersFail(table, c);
      }
    }
    OthersFail(table, bad);
    LexFlatFails(Json, s, f, bad, tail);
    FlatSame(s, f, (c: char) => QuoteRune(table, c));
  }

  /** Reading a shielded log up to its closing quote gives the log back if every character survives, and fails otherwise. */
  lemma ShieldedRoundTrip(table: char -> bool, log: string, rest: string)
    requires forall c :: c in log ==> Loggable(table, c)
    ensures Lex(Json, Shielded(table, log) + "\"" + rest)
         == if LogSurvives(table, log) then Some((SingleQuoted(log), rest)) else None
  {
    SingleQuotedChars(table, log);
    SurvivorsInSingle(table, log);
    if LogSurvives(table, log) {
      QuotedSurvives(table, SingleQuoted(log));
      LexDecodes(Json, Shielded(table, log), rest);
    } else {
      QuotedFails(table, SingleQuoted(log), "\"" + rest);
      assert Shielded(table, log) + "\"" + rest == Shielded(table, log) + ("\"" + rest);
    }
  }

  lemma {:induction false} SurvivorsInSingle(table: char -> bool, log: string)
    ensures (forall c :: c in SingleQuoted(log) ==> Survives(table, c)) <==> (forall c :: c in log ==> Survives(table, c))
  {
    if log != "" {
      SurvivorsInSingle(table, log[1..]);
      var rest := SingleQuoted(log[1..]);
      assert forall c :: c in log <==> c == log[0] || c in log[1..];
      assert forall c :: c in SingleQuoted(log) <==> c in SingleRune(log[0]) || c in rest;
      assert SingleRune(log[0])[0] in SingleRune(log[0]);
    }
  }

  /** Splicing, the JSON layer and the GraphQL layer together. */
  lemma PiecesEndToEnd(table: char -> bool, ps: seq<Piece>)
    requires forall p :: p in ps ==> WellFormed(table, p)
    requires EndsPlain(JsonText(table, ps))
    ensures var document := Decode(Json, Spliced(table, JsonText(table, ps)));
      document.Some? && Decode(GraphQL, document.value) == Some(Received(table, ps))
  {
    PiecesLayer(table, ps);
    JsonLayer(table, JsonText(table, ps));
  }

  /** Like every JSON text, it does not end in a backslash. */
  predicate EndsPlain(s: string) {
    s != "" && s[|s| - 1] != '\\'
  }

  lemma {:induction false} RenderedConcat(table: char -> bool, form: Form, ps: seq<Piece>, qs: seq<Piece>)
    ensures Rendered(table, form, ps + qs) == Rendered(table, form, ps) + Rendered(table, form, qs)
  {
    if ps == [] {
      assert ps + qs == qs;
    } else {
      assert (ps + qs)[1..] == ps[1..] + qs;
      RenderedConcat(table, form, ps[1..], qs);
    }
  }

  // ---- The whole struct ----

  type Entry = (string, string)

  /** The chaosLogs entries, the keys and logs given as they stand inside their quotes. */
  function EntriesText(entries: seq<Entry>): string {
    if entries == [] then ""
    else
      Keyed(entries[0].0, "\"" + entries[0].1 + "\"") + (if |entries| == 1 then "" else ",") + EntriesText(entries[1..])
  }

  /** The names of the struct's two fields. */
  datatype Fields = Fields(main: string, chaos: string)

  const POD_LOG := Fields("mainLogs", "chaosLogs")

  /** The struct's JSON text; chaosLogs is omitted when it is empty. */
  function StructText(fs: Fields, main: string, entries: seq<Entry>): string {
    "{" + Keyed(fs.main, "\"" + main + "\"")
    + (if entries == [] then "" else "," + Keyed(fs.chaos, "{" + EntriesText(entries) + "}")) + "}"
  }

  ghost predicate Lists(order: seq<string>, logs: PodLog) {
    && (forall i, j :: 0 <= i < j < |order| ==> order[i] != order[j])
    && forall k :: k in order <==> logs.chaosPod.Some? && k in logs.chaosPod.value
  }

  function EntriesOf(order: seq<string>, logs: PodLog): seq<Entry>
    requires Lists(order, logs)
  {
    seq(|order|, i requires 0 <= i < |order| => assert order[i] in order; (order[i], logs.chaosPod.value[order[i]]))
  }

  function EncodeEntries(entries: seq<Entry>): seq<Entry> {
    seq(|entries|, i requires 0 <= i < |entries| => (JsonBody(entries[i].0), JsonBody(entries[i].1)))
  }

  /** json.Marshal of the struct, the map's keys in the given order. */
  function MarshalPodLog(details: PodLog, order: seq<string>): string
    requires Lists(order, details)
  {
    StructText(POD_LOG, JsonBody(details.mainPod), EncodeEntries(EntriesOf(order, details)))
  }

  // The same text as pieces.

  function EntryPieces(entries: seq<Entry>): seq<Piece> {
    if entries == [] then []
    else
      [Fixed("\""), Name(entries[0].0), Fixed("\":"), Fixed("\""), Log(entries[0].1), Fixed("\"")]
      + (if |entries| == 1 then [] else [Fixed(",")]) + EntryPieces(entries[1..])
  }

  function MainPieces(fs: Fields, main: string): seq<Piece> {
    [Fixed("{"), Fixed(KeyText(fs.main))] + [Fixed("\""), Log(main), Fixed("\"")]
  }

  function ChaosPieces(fs: Fields, entries: seq<Entry>): seq<Piece> {
    if entries == [] then [] else [Fixed(","), Fixed(KeyText(fs.chaos)), Fixed("{")] + EntryPieces(entries) + [Fixed("}")]
  }

  function StructPieces(fs: Fields, main: string, entries: seq<Entry>): seq<Piece> {
    MainPieces(fs, main) + ChaosPieces(fs, entries) + [Fixed("}")]
  }

  function FormEntries(table: char -> bool, form: Form, entries: seq<Entry>): seq<Entry> {
    seq(|entries|, i requires 0 <= i < |entries| =>
      (PieceText(table, form, Name(entries[i].0)), PieceText(table, form, Log(entries[i].1))))
  }

  lemma Step(table: char -> bool, form: Form, p: Piece, rest: seq<Piece>)
    ensures Rendered(table, form, [p] + rest) == PieceText(table, form, p) + Rendered(table, form, rest)
  {
    assert ([p] + rest)[1..] == rest;
  }

  lemma RenderTwo(table: char -> bool, form: Form, p: Piece, q: Piece)
    ensures Rendered(table, form, [p, q]) == PieceText(table, form, p) + PieceText(table, form, q)
  {
    assert [p, q] == [p] + [q] && [q] == [q] + [];
    Step(table, form, p, [q]);
    Step(table, form, q, []);
    assert PieceText(table, form, q) + "" == PieceText(table, form, q);
  }

  lemma RenderThree(table: char -> bool, form: Form, p: Piece, q: Piece, r: Piece)
    ensures Rendered(table, form, [p, q, r]) == PieceText(table, form, p) + PieceText(table, form, q) + PieceText(table, form, r)
  {
    assert [p, q, r] == [p] + [q, r];
    Step(table, form, p, [q, r]);
    RenderTwo(table, form, q, r);
  }

  lemma RenderEntry(table: char -> bool, form: Form, key: string, log: string)
    ensures Rendered(table, form, [Fixed("\""), Name(key), Fixed("\":"), Fixed("\""), Log(log), Fixed("\"")])
         == Keyed(PieceText(table, form, Name(key)), "\"" + PieceText(table, form, Log(log)) + "\"")
  {
    var a, b := [Fixed("\""), Name(key), Fixed("\":")], [Fixed("\""), Log(log), Fixed("\"")];
    assert [Fixed("\""), Name(key), Fixed("\":"), Fixed("\""), Log(log), Fixed("\"")] == a + b;
    RenderedConcat(table, form, a, b);
    RenderThree(table, form, Fixed("\""), Name(key), Fixed("\":"));
    RenderThree(table, form, Fixed("\""), Log(log), Fixed("\""));
  }

  lemma RenderFixed(table: char -> bool, form: Form, text: string)
    ensures Rendered(table, form, [Fixed(text)]) == text
  {
    assert [Fixed(text)] == [Fixed(text)] + [];
    Step(table, form, Fixed(text), []);
  }

  lemma RenderFirst(table: char -> bool, form: Form, entries: seq<Entry>)
    requires entries != []
    ensures Rendered(table, form, EntryPieces(entries))
         == Keyed(PieceText(table, form, Name(entries[0].0)), "\"" + PieceText(table, form, Log(entries[0].1)) + "\"")
            + (if |entries| == 1 then "" else ",") + Rendered(table, form, EntryPieces(entries[1..]))
  {
    var first := [Fixed("\""), Name(entries[0].0), Fixed("\":"), Fixed("\""), Log(entries[0].1), Fixed("\"")];
    var comma := if |entries| == 1 then [] else [Fixed(",")];
    RenderEntry(table, form, entries[0].0, entries[0].1);
    RenderFixed(table, form, ",");
    RenderedConcat(table, form, first + comma, EntryPieces(entries[1..]));
    RenderedConcat(table, form, first, comma);
  }

  lemma {:induction false} RenderEntries(table: char -> bool, form: Form, entries: seq<Entry>)
    ensures Rendered(table, form, EntryPieces(entries)) == EntriesText(FormEntries(table, form, entries))
  {
    if entries != [] {
      RenderFirst(table, form, entries);
      RenderEntries(table, form, entries[1..]);
      assert FormEntries(table, form, entries)[1..] == FormEntries(table, form, entries[1..]);
    }
  }

  lemma RenderMain(table: char -> bool, form: Form, fs: Fields, main: string)
    ensures Rendered(table, form, MainPieces(fs, main)) == "{" + Keyed(fs.main, "\"" + PieceText(table, form, Log(main)) + "\"")
  {
    RenderedConcat(table, form, [Fixed("{"), Fixed(KeyText(fs.main))], [Fixed("\""), Log(main), Fixed("\"")]);
    RenderTwo(table, form, Fixed("{"), Fixed(KeyText(fs.main)));
    RenderThree(table, form, Fixed("\""), Log(main), Fixed("\""));
    Associate("{", KeyText(fs.main), "\"" + PieceText(table, form, Log(main)) + "\"");
  }

  lemma Associate(a: string, b: string, c: string)
    ensures a + b + c == a + (b + c)
  {
  }

  lemma RenderChaos(table: char -> bool, form: Form, fs: Fields, entries: seq<Entry>)
    requires entries != []
    ensures Rendered(table, form, ChaosPieces(fs, entries))
         == "," + Keyed(fs.chaos, "{" + EntriesText(FormEntries(table, form, entries)) + "}")
  {
    var opening := [Fixed(","), Fixed(KeyText(fs.chaos)), Fixed("{")];
    var text := EntriesText(FormEntries(table, form, entries));
    RenderedConcat(table, form, opening + EntryPieces(entries), [Fixed("}")]);
    RenderedConcat(table, form, opening, EntryPieces(entries));
    RenderThree(table, form, Fixed(","), Fixed(KeyText(fs.chaos)), Fixed("{"));
    RenderEntries(table, form, entries);
    RenderFixed(table, form, "}");
    AssociateFive(",", KeyText(fs.chaos), "{", text, "}");
  }

  lemma AssociateFive(a: string, b: string, c: string, d: string, e: string)
    ensures a + b + c + d + e == a + (b + (c + d + e))
  {
  }

  /** The pieces make up the struct's text, before as well as behind the two layers. */
  lemma RenderStruct(table: char -> bool, form: Form, fs: Fields, main: string, entries: seq<Entry>)
    ensures Rendered(table, form, StructPieces(fs, main, entries))
         == StructText(fs, PieceText(table, form, Log(main)), FormEntries(table, form, entries))
  {
    RenderedConcat(table, form, MainPieces(fs, main) + ChaosPieces(fs, entries), [Fixed("}")]);
    RenderedConcat(table, form, MainPieces(fs, main), ChaosPieces(fs, entries));
    RenderMain(table, form, fs, main);
    if entries != [] {
      RenderChaos(table, form, fs, entries);
    }
    RenderFixed(table, form, "}");
  }

  // ---- Reading the whole struct back ----

  function ReadEntries(entries: seq<Entry>): seq<(string, Value)> {
    seq(|entries|, i requires 0 <= i < |entries| => (entries[i].0, Text(SingleQuoted(entries[i].1))))
  }

  /** The struct with every log as it was, its double quotes replaced by single ones. */
  function ReadBack(fs: Fields, main: string, entries: seq<Entry>): Value {
    Object([(fs.main, Text(SingleQuoted(main)))] + if entries == [] then [] else [(fs.chaos, Object(ReadEntries(entries)))])
  }

  predicate EntriesSurvive(table: char -> bool, entries: seq<Entry>) {
    forall i :: 0 <= i < |entries| ==> LogSurvives(table, entries[i].1)
  }

  predicate GoodEntry(table: char -> bool, e: Entry) {
    PlainName(table, e.0) && forall c :: c in e.1 ==> Loggable(table, c)
  }

  lemma PlainIsRaw(table: char -> bool, name: string)
    requires PlainName(table, name)
    ensures AllRaw(name)
  {
  }

  /** The log behind a key is read if it survives; otherwise the object around it cannot be read. */
  lemma ReadLogMember(table: char -> bool, key: string, log: string, rest: string)
    requires AllRaw(key) && forall c :: c in log ==> Loggable(table, c)
    ensures ReadMembers(Keyed(key, "\"" + Shielded(table, log) + "\"") + rest)
         == if LogSurvives(table, log) then Onward(key, Some((Text(SingleQuoted(log)), rest))) else None
  {
    var value := "\"" + Shielded(table, log) + "\"";
    assert Keyed(key, value) + rest == Keyed(key, value + rest);
    ReadMember(key, value + rest);
    ReadText(Shielded(table, log), rest);
    ShieldedRoundTrip(table, log, rest);
  }

  function Shields(table: char -> bool, entries: seq<Entry>): seq<Entry> {
    FormEntries(table, Plain, entries)
  }

  lemma EntriesTextSteps(table: char -> bool, entries: seq<Entry>)
    requires entries != []
    ensures var first := Keyed(entries[0].0, "\"" + Shielded(table, entries[0].1) + "\"");
      EntriesText(Shields(table, entries))
        == if |entries| == 1 then first else first + ("," + EntriesText(Shields(table, entries[1..])))
  {
    assert Shields(table, entries)[1..] == Shields(table, entries[1..]);
    if |entries| == 1 {
      assert EntriesText(Shields(table, entries[1..])) == "";
    }
  }

  /** Behind the last entry stands the closing brace, behind any other a comma. */
  lemma ReadLastEntry(table: char -> bool, e: Entry, rest: string)
    requires GoodEntry(table, e)
    ensures ReadMembers(Keyed(e.0, "\"" + Shielded(table, e.1) + "\"") + ("}" + rest))
         == if LogSurvives(table, e.1) then Some(([(e.0, Text(SingleQuoted(e.1)))], rest)) else None
  {
    PlainIsRaw(table, e.0);
    ReadLogMember(table, e.0, e.1, "}" + rest);
    assert ("}" + rest)[1..] == rest;
  }

  lemma ReadFirstEntry(table: char -> bool, e: Entry, more: string)
    requires GoodEntry(table, e)
    ensures ReadMembers(Keyed(e.0, "\"" + Shielded(table, e.1) + "\"") + ("," + more))
         == if LogSurvives(table, e.1) then Prepend((e.0, Text(SingleQuoted(e.1))), ReadMembers(more)) else None
  {
    PlainIsRaw(table, e.0);
    ReadLogMember(table, e.0, e.1, "," + more);
    assert ("," + more)[1..] == more;
  }

  lemma ReadEntriesSteps(table: char -> bool, entries: seq<Entry>)
    requires entries != []
    ensures ReadEntries(entries) == [(entries[0].0, Text(SingleQuoted(entries[0].1)))] + ReadEntries(entries[1..])
    ensures EntriesSurvive(table, entries) <==> LogSurvives(table, entries[0].1) && EntriesSurvive(table, entries[1..])
  {
    forall i | 0 < i < |entries| ensures entries[i] == entries[1..][i - 1] {
    }
  }

  /** The text of the entries, closed by a brace. */
  function Closed(table: char -> bool, entries: seq<Entry>, rest: string): string {
    EntriesText(Shields(table, entries)) + ("}" + rest)
  }

  lemma ClosedSteps(table: char -> bool, entries: seq<Entry>, rest: string)
    requires entries != []
    ensures var first := Keyed(entries[0].0, "\"" + Shielded(table, entries[0].1) + "\"");
      Closed(table, entries, rest)
        == if |entries| == 1 then first + ("}" + rest) else first + ("," + Closed(table, entries[1..], rest))
  {
    EntriesTextSteps(table, entries);
    var first := Keyed(entries[0].0, "\"" + Shielded(table, entries[0].1) + "\"");
    AssociateFour(first, ",", EntriesText(Shields(table, entries[1..])), "}" + rest);
  }

  lemma AssociateFour(a: string, b: string, c: string, d: string)
    ensures a + (b + c) + d == a + (b + (c + d))
  {
  }

  lemma {:induction false} ReadAllEntries(table: char -> bool, entries: seq<Entry>, rest: string)
    requires entries != [] && forall i :: 0 <= i < |entries| ==> GoodEntry(table, entries[i])
    ensures ReadMembers(Closed(table, entries, rest))
         == if EntriesSurvive(table, entries) then Some((ReadEntries(entries), rest)) else None
  {
    ClosedSteps(table, entries, rest);
    ReadEntriesSteps(table, entries);
    if |entries| == 1 {
      ReadLastEntry(table, entries[0], rest);
      assert ReadEntries(entries) == [(entries[0].0, Text(SingleQuoted(entries[0].1)))];
    } else {
      ReadAllEntries(table, entries[1..], rest);
      ReadFirstEntry(table, entries[0], Closed(table, entries[1..], rest));
    }
  }

  lemma EntriesStartWithQuote(table: char -> bool, entries: seq<Entry>)
    requires entries != []
    ensures var text := EntriesText(Shields(table, entries)); text != "" && text[0] == '\"'
  {
  }

  /** The chaosLogs member and the end of the struct. */
  lemma ReadChaos(table: char -> bool, key: string, entries: seq<Entry>)
    requires AllRaw(key) && entries != [] && forall i :: 0 <= i < |entries| ==> GoodEntry(table, entries[i])
    ensures ReadMembers(Keyed(key, "{" + EntriesText(Shields(table, entries)) + "}") + "}")
         == if EntriesSurvive(table, entries) then Some(([(key, Object(ReadEntries(entries)))], "")) else None
  {
    var text := EntriesText(Shields(table, entries));
    var members := text + ("}" + "}");
    assert Keyed(key, "{" + text + "}") + "}" == Keyed(key, "{" + members);
    ReadMember(key, "{" + members);
    EntriesStartWithQuote(table, entries);
    ReadObject(members);
    ReadAllEntries(table, entries, "}");
    assert "}"[1..] == "";
  }

  lemma ReadMainOnly(table: char -> bool, key: string, main: string)
    requires AllRaw(key) && forall c :: c in main ==> Loggable(table, c)
    ensures ReadMembers(Keyed(key, "\"" + Shielded(table, main) + "\"") + "}")
         == if LogSurvives(table, main) then Some(([(key, Text(SingleQuoted(main)))], "")) else None
  {
    ReadLogMember(table, key, main, "}");
    assert "}"[1..] == "";
  }

  lemma ReadMainThen(table: char -> bool, key: string, main: string, more: string)
    requires AllRaw(key) && forall c :: c in main ==> Loggable(table, c)
    ensures ReadMembers(Keyed(key, "\"" + Shielded(table, main) + "\"") + ("," + more))
         == if LogSurvives(table, main) then Prepend((key, Text(SingleQuoted(main))), ReadMembers(more)) else None
  {
    ReadLogMember(table, key, main, "," + more);
    assert ("," + more)[1..] == more;
  }

  lemma ParseObject(members: string, value: seq<(string, Value)>)
    requires members != "" && members[0] == '\"'
    ensures ReadMembers(members) == Some((value, "")) ==> Parse("{" + members) == Some(Object(value))
    ensures ReadMembers(members) == None ==> Parse("{" + members) == None
  {
    ReadObject(members);
  }

  /** What follows the main log: the end of the struct, or the chaos logs and the end. */
  function AfterMain(fs: Fields, entries: seq<Entry>): string {
    if entries == [] then "}" else "," + (Keyed(fs.chaos, "{" + EntriesText(entries) + "}") + "}")
  }

  lemma StructTextParts(fs: Fields, main: string, entries: seq<Entry>)
    ensures StructText(fs, main, entries) == "{" + (Keyed(fs.main, "\"" + main + "\"") + AfterMain(fs, entries))
  {
  }

  lemma ReadFields(table: char -> bool, fs: Fields, main: string, entries: seq<Entry>)
    requires AllRaw(fs.main) && AllRaw(fs.chaos)
    requires (forall c :: c in main ==> Loggable(table, c)) && forall i :: 0 <= i < |entries| ==> GoodEntry(table, entries[i])
    ensures ReadMembers(Keyed(fs.main, "\"" + Shielded(table, main) + "\"") + AfterMain(fs, Shields(table, entries)))
         == if LogSurvives(table, main) && EntriesSurvive(table, entries)
            then Some((ReadBack(fs, main, entries).members, "")) else None
  {
    if entries == [] {
      ReadMainOnly(table, fs.main, main);
      assert ReadBack(fs, main, entries).members == [(fs.main, Text(SingleQuoted(main)))];
    } else {
      ReadMainThen(table, fs.main, main, Keyed(fs.chaos, "{" + EntriesText(Shields(table, entries)) + "}") + "}");
      ReadChaos(table, fs.chaos, entries);
    }
  }

  /** The received text is read as a whole: every log comes back, or nothing does. */
  lemma ReadStruct(table: char -> bool, fs: Fields, main: string, entries: seq<Entry>)
    requires AllRaw(fs.main) && AllRaw(fs.chaos)
    requires (forall c :: c in main ==> Loggable(table, c)) && forall i :: 0 <= i < |entries| ==> GoodEntry(table, entries[i])
    ensures Parse(StructText(fs, Shielded(table, main), Shields(table, entries)))
         == if LogSurvives(table, main) && EntriesSurvive(table, entries) then Some(ReadBack(fs, main, entries)) else None
  {
    var members := Keyed(fs.main, "\"" + Shielded(table, main) + "\"") + AfterMain(fs, Shields(table, entries));
    StructTextParts(fs, Shielded(table, main), Shields(table, entries));
    ReadFields(table, fs, main, entries);
    ParseObject(members, ReadBack(fs, main, entries).members);
  }

  // ---- The whole way ----

  predicate AllLoggable(table: char -> bool, logs: PodLog) {
    && (forall c :: c in logs.mainPod ==> Loggable(table, c))
    && (logs.chaosPod.Some? ==> forall k :: k in logs.chaosPod.value ==>
          PlainName(table, k) && forall c :: c in logs.chaosPod.value[k] ==> Loggable(table, c))
  }

  /** Every character of every log in the struct survives. */
  predicate AllSurvive(table: char -> bool, logs: PodLog) {
    LogSurvives(table, logs.mainPod) &&
    (logs.chaosPod.Some? ==> forall k :: k in logs.chaosPod.value ==> LogSurvives(table, logs.chaosPod.value[k]))
  }

  lemma {:induction false} EntryPiecesWellFormed(table: char -> bool, entries: seq<Entry>)
    requires forall i :: 0 <= i < |entries| ==> GoodEntry(table, entries[i])
    ensures forall p :: p in EntryPieces(entries) ==> WellFormed(table, p)
  {
    if entries != [] {
      assert GoodEntry(table, entries[0]);
      EntryPiecesWellFormed(table, entries[1..]);
    }
  }

  lemma StructPiecesWellFormed(table: char -> bool, fs: Fields, main: string, entries: seq<Entry>)
    requires Simple(fs.main) && Simple(fs.chaos)
    requires (forall c :: c in main ==> Loggable(table, c)) && forall i :: 0 <= i < |entries| ==> GoodEntry(table, entries[i])
    ensures forall p :: p in StructPieces(fs, main, entries) ==> WellFormed(table, p)
  {
    EntryPiecesWellFormed(table, entries);
    assert WellFormed(table, Fixed(KeyText(fs.main))) && WellFormed(table, Fixed(KeyText(fs.chaos)));
  }

  lemma FieldNamesAreSimple()
    ensures Simple(POD_LOG.main) && Simple(POD_LOG.chaos)
  {
  }

  lemma SimpleIsRaw(s: string)
    requires Simple(s)
    ensures AllRaw(s)
  {
  }

  lemma EntriesMatch(table: char -> bool, logs: PodLog, order: seq<string>)
    requires Lists(order, logs)
    ensures Lists(order, ShieldAll(table, logs))
    ensures EncodeEntries(EntriesOf(order, ShieldAll(table, logs))) == FormEntries(table, Encoded, EntriesOf(order, logs))
    ensures AllLoggable(table, logs) ==> forall i :: 0 <= i < |order| ==> GoodEntry(table, EntriesOf(order, logs)[i])
    ensures AllSurvive(table, logs) <==> LogSurvives(table, logs.mainPod) && EntriesSurvive(table, EntriesOf(order, logs))
  {
    var entries := EntriesOf(order, logs);
    assert forall i :: 0 <= i < |order| ==> order[i] in order;
    assert |entries| == |order|;
    if EntriesSurvive(table, entries) && logs.chaosPod.Some? {
      forall k | k in logs.chaosPod.value ensures LogSurvives(table, logs.chaosPod.value[k]) {
        assert k in order;
        var i :| 0 <= i < |order| && order[i] == k;
        assert entries[i].1 == logs.chaosPod.value[k];
      }
    }
  }

  /** The JSON text of what CreatePodLog returns. */
  function PodLogJson(table: char -> bool, logs: PodLog, order: seq<string>): string
    requires Lists(order, logs)
  {
    EntriesMatch(table, logs, order);
    MarshalPodLog(ShieldAll(table, logs), order)
  }

  lemma JsonIsPieces(table: char -> bool, logs: PodLog, order: seq<string>)
    requires Lists(order, logs)
    ensures PodLogJson(table, logs, order) == JsonText(table, StructPieces(POD_LOG, logs.mainPod, EntriesOf(order, logs)))
    ensures EndsPlain(PodLogJson(table, logs, order))
  {
    EntriesMatch(table, logs, order);
    RenderStruct(table, Encoded, POD_LOG, logs.mainPod, EntriesOf(order, logs));
  }

  lemma ReceivedReads(table: char -> bool, fs: Fields, main: string, entries: seq<Entry>)
    requires Simple(fs.main) && Simple(fs.chaos)
    requires (forall c :: c in main ==> Loggable(table, c)) && forall i :: 0 <= i < |entries| ==> GoodEntry(table, entries[i])
    ensures Parse(Received(table, StructPieces(fs, main, entries)))
         == if LogSurvives(table, main) && EntriesSurvive(table, entries) then Some(ReadBack(fs, main, entries)) else None
  {
    RenderStruct(table, Plain, fs, main, entries);
    SimpleIsRaw(fs.main);
    SimpleIsRaw(fs.chaos);
    ReadStruct(table, fs, main, entries);
  }

  lemma WayOf(table: char -> bool, fs: Fields, main: string, entries: seq<Entry>)
    requires Simple(fs.main) && Simple(fs.chaos)
    requires (forall c :: c in main ==> Loggable(table, c)) && forall i :: 0 <= i < |entries| ==> GoodEntry(table, entries[i])
    requires EndsPlain(JsonText(table, StructPieces(fs, main, entries)))
    ensures var document := Decode(Json, Spliced(table, JsonText(table, StructPieces(fs, main, entries))));
      && document.Some?
      && Decode(GraphQL, document.value).Some?
      && Parse(Decode(GraphQL, document.value).value)
         == if LogSurvives(table, main) && EntriesSurvive(table, entries) then Some(ReadBack(fs, main, entries)) else None
  {
    StructPiecesWellFormed(table, fs, main, entries);
    PiecesEndToEnd(table, StructPieces(fs, main, entries));
    ReceivedReads(table, fs, main, entries);
  }

  /**
   The whole way of the logs that CreatePodLog collects, whatever they are and in
   whatever order the map is written: marshalled, spliced, decoded as JSON and as
   GraphQL, and parsed as a whole. If every character of every log in the struct
   survives, every log comes back with single quotes; if one does not, none does.
   */
  lemma PodLogRoundTrip(table: char -> bool, logs: PodLog, order: seq<string>)
    requires Lists(order, logs) && AllLoggable(table, logs)
    ensures var document := Decode(Json, Spliced(table, PodLogJson(table, logs, order)));
      && document.Some?
      && Decode(GraphQL, document.value).Some?
      && Parse(Decode(GraphQL, document.value).value)
         == if AllSurvive(table, logs) then Some(ReadBack(POD_LOG, logs.mainPod, EntriesOf(order, logs))) else None
  {
    FieldNamesAreSimple();
    EntriesMatch(table, logs, order);
    JsonIsPieces(table, logs, order);
    WayOf(table, POD_LOG, logs.mainPod, EntriesOf(order, logs));
  }

  const ESC: char := 27 as char

  /** One bad character is enough: an escape code in the main log loses a chaos log that survives by itself. */
  lemma EscapeCodeLosesAll(table: char -> bool, pod: string)
    requires PlainName(table, pod)
    ensures var logs := PodLog([ESC], Some(map[pod := "ok"]));
      && LogSurvives(table, "ok") && Lists([pod], logs)
      && Decode(Json, Spliced(table, PodLogJson(table, logs, [pod]))).Some?
      && Decode(GraphQL, Decode(Json, Spliced(table, PodLogJson(table, logs, [pod]))).value).Some?
      && Parse(Decode(GraphQL, Decode(Json, Spliced(table, PodLogJson(table, logs, [pod]))).value).value) == None
  {
    var logs := PodLog([ESC], Some(map[pod := "ok"]));
    assert ESC in logs.mainPod && !Survives(table, ESC);
    PodLogRoundTrip(table, logs, [pod]);
  }

  // ---- From the arguments of CreatePodLog to what the browser reads ----

  /** The member of that name; the names of an object written from a struct or a map are distinct. */
  function Field(members: seq<(string, Value)>, name: string): Option<Value> {
    if members == [] then None
    else if members[0].0 == name then Some(members[0].1)
    else Field(members[1..], name)
  }

  lemma {:induction false} FieldOf(members: seq<(string, Value)>, i: nat)
    requires i < |members| && forall k :: 0 <= k < i ==> members[k].0 != members[i].0
    ensures Field(members, members[i].0) == Some(members[i].1)
  {
    if i > 0 {
      assert members[1..][i - 1] == members[i];
      FieldOf(members[1..], i - 1);
    }
  }

  lemma EntryReads(order: seq<string>, logs: PodLog, pod: string)
    requires Lists(order, logs) && pod in order
    ensures Field(ReadEntries(EntriesOf(order, logs)), pod) == Some(Text(SingleQuoted(logs.chaosPod.value[pod])))
  {
    var i :| 0 <= i < |order| && order[i] == pod;
    FieldOf(ReadEntries(EntriesOf(order, logs)), i);
  }

  lemma FieldsReadBack(fs: Fields, main: string, entries: seq<Entry>)
    requires fs.main != fs.chaos
    ensures var members := ReadBack(fs, main, entries).members;
      && Field(members, fs.main) == Some(Text(SingleQuoted(main)))
      && Field(members, fs.chaos) == if entries == [] then None else Some(Object(ReadEntries(entries)))
  {
    var members := ReadBack(fs, main, entries).members;
    if entries == [] {
      assert members[1..] == [];
    } else {
      assert members[1..] == [(fs.chaos, Object(ReadEntries(entries)))];
    }
  }

  /** Every log that is shown survives: the main log, the runner's, and the experiment's unless the runner's replaces it. */
  predicate ShownSurvive(table: char -> bool, mainLog: Option<string>, isChaosEngine: bool, expPod: Option<string>, expLog: Option<string>,
                         runnerPod: Option<string>, runnerLog: Option<string>) {
    && (mainLog.Some? ==> LogSurvives(table, mainLog.value))
    && (isChaosEngine && runnerPod.Some? && runnerLog.Some? ==> LogSurvives(table, runnerLog.value))
    && (isChaosEngine && expPod.Some? && expLog.Some? && !(runnerPod == expPod && runnerLog.Some?) ==> LogSurvives(table, expLog.value))
  }

  lemma SimpleSurvives(table: char -> bool, s: string)
    requires Simple(s)
    ensures LogSurvives(table, s)
  {
  }

  lemma SurvivalOfCollected(table: char -> bool, mainLog: Option<string>, isChaosEngine: bool, expPod: Option<string>, expLog: Option<string>,
                            runnerPod: Option<string>, runnerLog: Option<string>)
    ensures AllSurvive(table, Collected(mainLog, isChaosEngine, expPod, expLog, runnerPod, runnerLog))
       <==> ShownSurvive(table, mainLog, isChaosEngine, expPod, expLog, runnerPod, runnerLog)
  {
    var logs := Collected(mainLog, isChaosEngine, expPod, expLog, runnerPod, runnerLog);
    CollectedMeans(mainLog, isChaosEngine, expPod, expLog, runnerPod, runnerLog);
    FailureTextIsSimple();
    SimpleSurvives(table, NO_MAIN_LOG);
    if isChaosEngine && runnerPod.Some? && runnerLog.Some? {
      assert Read(runnerPod, runnerLog, runnerPod.value) && runnerPod.value in logs.chaosPod.value;
    }
    if isChaosEngine && expPod.Some? && expLog.Some? && !(runnerPod == expPod && runnerLog.Some?) {
      assert Read(expPod, expLog, expPod.value) && expPod.value in logs.chaosPod.value;
    }
  }

  /** What the browser reads: the main log, and each readable chaos log under its own pod. */
  ghost predicate ReadsAs(v: Value, fs: Fields, main: string, isChaosEngine: bool, expPod: Option<string>, expLog: Option<string>,
                    runnerPod: Option<string>, runnerLog: Option<string>) {
    && v.Object?
    && Field(v.members, fs.main) == Some(Text(SingleQuoted(main)))
    && var chaos := Field(v.members, fs.chaos);
       && (chaos.Some? <==> isChaosEngine && exists pod :: Read(expPod, expLog, pod) || Read(runnerPod, runnerLog, pod))
       && (chaos.Some? ==> chaos.value.Object?)
       && (forall pod :: chaos.Some? && Read(runnerPod, runnerLog, pod) ==>
             Field(chaos.value.members, pod) == Some(Text(SingleQuoted(runnerLog.value))))
       && (forall pod :: chaos.Some? && Read(expPod, expLog, pod) && !Read(runnerPod, runnerLog, pod) ==>
             Field(chaos.value.members, pod) == Some(Text(SingleQuoted(expLog.value))))
  }

  /** The logs are filed as CollectedMeans says. */
  predicate FiledAs(logs: PodLog, isChaosEngine: bool, expPod: Option<string>, expLog: Option<string>,
                    runnerPod: Option<string>, runnerLog: Option<string>) {
    && (logs.chaosPod.Some? <==> isChaosEngine && (expPod.Some? || runnerPod.Some?))
    && (logs.chaosPod.Some? ==>
          && (forall pod :: pod in logs.chaosPod.value ==> Read(expPod, expLog, pod) || Read(runnerPod, runnerLog, pod))
          && (runnerPod.Some? && runnerLog.Some? ==> runnerPod.value in logs.chaosPod.value && logs.chaosPod.value[runnerPod.value] == runnerLog.value)
          && (expPod.Some? && expLog.Some? ==> expPod.value in logs.chaosPod.value)
          && (expPod.Some? && expLog.Some? && !Read(runnerPod, runnerLog, expPod.value) ==> logs.chaosPod.value[expPod.value] == expLog.value))
  }

  lemma ShownIffRead(logs: PodLog, order: seq<string>, isChaosEngine: bool, expPod: Option<string>, expLog: Option<string>,
                     runnerPod: Option<string>, runnerLog: Option<string>)
    requires Lists(order, logs) && FiledAs(logs, isChaosEngine, expPod, expLog, runnerPod, runnerLog)
    ensures order != [] <==> isChaosEngine && exists pod :: Read(expPod, expLog, pod) || Read(runnerPod, runnerLog, pod)
  {
    if order != [] {
      assert order[0] in order;
      assert Read(expPod, expLog, order[0]) || Read(runnerPod, runnerLog, order[0]);
    }
    if pod :| isChaosEngine && (Read(expPod, expLog, pod) || Read(runnerPod, runnerLog, pod)) {
      assert pod in logs.chaosPod.value && pod in order;
    }
  }

  lemma FiledReads(logs: PodLog, order: seq<string>, fs: Fields, isChaosEngine: bool, expPod: Option<string>, expLog: Option<string>,
                   runnerPod: Option<string>, runnerLog: Option<string>)
    requires Lists(order, logs) && FiledAs(logs, isChaosEngine, expPod, expLog, runnerPod, runnerLog) && fs.main != fs.chaos
    ensures ReadsAs(ReadBack(fs, logs.mainPod, EntriesOf(order, logs)), fs, logs.mainPod, isChaosEngine, expPod, expLog, runnerPod, runnerLog)
  {
    FieldsReadBack(fs, logs.mainPod, EntriesOf(order, logs));
    ShownIffRead(logs, order, isChaosEngine, expPod, expLog, runnerPod, runnerLog);
    forall pod | pod in order
      ensures Field(ReadEntries(EntriesOf(order, logs)), pod) == Some(Text(SingleQuoted(logs.chaosPod.value[pod])))
    {
      EntryReads(order, logs, pod);
    }
  }

  lemma CollectedIsFiled(mainLog: Option<string>, isChaosEngine: bool, expPod: Option<string>, expLog: Option<string>,
                         runnerPod: Option<string>, runnerLog: Option<string>)
    ensures FiledAs(Collected(mainLog, isChaosEngine, expPod, expLog, runnerPod, runnerLog), isChaosEngine, expPod, expLog, runnerPod, runnerLog)
  {
  }

  lemma TextsOfTheStruct()
    ensures POD_LOG.main == "mainLogs" && POD_LOG.chaos == "chaosLogs" && POD_LOG.main != POD_LOG.chaos
    ensures NO_MAIN_LOG == "Failed to get argo pod logs"
  {
    assert |POD_LOG.main| != |POD_LOG.chaos|;
  }

  /**
   From the arguments of CreatePodLog to the browser: details is what CreatePodLog
   returns for them. If every log that is shown survives, the browser reads each of
   them in its place, with single quotes; otherwise it can read none.
   */
  lemma CreatedLogsRead(table: char -> bool, mainLog: Option<string>, isChaosEngine: bool, expPod: Option<string>, expLog: Option<string>,
                        runnerPod: Option<string>, runnerLog: Option<string>, details: PodLog, order: seq<string>)
    requires var logs := Collected(mainLog, isChaosEngine, expPod, expLog, runnerPod, runnerLog);
      details == ShieldAll(table, logs) && Lists(order, details) && AllLoggable(table, logs)
    ensures var document := Decode(Json, Spliced(table, MarshalPodLog(details, order)));
      && document.Some? && Decode(GraphQL, document.value).Some?
      && var read := Parse(Decode(GraphQL, document.value).value);
         if ShownSurvive(table, mainLog, isChaosEngine, expPod, expLog, runnerPod, runnerLog)
         then read.Some? && ReadsAs(read.value, POD_LOG, if mainLog.Some? then mainLog.value else NO_MAIN_LOG,
                                    isChaosEngine, expPod, expLog, runnerPod, runnerLog)
         else read == None
  {
    var logs := Collected(mainLog, isChaosEngine, expPod, expLog, runnerPod, runnerLog);
    assert Lists(order, logs);
    PodLogRoundTrip(table, logs, order);
    SurvivalOfCollected(table, mainLog, isChaosEngine, expPod, expLog, runnerPod, runnerLog);
    CollectedIsFiled(mainLog, isChaosEngine, expPod, expLog, runnerPod, runnerLog);
    TextsOfTheStruct();
    FiledReads(logs, order, POD_LOG, isChaosEngine, expPod, expLog, runnerPod, runnerLog);
  }

  // ---- The request that carries it ----

  datatype LogRequest = LogRequest(
    infraID: string,
    version: string,
    accessKey: string,
    requestID: string,
    experimentRunID: string,
    podName: string,
    podType: string)

  /** The mutation up to the log's opening quote, cut at the hand-escaped quotes. */
  function MutationHead(r: LogRequest): seq<string> {
    ["mutation { podLog(request:" + "{ infraID: {infraID: ", r.infraID, ", version: ", r.version, ", accessKey: ", r.accessKey,
     "}, requestID:", r.requestID, ", experimentRunID: ", r.experimentRunID, ", podName: ", r.podName,
     ", podType: ", r.podType, ", log:"]
  }

  const MUTATION_TAIL: seq<string> := ["} )}"]

  /** GenerateLogPayload, with the struct's JSON text given. */
  function LogPayload(table: char -> bool, r: LogRequest, json: string): string {
    "{\"query\":\"" + QueryText(table, MutationHead(r), json, MUTATION_TAIL) + "\"}"
  }

  /** A text in quotes directly behind the text that names it. */
  predicate Follows(texts: seq<string>, i: nat, name: string, value: string) {
    i + 1 < |texts| && texts[i] == name && texts[i + 1] == value
  }

  /** Every field of the request stands behind its own name, and the log comes last. */
  lemma MutationFields(r: LogRequest)
    ensures var head := MutationHead(r);
      && Follows(head, 0, "mutation { podLog(request:" + "{ infraID: {infraID: ", r.infraID) && Follows(head, 2, ", version: ", r.version)
      && Follows(head, 4, ", accessKey: ", r.accessKey) && Follows(head, 6, "}, requestID:", r.requestID)
      && Follows(head, 8, ", experimentRunID: ", r.experimentRunID) && Follows(head, 10, ", podName: ", r.podName)
      && Follows(head, 12, ", podType: ", r.podType) && |head| == 15 && head[14] == ", log:"
  {
  }

  predicate RawRequest(r: LogRequest) {
    && AllRaw(r.infraID) && AllRaw(r.version) && AllRaw(r.accessKey) && AllRaw(r.requestID)
    && AllRaw(r.experimentRunID) && AllRaw(r.podName) && AllRaw(r.podType)
  }

  lemma OpeningIsRaw()
    ensures AllRaw("mutation { podLog(request:")
  {
  }

  lemma IdentityTextsAreRaw()
    ensures AllRaw("{ infraID: {infraID: ") && AllRaw(", version: ") && AllRaw(", accessKey: ")
  {
  }

  lemma RunTextsAreRaw()
    ensures AllRaw("}, requestID:") && AllRaw(", experimentRunID: ")
  {
  }

  lemma PodTextsAreRaw()
    ensures AllRaw(", podName: ") && AllRaw(", podType: ") && AllRaw(", log:") && AllRaw("} )}")
  {
  }

  lemma HeadIsRaw(r: LogRequest)
    requires RawRequest(r)
    ensures forall i :: 0 <= i < |MutationHead(r)| ==> AllRaw(MutationHead(r)[i])
  {
    OpeningIsRaw();
    IdentityTextsAreRaw();
    RunTextsAreRaw();
    PodTextsAreRaw();
  }

  lemma BehindOpening(query: string)
    ensures ("{\"query\":\"" + query + "\"}")[|"{\"query\":\""|..] == query + "\"" + "}"
  {
  }

  /**
   From the payload's bytes the server recovers a GraphQL document in which the log
   argument is one string, whose value is the text received for the pieces.
   */
  lemma LogPayloadDelivers(table: char -> bool, r: LogRequest, ps: seq<Piece>)
    requires RawRequest(r) && EndsPlain(JsonText(table, ps)) && forall p :: p in ps ==> WellFormed(table, p)
    ensures var json := JsonText(table, ps);
      && Lex(Json, LogPayload(table, r, json)[|"{\"query\":\""|..])
           == Some((DocumentHead(MutationHead(r)) + OnceEscaped(json) + "\"" + "} )}", "}"))
      && Lex(GraphQL, OnceEscaped(json) + "\"" + "} )}") == Some((Received(table, ps), "} )}"))
  {
    var json := JsonText(table, ps);
    var head := MutationHead(r);
    HeadIsRaw(r);
    PodTextsAreRaw();
    PiecesLayer(table, ps);
    RequestDelivers(table, head, json, MUTATION_TAIL, "}", Received(table, ps));
    BehindOpening(QueryText(table, head, json, MUTATION_TAIL));
  }

  /** The same from the payload's bytes on: the log argument is lexed as one string, and parses as PodLogRoundTrip says. */
  lemma LogPayloadReads(table: char -> bool, r: LogRequest, logs: PodLog, order: seq<string>) returns (text: string)
    requires RawRequest(r) && Lists(order, logs) && AllLoggable(table, logs)
    ensures var json := PodLogJson(table, logs, order);
      && Lex(Json, LogPayload(table, r, json)[|"{\"query\":\""|..])
           == Some((DocumentHead(MutationHead(r)) + OnceEscaped(json) + "\"" + "} )}", "}"))
      && Lex(GraphQL, OnceEscaped(json) + "\"" + "} )}") == Some((text, "} )}"))
    ensures Parse(text) == if AllSurvive(table, logs) then Some(ReadBack(POD_LOG, logs.mainPod, EntriesOf(order, logs))) else None
  {
    var entries := EntriesOf(order, logs);
    var ps := StructPieces(POD_LOG, logs.mainPod, entries);
    FieldNamesAreSimple();
    EntriesMatch(table, logs, order);
    JsonIsPieces(table, logs, order);
    StructPiecesWellFormed(table, POD_LOG, logs.mainPod, entries);
    LogPayloadDelivers(table, r, ps);
    ReceivedReads(table, POD_LOG, logs.mainPod, entries);
    text := Received(table, ps);
  }
}
