/**
 Reading a whole JSON text, for texts that are strings and objects of such and have
 no white space between tokens. Every other text reads as None.
 */
module JsonReader {
  import opened Wrappers
  import opened GqlEncoding
  import opened Payloads

  datatype Value = Text(text: string) | Object(members: seq<(string, Value)>)

  /** The first value of the text, and what follows it. */
  function ReadValue(s: string): (r: Option<(Value, string)>)
    ensures r.Some? ==> |r.value.1| < |s|
    decreases |s|
  {
    if s == "" then None
    else if s[0] == '\"' then
      var literal := Lex(Json, s[1..]);
      if literal.None? then None else Some((Text(literal.value.0), literal.value.1))
    else if s[0] == '{' && |s| > 1 && s[1] == '}' then Some((Object([]), s[2..]))
    else if s[0] == '{' then
      var members := ReadMembers(s[1..]);
      if members.None? then None else Some((Object(members.value.0), members.value.1))
    else None
  }

  /** The members of an object from the first key on, up to and including its closing brace. */
  function ReadMembers(s: string): (r: Option<(seq<(string, Value)>, string)>)
    ensures r.Some? ==> |r.value.1| < |s|
    decreases |s|
  {
    if s == "" || s[0] != '\"' then None
    else
      var key := Lex(Json, s[1..]);
      if key.None? || key.value.1 == "" || key.value.1[0] != ':' then None
      else
        var value := ReadValue(key.value.1[1..]);
        if value.None? || value.value.1 == "" then None
        else
          var member, rest := (key.value.0, value.value.0), value.value.1;
          if rest[0] == '}' then Some(([member], rest[1..]))
          else if rest[0] == ',' then Prepend(member, ReadMembers(rest[1..]))
          else None
  }

  function Prepend(member: (string, Value), more: Option<(seq<(string, Value)>, string)>): Option<(seq<(string, Value)>, string)> {
    if more.None? then None else Some(([member] + more.value.0, more.value.1))
  }

  /** JSON.parse: the text is one value and nothing else. */
  function Parse(s: string): Option<Value> {
    var r := ReadValue(s);
    if r.Some? && r.value.1 == "" then Some(r.value.0) else None
  }

  function KeyText(key: string): string {
    "\"" + key + "\":"
  }

  /** A key that needs no escaping, and the text behind it. */
  function Keyed(key: string, rest: string): string {
    KeyText(key) + rest
  }

  lemma ReadKey(key: string, rest: string)
    requires AllRaw(key)
    ensures Keyed(key, rest)[0] == '\"' && Lex(Json, Keyed(key, rest)[1..]) == Some((key, ":" + rest))
  {
    RawDecodes(key);
    LexDecodes(Json, key, ":" + rest);
    assert Keyed(key, rest)[1..] == key + "\"" + (":" + rest);
  }

  /** What becomes of a member whose value was read, given the text behind the value. */
  function Onward(key: string, value: Option<(Value, string)>): Option<(seq<(string, Value)>, string)> {
    if value.None? || value.value.1 == "" then None
    else if value.value.1[0] == '}' then Some(([(key, value.value.0)], value.value.1[1..]))
    else if value.value.1[0] == ',' then Prepend((key, value.value.0), ReadMembers(value.value.1[1..]))
    else None
  }

  lemma ReadMember(key: string, rest: string)
    requires AllRaw(key)
    ensures ReadMembers(Keyed(key, rest)) == Onward(key, ReadValue(rest))
  {
    ReadKey(key, rest);
    assert (":" + rest)[1..] == rest;
  }

  lemma ReadText(literal: string, rest: string)
    ensures ReadValue("\"" + literal + "\"" + rest)
         == var l := Lex(Json, literal + "\"" + rest); if l.None? then None else Some((Text(l.value.0), l.value.1))
  {
    assert ("\"" + literal + "\"" + rest)[1..] == literal + "\"" + rest;
  }

  lemma ReadObject(members: string)
    requires members != "" && members[0] == '\"'
    ensures ReadValue("{" + members)
         == var ms := ReadMembers(members); if ms.None? then None else Some((Object(ms.value.0), ms.value.1))
  {
    assert ("{" + members)[1..] == members && ("{" + members)[1] == members[0];
  }
}
