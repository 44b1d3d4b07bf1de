/**
 The event subscribers of each project: channels appended to a slice, and removed
 from it in place by copying down, clearing the last slot and truncating.
 */
module Subscriptions {
  import opened Wrappers

  /** A channel is named by the position of the GetInfraEvents call that made it. */
  type Channel = nat

  type Listing = map<string, seq<Channel>>

  function RemoveFirst(s: seq<Channel>, ch: Channel): seq<Channel> {
    if s == [] then []
    else if s[0] == ch then s[1..]
    else [s[0]] + RemoveFirst(s[1..], ch)
  }

  lemma {:induction false} RemoveFirstAt(s: seq<Channel>, ch: Channel, i: nat)
    requires i < |s| && s[i] == ch && ch !in s[..i]
    ensures RemoveFirst(s, ch) == s[..i] + s[i + 1..]
  {
    if i > 0 {
      assert s[0] in s[..i];
      assert s[1..][..i - 1] == s[1..i];
      assert forall c :: c in s[1..i] ==> c in s[..i];
      RemoveFirstAt(s[1..], ch, i - 1);
      assert s[..i] == [s[0]] + s[1..i];
    }
  }

  lemma {:induction false} RemoveAbsent(s: seq<Channel>, ch: Channel)
    requires ch !in s
    ensures RemoveFirst(s, ch) == s
  {
    if s != [] {
      RemoveAbsent(s[1..], ch);
    }
  }

  function At(m: Listing, project: string): seq<Channel> {
    if project in m then m[project] else []
  }

  function Subscribed(m: Listing, project: string, ch: Channel): Listing {
    m[project := At(m, project) + [ch]]
  }

  /** The map entry goes when its last channel goes. */
  function Cancelled(m: Listing, project: string, ch: Channel): Listing {
    var rest := RemoveFirst(At(m, project), ch);
    if rest == [] then m - {project} else m[project := rest]
  }

  // ---- Slices over shared backing arrays ----

  /** A Go slice: the first len slots of a backing array. An empty slot is nil. */
  datatype Slice = Slice(buf: array<Option<Channel>>, len: nat)

  /** A reader of the slice sees exactly these channels, and no nil. */
  ghost predicate Shows(s: Slice, cs: seq<Channel>)
    reads s.buf
  {
    |cs| == s.len <= s.buf.Length && forall i :: 0 <= i < s.len ==> s.buf[i] == Some(cs[i])
  }

  /** copy(channels[i:], channels[i+1:]), then nil in the last slot. */
  method ShiftDown(buf: array<Option<Channel>>, i: nat, len: nat)
    requires i < len <= buf.Length
    modifies buf
    ensures buf[..i] == old(buf[..i])
    ensures buf[i..len - 1] == old(buf[i + 1..len])
    ensures buf[len - 1] == None
    ensures buf[len..] == old(buf[len..])
  {
    for k := i to len - 1
      invariant forall j :: i <= j < k ==> buf[j] == old(buf[j + 1])
      invariant forall j :: 0 <= j < buf.Length && (j < i || j >= k) ==> buf[j] == old(buf[j])
    {
      buf[k] := buf[k + 1];
    }
    buf[len - 1] := None;
  }

  /** append writes into spare capacity if there is some, and moves to a new array otherwise. */
  method Append(s: Option<Slice>, ghost cs: seq<Channel>, ch: Channel) returns (t: Slice)
    requires if s.Some? then Shows(s.value, cs) else cs == []
    modifies if s.Some? then {s.value.buf} else {}
    ensures Shows(t, cs + [ch])
    ensures fresh(t.buf) || (s.Some? && t.buf == s.value.buf)
  {
    var len := if s.Some? then s.value.len else 0;
    if s.Some? && len < s.value.buf.Length {
      s.value.buf[len] := Some(ch);
      t := Slice(s.value.buf, len + 1);
    } else {
      var buf := new Option<Channel>[2 * len + 1](_ => None);
      for k := 0 to len
        invariant s.Some? ==> Shows(s.value, cs)
        invariant forall j :: 0 <= j < k ==> buf[j] == Some(cs[j])
      {
        buf[k] := s.value.buf[k];
      }
      buf[len] := Some(ch);
      t := Slice(buf, len + 1);
    }
  }

  /** The first slot that holds the channel, or the length of the slice. */
  method Find(s: Slice, ghost cs: seq<Channel>, ch: Channel) returns (i: nat)
    requires Shows(s, cs)
    ensures i <= |cs| && ch !in cs[..i] && (i < |cs| ==> cs[i] == ch)
  {
    i := 0;
    while i < s.len
      invariant i <= s.len && ch !in cs[..i]
    {
      if s.buf[i] == Some(ch) {
        return;
      }
      i := i + 1;
    }
  }

  /** The removal loop: the new length is what is left, and a freed slot is nil. */
  method Remove(s: Slice, ghost cs: seq<Channel>, ch: Channel) returns (len: nat)
    requires Shows(s, cs)
    modifies s.buf
    ensures Shows(Slice(s.buf, len), RemoveFirst(cs, ch))
    ensures len < s.len ==> s.buf[len] == None
  {
    var i := Find(s, cs, ch);
    if i == s.len {
      assert cs[..i] == cs;
      RemoveAbsent(cs, ch);
      return s.len;
    }
    RemoveFirstAt(cs, ch, i);
    ghost var was := s.buf[..];
    ShiftDown(s.buf, i, s.len);
    len := s.len - 1;
    forall k | 0 <= k < len ensures s.buf[k] == Some((cs[..i] + cs[i + 1..])[k]) {
      if k < i {
        assert s.buf[..i][k] == was[..i][k];
      } else {
        assert s.buf[i..len][k - i] == was[i + 1..s.len][k - i];
      }
    }
  }

  class Publisher {
    ghost var Contents: Listing
    ghost var Repr: set<array<Option<Channel>>>
    var publish: map<string, Slice>

    /** Contents is what every reader of the map sees. */
    ghost predicate Valid()
      reads this, Repr
    {
      && publish.Keys == Contents.Keys
      && (forall p :: p in publish ==> publish[p].buf in Repr && Contents[p] != [] && Shows(publish[p], Contents[p]))
      && (forall p, q :: p in publish && q in publish && p != q ==> publish[p].buf != publish[q].buf)
    }

    constructor ()
      ensures Valid() && fresh(Repr) && Contents == map[]
    {
      publish, Contents, Repr := map[], map[], {};
    }

    /** Every project but this one shows its list, in an array of its own that is not buf. */
    ghost predicate OthersShow(project: string, buf: array<Option<Channel>>)
      reads this, Repr
    {
      && publish.Keys == Contents.Keys
      && (forall p :: p in publish && p != project ==>
            publish[p].buf in Repr && publish[p].buf != buf && Contents[p] != [] && Shows(publish[p], Contents[p]))
      && (forall p, q :: p in publish && q in publish && p != project && q != project && p != q ==> publish[p].buf != publish[q].buf)
    }

    /** InfraEventPublish[project] = t */
    method Put(project: string, t: Slice, ghost cs: seq<Channel>)
      requires OthersShow(project, t.buf) && Shows(t, cs) && cs != []
      modifies this
      ensures Valid() && Repr == old(Repr) + {t.buf} && Contents == old(Contents)[project := cs]
    {
      publish := publish[project := t];
      Contents := Contents[project := cs];
      Repr := Repr + {t.buf};
    }

    method Subscribe(project: string, ch: Channel)
      requires Valid()
      modifies this, Repr
      ensures Valid() && fresh(Repr - old(Repr))
      ensures Contents == Subscribed(old(Contents), project, ch)
    {
      var s := if project in publish then Some(publish[project]) else None;
      var t := Append(s, At(Contents, project), ch);
      Put(project, t, At(Contents, project) + [ch]);
    }

    method Cancel(project: string, ch: Channel)
      requires Valid()
      modifies this, Repr
      ensures Valid() && Repr == old(Repr)
      ensures Contents == Cancelled(old(Contents), project, ch)
    {
      if project in publish {
        var s := publish[project];
        var len := Remove(s, Contents[project], ch);
        if len == 0 {
          publish, Contents := publish - {project}, Contents - {project};
        } else {
          Put(project, Slice(s.buf, len), RemoveFirst(Contents[project], ch));
        }
      }
    }
  }

  // ---- Runs ----

  datatype Action = Open(project: string) | Close(channel: Channel)

  /** made holds the project of every channel made so far. */
  datatype State = State(listing: Listing, made: seq<string>)

  predicate Enabled(s: State, a: Action) {
    a.Close? ==> a.channel < |s.made|
  }

  function Next(s: State, a: Action): State
    requires Enabled(s, a)
  {
    match a
    case Open(project) => State(Subscribed(s.listing, project, |s.made|), s.made + [project])
    case Close(ch) => s.(listing := Cancelled(s.listing, s.made[ch], ch))
  }

  datatype Run = Start | Then(prev: Run, a: Action)

  predicate Valid(r: Run)
    decreases r, 0
  {
    r.Then? ==> Valid(r.prev) && Enabled(Final(r.prev), r.a)
  }

  function Final(r: Run): State
    requires Valid(r)
    decreases r, 1
  {
    match r
    case Start => State(map[], [])
    case Then(prev, a) => Next(Final(prev), a)
  }

  /** Every channel ever made for the project, in order. */
  function Made(r: Run, project: string): seq<Channel>
    requires Valid(r)
  {
    match r
    case Start => []
    case Then(prev, a) => Made(prev, project) + if a == Open(project) then [|Final(prev).made|] else []
  }

  function Closed(r: Run): set<Channel> {
    match r
    case Start => {}
    case Then(prev, a) => Closed(prev) + if a.Close? then {a.channel} else {}
  }

  function Without(s: seq<Channel>, gone: set<Channel>): seq<Channel> {
    if s == [] then []
    else (if s[0] in gone then [] else [s[0]]) + Without(s[1..], gone)
  }

  /** The live subscriptions of the project, in subscription order. */
  function Live(r: Run, project: string): seq<Channel>
    requires Valid(r)
  {
    Without(Made(r, project), Closed(r))
  }

  lemma {:induction false} WithoutMember(s: seq<Channel>, gone: set<Channel>, c: Channel)
    ensures c in Without(s, gone) <==> c in s && c !in gone
  {
    if s != [] {
      WithoutMember(s[1..], gone, c);
      assert s == [s[0]] + s[1..];
    }
  }

  lemma {:induction false} WithoutAppend(s: seq<Channel>, gone: set<Channel>, c: Channel)
    requires c !in gone
    ensures Without(s + [c], gone) == Without(s, gone) + [c]
  {
    if s == [] {
      assert s + [c] == [c] && [c][1..] == [];
      assert Without([c][1..], gone) == [];
    } else {
      assert (s + [c])[1..] == s[1..] + [c] && (s + [c])[0] == s[0];
      WithoutAppend(s[1..], gone, c);
      var first := if s[0] in gone then [] else [s[0]];
      assert first + (Without(s[1..], gone) + [c]) == first + Without(s[1..], gone) + [c];
    }
  }

  predicate Distinct(s: seq<Channel>) {
    forall i, j :: 0 <= i < j < |s| ==> s[i] != s[j]
  }

  lemma {:induction false} WithoutOneMore(s: seq<Channel>, gone: set<Channel>, c: Channel)
    requires Distinct(s)
    ensures Without(s, gone + {c}) == RemoveFirst(Without(s, gone), c)
  {
    if s != [] {
      var rest := Without(s[1..], gone);
      WithoutOneMore(s[1..], gone, c);
      assert ([s[0]] + rest)[1..] == rest && [] + rest == rest;
      if s[0] == c {
        WithoutMember(s[1..], gone, c);
        assert c !in s[1..];
        RemoveAbsent(rest, c);
      }
      assert [] + Without(s[1..], gone + {c}) == Without(s[1..], gone + {c});
    }
  }

  lemma {:induction false} MadeFacts(r: Run, project: string)
    requires Valid(r)
    ensures Distinct(Made(r, project))
    ensures forall i :: 0 <= i < |Made(r, project)| ==>
      Made(r, project)[i] < |Final(r).made| && Final(r).made[Made(r, project)[i]] == project
    ensures forall c :: c in Closed(r) ==> c < |Final(r).made|
  {
    if r.Then? {
      MadeFacts(r.prev, project);
    }
  }

  lemma OpenHere(r: Run, project: string)
    requires Valid(r) && r.Then? && r.a == Open(project)
    requires At(Final(r.prev).listing, project) == Live(r.prev, project)
    ensures At(Final(r).listing, project) == Live(r, project)
  {
    MadeFacts(r.prev, project);
    var ch := |Final(r.prev).made|;
    assert Made(r, project) == Made(r.prev, project) + [ch] && Closed(r) == Closed(r.prev);
    WithoutAppend(Made(r.prev, project), Closed(r.prev), ch);
    assert At(Final(r).listing, project) == At(Final(r.prev).listing, project) + [ch];
  }

  lemma OpenElsewhere(r: Run, project: string)
    requires Valid(r) && r.Then? && r.a.Open? && r.a.project != project
    ensures At(Final(r).listing, project) == At(Final(r.prev).listing, project)
    ensures Live(r, project) == Live(r.prev, project)
  {
    assert Made(r, project) == Made(r.prev, project) && Closed(r) == Closed(r.prev);
  }

  lemma CloseStep(r: Run, project: string)
    requires Valid(r) && r.Then? && r.a.Close?
    requires At(Final(r.prev).listing, project) == Live(r.prev, project)
    ensures At(Final(r).listing, project) == Live(r, project)
  {
    MadeFacts(r.prev, project);
    var made, c := Made(r.prev, project), r.a.channel;
    assert Made(r, project) == made;
    WithoutOneMore(made, Closed(r.prev), c);
    if Final(r.prev).made[c] != project {
      WithoutMember(made, Closed(r.prev), c);
      RemoveAbsent(Live(r.prev, project), c);
    }
  }

  /**
   Over every run the list kept for a project is exactly its live subscriptions in
   subscription order, and it has a map entry exactly while there is one.
   */
  lemma {:induction false} ListingIsLive(r: Run, project: string)
    requires Valid(r)
    ensures At(Final(r).listing, project) == Live(r, project)
    ensures project in Final(r).listing <==> Live(r, project) != []
  {
    if r.Then? {
      ListingIsLive(r.prev, project);
      if r.a == Open(project) {
        OpenHere(r, project);
      } else if r.a.Open? {
        OpenElsewhere(r, project);
      } else {
        CloseStep(r, project);
      }
    }
  }
}
