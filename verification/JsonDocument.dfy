/** The capabilities document of src/capabilities.cpp as RFC 8259 reads it: an object of string members and
    arrays of strings. The client searches for four keys; this reader takes the whole document. */
module JsonDocument {
  import opened Wrappers
  import opened Capabilities

  datatype Value = Text(text: string) | List(items: seq<string>)

  datatype Read<T> = Read(value: T, rest: string)

  /** A string after its opening quote. */
  function ReadText(s: string): (r: Option<Read<string>>)
    ensures r.Some? ==> |r.value.rest| < |s|
  {
    if s == "" then None
    else if s[0] == '"' then Some(Read("", s[1..]))
    else if s[0] == '\\' then
      if |s| == 1 || s[1] !in "\"\\" then None else Before([s[1]], ReadText(s[2..]))
    else Before([s[0]], ReadText(s[1..]))
  }

  function Before(c: string, r: Option<Read<string>>): Option<Read<string>> {
    if r.None? then None else Some(Read(c + r.value.value, r.value.rest))
  }

  function ReadQuoted(s: string): (r: Option<Read<string>>)
    ensures r.Some? ==> |r.value.rest| < |s|
  {
    if s != "" && s[0] == '"' then ReadText(s[1..]) else None
  }

  /** An array after its opening bracket. */
  function ReadList(s: string): (r: Option<Read<seq<string>>>)
    ensures r.Some? ==> |r.value.rest| < |s|
  {
    if s != "" && s[0] == ']' then Some(Read([], s[1..])) else ReadItems(s)
  }

  function ReadItems(s: string): (r: Option<Read<seq<string>>>)
    ensures r.Some? ==> |r.value.rest| < |s|
    decreases |s|, 0
  {
    var item := ReadQuoted(s);
    if item.None? then None else AfterItem(item.value.value, item.value.rest)
  }

  function AfterItem(item: string, s: string): (r: Option<Read<seq<string>>>)
    ensures r.Some? ==> |r.value.rest| < |s|
    decreases |s|, 1
  {
    if s == "" then None
    else if s[0] == ']' then Some(Read([item], s[1..]))
    else if s[0] == ',' then
      var more := ReadItems(s[1..]);
      if more.None? then None else Some(Read([item] + more.value.value, more.value.rest))
    else None
  }

  function ReadValue(s: string): (r: Option<Read<Value>>)
    ensures r.Some? ==> |r.value.rest| < |s|
  {
    if s != "" && s[0] == '[' then
      var r := ReadList(s[1..]);
      if r.None? then None else Some(Read(List(r.value.value), r.value.rest))
    else
      var r := ReadQuoted(s);
      if r.None? then None else Some(Read(Text(r.value.value), r.value.rest))
  }

  function ReadMember(s: string): (r: Option<Read<(string, Value)>>)
    ensures r.Some? ==> |r.value.rest| < |s|
  {
    var name := ReadQuoted(s);
    if name.None? || name.value.rest == "" || name.value.rest[0] != ':' then None
    else
      var v := ReadValue(name.value.rest[1..]);
      if v.None? then None else Some(Read((name.value.value, v.value.value), v.value.rest))
  }

  /** The members up to the closing brace, which ends the document. */
  function ReadMembers(s: string): Option<seq<(string, Value)>>
    decreases |s|, 0
  {
    var m := ReadMember(s);
    if m.None? then None else AfterMember(m.value.value, m.value.rest)
  }

  function AfterMember(m: (string, Value), s: string): Option<seq<(string, Value)>>
    decreases |s|, 1
  {
    if s == "}" then Some([m])
    else if s != "" && s[0] == ',' then
      var more := ReadMembers(s[1..]);
      if more.None? then None else Some([m] + more.value)
    else None
  }

  function ReadObject(s: string): Option<seq<(string, Value)>> {
    if s != "" && s[0] == '{' then ReadMembers(s[1..]) else None
  }

  // ---------------------------------------------------------------- reading back what is printed

  lemma CharReads(c: char, s: string)
    ensures ReadText(EscapeChar(c) + s) == Before([c], ReadText(s))
  {
    var all := EscapeChar(c) + s;
    if |EscapeChar(c)| == 2 { assert all[2..] == s; } else { assert all[1..] == s; }
  }

  lemma {:induction false} EscapedReads(v: string, rest: string)
    ensures ReadText(Escape(v) + "\"" + rest) == Some(Read(v, rest))
  {
    var s := Escape(v) + "\"" + rest;
    if v == "" {
      assert s[0] == '"' && s[1..] == rest;
    } else {
      var t := Escape(v[1..]) + "\"" + rest;
      EscapedReads(v[1..], rest);
      CharReads(v[0], t);
      assert s == EscapeChar(v[0]) + t;
      assert [v[0]] + v[1..] == v;
    }
  }

  lemma QuotedReads(v: string, rest: string)
    ensures ReadQuoted(Quote(v) + rest) == Some(Read(v, rest))
  {
    EscapedReads(v, rest);
    assert (Quote(v) + rest)[1..] == Escape(v) + "\"" + rest;
  }

  lemma Around(a: string, b: string, c: string)
    ensures a + "," + b + "," + c == a + "," + (b + "," + c)
  {}

  lemma {:induction false} JoinedFront(v: seq<string>)
    requires |v| > 1
    ensures Joined(v) == Quote(v[0]) + "," + Joined(v[1..])
  {
    if |v| > 2 {
      var front := v[..|v| - 1];
      JoinedFront(front);
      assert front[1..] == v[1..][..|v| - 2];
      Around(Quote(v[0]), Joined(front[1..]), Quote(v[|v| - 1]));
    }
  }

  lemma LastItem(x: string, rest: string)
    ensures ReadItems(Quote(x) + ("]" + rest)) == Some(Read([x], rest))
  {
    QuotedReads(x, "]" + rest);
    assert ("]" + rest)[1..] == rest;
  }

  lemma ItemBefore(x: string, s: string, v: seq<string>, rest: string)
    requires ReadItems(s) == Some(Read(v, rest))
    ensures ReadItems(Quote(x) + ("," + s)) == Some(Read([x] + v, rest))
  {
    QuotedReads(x, "," + s);
    assert ("," + s)[1..] == s;
  }

  lemma FrontOfList(a: string, b: string, rest: string)
    ensures a + "," + b + "]" + rest == a + ("," + (b + "]" + rest))
  {}

  predicate ItemsReadBack(v: seq<string>, rest: string) { ReadItems(Joined(v) + "]" + rest) == Some(Read(v, rest)) }

  lemma OneItemReads(x: string, rest: string)
    ensures ItemsReadBack([x], rest)
  {
    LastItem(x, rest);
    assert Joined([x]) + "]" + rest == Quote(x) + ("]" + rest);
  }

  lemma MoreItemsRead(x: string, v: seq<string>, rest: string)
    requires v != [] && ItemsReadBack(v, rest)
    ensures ItemsReadBack([x] + v, rest)
  {
    JoinedFront([x] + v);
    assert ([x] + v)[1..] == v;
    FrontOfList(Quote(x), Joined(v), rest);
    ItemBefore(x, Joined(v) + "]" + rest, v, rest);
  }

  lemma {:induction false} ItemsRead(v: seq<string>, rest: string)
    requires v != []
    ensures ItemsReadBack(v, rest)
  {
    if |v| == 1 {
      OneItemReads(v[0], rest);
      assert [v[0]] == v;
    } else {
      ItemsRead(v[1..], rest);
      MoreItemsRead(v[0], v[1..], rest);
      assert [v[0]] + v[1..] == v;
    }
  }

  lemma ArrayReads(v: seq<string>, rest: string)
    ensures ReadValue(Array(v) + rest) == Some(Read(List(v), rest))
  {
    var s := Joined(v) + "]" + rest;
    assert (Array(v) + rest)[1..] == s;
    if v == [] {
      assert s[1..] == rest;
    } else {
      ItemsRead(v, rest);
      JoinedStarts(v);
    }
  }

  lemma {:induction false} JoinedStarts(v: seq<string>)
    requires v != []
    ensures Joined(v) != "" && Joined(v)[0] == '"'
  {
    if |v| > 1 { JoinedFront(v); }
  }

  lemma TextReads(v: string, rest: string)
    ensures ReadValue(Quote(v) + rest) == Some(Read(Text(v), rest))
  {
    QuotedReads(v, rest);
    assert (Quote(v) + rest)[0] == '"';
  }

  lemma {:induction false} PlainEscapes(name: string)
    requires '"' !in name && '\\' !in name
    ensures Escape(name) == name
  {
    if name != "" {
      PlainEscapes(name[1..]);
      assert [name[0]] + name[1..] == name;
    }
  }

  lemma MemberReads(name: string, value: string, v: Value, rest: string)
    requires '"' !in name && '\\' !in name && ReadValue(value) == Some(Read(v, rest))
    ensures ReadMember(Member(name, value)) == Some(Read((name, v), rest))
  {
    PlainEscapes(name);
    QuotedReads(name, ":" + value);
    assert Member(name, value) == Quote(name) + (":" + value);
    assert (":" + value)[1..] == value;
  }

  /** One more member in front of members that read. */
  lemma MembersRead(name: string, value: string, v: Value, s: string, more: seq<(string, Value)>)
    requires '"' !in name && '\\' !in name && ReadValue(value + [','] + s) == Some(Read(v, "," + s))
    requires ReadMembers(s) == Some(more)
    ensures ReadMembers(Member(name, value + [','] + s)) == Some([(name, v)] + more)
  {
    MemberReads(name, value + [','] + s, v, "," + s);
    assert ("," + s)[1..] == s;
    assert "," + s != "}" by { assert ("," + s)[0] == ','; }
  }

  lemma TextMember(name: string, v: string, s: string, more: seq<(string, Value)>)
    requires '"' !in name && '\\' !in name && ReadMembers(s) == Some(more)
    ensures ReadMembers(Member(name, Quote(v) + [','] + s)) == Some([(name, Text(v))] + more)
  {
    TextReads(v, "," + s);
    assert Quote(v) + [','] + s == Quote(v) + ("," + s);
    MembersRead(name, Quote(v), Text(v), s, more);
  }

  lemma ListMember(name: string, v: seq<string>, s: string, more: seq<(string, Value)>)
    requires '"' !in name && '\\' !in name && ReadMembers(s) == Some(more)
    ensures ReadMembers(Member(name, Array(v) + [','] + s)) == Some([(name, List(v))] + more)
  {
    ArrayReads(v, "," + s);
    assert Array(v) + [','] + s == Array(v) + ("," + s);
    MembersRead(name, Array(v), List(v), s, more);
  }

  lemma LastMember(name: string, v: string)
    requires '"' !in name && '\\' !in name
    ensures ReadMembers(Member(name, Quote(v) + ['}'] + "")) == Some([(name, Text(v))])
  {
    TextReads(v, "}");
    assert Quote(v) + ['}'] + "" == Quote(v) + "}";
    MemberReads(name, Quote(v) + "}", Text(v), "}");
  }

  // The members from each one on.
  function Notes(c: Capabilities): seq<(string, Value)> { [("notes", Text(c.notes))] }
  function Buttons(c: Capabilities): seq<(string, Value)> { [("buttons", List(c.buttons))] + Notes(c) }
  function Axes(c: Capabilities): seq<(string, Value)> { [("axes", List(c.axes))] + Buttons(c) }
  function Mode(c: Capabilities): seq<(string, Value)> { [("trigger_mode", Text(c.triggerMode))] + Axes(c) }
  function Target(c: Capabilities): seq<(string, Value)> { [("target", Text(c.target))] + Mode(c) }
  function Sink(c: Capabilities): seq<(string, Value)> { [("sink", Text(c.sink))] + Target(c) }

  lemma ListsRead(c: Capabilities)
    requires ReadMembers(FromNotes(c)) == Some(Notes(c))
    ensures ReadMembers(FromAxes(c)) == Some(Axes(c))
  {
    ListMember("buttons", c.buttons, FromNotes(c), Notes(c));
    ListMember("axes", c.axes, FromButtons(c), Buttons(c));
  }

  lemma TextsRead(c: Capabilities)
    requires ReadMembers(FromAxes(c)) == Some(Axes(c))
    ensures ReadMembers(FromSink(c)) == Some(Sink(c))
  {
    ModeReads(c);
    TextMember("target", c.target, FromMode(c), Mode(c));
    TextMember("sink", c.sink, FromTarget(c), Target(c));
  }

  lemma ModeReads(c: Capabilities)
    requires ReadMembers(FromAxes(c)) == Some(Axes(c))
    ensures ReadMembers(FromMode(c)) == Some(Mode(c))
  {
    TextMember("trigger_mode", c.triggerMode, FromAxes(c), Axes(c));
  }

  lemma AllMembers(c: Capabilities)
    ensures Sink(c) == [
              ("sink", Text(c.sink)), ("target", Text(c.target)), ("trigger_mode", Text(c.triggerMode)),
              ("axes", List(c.axes)), ("buttons", List(c.buttons)), ("notes", Text(c.notes))]
  {}

  lemma ObjectReads(s: string)
    ensures ReadObject("{" + s) == ReadMembers(s)
  {
    assert ("{" + s)[1..] == s;
  }

  /** The whole printed document, whatever the fields hold, is one JSON object with these six members: each array
      under its own name, item by item. */
  lemma DocumentReads(c: Capabilities)
    ensures ReadObject(ToJson(c)) == Some([
              ("sink", Text(c.sink)), ("target", Text(c.target)), ("trigger_mode", Text(c.triggerMode)),
              ("axes", List(c.axes)), ("buttons", List(c.buttons)), ("notes", Text(c.notes))])
  {
    LastMember("notes", c.notes);
    ListsRead(c);
    TextsRead(c);
    DocumentByMember(c);
    ObjectReads(FromSink(c));
    AllMembers(c);
  }
}
