/** The capabilities document: printed by src/capabilities.cpp, read back by the substring search of
    clients/cpp/src/client.cpp. */
module Capabilities {
  import opened Wrappers

  datatype Capabilities = Capabilities(
    sink: string, target: string, triggerMode: string, axes: seq<string>, buttons: seq<string>, notes: string)

  // ---------------------------------------------------------------- the printer

  function EscapeChar(c: char): string { if c == '"' || c == '\\' then ['\\', c] else [c] }

  function Escape(s: string): string {
    if s == "" then "" else EscapeChar(s[0]) + Escape(s[1..])
  }

  function Quote(s: string): string { "\"" + Escape(s) + "\"" }

  function Joined(v: seq<string>): string {
    if v == [] then ""
    else if |v| == 1 then Quote(v[0])
    else Joined(v[..|v| - 1]) + "," + Quote(v[|v| - 1])
  }

  function Array(v: seq<string>): string { "[" + Joined(v) + "]" }

  function Member(name: string, value: string): string { "\"" + name + "\":" + value }

  function ToJson(c: Capabilities): string {
    "{" + Member("sink", Quote(c.sink)) + "," + Member("target", Quote(c.target))
    + "," + Member("trigger_mode", Quote(c.triggerMode)) + "," + Member("axes", Array(c.axes))
    + "," + Member("buttons", Array(c.buttons)) + "," + Member("notes", Quote(c.notes)) + "}"
  }

  lemma {:induction false} EscapeSnoc(s: string, c: char)
    ensures Escape(s + [c]) == Escape(s) + EscapeChar(c)
  {
    if s == "" {
      assert s + [c] == [c] && [c][1..] == "";
    } else {
      EscapeSnoc(s[1..], c);
      assert (s + [c])[1..] == s[1..] + [c];
    }
  }

  method QuoteText(s: string) returns (out: string)
    ensures out == Quote(s)
  {
    out := "\"";
    for i := 0 to |s|
      invariant out == "\"" + Escape(s[..i])
    {
      EscapeSnoc(s[..i], s[i]);
      assert s[..i] + [s[i]] == s[..i + 1];
      if s[i] == '"' || s[i] == '\\' { out := out + "\\"; }
      out := out + [s[i]];
    }
    assert s[..|s|] == s;
    out := out + "\"";
  }

  method ArrayText(v: seq<string>) returns (out: string)
    ensures out == Array(v)
  {
    out := "[";
    for i := 0 to |v|
      invariant out == "[" + Joined(v[..i])
    {
      assert v[..i + 1][..i] == v[..i];
      if i != 0 { out := out + ","; }
      var q := QuoteText(v[i]);
      out := out + q;
    }
    assert v[..|v|] == v;
    out := out + "]";
  }

  // ---------------------------------------------------------------- the reader

  /** What follows the first occurrence of a needle. */
  function After(doc: string, needle: string): Option<string>
    requires needle != ""
  {
    if |doc| < |needle| then None
    else if needle <= doc then Some(doc[|needle|..])
    else After(doc[1..], needle)
  }

  /** A quoted value up to its closing quote, with escapes undone. */
  function Scan(s: string): string
    decreases |s|, 1
  {
    if s == "" then "" else ScanFrom(s)
  }

  function ScanFrom(s: string): string
    requires s != ""
    decreases |s|, 0
  {
    if s[0] == '\\' && |s| > 1 then [s[1]] + Scan(s[2..])
    else if s[0] == '"' then ""
    else [s[0]] + Scan(s[1..])
  }

  function Needle(key: string): (n: string)
    ensures n != ""
  {
    "\"" + key + "\":\""
  }

  function JsonString(doc: string, key: string): string {
    match After(doc, Needle(key))
    case None => ""
    case Some(rest) => Scan(rest)
  }

  method FindText(doc: string, needle: string) returns (at: nat, found: bool)
    requires needle != ""
    ensures found <==> After(doc, needle).Some?
    ensures found ==> at + |needle| <= |doc| && After(doc, needle) == Some(doc[at + |needle|..])
  {
    at := 0;
    while at + |needle| <= |doc| && !(needle <= doc[at..])
      invariant at <= |doc|
      invariant After(doc[at..], needle) == After(doc, needle)
    {
      assert doc[at..][1..] == doc[at + 1..];
      at := at + 1;
    }
    found := at + |needle| <= |doc|;
    if found { assert doc[at..][|needle|..] == doc[at + |needle|..]; }
  }

  /** One turn of the scanning loop: a character moves from the unread text to the output. */
  lemma ScanStep(doc: string, i: nat, out: string)
    requires i < |doc|
    ensures out + Scan(doc[i..])
            == if doc[i] == '\\' && i + 1 < |doc| then out + [doc[i + 1]] + Scan(doc[i + 2..])
               else if doc[i] == '"' then out else out + [doc[i]] + Scan(doc[i + 1..])
  {
    var s := doc[i..];
    assert s[1..] == doc[i + 1..];
    if |s| > 1 { assert s[2..] == doc[i + 2..]; }
  }

  method ScanText(doc: string, start: nat) returns (out: string)
    requires start <= |doc|
    ensures out == Scan(doc[start..])
  {
    out := "";
    var i := start;
    while i < |doc|
      invariant start <= i <= |doc|
      invariant Scan(doc[start..]) == out + Scan(doc[i..])
    {
      ScanStep(doc, i, out);
      if doc[i] == '\\' && i + 1 < |doc| {
        out := out + [doc[i + 1]];
        i := i + 2;
      } else if doc[i] == '"' {
        return;
      } else {
        out := out + [doc[i]];
        i := i + 1;
      }
    }
  }

  method JsonStringText(doc: string, key: string) returns (out: string)
    ensures out == JsonString(doc, key)
  {
    var needle := Needle(key);
    var at, found := FindText(doc, needle);
    if !found { return ""; }
    out := ScanText(doc, at + |needle|);
  }

  // ---------------------------------------------------------------- the round trip

  /** Escaping inverts. */
  lemma {:induction false} ScanUndoesEscape(v: string, rest: string)
    ensures Scan(Escape(v) + "\"" + rest) == v
  {
    var s := Escape(v) + "\"" + rest;
    if v == "" {
      assert s[0] == '"';
    } else {
      var t := Escape(v[1..]) + "\"" + rest;
      ScanUndoesEscape(v[1..], rest);
      assert s == EscapeChar(v[0]) + t;
      assert v == [v[0]] + v[1..];
      if |EscapeChar(v[0])| == 2 { assert s[2..] == t; } else { assert s[1..] == t; }
    }
  }

  /** A key that can only match whole: no quote or backslash, and no leading punctuation. */
  predicate PlainKey(key: string) {
    && '"' !in key && '\\' !in key
    && (key != "" ==> key[0] !in ",:]}")
  }

  lemma Step(c: char, rest: string, needle: string)
    requires needle != "" && !(needle <= [c] + rest)
    ensures After([c] + rest, needle) == After(rest, needle)
  {
    assert ([c] + rest)[1..] == rest;
  }

  lemma SkipChar(c: char, rest: string, key: string)
    requires c != '"'
    ensures After([c] + rest, Needle(key)) == After(rest, Needle(key))
  {
    assert Needle(key)[0] == '"' && ([c] + rest)[0] == c;
    Step(c, rest, Needle(key));
  }

  lemma {:induction false} SkipPlain(s: string, rest: string, key: string)
    requires '"' !in s
    ensures After(s + rest, Needle(key)) == After(rest, Needle(key))
  {
    if s == "" {
      assert s + rest == rest;
    } else {
      SkipPlain(s[1..], rest, key);
      assert s + rest == [s[0]] + (s[1..] + rest);
      SkipChar(s[0], s[1..] + rest, key);
    }
  }

  /** The rest of a needle never matches at the start of an escaped value, because the value's closing
      quote is not followed by a colon. */
  lemma {:induction false} NeverMatchesValue(k: string, v: string, c: char, rest: string)
    requires '"' !in k && '\\' !in k && c != ':'
    ensures !(k + "\":\"" <= Escape(v) + "\"" + [c] + rest)
  {
    var n, s := k + "\":\"", Escape(v) + "\"" + [c] + rest;
    if n <= s {
      assert n[0] == s[0] && n[1] == s[1];
      if k != "" && v != "" && EscapeChar(v[0]) == [v[0]] {
        NeverMatchesValue(k[1..], v[1..], c, rest);
        assert n == [k[0]] + (k[1..] + "\":\"");
        assert s == [v[0]] + (Escape(v[1..]) + "\"" + [c] + rest);
        PrefixTail(n, s, 1);
      }
    }
  }

  lemma PrefixTail(n: string, s: string, k: nat)
    requires n <= s && k <= |n|
    ensures n[k..] <= s[k..]
  {
    assert n == s[..|n|];
    assert s[k..][..|n| - k] == n[k..];
  }

  lemma NeedleTail(key: string, s: string)
    requires Needle(key) <= "\"" + s
    ensures key + "\":\"" <= s
  {
    PrefixTail(Needle(key), "\"" + s, 1);
    assert Needle(key)[1..] == key + "\":\"";
    assert ("\"" + s)[1..] == s;
  }

  /** No match starts at a quote that punctuation follows. */
  lemma NoMatchAtQuote(c: char, rest: string, key: string)
    requires PlainKey(key) && c in ",:]}"
    ensures !(Needle(key) <= ['"'] + ([c] + rest))
  {
    assert Needle(key)[1] == if key == "" then '"' else key[0];
    assert (['"'] + ([c] + rest))[1] == c;
  }

  /** No match starts inside the escape of one character of a value. */
  lemma SkipEscapedChar(x: char, v: string, c: char, rest: string, key: string)
    requires PlainKey(key) && c in ",]}"
    ensures var t := Escape(v) + "\"" + [c] + rest;
            After(EscapeChar(x) + t, Needle(key)) == After(t, Needle(key))
  {
    var t := Escape(v) + "\"" + [c] + rest;
    if x == '"' {
      assert EscapeChar(x) + t == ['\\'] + (['"'] + t);
      SkipPlain("\\", ['"'] + t, key);
      SkipOpening(v, c, rest, key);
    } else {
      SkipPlain(EscapeChar(x), t, key);
    }
  }

  lemma SkipClosing(c: char, rest: string, key: string)
    requires PlainKey(key) && c in ",]}"
    ensures After("\"" + [c] + rest, Needle(key)) == After([c] + rest, Needle(key))
  {
    assert "\"" + [c] + rest == ['"'] + ([c] + rest);
    NoMatchAtQuote(c, rest, key);
    Step('"', [c] + rest, Needle(key));
  }

  /** No match starts inside an escaped value or at its closing quote. */
  lemma {:induction false} SkipEscaped(v: string, c: char, rest: string, key: string)
    requires PlainKey(key) && c in ",]}"
    ensures After(Escape(v) + "\"" + [c] + rest, Needle(key)) == After([c] + rest, Needle(key))
  {
    if v == "" {
      assert Escape(v) + "\"" + [c] + rest == "\"" + [c] + rest;
      SkipClosing(c, rest, key);
    } else {
      SkipEscaped(v[1..], c, rest, key);
      SkipEscapedChar(v[0], v[1..], c, rest, key);
      assert Escape(v) + "\"" + [c] + rest == EscapeChar(v[0]) + (Escape(v[1..]) + "\"" + [c] + rest);
    }
  }

  /** No match starts at a quote that an escaped value follows. */
  lemma SkipOpening(v: string, c: char, rest: string, key: string)
    requires PlainKey(key) && c != ':'
    ensures var t := Escape(v) + "\"" + [c] + rest;
            After(['"'] + t, Needle(key)) == After(t, Needle(key))
  {
    var t := Escape(v) + "\"" + [c] + rest;
    if Needle(key) <= ['"'] + t {
      NeedleTail(key, t);
      NeverMatchesValue(key, v, c, rest);
    }
    Step('"', t, Needle(key));
  }

  lemma SkipQuoted(v: string, c: char, rest: string, key: string)
    requires PlainKey(key) && c in ",]}"
    ensures After(Quote(v) + [c] + rest, Needle(key)) == After(rest, Needle(key))
  {
    SkipOpening(v, c, rest, key);
    SkipEscaped(v, c, rest, key);
    assert Quote(v) + [c] + rest == ['"'] + (Escape(v) + "\"" + [c] + rest);
    SkipPlain([c], rest, key);
  }

  lemma {:induction false} SkipJoined(v: seq<string>, c: char, rest: string, key: string)
    requires PlainKey(key) && c in ",]}"
    ensures After(Joined(v) + [c] + rest, Needle(key)) == After(rest, Needle(key))
  {
    if v == [] {
      assert Joined(v) + [c] + rest == [c] + rest;
      SkipPlain([c], rest, key);
    } else if |v| == 1 {
      SkipQuoted(v[0], c, rest, key);
    } else {
      var last := Quote(v[|v| - 1]) + [c] + rest;
      assert Joined(v) + [c] + rest == Joined(v[..|v| - 1]) + [','] + last;
      SkipJoined(v[..|v| - 1], ',', last, key);
      SkipQuoted(v[|v| - 1], c, rest, key);
    }
  }

  lemma SkipArray(v: seq<string>, rest: string, key: string)
    requires PlainKey(key)
    ensures After(Array(v) + rest, Needle(key)) == After(rest, Needle(key))
  {
    assert Array(v) + rest == "[" + (Joined(v) + [']'] + rest);
    SkipPlain("[", Joined(v) + [']'] + rest, key);
    SkipJoined(v, ']', rest, key);
  }

  /** A member name matches exactly when it is the key and a string value follows. */
  lemma {:induction false} NameMatches(k: string, name: string, rest: string)
    requires '"' !in k && '"' !in name
    ensures k + "\":\"" <= name + "\":" + rest <==> k == name && rest != "" && rest[0] == '"'
  {
    var n, s := k + "\":\"", name + "\":" + rest;
    if k != "" && name != "" {
      assert n == [k[0]] + (k[1..] + "\":\"");
      assert s == [name[0]] + (name[1..] + "\":" + rest);
      assert n <= s <==> k[0] == name[0] && n[1..] <= s[1..] by { PrefixCons(n, s); }
      NameMatches(k[1..], name[1..], rest);
      assert k == [k[0]] + k[1..] && name == [name[0]] + name[1..];
    } else if n <= s {
      assert n[0] == s[0] && n[|n| - 1] == s[|n| - 1];
    }
  }

  lemma PrefixCons(n: string, s: string)
    requires n != "" && s != ""
    ensures n <= s <==> n[0] == s[0] && n[1..] <= s[1..]
  {
    if n <= s { PrefixTail(n, s, 1); }
  }

  predicate Hit(name: string, value: string, key: string) { key == name && value != "" && value[0] == '"' }

  /** At a member whose name is the key and whose value is a string, the search stops. */
  lemma NameFound(name: string, value: string, key: string)
    requires '"' !in key && Hit(name, value, key)
    ensures After(Member(name, value), Needle(key)) == Some(value[1..])
  {
    var n, s := Needle(key), Member(name, value);
    assert n == s[..|n|];
    assert s[|n|..] == value[1..];
  }

  lemma NameNotMatched(name: string, value: string, key: string)
    requires '"' !in key && '"' !in name && !Hit(name, value, key)
    ensures !(Needle(key) <= Member(name, value))
  {
    var t := name + "\":" + value;
    assert Member(name, value) == "\"" + t;
    if Needle(key) <= "\"" + t {
      NeedleTail(key, t);
      NameMatches(key, name, value);
    }
  }

  /** At any other member, it goes on in the value. */
  lemma NamePassed(name: string, value: string, key: string)
    requires PlainKey(key) && '"' !in name && !Hit(name, value, key)
    ensures After(Member(name, value), Needle(key)) == After(value, Needle(key))
  {
    NameNotMatched(name, value, key);
    var tail := [':'] + value;
    assert Member(name, value) == ['"'] + (name + (['"'] + tail));
    Step('"', name + (['"'] + tail), Needle(key));
    SkipPlain(name, ['"'] + tail, key);
    NoMatchAtQuote(':', value, key);
    Step('"', tail, Needle(key));
    SkipChar(':', value, key);
  }

  /** A string member: its value when the key is its name, the rest of the document otherwise. */
  lemma StringMember(name: string, v: string, c: char, rest: string, key: string)
    requires PlainKey(key) && '"' !in name && c in ",]}"
    ensures var found := After(Member(name, Quote(v) + [c] + rest), Needle(key));
            if key == name then found.Some? && Scan(found.value) == v else found == After(rest, Needle(key))
  {
    var value := Quote(v) + [c] + rest;
    if key == name {
      NameFound(name, value, key);
      assert value[1..] == Escape(v) + "\"" + ([c] + rest);
      ScanUndoesEscape(v, [c] + rest);
    } else {
      NamePassed(name, value, key);
      SkipQuoted(v, c, rest, key);
    }
  }

  lemma ArrayMember(name: string, v: seq<string>, rest: string, key: string)
    requires PlainKey(key) && '"' !in name
    ensures After(Member(name, Array(v) + [','] + rest), Needle(key)) == After(rest, Needle(key))
  {
    var tail := [','] + rest;
    assert Array(v) + [','] + rest == Array(v) + tail;
    NamePassed(name, Array(v) + tail, key);
    SkipArray(v, tail, key);
    SkipChar(',', rest, key);
  }

  function FieldOf(c: Capabilities, key: string): string {
    if key == "sink" then c.sink
    else if key == "target" then c.target
    else if key == "trigger_mode" then c.triggerMode
    else if key == "notes" then c.notes
    else ""
  }

  // The document from each member on.
  function FromNotes(c: Capabilities): string { Member("notes", Quote(c.notes) + ['}'] + "") }
  function FromButtons(c: Capabilities): string { Member("buttons", Array(c.buttons) + [','] + FromNotes(c)) }
  function FromAxes(c: Capabilities): string { Member("axes", Array(c.axes) + [','] + FromButtons(c)) }
  function FromMode(c: Capabilities): string { Member("trigger_mode", Quote(c.triggerMode) + [','] + FromAxes(c)) }
  function FromTarget(c: Capabilities): string { Member("target", Quote(c.target) + [','] + FromMode(c)) }
  function FromSink(c: Capabilities): string { Member("sink", Quote(c.sink) + [','] + FromTarget(c)) }

  lemma MemberAppend(name: string, value: string, c: char, rest: string)
    ensures Member(name, value) + ([c] + rest) == Member(name, value + [c] + rest)
  {
    var head := "\"" + name + "\":";
    assert head + value + ([c] + rest) == head + (value + [c] + rest);
  }

  /** The flat concatenation, regrouped from the right: each later name stands for the text from there on. */
  lemma Regroup(a: string, b: string, c: string, d: string, e: string, f: string,
                fromB: string, fromC: string, fromD: string, fromE: string, fromF: string)
    requires fromF == f + "}" && fromE == e + ("," + fromF) && fromD == d + ("," + fromE)
    requires fromC == c + ("," + fromD) && fromB == b + ("," + fromC)
    ensures "{" + a + "," + b + "," + c + "," + d + "," + e + "," + f + "}" == "{" + (a + ("," + fromB))
  {
    var ab := "{" + a + "," + b;
    var abcd := ab + "," + c + "," + d;
    assert abcd + "," + e + "," + f + "}" == abcd + ("," + fromE);
    assert abcd + ("," + fromE) == ab + "," + c + ("," + fromD);
    assert ab + "," + c + ("," + fromD) == ab + ("," + fromC);
    assert ab + ("," + fromC) == "{" + (a + ("," + fromB));
  }

  lemma DocumentByMember(c: Capabilities)
    ensures ToJson(c) == "{" + FromSink(c)
  {
    MemberAppend("notes", Quote(c.notes), '}', "");
    MemberAppend("buttons", Array(c.buttons), ',', FromNotes(c));
    MemberAppend("axes", Array(c.axes), ',', FromButtons(c));
    MemberAppend("trigger_mode", Quote(c.triggerMode), ',', FromAxes(c));
    MemberAppend("target", Quote(c.target), ',', FromMode(c));
    MemberAppend("sink", Quote(c.sink), ',', FromTarget(c));
    Regroup(Member("sink", Quote(c.sink)), Member("target", Quote(c.target)), Member("trigger_mode", Quote(c.triggerMode)),
            Member("axes", Array(c.axes)), Member("buttons", Array(c.buttons)), Member("notes", Quote(c.notes)),
            FromTarget(c), FromMode(c), FromAxes(c), FromButtons(c), FromNotes(c));
  }

  /** Whatever the fields hold, quotes, backslashes and text that looks like a member included, reading a
      key returns exactly that field; any other plain key reads as empty. */
  lemma CapabilitiesRoundTrip(c: Capabilities, key: string)
    requires PlainKey(key)
    ensures JsonString(ToJson(c), key) == FieldOf(c, key)
  {
    DocumentByMember(c);
    SkipPlain("{", FromSink(c), key);
    StringMember("sink", c.sink, ',', FromTarget(c), key);
    StringMember("target", c.target, ',', FromMode(c), key);
    StringMember("trigger_mode", c.triggerMode, ',', FromAxes(c), key);
    ArrayMember("axes", c.axes, FromButtons(c), key);
    ArrayMember("buttons", c.buttons, FromNotes(c), key);
    StringMember("notes", c.notes, '}', "", key);
    assert After("", Needle(key)) == None;
  }
}
