/** How the fixed lines of a rendered configuration load: they bind nothing. */
module MappingLines {
  import opened Wrappers
  import opened Config
  import opened EvdevNames
  import opened Scaling
  import opened MappingIni

  // ---------------------------------------------------------------- words

  predicate WordChar(c: char) {
    'a' <= c <= 'z' || 'A' <= c <= 'Z' || '0' <= c <= '9' || c == '-' || c == '_' || c == '.'
  }

  predicate Word(s: string) { s != "" && forall i :: 0 <= i < |s| ==> WordChar(s[i]) }

  lemma WordIsTrimmed(s: string)
    requires Word(s)
    ensures Trim(s) == s
  {
    assert WordChar(s[0]) && WordChar(s[|s| - 1]);
  }

  lemma WordHasNoComment(s: string)
    requires Word(s)
    ensures Before(s, {'#', ';'}) == s
  {
    BeforeAppend(s, "", {'#', ';'});
    assert s + "" == s;
  }

  lemma WordIsUntouched(s: string)
    requires Word(s)
    ensures Trim(s) == s && Before(s, {'#', ';'}) == s
  {
    WordIsTrimmed(s);
    WordHasNoComment(s);
  }

  lemma WordAppend(a: string, b: string)
    requires Word(a) && Word(b)
    ensures Word(a + b)
  {}

  lemma AxisTargetIsWord(n: string)
    requires AxisTargetOf(n) != NoTarget
    ensures Word(n) && n[0] != '-'
  {}

  lemma FaceWords()
    ensures Word("south") && Word("east") && Word("west") && Word("north")
  {}

  lemma ShoulderWords()
    ensures Word("l1") && Word("r1") && Word("l2") && Word("r2") && Word("l3") && Word("r3")
  {}

  lemma SystemWords()
    ensures Word("select") && Word("start") && Word("guide") && Word("misc1")
  {}

  lemma PadWords()
    ensures Word("dup") && Word("ddown") && Word("dleft") && Word("dright")
  {}

  lemma ButtonTargetIsWord(n: string)
    requires ButtonMask(n) != 0
    ensures Word(n)
  {
    FaceWords();
    ShoulderWords();
    SystemWords();
    PadWords();
  }

  lemma CodeIsWord(m: Mapping)
    requires PlainName(m.code)
    ensures Word(m.code)
  {
    forall i | 0 <= i < |m.code|
      ensures WordChar(m.code[i])
    {
      assert Plain(m.code[i]);
    }
  }

  /** A word, perhaps with spaces after its first character. */
  predicate KeyText(k: string) {
    k != "" && WordChar(k[0]) && forall i :: 0 <= i < |k| ==> WordChar(k[i]) || k[i] == ' '
  }

  lemma KeyTextIsPlain(k: string)
    requires KeyText(k)
    ensures !IsSpace(k[0]) && k[0] != '[' && '#' !in k && ';' !in k && '=' !in k
  {
    forall i | 0 <= i < |k|
      ensures k[i] != '#' && k[i] != ';' && k[i] != '='
    {
      assert WordChar(k[i]) || k[i] == ' ';
    }
  }

  /** The key dedupe goes by. */
  lemma LineKeyOf(k: string, v: string)
    requires '=' !in k
    ensures LineKey(k + " = " + v) == Trim(k)
  {
    assert k + " = " + v == (k + " ") + ("= " + v);
    BeforeAppend(k + " ", "= " + v, {'='});
    assert Before("= " + v, {'='}) == "" && k + " " + "" == k + " ";
    TrimPadded(k, "");
  }

  /** A line of two words reads back as them, and its first is the key dedupe goes by. */
  lemma WordLine(k: string, v: string)
    requires Word(k) && Word(v)
    ensures Parse(k + " = " + v) == Pair(k, v) && LineKey(k + " = " + v) == k
  {
    WordIsUntouched(k);
    WordIsUntouched(v);
    KeyTextIsPlain(k);
    LineKeyOf(k, v);
    AssignmentReadsBack(k, v);
  }

  // ---------------------------------------------------------------- lines that bind nothing

  predicate IsBindingKey(q: string) { AXIS_PREFIX <= q || BUTTON_PREFIX <= q }

  predicate QuietIn(line: string, section: string, q: string) {
    var p := Parse(line);
    p.Blank? || (p.Pair? && FullKey(section, p.key) != q)
  }

  predicate AllQuiet(lines: seq<string>, section: string, q: string) {
    forall i :: 0 <= i < |lines| ==> QuietIn(lines[i], section, q)
  }

  /** r is st, later: no error, in the given section, with the same value for q. */
  predicate Later(r: Loading, st: Loading, section: string, q: string) {
    r.error == None && r.section == section && Get(r.kv, q) == Get(st.kv, q)
  }

  lemma {:induction false} QuietLines(lines: seq<string>, st: Loading, q: string)
    requires st.error == None && AllQuiet(lines, st.section, q)
    ensures Later(LoadLines(lines, st), st, st.section, q)
  {
    if lines != [] {
      QuietLines(lines[..|lines| - 1], st, q);
      LoadSnoc(lines[..|lines| - 1], lines[|lines| - 1], st);
      assert lines == lines[..|lines| - 1] + [lines[|lines| - 1]];
      assert QuietIn(lines[|lines| - 1], st.section, q);
    }
  }

  lemma SectionOpens(done: seq<string>, name: string, st: Loading)
    requires LoadLines(done, st).error == None && name != "" && '#' !in name && ';' !in name
    ensures var r := LoadLines(done, st);
            LoadLines(done + [SectionLine(name)], st) == Loading(Trim(name), r.kv, r.lineno + 1, None)
  {
    HeaderReadsBack(name);
    LoadSnoc(done, SectionLine(name), st);
  }

  /** One more section of quiet lines. */
  lemma QuietSection(done: seq<string>, name: string, lines: seq<string>, st: Loading, was: string, q: string)
    requires Later(LoadLines(done, st), st, was, q)
    requires name != "" && '#' !in name && ';' !in name && AllQuiet(lines, Trim(name), q)
    ensures Later(LoadLines(done + Section(name, lines), st), st, Trim(name), q)
  {
    SectionOpens(done, name, st);
    QuietOn(done + [SectionLine(name)], lines, st, Trim(name), q);
    SectionFollows(done, name, lines);
  }

  lemma SectionFollows(done: seq<string>, name: string, lines: seq<string>)
    ensures done + Section(name, lines) == done + [SectionLine(name)] + lines
  {}

  lemma QuietOn(done: seq<string>, lines: seq<string>, st: Loading, section: string, q: string)
    requires Later(LoadLines(done, st), st, section, q) && AllQuiet(lines, section, q)
    ensures Later(LoadLines(done + lines, st), st, section, q)
  {
    LoadAppend(done, lines, st);
    QuietLines(lines, LoadLines(done, st), q);
  }

  lemma WordSection(done: seq<string>, name: string, lines: seq<string>, st: Loading, was: string, q: string)
    requires Later(LoadLines(done, st), st, was, q) && Word(name) && AllQuiet(lines, name, q)
    ensures Later(LoadLines(done + Section(name, lines), st), st, name, q)
  {
    WordIsTrimmed(name);
    KeyTextIsPlain(name);
    QuietSection(done, name, lines, st, was, q);
  }

  lemma TrimKeepsFirst(k: string)
    requires k != "" && !IsSpace(k[0])
    ensures Trim(k) != "" && Trim(k)[0] == k[0]
  {
    TrimRightAppend([k[0]], k[1..]);
    assert k == [k[0]] + k[1..];
  }

  /** Outside the evdev section no key is a binding; inside it, only those starting with a or b may be. */
  predicate Elsewhere(section: string) { |section| >= 2 && !(section[0] == 's' && section[1] == 'o') }

  lemma AssignIsQuiet(section: string, k: string, v: string, q: string)
    requires KeyText(k) && IsBindingKey(q)
    requires Elsewhere(section) || (section == "source.evdev" && k[0] != 'a' && k[0] != 'b')
    ensures QuietIn(Assign(k, v), section, q)
  {
    KeyTextIsPlain(k);
    AssignmentReadsBack(k, v);
    TrimKeepsFirst(k);
    var full := FullKey(section, Trim(k));
    assert q[0] == 's' && q[1] == 'o' && (q[13] == 'a' || q[13] == 'b');
    if Elsewhere(section) {
      assert full[0] == section[0] && full[1] == section[1];
    } else {
      assert full == "source.evdev." + Trim(k);
      assert full[13] == k[0];
    }
  }

  lemma BlankIsQuiet(section: string, q: string)
    ensures QuietIn("", section, q)
  {}

  lemma Quiet3(a: string, b: string, c: string, section: string, q: string)
    requires QuietIn(a, section, q) && QuietIn(b, section, q) && QuietIn(c, section, q)
    ensures AllQuiet([a, b, c], section, q)
  {}

  lemma QuietAppend(a: seq<string>, b: seq<string>, section: string, q: string)
    requires AllQuiet(a, section, q) && AllQuiet(b, section, q)
    ensures AllQuiet(a + b, section, q)
  {}

  lemma QuietOne(a: string, section: string, q: string)
    requires QuietIn(a, section, q)
    ensures AllQuiet([a], section, q)
  {}

  lemma HeadKeys()
    ensures KeyText("name") && KeyText("description") && KeyText("source") && KeyText("sink")
    ensures KeyText("rumble") && KeyText("device") && KeyText("grab  ")
  {}

  lemma TailKeys()
    ensures KeyText("face_by_position") && KeyText("heartbeat_hz") && KeyText("trigger_deadzone")
    ensures KeyText("deadzone  ") && KeyText("saturation") && KeyText("expo      ")
  {}

  lemma SectionNames()
    ensures Word("meta") && Word("bridge") && Word("source.evdev")
    ensures Word("profile") && Word("profile.left") && Word("profile.right")
  {}

  // ---------------------------------------------------------------- the fixed parts

  lemma MetaQuiet(h: Heading, q: string)
    requires IsBindingKey(q)
    ensures AllQuiet(MetaLines(h), "meta", q)
  {
    HeadKeys();
    AssignIsQuiet("meta", "name", h.name, q);
    AssignIsQuiet("meta", "description", h.description, q);
    BlankIsQuiet("meta", q);
    Quiet3(Assign("name", h.name), Assign("description", h.description), "", "meta", q);
  }

  lemma BridgeQuiet(h: Heading, q: string)
    requires IsBindingKey(q)
    ensures AllQuiet(BridgeLines(h), "bridge", q)
  {
    HeadKeys();
    AssignIsQuiet("bridge", "source", "evdev", q);
    AssignIsQuiet("bridge", "sink", h.sink, q);
    AssignIsQuiet("bridge", "rumble", "false", q);
    BlankIsQuiet("bridge", q);
    Quiet3(Assign("source", "evdev"), Assign("sink", h.sink), Assign("rumble", "false"), "bridge", q);
    QuietOne("", "bridge", q);
    QuietAppend([Assign("source", "evdev"), Assign("sink", h.sink), Assign("rumble", "false")], [""], "bridge", q);
  }

  lemma DeviceQuiet(h: Heading, q: string)
    requires IsBindingKey(q)
    ensures AllQuiet(DeviceLines(h), "source.evdev", q)
  {
    HeadKeys();
    AssignIsQuiet("source.evdev", "device", h.device, q);
    AssignIsQuiet("source.evdev", "grab  ", "true", q);
    BlankIsQuiet("source.evdev", q);
    Quiet3(Assign("device", h.device), Assign("grab  ", "true"), "", "source.evdev", q);
  }

  lemma PadQuiet(section: string, q: string)
    requires IsBindingKey(q) && Elsewhere(section)
    ensures AllQuiet(PadLines(), section, q)
  {
    HeadKeys();
    TailKeys();
    AssignIsQuiet(section, "device", "/dev/hidg0", q);
    AssignIsQuiet(section, "face_by_position", "true", q);
    BlankIsQuiet(section, q);
    Quiet3(PadLines()[0], PadLines()[1], PadLines()[2], section, q);
  }

  lemma CommentsThenAssign(a: string, b: string, k: string, v: string, section: string, q: string)
    requires IsBindingKey(q) && Elsewhere(section) && KeyText(k)
    ensures AllQuiet([Comment(a), Comment(b), Assign(k, v)], section, q)
  {
    AssignIsQuiet(section, k, v, q);
    CommentIsBlank(Comment(a));
    CommentIsBlank(Comment(b));
    Quiet3(Comment(a), Comment(b), Assign(k, v), section, q);
  }

  lemma RateQuiet(section: string, q: string)
    requires IsBindingKey(q) && Elsewhere(section)
    ensures AllQuiet(RateLines(), section, q)
  {
    TailKeys();
    CommentsThenAssign(RateNote1(), RateNote2(), "heartbeat_hz", "125", section, q);
  }

  lemma SinkQuiet(section: string, q: string)
    requires IsBindingKey(q) && Elsewhere(section)
    ensures AllQuiet(SinkLines(), section, q)
  {
    PadQuiet(section, q);
    RateQuiet(section, q);
    BlankIsQuiet(section, q);
    QuietOne("", section, q);
    QuietAppend(PadLines(), RateLines(), section, q);
    QuietAppend(PadLines() + RateLines(), [""], section, q);
  }

  lemma StickQuiet(section: string, q: string)
    requires IsBindingKey(q) && Elsewhere(section)
    ensures AllQuiet(StickLines(), section, q)
  {
    TailKeys();
    AssignIsQuiet(section, "deadzone  ", "2000", q);
    AssignIsQuiet(section, "saturation", "32000", q);
    AssignIsQuiet(section, "expo      ", "1.0", q);
    BlankIsQuiet(section, q);
    QuietOne("", section, q);
    Quiet3(Assign("deadzone  ", "2000"), Assign("saturation", "32000"), Assign("expo      ", "1.0"), section, q);
    QuietAppend([Assign("deadzone  ", "2000"), Assign("saturation", "32000"), Assign("expo      ", "1.0")], [""],
                section, q);
  }

  lemma ProfileQuiet(q: string)
    requires IsBindingKey(q)
    ensures AllQuiet([Assign("trigger_deadzone", "12"), ""], "profile", q)
  {
    TailKeys();
    AssignIsQuiet("profile", "trigger_deadzone", "12", q);
    BlankIsQuiet("profile", q);
  }

  lemma TopQuiet(h: Heading, q: string)
    ensures AllQuiet(TopLines(h), "", q)
  {
    var a, b := Comment("Generated by the gpb-web mapping wizard."), Comment("Target: " + h.title);
    CommentIsBlank(a);
    CommentIsBlank(b);
    BlankIsQuiet("", q);
    Quiet3(a, b, "", "", q);
  }

  /** Everything above the bindings leaves the evdev section open and binds nothing. */
  lemma HeadBindsNothing(h: Heading, q: string)
    requires IsBindingKey(q)
    ensures Later(LoadLines(Head(h), Start(map[])), Start(map[]), "source.evdev", q)
  {
    var st := Start(map[]);
    var a := TopLines(h);
    var b := a + Section("meta", MetaLines(h));
    var c := b + Section("bridge", BridgeLines(h));
    SectionNames();
    TopQuiet(h, q);
    QuietLines(a, st, q);
    MetaQuiet(h, q);
    WordSection(a, "meta", MetaLines(h), st, "", q);
    BridgeQuiet(h, q);
    WordSection(b, "bridge", BridgeLines(h), st, "meta", q);
    DeviceQuiet(h, q);
    WordSection(c, "source.evdev", DeviceLines(h), st, "bridge", q);
  }

  /** Everything below them neither. */
  lemma TailBindsNothing(h: Heading, st: Loading, q: string)
    requires IsBindingKey(q) && st.error == None && '#' !in h.sink && ';' !in h.sink
    ensures Later(LoadLines(Tail(h), st), st, "profile.right", q)
  {
    var name := "sink." + h.sink;
    var a := [""];
    var b := a + Section(name, SinkLines());
    var c := b + Section("profile", [Assign("trigger_deadzone", "12"), ""]);
    var d := c + Section("profile.left", StickLines());
    SectionNames();
    BlankIsQuiet(st.section, q);
    QuietOne("", st.section, q);
    QuietLines(a, st, q);
    SinkSection(h.sink);
    SinkQuiet(Trim(name), q);
    QuietSection(a, name, SinkLines(), st, st.section, q);
    ProfileQuiet(q);
    WordSection(b, "profile", [Assign("trigger_deadzone", "12"), ""], st, Trim(name), q);
    StickQuiet("profile.left", q);
    WordSection(c, "profile.left", StickLines(), st, "profile", q);
    StickQuiet("profile.right", q);
    WordSection(d, "profile.right", StickLines(), st, "profile.left", q);
  }

  lemma SinkSection(sink: string)
    ensures Elsewhere(Trim("sink." + sink))
  {
    var s := "sink." + sink;
    TrimRightAppend("si", s[2..]);
    assert s == "si" + s[2..];
  }
}
