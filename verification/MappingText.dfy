/** No line of a rendered configuration holds a newline, so its text splits back into its lines. */
module MappingText {
  import opened Config
  import opened EvdevNames
  import opened Scaling
  import opened MappingIni
  import opened MappingLines
  import opened MappingValues

  // ---------------------------------------------------------------- text

  predicate OneLine(s: string) { forall i :: 0 <= i < |s| ==> s[i] != '\n' }

  predicate AllOneLine(lines: seq<string>) { forall i :: 0 <= i < |lines| ==> OneLine(lines[i]) }

  predicate HeadingOnOneLine(h: Heading) {
    OneLine(h.name) && OneLine(h.description) && OneLine(h.device) && OneLine(h.title) && OneLine(h.sink)
  }

  lemma AssignOneLine(k: string, v: string)
    requires KeyText(k) && OneLine(v)
    ensures OneLine(Assign(k, v))
  {
    forall i | 0 <= i < |k|
      ensures k[i] != '\n'
    {
      assert WordChar(k[i]) || k[i] == ' ';
    }
  }

  lemma CommentOneLine(text: string)
    requires OneLine(text)
    ensures OneLine(Comment(text))
  {}

  lemma SectionOneLine(name: string, lines: seq<string>)
    requires OneLine(name) && AllOneLine(lines)
    ensures AllOneLine(Section(name, lines))
  {
    assert OneLine(SectionLine(name));
  }

  lemma AppendOneLine(a: seq<string>, b: seq<string>)
    requires AllOneLine(a) && AllOneLine(b)
    ensures AllOneLine(a + b)
  {}

  lemma OneLine3(a: string, b: string, c: string)
    requires OneLine(a) && OneLine(b) && OneLine(c)
    ensures AllOneLine([a, b, c])
  {}

  lemma HeadValues()
    ensures OneLine("evdev") && OneLine("false") && OneLine("true")
    ensures OneLine("Generated by the gpb-web mapping wizard.") && OneLine("Target: ")
    ensures OneLine("meta") && OneLine("bridge") && OneLine("source.evdev")
  {}

  lemma HeadOneLine(h: Heading)
    requires HeadingOnOneLine(h)
    ensures AllOneLine(Head(h))
  {
    HeadKeys();
    HeadValues();
    CommentOneLine("Generated by the gpb-web mapping wizard.");
    CommentOneLine("Target: " + h.title);
    OneLine3(TopLines(h)[0], TopLines(h)[1], "");
    MetaOneLine(h);
    SectionOneLine("meta", MetaLines(h));
    BridgeOneLine(h);
    SectionOneLine("bridge", BridgeLines(h));
    DeviceOneLine(h);
    SectionOneLine("source.evdev", DeviceLines(h));
    AppendOneLine(TopLines(h), Section("meta", MetaLines(h)));
    AppendOneLine(TopLines(h) + Section("meta", MetaLines(h)), Section("bridge", BridgeLines(h)));
    AppendOneLine(TopLines(h) + Section("meta", MetaLines(h)) + Section("bridge", BridgeLines(h)),
                  Section("source.evdev", DeviceLines(h)));
  }

  lemma MetaOneLine(h: Heading)
    requires HeadingOnOneLine(h)
    ensures AllOneLine(MetaLines(h))
  {
    HeadKeys();
    AssignOneLine("name", h.name);
    AssignOneLine("description", h.description);
    OneLine3(Assign("name", h.name), Assign("description", h.description), "");
  }

  lemma BridgeOneLine(h: Heading)
    requires HeadingOnOneLine(h)
    ensures AllOneLine(BridgeLines(h))
  {
    HeadKeys();
    HeadValues();
    AssignOneLine("source", "evdev");
    AssignOneLine("sink", h.sink);
    AssignOneLine("rumble", "false");
    OneLine3(Assign("source", "evdev"), Assign("sink", h.sink), Assign("rumble", "false"));
    AppendOneLine([Assign("source", "evdev"), Assign("sink", h.sink), Assign("rumble", "false")], [""]);
  }

  lemma DeviceOneLine(h: Heading)
    requires HeadingOnOneLine(h)
    ensures AllOneLine(DeviceLines(h))
  {
    HeadKeys();
    HeadValues();
    AssignOneLine("device", h.device);
    AssignOneLine("grab  ", "true");
    OneLine3(Assign("device", h.device), Assign("grab  ", "true"), "");
  }

  lemma TailValues()
    ensures OneLine("/dev/hidg0") && OneLine("125") && OneLine("12") && OneLine("2000") && OneLine("32000") && OneLine("1.0")
    ensures OneLine("sink.") && OneLine("profile") && OneLine("profile.left") && OneLine("profile.right")
  {}

  lemma NotePieces()
    ensures OneLine("Consoles expect state every polling ") && OneLine("interval, not only on change. At 0, ")
    ensures OneLine("buttons") && OneLine("are mostly missed while ") && OneLine("sticks appear to work.")
  {}

  lemma JoinedOneLine(a: string, b: string)
    requires OneLine(a) && OneLine(b)
    ensures OneLine(a + b)
  {}

  lemma SinkOneLine()
    ensures AllOneLine(SinkLines())
  {
    HeadKeys();
    TailKeys();
    HeadValues();
    TailValues();
    AssignOneLine("device", "/dev/hidg0");
    AssignOneLine("face_by_position", "true");
    OneLine3(Assign("device", "/dev/hidg0"), Assign("face_by_position", "true"), "");
    RateOneLine();
    AppendOneLine(PadLines(), RateLines());
    AppendOneLine(PadLines() + RateLines(), [""]);
  }

  lemma RateOneLine()
    ensures AllOneLine(RateLines())
  {
    TailKeys();
    TailValues();
    NotePieces();
    var a := "Consoles expect state every polling ";
    JoinedOneLine(a, "interval, not only on change. At 0, ");
    JoinedOneLine(a + "interval, not only on change. At 0, ", "buttons");
    JoinedOneLine("are mostly missed while ", "sticks appear to work.");
    CommentOneLine(RateNote1());
    CommentOneLine(RateNote2());
    AssignOneLine("heartbeat_hz", "125");
    OneLine3(Comment(RateNote1()), Comment(RateNote2()), Assign("heartbeat_hz", "125"));
  }

  lemma StickOneLine()
    ensures AllOneLine(StickLines())
  {
    TailKeys();
    TailValues();
    AssignOneLine("deadzone  ", "2000");
    AssignOneLine("saturation", "32000");
    AssignOneLine("expo      ", "1.0");
    OneLine3(Assign("deadzone  ", "2000"), Assign("saturation", "32000"), Assign("expo      ", "1.0"));
    AppendOneLine([Assign("deadzone  ", "2000"), Assign("saturation", "32000"), Assign("expo      ", "1.0")], [""]);
  }

  lemma TailOneLine(h: Heading)
    requires HeadingOnOneLine(h)
    ensures AllOneLine(Tail(h))
  {
    TailValues();
    TailKeys();
    var a, b := Section("sink." + h.sink, SinkLines()), [Assign("trigger_deadzone", "12"), ""];
    SinkOneLine();
    SectionOneLine("sink." + h.sink, SinkLines());
    AssignOneLine("trigger_deadzone", "12");
    SectionOneLine("profile", b);
    StickOneLine();
    SectionOneLine("profile.left", StickLines());
    SectionOneLine("profile.right", StickLines());
    AppendOneLine([""], a);
    AppendOneLine([""] + a, Section("profile", b));
    AppendOneLine([""] + a + Section("profile", b), Section("profile.left", StickLines()));
    AppendOneLine([""] + a + Section("profile", b) + Section("profile.left", StickLines()),
                  Section("profile.right", StickLines()));
  }

  lemma {:induction false} DedupedOneLine(lines: seq<string>)
    requires AllOneLine(lines)
    ensures AllOneLine(Deduped(lines))
  {
    if lines != [] { DedupedOneLine(lines[..|lines| - 1]); }
  }

  lemma WordsOneLine(k: string, v: string)
    requires Word(k) && Word(v)
    ensures OneLine(k + " = " + v)
  {
    forall i | 0 <= i < |k + " = " + v|
      ensures (k + " = " + v)[i] != '\n'
    {
      if i < |k| { assert WordChar(k[i]); }
      if i >= |k| + 3 { assert WordChar(v[i - |k| - 3]); }
    }
  }

  lemma {:induction false} BindingLinesOneLine(ms: seq<Mapping>)
    requires AllCanonical(ms)
    ensures AllOneLine(AxisLines(ms)) && AllOneLine(ButtonLines(ms))
  {
    if ms != [] {
      var m := ms[|ms| - 1];
      BindingLinesOneLine(ms[..|ms| - 1]);
      if WritesAxis(m) {
        AxisNameIsWord(m);
        SignedTargetIsWord(m);
        WordsOneLine("axis." + m.code, SignedTarget(m));
      }
      if WritesButton(m) {
        CanonicalIsPlain(m);
        ButtonKeyIsWord(m);
        WordsOneLine("button." + m.code, m.target);
      }
    }
  }

  lemma RenderedOneLine(h: Heading, ms: seq<Mapping>)
    requires HeadingOnOneLine(h) && AllCanonical(ms)
    ensures AllOneLine(Rendered(h, ms))
  {
    HeadOneLine(h);
    TailOneLine(h);
    BindingLinesOneLine(ms);
    DedupedOneLine(AxisLines(ms));
    DedupedOneLine(ButtonLines(ms));
    AppendOneLine(Deduped(AxisLines(ms)), [""]);
    AppendOneLine(Deduped(AxisLines(ms)) + [""], Deduped(ButtonLines(ms)));
    AppendOneLine(Head(h), BindingLines(ms));
    AppendOneLine(Head(h) + BindingLines(ms), Tail(h));
  }
}
