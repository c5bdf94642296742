/** How the binding lines of a rendered configuration load: every key gets its first value. */
module MappingValues {
  import opened Wrappers
  import opened Config
  import opened EvdevNames
  import opened Scaling
  import opened MappingIni
  import opened MappingLines

  // ---------------------------------------------------------------- deduplicated lines, loaded

  predicate PairLine(line: string) { Parse(line).Pair? && LineKey(line) == Parse(line).key }

  predicate AllPairs(lines: seq<string>) { forall i :: 0 <= i < |lines| ==> PairLine(lines[i]) }

  /** The value the first line with a key gives it. */
  function FirstValue(lines: seq<string>, k: string): Option<string>
    decreases |lines|, 1
  {
    if lines == [] then None else FirstValueOr(lines, k)
  }

  function FirstValueOr(lines: seq<string>, k: string): Option<string>
    requires lines != []
    decreases |lines|, 0
  {
    Or(FirstValue(lines[..|lines| - 1], k), ValueFor(lines[|lines| - 1], k))
  }

  function ValueFor(line: string, k: string): Option<string> {
    var p := Parse(line);
    if p.Pair? && p.key == k then Some(p.value) else None
  }

  function Or<T>(a: Option<T>, b: Option<T>): Option<T> { if a.Some? then a else b }

  lemma ValueIsAtKey(line: string, k: string)
    requires PairLine(line)
    ensures ValueFor(line, k).Some? <==> LineKey(line) == k
  {}

  lemma {:induction false} KeysAreFirst(lines: seq<string>, k: string)
    requires AllPairs(lines)
    ensures k in LineKeys(lines) <==> FirstValue(lines, k).Some?
  {
    if lines != [] {
      var front, last := lines[..|lines| - 1], lines[|lines| - 1];
      KeysAreFirst(front, k);
      KeysSnoc(front, last);
      assert lines == front + [last];
      assert PairLine(last);
      ValueIsAtKey(last, k);
    }
  }

  lemma FullKeyInjective(section: string, a: string, b: string)
    requires section != "" && FullKey(section, a) == FullKey(section, b)
    ensures a == b
  {
    var n := |section| + 1;
    assert FullKey(section, a)[n..] == a && FullKey(section, b)[n..] == b;
  }

  /** r is st after lines that gave k the value v, if any. */
  predicate Gave(r: Loading, st: Loading, k: string, v: Option<string>) {
    var q := FullKey(st.section, k);
    r.error == None && r.section == st.section && Get(r.kv, q) == Or(v, Get(st.kv, q))
  }

  lemma PairApplies(r: Loading, st: Loading, line: string, k: string, v: Option<string>)
    requires Gave(r, st, k, v) && PairLine(line) && st.section != ""
    requires v == None || LineKey(line) != k
    ensures Gave(Config.Apply(r, Parse(line)), st, k, Or(v, ValueFor(line, k)))
  {
    if Parse(line).key != k && FullKey(st.section, Parse(line).key) == FullKey(st.section, k) {
      FullKeyInjective(st.section, Parse(line).key, k);
    }
  }

  /** Loading deduplicated lines gives every key its first value. */
  lemma {:induction false} DedupedLoads(lines: seq<string>, st: Loading, k: string)
    requires AllPairs(lines) && st.error == None && st.section != ""
    ensures Gave(LoadLines(Deduped(lines), st), st, k, FirstValue(lines, k))
  {
    if lines != [] {
      var front, last := lines[..|lines| - 1], lines[|lines| - 1];
      DedupedLoads(front, st, k);
      assert PairLine(last);
      KeysAreFirst(front, k);
      if LineKey(last) in LineKeys(front) {
        KeptFirst(front, last, k);
      } else {
        LoadSnoc(Deduped(front), last, st);
        PairApplies(LoadLines(Deduped(front), st), st, last, k, FirstValue(front, k));
      }
    }
  }

  lemma KeptFirst(front: seq<string>, last: string, k: string)
    requires AllPairs(front) && PairLine(last) && LineKey(last) in LineKeys(front)
    ensures Or(FirstValue(front, k), ValueFor(last, k)) == FirstValue(front, k)
  {
    KeysAreFirst(front, k);
  }

  // ---------------------------------------------------------------- the mappings

  /** The first mapping the printer writes for an axis name. */
  function FirstAxis(ms: seq<Mapping>, name: string): Option<Mapping>
    ensures var r := FirstAxis(ms, name); r.Some? ==> r.value in ms && WritesAxis(r.value) && r.value.code == name
  {
    if ms == [] then None
    else
      var front, m := FirstAxis(ms[..|ms| - 1], name), ms[|ms| - 1];
      if front.Some? then front else if WritesAxis(m) && m.code == name then Some(m) else None
  }

  function FirstButton(ms: seq<Mapping>, name: string): Option<Mapping>
    ensures var r := FirstButton(ms, name); r.Some? ==> r.value in ms && WritesButton(r.value) && r.value.code == name
  {
    if ms == [] then None
    else
      var front, m := FirstButton(ms[..|ms| - 1], name), ms[|ms| - 1];
      if front.Some? then front else if WritesButton(m) && m.code == name then Some(m) else None
  }

  /** A written mapping names its control as the tools print it, and a button goes to a button target. */
  ghost predicate Canonical(m: Mapping) {
    && (WritesAxis(m) ==> exists c: nat :: c <= KEY_MAX && m.code == AbsName(c))
    && (WritesButton(m) ==> ButtonMask(m.target) != 0 && exists c: nat :: c <= KEY_MAX && m.code == KeyName(c))
  }

  ghost predicate AllCanonical(ms: seq<Mapping>) { forall m :: m in ms ==> Canonical(m) }

  lemma CanonicalIsPlain(m: Mapping)
    requires Canonical(m) && (WritesAxis(m) || WritesButton(m))
    ensures PlainName(m.code)
  {
    if WritesAxis(m) {
      var c: nat :| c <= KEY_MAX && m.code == AbsName(c);
      NamesArePlain(c);
    } else {
      var c: nat :| c <= KEY_MAX && m.code == KeyName(c);
      NamesArePlain(c);
    }
  }

  lemma KeyPrefixes()
    ensures Word("axis.") && Word("button.") && Word("-")
  {}

  lemma AxisNameIsWord(m: Mapping)
    requires Canonical(m) && WritesAxis(m)
    ensures Word("axis." + m.code)
  {
    CanonicalIsPlain(m);
    CodeIsWord(m);
    KeyPrefixes();
    WordAppend("axis.", m.code);
  }

  lemma SignedTargetIsWord(m: Mapping)
    requires AxisTargetOf(m.target) != NoTarget
    ensures Word(SignedTarget(m))
  {
    AxisTargetIsWord(m.target);
    WordAppend("-", m.target);
  }

  lemma SignedTargetReads(m: Mapping)
    requires AxisTargetOf(m.target) != NoTarget
    ensures AxisValue(SignedTarget(m)) == AxisBind(AxisTargetOf(m.target), m.invert)
  {
    AxisTargetIsWord(m.target);
    assert ("-" + m.target)[1..] == m.target;
  }

  lemma ButtonKeyIsWord(m: Mapping)
    requires PlainName(m.code) && ButtonMask(m.target) != 0
    ensures Word("button." + m.code) && Word(m.target)
  {
    CodeIsWord(m);
    KeyPrefixes();
    WordAppend("button.", m.code);
    ButtonTargetIsWord(m.target);
  }

  lemma AxisLineReads(m: Mapping)
    requires Canonical(m) && WritesAxis(m)
    ensures PairLine(AxisLine(m)) && Parse(AxisLine(m)) == Pair("axis." + m.code, SignedTarget(m))
  {
    AxisNameIsWord(m);
    SignedTargetIsWord(m);
    WordLine("axis." + m.code, SignedTarget(m));
  }

  lemma ButtonLineReads(m: Mapping)
    requires PlainName(m.code) && ButtonMask(m.target) != 0
    ensures PairLine(ButtonLine(m)) && Parse(ButtonLine(m)) == Pair("button." + m.code, m.target)
  {
    ButtonKeyIsWord(m);
    WordLine("button." + m.code, m.target);
  }

  function ValueOf(m: Option<Mapping>): Option<string> {
    if m.None? then None else Some(if m.value.axis then SignedTarget(m.value) else m.value.target)
  }

  lemma PairsSnoc(lines: seq<string>, line: string, k: string)
    requires AllPairs(lines) && PairLine(line)
    ensures AllPairs(lines + [line])
    ensures FirstValue(lines + [line], k) == Or(FirstValue(lines, k), ValueFor(line, k))
  {
    assert (lines + [line])[..|lines|] == lines;
  }

  lemma {:induction false} AxisLinesGive(ms: seq<Mapping>, name: string)
    requires AllCanonical(ms)
    ensures AllPairs(AxisLines(ms))
    ensures FirstValue(AxisLines(ms), "axis." + name) == ValueOf(FirstAxis(ms, name))
    ensures FirstValue(AxisLines(ms), "button." + name) == None
  {
    if ms != [] {
      var front, m := ms[..|ms| - 1], ms[|ms| - 1];
      AxisLinesGive(front, name);
      if WritesAxis(m) {
        AxisLineReads(m);
        PairsSnoc(AxisLines(front), AxisLine(m), "axis." + name);
        PairsSnoc(AxisLines(front), AxisLine(m), "button." + name);
        SameAfter("axis.", m.code, name);
        assert ("axis." + m.code)[0] == 'a' && ("button." + name)[0] == 'b';
      } else {
        assert AxisLines(ms) == AxisLines(front);
      }
    }
  }

  lemma {:induction false} ButtonLinesGive(ms: seq<Mapping>, name: string)
    requires AllCanonical(ms)
    ensures AllPairs(ButtonLines(ms))
    ensures FirstValue(ButtonLines(ms), "button." + name) == ValueOf(FirstButton(ms, name))
    ensures FirstValue(ButtonLines(ms), "axis." + name) == None
  {
    if ms != [] {
      var front, m := ms[..|ms| - 1], ms[|ms| - 1];
      ButtonLinesGive(front, name);
      if WritesButton(m) {
        CanonicalIsPlain(m);
        ButtonLineReads(m);
        PairsSnoc(ButtonLines(front), ButtonLine(m), "axis." + name);
        PairsSnoc(ButtonLines(front), ButtonLine(m), "button." + name);
        SameAfter("button.", m.code, name);
        assert ("button." + m.code)[0] == 'b' && ("axis." + name)[0] == 'a';
      } else {
        assert ButtonLines(ms) == ButtonLines(front);
      }
    }
  }

  lemma SameAfter(prefix: string, a: string, b: string)
    ensures prefix + a == prefix + b <==> a == b
  {
    assert (prefix + a)[|prefix|..] == a && (prefix + b)[|prefix|..] == b;
  }

  // ---------------------------------------------------------------- the loaded configuration

  lemma AxisKeySplits(name: string)
    ensures FullKey("source.evdev", "axis." + name) == AXIS_PREFIX + name && IsBindingKey(AXIS_PREFIX + name)
  {
    assert "source.evdev" + "." + ("axis." + name) == AXIS_PREFIX + name;
  }

  lemma ButtonKeySplits(name: string)
    ensures FullKey("source.evdev", "button." + name) == BUTTON_PREFIX + name && IsBindingKey(BUTTON_PREFIX + name)
  {
    assert "source.evdev" + "." + ("button." + name) == BUTTON_PREFIX + name;
  }

  /** From the open evdev section on: both groups of lines, with the blank between them. */
  lemma BindingLinesLoad(ms: seq<Mapping>, st: Loading, k: string)
    requires AllPairs(AxisLines(ms)) && AllPairs(ButtonLines(ms))
    requires st.error == None && st.section == "source.evdev"
    ensures Gave(LoadLines(Deduped(AxisLines(ms)) + [""] + Deduped(ButtonLines(ms)), st), st, k,
                 Or(FirstValue(ButtonLines(ms), k), FirstValue(AxisLines(ms), k)))
  {
    var a, b := Deduped(AxisLines(ms)), Deduped(ButtonLines(ms));
    var q := FullKey("source.evdev", k);
    DedupedLoads(AxisLines(ms), st, k);
    BlankIsQuiet("source.evdev", q);
    QuietOne("", "source.evdev", q);
    LoadAppend(a, [""], st);
    var st1 := LoadLines(a, st);
    QuietLines([""], st1, q);
    var st2 := LoadLines(a + [""], st);
    DedupedLoads(ButtonLines(ms), st2, k);
    LoadAppend(a + [""], b, st);
  }

  lemma HeadAndBodyLoad(h: Heading, ms: seq<Mapping>, k: string)
    requires AllPairs(AxisLines(ms)) && AllPairs(ButtonLines(ms))
    requires IsBindingKey(FullKey("source.evdev", k))
    ensures var r := LoadLines(Head(h) + BindingLines(ms), Start(map[]));
            && r.error == None
            && Get(r.kv, FullKey("source.evdev", k)) == Or(FirstValue(ButtonLines(ms), k), FirstValue(AxisLines(ms), k))
  {
    HeadBindsNothing(h, FullKey("source.evdev", k));
    BindingLinesLoad(ms, LoadLines(Head(h), Start(map[])), k);
    LoadAppend(Head(h), BindingLines(ms), Start(map[]));
  }

  lemma WholeFileLoads(h: Heading, ms: seq<Mapping>, k: string)
    requires AllPairs(AxisLines(ms)) && AllPairs(ButtonLines(ms)) && '#' !in h.sink && ';' !in h.sink
    requires IsBindingKey(FullKey("source.evdev", k))
    ensures var r := LoadLines(Rendered(h, ms), Start(map[]));
            && r.error == None
            && Get(r.kv, FullKey("source.evdev", k)) == Or(FirstValue(ButtonLines(ms), k), FirstValue(AxisLines(ms), k))
  {
    var done := Head(h) + BindingLines(ms);
    HeadAndBodyLoad(h, ms, k);
    TailBindsNothing(h, LoadLines(done, Start(map[])), FullKey("source.evdev", k));
    LoadAppend(done, Tail(h), Start(map[]));
  }

  /** The loaded configuration has exactly the first written mapping of each name. */
  lemma LoadedBindings(h: Heading, ms: seq<Mapping>, name: string)
    requires AllCanonical(ms) && '#' !in h.sink && ';' !in h.sink
    ensures var r := LoadLines(Rendered(h, ms), Start(map[]));
            && r.error == None
            && Get(r.kv, AXIS_PREFIX + name) == ValueOf(FirstAxis(ms, name))
            && Get(r.kv, BUTTON_PREFIX + name) == ValueOf(FirstButton(ms, name))
  {
    AxisLinesGive(ms, name);
    ButtonLinesGive(ms, name);
    AxisKeySplits(name);
    ButtonKeySplits(name);
    WholeFileLoads(h, ms, "axis." + name);
    WholeFileLoads(h, ms, "button." + name);
  }
}
