/** What a wizard run captures when its replies come from captures of the pad: distinct codes, and a
    configuration that binds every one of them as captured. */
module WizardMappings {
  import opened Wrappers
  import opened EvdevNames
  import opened Scaling
  import opened Config
  import opened MappingIni
  import opened MappingValues
  import opened MappingText
  import opened MappingRoundTrip
  import opened Wizard
  import opened WizardRuns
  import D = Discover
  import C = CaptureCommand

  // ---------------------------------------------------------------- what a capture can reply

  /** A code as it is printed for its kind. */
  ghost predicate Named(axis: bool, code: string) {
    exists c: nat :: c <= KEY_MAX && code == if axis then AbsName(c) else KeyName(c)
  }

  /** The reply names a control of an accepted kind that is not excluded, unless it is the hat. */
  ghost predicate Plausible(a: Awaited, reply: Reply) {
    reply.Got? ==>
      && Named(reply.axis, reply.code)
      && (a.step.capture == WantsAxis ==> reply.axis)
      && (reply.code in a.exclude ==> reply.axis && IsHatName(reply.code))
  }

  /** The line of JSON a capture ends with. */
  function ReplyOf(c: D.Capture): Reply {
    match c.answer
    case Some(KeyControl(code)) => Got(false, KeyName(code), false)
    case Some(AxisControl(code, invert)) => Got(true, AbsName(code), invert)
    case None =>
      match c.blockedBy
      case Some(KeyControl(code)) => AlreadyBound(KeyName(code))
      case Some(AxisControl(code, _)) => AlreadyBound(AbsName(code))
      case None => NothingCaptured
  }

  /** A capture run with the printed exclusions of what it was awaited for gives a plausible reply. */
  lemma CaptureIsPlausible(a: Awaited, r: D.Request, events: seq<D.Event>)
    requires forall n :: n in a.exclude ==> C.CanonicalName(n)
    requires C.Excluded(r.excludeAxes, r.excludeKeys) == C.ExcludeAll(C.Items(C.Joined(a.exclude)))
    requires a.step.capture == WantsAxis ==> !r.button
    requires forall e :: e in events ==> e.code <= KEY_MAX
    ensures Plausible(a, ReplyOf(D.Judge(r, events)))
  {
    var answer := D.Judge(r, events).answer;
    if answer.Some? {
      D.JudgeIsFirstAnswer(r, events);
      var i :| 0 <= i < |events| && answer == D.Answer(r, events[i]);
      assert events[i] in events;
      D.AnswerIsNotExcluded(r, events);
      C.ExclusionReadsBack(a.exclude, answer.value.code);
      HatNameX();
      HatNameY();
    }
  }

  // ---------------------------------------------------------------- codes are distinct

  predicate HatShaped(m: Mapping) {
    m.axis && IsHatName(m.code) ==> m.target == (if m.code == "ABS_HAT0X" then "hatx" else "haty") && !m.invert
  }

  /** Named as printed, and sent to a target its kind can have. */
  ghost predicate Bindable(m: Mapping) {
    && Named(m.axis, m.code) && HatShaped(m)
    && (if m.axis then AxisTargetOf(m.target) != NoTarget else ButtonMask(m.target) != 0)
  }

  /** Only the hat's axes repeat, and a repeat is the same mapping, hence the same line of the file. */
  predicate DistinctButHats(ms: seq<Mapping>) {
    forall i, j :: 0 <= i < j < |ms| && ms[i].code == ms[j].code ==> IsHatName(ms[i].code) && ms[i] == ms[j]
  }

  ghost predicate GoodMappings(ms: seq<Mapping>) { DistinctButHats(ms) && forall m :: m in ms ==> Bindable(m) }

  lemma HatNameIsAxis(axis: bool, code: string)
    requires Named(axis, code) && IsHatName(code)
    ensures axis
  {
    if !axis {
      var c: nat :| c <= KEY_MAX && code == KeyName(c);
      PrefixTellsAxes(c);
    }
  }

  lemma AppendGood(ms: seq<Mapping>, m: Mapping)
    requires GoodMappings(ms) && Bindable(m)
    requires m.code in Codes(ms) ==> m.axis && IsHatName(m.code)
    ensures GoodMappings(ms + [m])
  {
    var all := ms + [m];
    forall i, j | 0 <= i < j < |all| && all[i].code == all[j].code
      ensures IsHatName(all[i].code) && all[i] == all[j]
    {
      if j == |ms| {
        assert Codes(ms)[i] == m.code;
        assert ms[i] in ms;
        HatNameIsAxis(ms[i].axis, ms[i].code);
      }
    }
  }

  /** The targets a control asks for exist. */
  predicate ValidStep(s: Step) {
    && (if s.capture == WantsAxis then AxisTargetOf(s.target) != NoTarget else ButtonMask(s.target) != 0)
    && (s.targetAxis != "" ==> AxisTargetOf(s.targetAxis) != NoTarget)
  }

  predicate ValidSteps(steps: seq<Step>) { forall i :: 0 <= i < |steps| ==> ValidStep(steps[i]) }

  ghost predicate HonestAction(act: Action) {
    (act.Answer? ==> Plausible(act.a, act.reply)) && (act.Begin? ==> ValidSteps(act.steps))
  }

  lemma ResolvedIsBindable(a: Awaited, reply: Reply)
    requires reply.Got? && Plausible(a, reply) && ValidStep(a.step)
    requires ResolveTarget(a.step, reply.axis, reply.code, reply.invert).Some?
    ensures var r := ResolveTarget(a.step, reply.axis, reply.code, reply.invert).value;
            Bindable(Mapping(reply.axis, reply.code, r.0, r.1))
  {}

  lemma CurrentReplyKeepsGood(x: World, a: Awaited, reply: Reply)
    requires Inv(x) && a in x.flying && !Superseded(x.w, a) && Plausible(a, reply)
    requires GoodMappings(x.w.mappings) && ValidSteps(x.w.steps)
    ensures GoodMappings(Received(x.w, a, reply).0.mappings) && Received(x.w, a, reply).0.steps == x.w.steps
  {
    assert AsksFor(x.w, a);
    ReceivedAdvances(x.w, a, reply);
    var p := PassageOf(x.w, a, reply);
    if p != [] && p[0].Mapped? {
      ResolvedIsBindable(a, reply);
      AppendGood(x.w.mappings, p[0].m);
    }
    assert x.w.mappings + [] == x.w.mappings;
  }

  lemma StepKeepsGood(x: World, act: Action)
    requires Inv(x) && Enabled(x, act) && Proper(act) && HonestAction(act)
    requires GoodMappings(x.w.mappings) && ValidSteps(x.w.steps)
    ensures GoodMappings(Do(x, act).w.mappings) && ValidSteps(Do(x, act).w.steps)
  {
    if act.Answer? && !Superseded(x.w, act.a) { CurrentReplyKeepsGood(x, act.a, act.reply); }
  }

  // ---------------------------------------------------------------- replies come from captures

  /** The capture that is run for an awaited one: its kind decides what is accepted, and the exclusions are
      parsed back from the printed list. */
  predicate RunsFor(a: Awaited, r: D.Request) {
    && C.Excluded(r.excludeAxes, r.excludeKeys) == C.ExcludeAll(C.Items(C.Joined(a.exclude)))
    && r.button == (a.step.capture != WantsAxis) && r.axis == (a.step.capture != WantsButton)
  }

  predicate InRange(events: seq<D.Event>) { forall e :: e in events ==> e.code <= KEY_MAX }

  /** A control in a reply is what such a capture judges of some stream of events. */
  ghost predicate FromCapture(a: Awaited, reply: Reply) {
    reply.Got? ==>
      exists r: D.Request, events: seq<D.Event> ::
        RunsFor(a, r) && InRange(events) && reply == ReplyOf(D.Judge(r, events))
  }

  ghost predicate CapturedAction(act: Action) {
    (act.Answer? ==> FromCapture(act.a, act.reply)) && (act.Begin? ==> ValidSteps(act.steps))
  }

  /** Every reply comes from a capture, and every target begun asks for targets that exist. */
  ghost predicate Captured(acts: seq<Action>) { forall i :: 0 <= i < |acts| ==> CapturedAction(acts[i]) }

  ghost predicate ExcludesCanonical(a: Awaited) { forall n :: n in a.exclude ==> C.CanonicalName(n) }

  ghost predicate FlyingCanonical(x: World) { forall a :: a in x.flying ==> ExcludesCanonical(a) }

  /** What every step keeps: the invariant of the page, good mappings, and printable exclusions. */
  ghost predicate CaptureInv(x: World) {
    Inv(x) && GoodMappings(x.w.mappings) && ValidSteps(x.w.steps) && FlyingCanonical(x)
  }

  lemma CapturedIsHonest(x: World, act: Action)
    requires FlyingCanonical(x) && Enabled(x, act) && CapturedAction(act)
    ensures HonestAction(act)
  {
    if act.Answer? && act.reply.Got? {
      var r: D.Request, events: seq<D.Event> :|
        RunsFor(act.a, r) && InRange(events) && act.reply == ReplyOf(D.Judge(r, events));
      assert ExcludesCanonical(act.a);
      CaptureIsPlausible(act.a, r, events);
    }
  }

  /** A capture launched by a step excludes exactly what is mapped after it. */
  lemma LaunchedExcludesMapped(x: World, act: Action, a: Awaited)
    requires Inv(x) && Enabled(x, act) && a in Do(x, act).flying && a !in x.flying
    ensures a.exclude == Codes(Do(x, act).w.mappings)
  {}

  lemma MappedNamesAreCanonical(ms: seq<Mapping>, n: string)
    requires GoodMappings(ms) && n in Codes(ms)
    ensures C.CanonicalName(n)
  {
    var i :| 0 <= i < |ms| && Codes(ms)[i] == n;
    assert ms[i] in ms && Bindable(ms[i]);
    var c: nat :| c <= KEY_MAX && n == if ms[i].axis then AbsName(c) else KeyName(c);
  }

  lemma StepKeepsCaptureInv(x: World, act: Action)
    requires CaptureInv(x) && Enabled(x, act) && Proper(act) && CapturedAction(act)
    ensures CaptureInv(Do(x, act))
  {
    CapturedIsHonest(x, act);
    StepKeepsInv(x, act);
    StepKeepsGood(x, act);
    forall a | a in Do(x, act).flying
      ensures ExcludesCanonical(a)
    {
      if a !in x.flying {
        LaunchedExcludesMapped(x, act, a);
        forall n | n in a.exclude
          ensures C.CanonicalName(n)
        {
          MappedNamesAreCanonical(Do(x, act).w.mappings, n);
        }
      }
    }
  }

  lemma {:induction false} RunKeepsCaptureInv(x: World, acts: seq<Action>)
    requires CaptureInv(x) && Runs(x, acts) && Captured(acts)
    ensures CaptureInv(After(x, acts))
    decreases |acts|
  {
    if acts != [] {
      assert CapturedAction(acts[0]);
      assert forall i :: 0 <= i < |acts[1..]| ==> acts[1..][i] == acts[i + 1];
      StepKeepsCaptureInv(x, acts[0]);
      RunKeepsCaptureInv(Do(x, acts[0]), acts[1..]);
    }
  }

  /** Whatever the pad sends and however replies, skips and cancels interleave, all mapped codes are distinct except the hat's axes,
      and two mappings of one hat axis print the same line. */
  lemma MappedCodesAreDistinct(acts: seq<Action>, i: nat, j: nat)
    requires Runs(FRESH, acts) && Captured(acts)
    requires i < j < |After(FRESH, acts).w.mappings|
    ensures var ms := After(FRESH, acts).w.mappings;
            ms[i].code == ms[j].code ==>
              IsHatName(ms[i].code) && ms[i].axis && ms[j].axis && AxisLine(ms[i]) == AxisLine(ms[j])
  {
    var ms := After(FRESH, acts).w.mappings;
    RunKeepsCaptureInv(FRESH, acts);
    assert ms[i] in ms && Bindable(ms[i]);
    if ms[i].code == ms[j].code { HatNameIsAxis(ms[i].axis, ms[i].code); }
  }

  // ---------------------------------------------------------------- every capture binds

  lemma GoodIsCanonical(ms: seq<Mapping>)
    requires GoodMappings(ms)
    ensures AllCanonical(ms)
  {
    forall m | m in ms
      ensures Canonical(m)
    {
      assert Bindable(m);
    }
  }

  lemma GoodFront(ms: seq<Mapping>)
    requires GoodMappings(ms) && ms != []
    ensures GoodMappings(ms[..|ms| - 1])
  {
    assert forall n :: n in ms[..|ms| - 1] ==> n in ms;
  }

  /** What the earlier mappings hold under the code of the last one: the same mapping, or nothing. */
  lemma SameUnderCode(ms: seq<Mapping>, n: Mapping)
    requires GoodMappings(ms) && ms != [] && n in ms[..|ms| - 1] && n.code == ms[|ms| - 1].code
    ensures n == ms[|ms| - 1]
  {
    var i :| 0 <= i < |ms| - 1 && ms[..|ms| - 1][i] == n;
    assert ms[i] == n;
  }

  lemma {:induction false} FirstAxisIsTheOne(ms: seq<Mapping>, i: nat)
    requires GoodMappings(ms) && i < |ms| && WritesAxis(ms[i])
    ensures FirstAxis(ms, ms[i].code) == Some(ms[i])
  {
    var front, last := ms[..|ms| - 1], ms[|ms| - 1];
    GoodFront(ms);
    if i < |front| {
      assert front[i] == ms[i];
      FirstAxisIsTheOne(front, i);
    } else if FirstAxis(front, last.code).Some? {
      SameUnderCode(ms, FirstAxis(front, last.code).value);
    }
  }

  lemma {:induction false} FirstButtonIsTheOne(ms: seq<Mapping>, i: nat)
    requires GoodMappings(ms) && i < |ms| && WritesButton(ms[i])
    ensures FirstButton(ms, ms[i].code) == Some(ms[i])
  {
    var front, last := ms[..|ms| - 1], ms[|ms| - 1];
    GoodFront(ms);
    if i < |front| {
      assert front[i] == ms[i];
      FirstButtonIsTheOne(front, i);
    } else if FirstButton(front, last.code).Some? {
      SameUnderCode(ms, FirstButton(front, last.code).value);
    }
  }

  lemma NamedTextNotEmpty(m: Mapping)
    requires Bindable(m)
    ensures m.code != "" && m.target != ""
  {
    var c: nat :| c <= KEY_MAX && m.code == if m.axis then AbsName(c) else KeyName(c);
    NamesArePlain(c);
  }

  /** If the mapping is of this code, the code is bound as the mapping says. */
  predicate BindsAs(b: Bindings, m: Mapping, code: nat) {
    && (m.axis && m.code == AbsName(code) ==> Get(b.axes, code) == Some(AxisBind(AxisTargetOf(m.target), m.invert)))
    && (!m.axis && m.code == KeyName(code) ==> Get(b.buttons, code) == Some(ButtonMask(m.target)))
  }

  /** From the pad to the bridge: after any run of the wizard, the saved file, loaded and bound, binds every
      captured control to the target and direction it was captured for. */
  lemma EveryCaptureBinds(h: Heading, acts: seq<Action>, keys: seq<string>, i: nat, code: nat)
    requires Runs(FRESH, acts) && Captured(acts) && i < |After(FRESH, acts).w.mappings|
    requires HeadingOnOneLine(h) && '#' !in h.sink && ';' !in h.sink
    ensures var m := After(FRESH, acts).w.mappings[i];
            var r := LoadLines(Lines(JoinLines(Rendered(h, After(FRESH, acts).w.mappings))), Start(map[]));
            && r.error == None
            && (KeysOf(keys, r.kv) && Covers(keys, r.kv) ==> BindsAs(BindAll(keys, r.kv, UNBOUND), m, code))
  {
    var ms := After(FRESH, acts).w.mappings;
    RunKeepsCaptureInv(FRESH, acts);
    GoodIsCanonical(ms);
    assert ms[i] in ms;
    NamedTextNotEmpty(ms[i]);
    if ms[i].axis { FirstAxisIsTheOne(ms, i); } else { FirstButtonIsTheOne(ms, i); }
    WizardMappingsBind(h, ms, keys, code);
  }
}
