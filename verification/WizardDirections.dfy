/** Directions through the wizard: the event that answered a capture, arriving at the bridge once the saved
    configuration is bound, moves what the step asked for, and the right way. */
module WizardDirections {
  import opened Wrappers
  import opened Bits
  import opened Gamepad
  import opened EvdevNames
  import opened Scaling
  import opened Config
  import opened MappingIni
  import opened MappingText
  import opened MappingRoundTrip
  import opened Wizard
  import opened WizardRuns
  import opened WizardMappings
  import opened PadToState
  import D = Discover
  import E = Evdev

  // ---------------------------------------------------------------- ranges and directions

  /** The range the device declares is the one the capture sampled, and the control rests within a sixth of it
      from the middle. */
  predicate Centered(info: D.AbsInfo, min: int, max: int) {
    info.span == max - min >= 1 && D.Magnitude(2 * info.neutral - (min + max)) <= info.span / 3
  }

  /** The range is the one sampled, and the control rests inside it. */
  predicate Inside(info: D.AbsInfo, min: int, max: int) { info.span == max - min >= 1 && min <= info.neutral <= max }

  /** How far a raw value is past the middle of the range, doubled, on the side it was pushed to. */
  function PastMiddle(b: AxisBinding, neutral: int, value: int): int {
    var away := 2 * value - (b.min + b.max);
    if value < neutral then -away else away
  }

  /** With the inversion the capture reports, a push reads positive exactly when it passes the middle of the range on
      its own side, by what truncation leaves visible. */
  lemma PushReadsPositiveExactly(b: AxisBinding, neutral: int, value: int)
    requires b.Span() >= 1 && b.invert == (value < neutral)
    ensures ScaleAxis(b, value) > 0 <==> PastMiddle(b, neutral, value) * FULL >= b.Span()
  {
    var s, n := b.Span(), Numerator(b, value);
    assert n == PastMiddle(b, neutral, value) * FULL;
    var c := Clamp(n, -(FULL * s), FULL * s);
    ExactQuotient(1, s);
    ExactQuotient(0, s);
    if n >= s {
      TruncDivMonotone(s, c, s);
    } else {
      SmallQuotient(c, s);
    }
  }

  lemma SmallQuotient(a: int, s: int)
    requires a < s && s > 0
    ensures TruncDiv(a, s) <= 0
  {
    if a >= 0 { QuotientUnique(a, s, 0, a); } else { TruncDivMonotone(a, 0, s); QuotientUnique(0, s, 0, 0); }
  }

  /** So a push past a third of the span from a control that rests near the middle reads positive. */
  lemma PushIsPositive(b: AxisBinding, r: D.Request, e: D.Event)
    requires D.Far(r, e) && Centered(r.neutral[e.code], b.min, b.max)
    requires b.invert == (e.value < r.neutral[e.code].neutral)
    ensures ScaleAxis(b, e.value) > 0
  {
    var rest := r.neutral[e.code].neutral;
    assert PastMiddle(b, rest, e.value) >= b.Span() / 3 + 2;
    PushReadsPositiveExactly(b, rest, e.value);
  }

  /** A trigger takes no notice of an inversion: it reads higher for the push that answered exactly when the push
      was upwards, that is, when the capture reports no inversion. */
  lemma TriggerIgnoresInversion(b: AxisBinding, r: D.Request, e: D.Event)
    requires D.Far(r, e) && Inside(r.neutral[e.code], b.min, b.max) && b.min <= e.value <= b.max
    ensures ScaleTrigger(b, e.value) > ScaleTrigger(b, r.neutral[e.code].neutral) <==> e.value > r.neutral[e.code].neutral
    ensures ScaleTrigger(b.(invert := !b.invert), e.value) == ScaleTrigger(b, e.value)
  {
    var rest := r.neutral[e.code].neutral;
    if e.value > rest {
      FarTriggersDiffer(b, rest, e.value);
    } else {
      FarTriggersDiffer(b, e.value, rest);
    }
  }

  lemma FarTriggersDiffer(b: AxisBinding, lo: int, hi: int)
    requires b.Span() >= 1 && b.min <= lo && hi <= b.max && hi - lo > b.Span() / 3
    ensures ScaleTrigger(b, lo) < ScaleTrigger(b, hi)
  {
    var s, v, w := b.Span(), ScaleTrigger(b, lo), ScaleTrigger(b, hi);
    TriggerIsExactUpToTruncation(b, lo);
    TriggerIsExactUpToTruncation(b, hi);
    TriggerIsMonotone(b, lo, hi);
    assert (hi - b.min) * 255 - (lo - b.min) * 255 >= 2 * s;
  }

  // ---------------------------------------------------------------- where a mapping came from

  /** What a step takes an axis that is no hat for. */
  function AxisAsked(s: Step): string { if s.capture == WantsAxis then s.target else s.targetAxis }

  function HatTarget(code: nat): string { if code == D.ABS_HAT0X then "hatx" else "haty" }

  /** A capture accepts what its step wants. */
  predicate Accepts(r: D.Request, s: Step) {
    r.button == (s.capture != WantsAxis) && r.axis == (s.capture != WantsButton)
  }

  /** The mapping is what the step asked for, under the name of the control whose event answered; an axis is
      inverted exactly when it was pushed below where it rested. */
  predicate Says(m: Mapping, s: Step, r: D.Request, e: D.Event) {
    if e.kind == D.Key then !m.axis && m.code == KeyName(e.code) && m.target == s.target
    else if D.IsHat(e.code) then m.axis && m.code == AbsName(e.code) && m.target == HatTarget(e.code)
    else
      && m.axis && m.code == AbsName(e.code) && m.target == AxisAsked(s)
      && D.Far(r, e) && m.invert == (e.value < r.neutral[e.code].neutral)
  }

  predicate Answered(m: Mapping, s: Step, r: D.Request, e: D.Event) {
    Accepts(r, s) && D.Answer(r, e).Some? && Says(m, s, r, e)
  }

  ghost predicate Traced(m: Mapping, steps: seq<Step>) {
    exists s: Step, r: D.Request, e: D.Event :: s in steps && Answered(m, s, r, e)
  }

  lemma NamesTellApart(a: nat, b: nat)
    requires a <= KEY_MAX && b <= KEY_MAX && AbsName(a) == AbsName(b)
    ensures a == b
  {
    AbsNameReadsBack(a);
    AbsNameReadsBack(b);
  }

  lemma HatNamesTell(code: nat)
    requires code <= KEY_MAX
    ensures AbsName(code) == "ABS_HAT0X" <==> code == D.ABS_HAT0X
    ensures AbsName(code) == "ABS_HAT0Y" <==> code == D.ABS_HAT0Y
  {
    HatNameX();
    HatNameY();
    if AbsName(code) == "ABS_HAT0X" { NamesTellApart(code, D.ABS_HAT0X); }
    if AbsName(code) == "ABS_HAT0Y" { NamesTellApart(code, D.ABS_HAT0Y); }
  }

  /** The mapping made of an event that answers, for the step whose capture it answered. */
  lemma AnswerSays(s: Step, r: D.Request, e: D.Event, blocked: Option<D.Control>)
    requires Accepts(r, s) && D.Answer(r, e).Some? && e.code <= KEY_MAX
    ensures var reply := ReplyOf(D.Capture(D.Answer(r, e), blocked));
            && reply.Got?
            && var to := ResolveTarget(s, reply.axis, reply.code, reply.invert);
               to.Some? ==> Answered(Mapping(reply.axis, reply.code, to.value.0, to.value.1), s, r, e)
  {
    HatNamesTell(e.code);
  }

  /** What a capture replies maps to, if to anything, is traced to an event of the pad. */
  lemma ReplySays(a: Awaited, reply: Reply, steps: seq<Step>)
    requires FromCapture(a, reply) && reply.Got? && a.step in steps
    ensures var to := ResolveTarget(a.step, reply.axis, reply.code, reply.invert);
            to.Some? ==> Traced(Mapping(reply.axis, reply.code, to.value.0, to.value.1), steps)
  {
    var r: D.Request, events: seq<D.Event> :| RunsFor(a, r) && InRange(events) && reply == ReplyOf(D.Judge(r, events));
    var c := D.Judge(r, events);
    D.JudgeIsFirstAnswer(r, events);
    var i :| 0 <= i < |events| && c.answer == D.Answer(r, events[i]);
    assert events[i] in events;
    AnswerSays(a.step, r, events[i], c.blockedBy);
  }

  ghost predicate AllTraced(x: World) { forall m :: m in x.w.mappings ==> Traced(m, x.w.steps) }

  lemma CurrentReplyKeepsTraced(x: World, a: Awaited, reply: Reply)
    requires Inv(x) && a in x.flying && !Superseded(x.w, a) && FromCapture(a, reply) && AllTraced(x)
    ensures var w := Received(x.w, a, reply).0; w.steps == x.w.steps && forall m :: m in w.mappings ==> Traced(m, w.steps)
  {
    assert AsksFor(x.w, a);
    ReceivedAdvances(x.w, a, reply);
    if reply.Got? { ReplySays(a, reply, x.w.steps); }
    assert x.w.mappings + [] == x.w.mappings;
  }

  lemma StepKeepsTraced(x: World, act: Action)
    requires Inv(x) && Enabled(x, act) && Proper(act) && CapturedAction(act) && AllTraced(x)
    ensures AllTraced(Do(x, act))
  {
    if act.Answer? && !Superseded(x.w, act.a) { CurrentReplyKeepsTraced(x, act.a, act.reply); }
  }

  lemma {:induction false} RunKeepsTraced(x: World, acts: seq<Action>)
    requires Inv(x) && Runs(x, acts) && Captured(acts) && AllTraced(x)
    ensures AllTraced(After(x, acts))
    decreases |acts|
  {
    if acts != [] {
      assert CapturedAction(acts[0]);
      assert forall i :: 0 <= i < |acts[1..]| ==> acts[1..][i] == acts[i + 1];
      StepKeepsInv(x, acts[0]);
      StepKeepsTraced(x, acts[0]);
      RunKeepsTraced(Do(x, acts[0]), acts[1..]);
    }
  }

  // ---------------------------------------------------------------- back at the bridge

  /** The loaded bindings with the ranges the device declares. */
  function Ranged(b: MappingIni.Bindings, range: nat -> (int, int)): E.Bindings {
    E.Bindings(
      map c | c in b.axes :: AxisBinding(b.axes[c].target, range(c).0, range(c).1, b.axes[c].invert), b.buttons)
  }

  /** The event as the bridge reads it. */
  function Delivered(e: D.Event): E.Event {
    E.Event(if e.kind == D.Key then E.EV_KEY else E.EV_ABS, e.code, e.value, 0, 0)
  }

  /** The event, arriving at a bridge in any state, moves what the step asked for, and the right way: the key
      holds the button; the hat's value is the one pushed; a stick that rests near the middle reads positive;
      and a trigger reads higher than at rest exactly when it was pushed upwards. */
  ghost predicate ActsAsAsked(cfg: E.Bindings, s: Step, r: D.Request, e: D.Event) {
    forall d: E.Accumulator :: ActsOn(cfg, s, r, e, d)
  }

  predicate ActsOn(cfg: E.Bindings, s: Step, r: D.Request, e: D.Event, d: E.Accumulator) {
    var z := E.Apply(cfg, d, Delivered(e));
    if e.kind == D.Key then
      e.code in cfg.buttons && cfg.buttons[e.code] == ButtonMask(s.target) && z.pad.Pressed(ButtonMask(s.target))
    else if D.IsHat(e.code) then Coordinate(z, HatTarget(e.code)) == e.value
    else
      && e.code in cfg.axes && e.code in r.neutral
      && var b, info := cfg.axes[e.code], r.neutral[e.code];
      && (AxisAsked(s) in STICKS && Centered(info, b.min, b.max) ==> Coordinate(z, AxisAsked(s)) > 0)
      && (AxisAsked(s) in TRIGGERS && Inside(info, b.min, b.max) && b.min <= e.value <= b.max ==>
            (Coordinate(z, AxisAsked(s)) > ScaleTrigger(b, info.neutral) <==> e.value > info.neutral))
  }

  /** The configuration binds the control of the event as the mapping says. */
  predicate BoundAs(cfg: E.Bindings, m: Mapping, e: D.Event) {
    if e.kind == D.Key then e.code in cfg.buttons && cfg.buttons[e.code] == ButtonMask(m.target)
    else e.code in cfg.axes && cfg.axes[e.code].target == AxisTargetOf(m.target) && cfg.axes[e.code].invert == m.invert
  }

  lemma KeyActs(cfg: E.Bindings, m: Mapping, s: Step, r: D.Request, e: D.Event, d: E.Accumulator)
    requires Answered(m, s, r, e) && e.kind == D.Key && BoundAs(cfg, m, e) && ButtonMask(m.target) != 0
    ensures ActsOn(cfg, s, r, e, d)
  {
    E.SetOwn(d.pad.buttons, ButtonMask(m.target), true);
  }

  lemma HatActs(cfg: E.Bindings, m: Mapping, s: Step, r: D.Request, e: D.Event, d: E.Accumulator)
    requires Answered(m, s, r, e) && e.kind != D.Key && D.IsHat(e.code) && BoundAs(cfg, m, e)
    requires AxisTargetOf(m.target) != NoTarget
    ensures ActsOn(cfg, s, r, e, d)
  {
    AxisNameMovesItsValue(cfg, d, Delivered(e), m.target, "");
  }

  lemma AxisActs(cfg: E.Bindings, m: Mapping, s: Step, r: D.Request, e: D.Event, d: E.Accumulator)
    requires Answered(m, s, r, e) && e.kind != D.Key && !D.IsHat(e.code) && BoundAs(cfg, m, e)
    requires AxisTargetOf(m.target) != NoTarget
    ensures ActsOn(cfg, s, r, e, d)
  {
    AxisNameMovesItsValue(cfg, d, Delivered(e), m.target, "");
    var b := cfg.axes[e.code];
    if Centered(r.neutral[e.code], b.min, b.max) { PushIsPositive(b, r, e); }
    if Inside(r.neutral[e.code], b.min, b.max) && b.min <= e.value <= b.max { TriggerIgnoresInversion(b, r, e); }
  }

  lemma BoundActs(cfg: E.Bindings, m: Mapping, s: Step, r: D.Request, e: D.Event, d: E.Accumulator)
    requires Answered(m, s, r, e) && Bindable(m) && BoundAs(cfg, m, e)
    ensures ActsOn(cfg, s, r, e, d)
  {
    if e.kind == D.Key { KeyActs(cfg, m, s, r, e, d); }
    else if D.IsHat(e.code) { HatActs(cfg, m, s, r, e, d); }
    else { AxisActs(cfg, m, s, r, e, d); }
  }

  lemma LoadedBindsEvent(b: MappingIni.Bindings, range: nat -> (int, int), m: Mapping, s: Step, r: D.Request, e: D.Event)
    requires Answered(m, s, r, e) && BindsAs(b, m, e.code)
    ensures BoundAs(Ranged(b, range), m, e)
  {}

  /** From the pad and back: after any run of the wizard whose replies are captures of arbitrary events, every
      mapping was made by an event that answered one of the steps, and that event, arriving at a bridge that has
      loaded and bound the saved configuration, moves what that step asked for, and the right way. */
  lemma EveryCaptureActs(h: Heading, acts: seq<Action>, keys: seq<string>, i: nat, range: nat -> (int, int))
    returns (s: Step, r: D.Request, e: D.Event)
    requires Runs(FRESH, acts) && Captured(acts) && i < |After(FRESH, acts).w.mappings|
    requires HeadingOnOneLine(h) && '#' !in h.sink && ';' !in h.sink
    ensures s in After(FRESH, acts).w.steps && Accepts(r, s) && D.Answer(r, e).Some?
    ensures var loaded := LoadLines(Lines(JoinLines(Rendered(h, After(FRESH, acts).w.mappings))), Start(map[]));
            && loaded.error == None
            && (KeysOf(keys, loaded.kv) && Covers(keys, loaded.kv) ==>
                  ActsAsAsked(Ranged(BindAll(keys, loaded.kv, UNBOUND), range), s, r, e))
  {
    var x := After(FRESH, acts);
    var m := x.w.mappings[i];
    RunKeepsTraced(FRESH, acts);
    RunKeepsCaptureInv(FRESH, acts);
    assert m in x.w.mappings && Traced(m, x.w.steps) && Bindable(m);
    s, r, e :| s in x.w.steps && Answered(m, s, r, e);
    EveryCaptureBinds(h, acts, keys, i, e.code);
    var loaded := LoadLines(Lines(JoinLines(Rendered(h, x.w.mappings))), Start(map[]));
    if KeysOf(keys, loaded.kv) && Covers(keys, loaded.kv) {
      var b := BindAll(keys, loaded.kv, UNBOUND);
      var cfg := Ranged(b, range);
      LoadedBindsEvent(b, range, m, s, r, e);
      forall d: E.Accumulator
        ensures ActsOn(cfg, s, r, e, d)
      {
        BoundActs(cfg, m, s, r, e, d);
      }
    }
  }
}
