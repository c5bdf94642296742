/** Capturing one control from a pad (tools/discover.cpp). */
module Discover {
  import opened Wrappers

  const ABS_HAT0X: nat := 16
  const ABS_HAT0Y: nat := 17
  const SLICE: nat := 100

  datatype EventKind = Key | Abs | Other
  datatype Event = Event(kind: EventKind, code: nat, value: int)

  /** A resting position; span is at least one. */
  datatype AbsInfo = AbsInfo(neutral: int, span: int, confirmed: bool)

  function Magnitude(v: int): int { if v < 0 then -v else v }

  // ---------------------------------------------------------------- waiting for rest

  /** What one look at the pad finds: whether a key is down, and the axes whose value could be read. */
  datatype Look = Look(keyDown: bool, values: map<nat, int>)

  datatype Blocker = KeyHeld | Moved(code: nat, value: int)

  predicate Checked(neutral: map<nat, AbsInfo>, observed: set<nat>, look: Look, c: nat) {
    c in neutral && (neutral[c].confirmed || c in observed) && c in look.values
  }

  predicate NearNeutral(neutral: map<nat, AbsInfo>, look: Look, c: nat)
    requires c in neutral && c in look.values
  {
    Magnitude(look.values[c] - neutral[c].neutral) <= neutral[c].span / 8
  }

  /** No key held, and every axis that has proved it reports close to where it rests. */
  ghost predicate AtRest(neutral: map<nat, AbsInfo>, observed: set<nat>, look: Look) {
    !look.keyDown && forall c :: Checked(neutral, observed, look, c) ==> NearNeutral(neutral, look, c)
  }

  predicate Spans(neutral: map<nat, AbsInfo>) { forall c :: c in neutral ==> neutral[c].span >= 1 }

  method LookForBlocker(neutral: map<nat, AbsInfo>, order: seq<nat>, observed: set<nat>, look: Look)
    returns (blocker: Option<Blocker>)
    requires forall c :: c in order <==> c in neutral
    ensures blocker.None? <==> AtRest(neutral, observed, look)
    ensures blocker == Some(KeyHeld) <==> look.keyDown
    ensures blocker.Some? && blocker.value.Moved? ==>
              var c := blocker.value.code;
              Checked(neutral, observed, look, c) && blocker.value.value == look.values[c] && !NearNeutral(neutral, look, c)
  {
    if look.keyDown { return Some(KeyHeld); }
    for i := 0 to |order|
      invariant forall j :: 0 <= j < i && Checked(neutral, observed, look, order[j]) ==> NearNeutral(neutral, look, order[j])
    {
      var c := order[i];
      if !neutral[c].confirmed && c !in observed { continue; }
      if c !in look.values { continue; }
      if Magnitude(look.values[c] - neutral[c].neutral) > neutral[c].span / 8 {
        assert Checked(neutral, observed, look, c) && !NearNeutral(neutral, look, c);
        return Some(Moved(c, look.values[c]));
      }
    }
    return None;
  }

  /** wait_for_rest; looks is what each slice finds, one entry for every slice the timeout allows. Succeeds
      on the first look that is at rest. */
  method WaitForRest(neutral: map<nat, AbsInfo>, order: seq<nat>, observed: set<nat>, looks: seq<Look>, timeout: int)
    returns (rested: bool, taken: nat, blocker: Option<Blocker>)
    requires forall c :: c in order <==> c in neutral
    requires |looks| * SLICE >= timeout
    ensures taken <= |looks|
    ensures rested ==> taken > 0 && (taken - 1) * SLICE < timeout && AtRest(neutral, observed, looks[taken - 1])
    ensures forall i :: 0 <= i < (if rested then taken - 1 else taken) ==> !AtRest(neutral, observed, looks[i])
    ensures !rested ==> taken * SLICE >= timeout
    ensures !rested && taken > 0 ==> blocker.Some?
  {
    var waited := 0;
    taken, blocker := 0, None;
    while waited < timeout
      invariant taken <= |looks| && waited == taken * SLICE
      invariant forall i :: 0 <= i < taken ==> !AtRest(neutral, observed, looks[i])
      invariant taken > 0 ==> blocker.Some?
      decreases timeout - waited
    {
      blocker := LookForBlocker(neutral, order, observed, looks[taken]);
      taken := taken + 1;
      if blocker.None? { return true, taken, None; }
      waited := waited + SLICE;
    }
    rested := false;
  }

  // ---------------------------------------------------------------- one capture

  /** What the caller accepts and has already bound. */
  datatype Request = Request(
    neutral: map<nat, AbsInfo>, excludeAxes: set<nat>, excludeKeys: set<nat>, button: bool, axis: bool)

  datatype Control = KeyControl(code: nat) | AxisControl(code: nat, invert: bool)

  datatype Capture = Capture(answer: Option<Control>, blockedBy: Option<Control>)

  predicate IsPress(e: Event) { e.kind == Key && e.value == 1 }
  predicate IsHat(c: nat) { c == ABS_HAT0X || c == ABS_HAT0Y }
  predicate IsHatPush(e: Event) { e.kind == Abs && IsHat(e.code) && e.value != 0 }

  predicate Far(r: Request, e: Event) {
    e.code in r.neutral && Magnitude(e.value - r.neutral[e.code].neutral) > r.neutral[e.code].span / 3
  }

  /** What an event answers, by itself. */
  function Answer(r: Request, e: Event): Option<Control> {
    if r.button && IsPress(e) && e.code !in r.excludeKeys then Some(KeyControl(e.code))
    else if IsHatPush(e) then
      if r.button || r.axis then Some(AxisControl(e.code, e.value < 0)) else None
    else if r.axis && e.kind == Abs && e.code !in r.excludeAxes && Far(r, e) then
      Some(AxisControl(e.code, e.value < r.neutral[e.code].neutral))
    else None
  }

  /** An already bound control being used: reported when nothing answers. */
  function Blocks(r: Request, e: Event): Option<Control> {
    if r.button && IsPress(e) && e.code in r.excludeKeys then Some(KeyControl(e.code))
    else if r.axis && e.kind == Abs && !IsHatPush(e) && e.code in r.excludeAxes && Far(r, e) then
      Some(AxisControl(e.code, false))
    else None
  }

  predicate Observes(r: Request, e: Event) { r.axis && e.kind == Abs && !IsHatPush(e) && e.code in r.neutral }

  /** The first answer in a stream, and the last blocking use before it. */
  function Judge(r: Request, events: seq<Event>): Capture
    decreases |events|, 1
  {
    if events == [] then Capture(None, None) else JudgeLast(r, events)
  }

  function JudgeLast(r: Request, events: seq<Event>): Capture
    requires events != []
    decreases |events|, 0
  {
    JudgeNext(r, Judge(r, events[..|events| - 1]), events[|events| - 1])
  }

  function JudgeNext(r: Request, sofar: Capture, e: Event): Capture {
    if sofar.answer.Some? then sofar
    else if Answer(r, e).Some? then sofar.(answer := Answer(r, e))
    else if Blocks(r, e).Some? then sofar.(blockedBy := Blocks(r, e))
    else sofar
  }

  /** The axes heard from before anything answered. */
  function Heard(r: Request, events: seq<Event>): set<nat>
    decreases |events|, 1
  {
    if events == [] then {} else HeardLast(r, events)
  }

  function HeardLast(r: Request, events: seq<Event>): set<nat>
    requires events != []
    decreases |events|, 0
  {
    var front, e := events[..|events| - 1], events[|events| - 1];
    Heard(r, front) + if Judge(r, front).answer.None? && Observes(r, e) then {e.code} else {}
  }

  /** Nothing answered before the first event that answers by itself, and that event's answer is the result. */
  lemma {:induction false} JudgeIsFirstAnswer(r: Request, events: seq<Event>)
    ensures Judge(r, events).answer.None? <==> forall i :: 0 <= i < |events| ==> Answer(r, events[i]).None?
    ensures Judge(r, events).answer.Some? ==>
              exists i :: && 0 <= i < |events| && Judge(r, events).answer == Answer(r, events[i])
                          && forall j :: 0 <= j < i ==> Answer(r, events[j]).None?
  {
    if events != [] {
      var front, n := events[..|events| - 1], |events| - 1;
      JudgeIsFirstAnswer(r, front);
      if Judge(r, front).answer.Some? {
        var i :| && 0 <= i < |front| && Judge(r, front).answer == Answer(r, front[i])
                 && forall j :: 0 <= j < i ==> Answer(r, front[j]).None?;
        assert events[i] == front[i];
        assert forall j :: 0 <= j < i ==> events[j] == front[j];
      } else {
        assert forall j :: 0 <= j < n ==> Answer(r, events[j]) == Answer(r, front[j]);
      }
    }
  }

  /** A deliberate use of a control that is not bound yet: a press, not a release or a repeat; a hat off its
      centre; or an axis more than a third of its span from rest. */
  predicate Deliberate(r: Request, e: Event) {
    || (r.button && e.kind == Key && e.value == 1 && e.code !in r.excludeKeys)
    || ((r.button || r.axis) && e.kind == Abs && (e.code == 16 || e.code == 17) && e.value != 0)
    || (r.axis && e.kind == Abs && e.code !in r.excludeAxes && e.code in r.neutral
        && (3 * (e.value - r.neutral[e.code].neutral) > r.neutral[e.code].span
            || 3 * (r.neutral[e.code].neutral - e.value) > r.neutral[e.code].span))
  }

  lemma AnswersIffDeliberate(r: Request, e: Event)
    requires Spans(r.neutral)
    ensures Answer(r, e).Some? <==> Deliberate(r, e)
  {
    if e.code in r.neutral { assert r.neutral[e.code].span >= 1; }
  }

  /** A capture answers exactly when the pad sends a deliberate use of a control of an accepted kind that is
      not bound yet; a press answers with its key, anything else with its axis. */
  lemma CaptureAnswersExactly(r: Request, events: seq<Event>)
    requires Spans(r.neutral)
    ensures Judge(r, events).answer.Some? <==> exists i :: 0 <= i < |events| && Deliberate(r, events[i])
    ensures Judge(r, events).answer.Some? ==>
              exists i :: && 0 <= i < |events| && Deliberate(r, events[i])
                          && (forall j :: 0 <= j < i ==> !Deliberate(r, events[j]))
                          && Judge(r, events).answer.value.code == events[i].code
                          && (Judge(r, events).answer.value.KeyControl? <==> events[i].kind == Key)
  {
    forall i | 0 <= i < |events|
      ensures Answer(r, events[i]).Some? <==> Deliberate(r, events[i])
    {
      AnswersIffDeliberate(r, events[i]);
    }
    JudgeIsFirstAnswer(r, events);
  }

  lemma JudgeSnoc(r: Request, events: seq<Event>, e: Event)
    ensures Judge(r, events + [e]) == JudgeNext(r, Judge(r, events), e)
    ensures Heard(r, events + [e])
            == Heard(r, events) + if Judge(r, events).answer.None? && Observes(r, e) then {e.code} else {}
  {
    assert (events + [e])[..|events|] == events;
  }

  lemma {:induction false} JudgeSettled(r: Request, a: seq<Event>, b: seq<Event>)
    requires Judge(r, a).answer.Some?
    ensures Judge(r, a + b) == Judge(r, a) && Heard(r, a + b) == Heard(r, a)
  {
    if b == [] {
      assert a + b == a;
    } else {
      JudgeSettled(r, a, b[..|b| - 1]);
      assert a + b == a + b[..|b| - 1] + [b[|b| - 1]];
      JudgeSnoc(r, a + b[..|b| - 1], b[|b| - 1]);
    }
  }

  /** No bound control is captured again, except through the hat's own events. */
  lemma AnswerIsNotExcluded(r: Request, events: seq<Event>)
    requires Judge(r, events).answer.Some?
    ensures var c := Judge(r, events).answer.value;
            if c.KeyControl? then c.code !in r.excludeKeys && r.button else c.code !in r.excludeAxes || IsHat(c.code)
  {
    JudgeIsFirstAnswer(r, events);
  }

  // ---------------------------------------------------------------- the loop with running extremes

  /** What one poll of 100 ms yields. */
  datatype Slice = Idle | Readable(events: seq<Event>)

  /** The events that arrive before enough idle slices have passed. */
  function Arriving(slices: seq<Slice>, budget: int): seq<Event> {
    if slices == [] || budget <= 0 then []
    else match slices[0]
      case Idle => Arriving(slices[1..], budget - SLICE)
      case Readable(events) => events + Arriving(slices[1..], budget)
  }

  lemma SliceArrives(slices: seq<Slice>, i: nat, budget: int)
    requires i < |slices| && budget > 0
    ensures Arriving(slices[i..], budget)
            == match slices[i]
               case Idle => Arriving(slices[i + 1..], budget - SLICE)
               case Readable(events) => events + Arriving(slices[i + 1..], budget)
  {
    assert slices[i..][1..] == slices[i + 1..];
  }

  predicate Quiet(r: Request, extreme: map<nat, int>) {
    && extreme.Keys == r.neutral.Keys
    && forall c :: c in r.neutral ==> Magnitude(extreme[c] - r.neutral[c].neutral) <= r.neutral[c].span / 3
  }

  method TakeAxis(r: Request, e: Event, extreme0: map<nat, int>, observed0: set<nat>, out0: Capture)
    returns (extreme: map<nat, int>, observed: set<nat>, out: Capture)
    requires out0.answer.None? && Quiet(r, extreme0)
    requires r.axis && e.kind == Abs && !IsHatPush(e) && e.code in r.neutral
    ensures out == JudgeNext(r, out0, e) && observed == observed0 + {e.code}
    ensures out.answer.None? ==> Quiet(r, extreme)
  {
    extreme, observed, out := extreme0, observed0 + {e.code}, out0;
    var base, limit := r.neutral[e.code].neutral, r.neutral[e.code].span / 3;
    if e.code in r.excludeAxes {
      if Magnitude(e.value - base) > limit { out := out.(blockedBy := Some(AxisControl(e.code, false))); }
      return;
    }
    if Magnitude(e.value - base) > Magnitude(extreme[e.code] - base) { extreme := extreme[e.code := e.value]; }
    var delta := extreme[e.code] - base;
    if Magnitude(delta) > limit { out := out.(answer := Some(AxisControl(e.code, delta < 0))); }
  }

  /** One event; the axis rule goes by the furthest excursion so far. */
  method Take(r: Request, e: Event, extreme0: map<nat, int>, observed0: set<nat>, out0: Capture)
    returns (extreme: map<nat, int>, observed: set<nat>, out: Capture)
    requires out0.answer.None? && Quiet(r, extreme0)
    ensures out == JudgeNext(r, out0, e)
    ensures observed == observed0 + if Observes(r, e) then {e.code} else {}
    ensures out.answer.None? ==> Quiet(r, extreme)
  {
    extreme, observed, out := extreme0, observed0, out0;
    if r.button && IsPress(e) && e.code in r.excludeKeys { out := out.(blockedBy := Some(KeyControl(e.code))); }
    if r.button && IsPress(e) && e.code !in r.excludeKeys {
      out := out.(answer := Some(KeyControl(e.code)));
      return;
    }
    if IsHatPush(e) {
      if r.button || r.axis { out := out.(answer := Some(AxisControl(e.code, e.value < 0))); }
      return;
    }
    if !r.axis || e.kind != Abs { return; }
    if e.code !in r.neutral { return; }
    extreme, observed, out := TakeAxis(r, e, extreme, observed, out);
  }

  method TakeNth(r: Request, events: seq<Event>, i: nat, extreme0: map<nat, int>, observed0: set<nat>, out0: Capture,
                 ghost before: seq<Event>, ghost seen: set<nat>)
    returns (extreme: map<nat, int>, observed: set<nat>, out: Capture)
    requires i < |events| && Quiet(r, extreme0)
    requires out0 == Judge(r, before + events[..i]) && out0.answer.None?
    requires observed0 == seen + Heard(r, before + events[..i])
    ensures out == Judge(r, before + events[..i + 1])
    ensures observed == seen + Heard(r, before + events[..i + 1])
    ensures out.answer.None? ==> Quiet(r, extreme)
  {
    JudgeSnoc(r, before + events[..i], events[i]);
    assert before + events[..i] + [events[i]] == before + events[..i + 1];
    extreme, observed, out := Take(r, events[i], extreme0, observed0, out0);
  }

  /** The events of one readable slice, up to an answer; before and seen are the stream and the axes
      heard from so far. */
  method TakeAll(r: Request, events: seq<Event>, extreme0: map<nat, int>, observed0: set<nat>, out0: Capture,
                 ghost before: seq<Event>, ghost seen: set<nat>)
    returns (extreme: map<nat, int>, observed: set<nat>, out: Capture)
    requires out0 == Judge(r, before) && out0.answer.None? && Quiet(r, extreme0)
    requires observed0 == seen + Heard(r, before)
    ensures out == Judge(r, before + events)
    ensures observed == seen + Heard(r, before + events)
    ensures out.answer.None? ==> Quiet(r, extreme)
  {
    extreme, observed, out := extreme0, observed0, out0;
    assert before + events[..0] == before;
    for i := 0 to |events|
      invariant out == Judge(r, before + events[..i]) && out.answer.None? && Quiet(r, extreme)
      invariant observed == seen + Heard(r, before + events[..i])
    {
      extreme, observed, out := TakeNth(r, events, i, extreme, observed, out, before, seen);
      if out.answer.Some? {
        assert before + events == (before + events[..i + 1]) + events[i + 1..];
        JudgeSettled(r, before + events[..i + 1], events[i + 1..]);
        return;
      }
    }
    assert events[..|events|] == events;
  }

  lemma SliceTaken(before: seq<Event>, events: seq<Event>, rest: seq<Event>)
    ensures before + events + rest == before + (events + rest)
  {}

  /** capture_control: with its running extremes and its slices, the result is the first event of the
      arriving stream that answers by itself. */
  method CaptureControl(r: Request, observed0: set<nat>, slices: seq<Slice>, timeout: int)
    returns (out: Capture, observed: set<nat>)
    requires Spans(r.neutral)
    ensures out == Judge(r, Arriving(slices, timeout))
    ensures observed == observed0 + Heard(r, Arriving(slices, timeout))
  {
    var extreme := map c | c in r.neutral :: r.neutral[c].neutral;
    out, observed := Capture(None, None), observed0;
    var waited, i := 0, 0;
    ghost var before := [];
    while waited < timeout && i < |slices|
      invariant i <= |slices| && out == Judge(r, before) && out.answer.None? && Quiet(r, extreme)
      invariant observed == observed0 + Heard(r, before)
      invariant before + Arriving(slices[i..], timeout - waited) == Arriving(slices, timeout)
    {
      SliceArrives(slices, i, timeout - waited);
      i := i + 1;
      if slices[i - 1].Idle? {
        waited := waited + SLICE;
        continue;
      }
      var events := slices[i - 1].events;
      extreme, observed, out := TakeAll(r, events, extreme, observed, out, before, observed0);
      SliceTaken(before, events, Arriving(slices[i..], timeout - waited));
      before := before + events;
      if out.answer.Some? {
        JudgeSettled(r, before, Arriving(slices[i..], timeout - waited));
        return;
      }
    }
    assert before + [] == before;
  }

  // ---------------------------------------------------------------- rest makes release harmless

  /** Every event of one axis is no further from neutral than a given value. */
  ghost predicate OnlyApproaches(r: Request, events: seq<Event>, c: nat, from: int)
    requires c in r.neutral
  {
    forall i :: 0 <= i < |events| && events[i].kind == Abs && events[i].code == c ==>
      Magnitude(events[i].value - r.neutral[c].neutral) <= Magnitude(from - r.neutral[c].neutral)
  }

  /** After a successful wait, a checked axis that only moves towards its neutral cannot answer. A hat
      rests at zero, and any other value of it is a push. */
  lemma ReleaseCannotAnswer(r: Request, observed: set<nat>, look: Look, events: seq<Event>, c: nat)
    requires Spans(r.neutral) && AtRest(r.neutral, observed, look) && Checked(r.neutral, observed, look, c)
    requires OnlyApproaches(r, events, c, look.values[c])
    requires IsHat(c) ==> r.neutral[c].neutral == 0 && r.neutral[c].span < 8
    ensures var a := Judge(r, events).answer; a.Some? && a.value.AxisControl? ==> a.value.code != c
  {
    assert NearNeutral(r.neutral, look, c);
    JudgeIsFirstAnswer(r, events);
  }
}
