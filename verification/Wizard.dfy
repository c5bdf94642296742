/** The mapping wizard of web/static/wizard.js and web/static/mapping.js: captures awaited across
    generations, with replies arriving in any order. */
module Wizard {
  import opened Wrappers
  import opened MappingIni

  // ---------------------------------------------------------------- steps

  datatype CaptureKind = WantsAxis | WantsButton | WantsAny

  /** One thing to ask for; targetAxis is empty when the control has none. */
  datatype Step = Step(target: string, capture: CaptureKind, targetAxis: string)

  /** A control of the target; some need several captures. */
  datatype Control = Control(target: string, capture: CaptureKind, targetAxis: string, steps: Option<seq<string>>)

  function StepsOf(c: Control): seq<Step> {
    match c.steps
    case None => [Step(c.target, c.capture, c.targetAxis)]
    case Some(targets) => seq(|targets|, i requires 0 <= i < |targets| => Step(targets[i], c.capture, c.targetAxis))
  }

  function AllSteps(cs: seq<Control>): seq<Step> {
    if cs == [] then [] else AllSteps(cs[..|cs| - 1]) + StepsOf(cs[|cs| - 1])
  }

  method BuildSteps(controls: seq<Control>) returns (steps: seq<Step>)
    ensures steps == AllSteps(controls)
  {
    steps := [];
    for i := 0 to |controls|
      invariant steps == AllSteps(controls[..i])
    {
      var c := controls[i];
      assert controls[..i + 1][..i] == controls[..i];
      if c.steps.Some? {
        ghost var before := steps;
        for j := 0 to |c.steps.value|
          invariant steps == before + StepsOf(c)[..j]
        {
          steps := steps + [Step(c.steps.value[j], c.capture, c.targetAxis)];
        }
        assert StepsOf(c)[..|c.steps.value|] == StepsOf(c);
      } else {
        steps := steps + [Step(c.target, c.capture, c.targetAxis)];
      }
    }
    assert controls[..|controls|] == controls;
  }

  // ---------------------------------------------------------------- replies

  datatype Reply = Got(axis: bool, code: string, invert: bool) | AlreadyBound(code: string) | NothingCaptured

  predicate IsHatName(code: string) { code == "ABS_HAT0X" || code == "ABS_HAT0Y" }

  /** Which target a captured control maps to, and its direction; None asks again. */
  function ResolveTarget(step: Step, axis: bool, code: string, invert: bool): Option<(string, bool)> {
    if !axis then Some((step.target, false))
    else if IsHatName(code) then Some((if code == "ABS_HAT0X" then "hatx" else "haty", false))
    else if step.capture == WantsAxis then Some((step.target, invert))
    else if step.targetAxis != "" then Some((step.targetAxis, invert))
    else None
  }

  function Codes(ms: seq<Mapping>): (r: seq<string>)
    ensures |r| == |ms| && forall i :: 0 <= i < |ms| ==> r[i] == ms[i].code
  {
    if ms == [] then [] else Codes(ms[..|ms| - 1]) + [ms[|ms| - 1].code]
  }

  // ---------------------------------------------------------------- the page as a value

  datatype Page = Page(
    steps: seq<Step>, index: nat, mappings: seq<Mapping>, running: bool, gen: nat, abort: Option<nat>, saving: bool)

  /** A capture being awaited, with what its continuation remembers. */
  datatype Awaited = Awaited(gen: nat, step: Step, exclude: seq<string>)

  function Next(w: Page): (Page, Option<Awaited>) {
    if !w.running then (w, None)
    else if w.index >= |w.steps| then (w.(saving := true), None)
    else
      (w.(gen := w.gen + 1, abort := Some(w.gen + 1)), Some(Awaited(w.gen + 1, w.steps[w.index], Codes(w.mappings))))
  }

  predicate Superseded(w: Page, a: Awaited) { a.gen != w.gen || !w.running }

  function Received(w: Page, a: Awaited, reply: Reply): (Page, Option<Awaited>) {
    if Superseded(w, a) then (w, None)
    else match reply
      case AlreadyBound(_) => Next(w)
      case NothingCaptured => Next(w.(index := w.index + 1))
      case Got(axis, code, invert) =>
        match ResolveTarget(a.step, axis, code, invert)
        case None => Next(w)
        case Some((target, inv)) =>
          Next(w.(mappings := w.mappings + [Mapping(axis, code, target, inv)], index := w.index + 1))
  }

  function Broken(w: Page, a: Awaited): Page {
    if a.gen != w.gen then w else w.(running := false)
  }

  function AbortInFlight(w: Page): Page { w.(gen := w.gen + 1, abort := None) }

  function Skipped(w: Page): (Page, Option<Awaited>) {
    if !w.running then (w, None)
    else
      var aborted := AbortInFlight(w);
      Next(aborted.(index := w.index + 1))
  }

  function Opened(w: Page): Page { w.(index := 0, mappings := [], running := false, saving := false) }

  function Begun(w: Page, steps: seq<Step>): (Page, Option<Awaited>) {
    Next(w.(steps := steps, index := 0, mappings := [], running := true, saving := false))
  }

  function Finished(w: Page): Page { AbortInFlight(w.(running := false)) }

  class WizardPage {
    var steps: seq<Step>
    var index: nat
    var mappings: seq<Mapping>
    var running: bool
    var gen: nat
    var abort: Option<nat>
    var saving: bool

    function View(): Page
      reads this
    {
      Page(steps, index, mappings, running, gen, abort, saving)
    }

    /** Up to the await: the request sent, if any. */
    method NextStep() returns (request: Option<Awaited>)
      modifies this
      ensures (View(), request) == Next(old(View()))
    {
      if !running { return None; }
      if index >= |steps| {
        saving := true;
        return None;
      }
      gen := gen + 1;
      abort := Some(gen);
      return Some(Awaited(gen, steps[index], Codes(mappings)));
    }

    /** The continuation, when the reply arrives. */
    method Receive(a: Awaited, reply: Reply) returns (request: Option<Awaited>)
      modifies this
      ensures (View(), request) == Received(old(View()), a, reply)
    {
      if a.gen != gen || !running { return None; }
      if reply.AlreadyBound? {
        request := NextStep();
        return;
      }
      if reply.Got? {
        var resolved := ResolveTarget(a.step, reply.axis, reply.code, reply.invert);
        if resolved.None? {
          request := NextStep();
          return;
        }
        mappings := mappings + [Mapping(reply.axis, reply.code, resolved.value.0, resolved.value.1)];
      }
      index := index + 1;
      request := NextStep();
    }

    /** The continuation, when the request fails or was aborted. */
    method Fail(a: Awaited)
      modifies this
      ensures View() == Broken(old(View()), a)
    {
      if a.gen != gen { return; }
      running := false;
    }

    method Abort()
      modifies this
      ensures View() == AbortInFlight(old(View()))
    {
      gen := gen + 1;
      if abort.Some? { abort := None; }
    }

    method SkipStep() returns (request: Option<Awaited>)
      modifies this
      ensures (View(), request) == Skipped(old(View()))
    {
      if !running { return None; }
      Abort();
      index := index + 1;
      request := NextStep();
    }

    method Finish()
      modifies this
      ensures View() == Finished(old(View()))
    {
      running := false;
      Abort();
    }

    method Begin(controls: seq<Control>) returns (request: Option<Awaited>)
      modifies this
      ensures (View(), request) == Begun(old(View()), AllSteps(controls))
    {
      steps := BuildSteps(controls);
      index, mappings, running, saving := 0, [], true, false;
      request := NextStep();
    }
  }
}
