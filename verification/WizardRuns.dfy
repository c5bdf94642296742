/** Every interleaving of replies, failures, skips and cancels over the wizard's page. */
module WizardRuns {
  import opened Wrappers
  import opened MappingIni
  import opened Wizard

  // ---------------------------------------------------------------- every interleaving

  /** How a step was left. */
  datatype Passage = Mapped(m: Mapping) | Unmapped

  /** The page, the captures still in flight, and how each step so far was left. */
  datatype World = World(w: Page, flying: set<Awaited>, passed: seq<Passage>)

  datatype Action = Open | Begin(steps: seq<Step>) | Skip | Cancel | Answer(a: Awaited, reply: Reply) | Break(a: Awaited)

  const FRESH := World(Page([], 0, [], false, 0, None, false), {}, [])

  predicate Enabled(x: World, act: Action) {
    match act
    case Answer(a, _) => a in x.flying
    case Break(a) => a in x.flying
    case _ => true
  }

  function Launch(x: World, r: (Page, Option<Awaited>), passed: seq<Passage>): World {
    World(r.0, x.flying + (if r.1.Some? then {r.1.value} else {}), passed)
  }

  function PassageOf(w: Page, a: Awaited, reply: Reply): seq<Passage> {
    if Superseded(w, a) then []
    else match reply
      case AlreadyBound(_) => []
      case NothingCaptured => [Unmapped]
      case Got(axis, code, invert) =>
        match ResolveTarget(a.step, axis, code, invert)
        case None => []
        case Some((target, inv)) => [Mapped(Mapping(axis, code, target, inv))]
  }

  function Do(x: World, act: Action): World {
    match act
    case Open => World(Opened(x.w), x.flying, [])
    case Begin(steps) => Launch(x, Begun(x.w, steps), [])
    case Skip => Launch(x, Skipped(x.w), if x.w.running then x.passed + [Unmapped] else x.passed)
    case Cancel => x.(w := Finished(x.w))
    case Answer(a, reply) =>
      Launch(x.(flying := x.flying - {a}), Received(x.w, a, reply), x.passed + PassageOf(x.w, a, reply))
    case Break(a) => x.(flying := x.flying - {a}, w := Broken(x.w, a))
  }

  /** Every action is possible where it is taken, and every target begun has at least one step. */
  predicate Runs(x: World, acts: seq<Action>)
    decreases |acts|
  {
    acts == [] || (Enabled(x, acts[0]) && Proper(acts[0]) && Runs(Do(x, acts[0]), acts[1..]))
  }

  predicate Proper(act: Action) { act.Begin? ==> act.steps != [] }

  function After(x: World, acts: seq<Action>): World
    decreases |acts|
  {
    if acts == [] then x else After(Do(x, acts[0]), acts[1..])
  }

  function MappedOf(passed: seq<Passage>): seq<Mapping> {
    if passed == [] then []
    else
      var last := passed[|passed| - 1];
      MappedOf(passed[..|passed| - 1]) + if last.Mapped? then [last.m] else []
  }

  /** No capture is ahead of the page, and no two share a generation. */
  ghost predicate GensInv(x: World) {
    && (forall a :: a in x.flying ==> a.gen <= x.w.gen)
    && (forall a, b :: a in x.flying && b in x.flying && a.gen == b.gen ==> a == b)
  }

  /** Each step passed is accounted for once, and the mappings are those of the steps mapped, in order. */
  predicate PassedInv(x: World) {
    |x.passed| == x.w.index && x.w.mappings == MappedOf(x.passed) && AllFit(x.w.steps, x.passed)
  }

  /** A mapping says what its step asked for. */
  predicate Fits(step: Step, m: Mapping) {
    exists invert :: ResolveTarget(step, m.axis, m.code, invert) == Some((m.target, m.invert))
  }

  predicate AllFit(steps: seq<Step>, passed: seq<Passage>) {
    forall i :: 0 <= i < |passed| && passed[i].Mapped? ==> i < |steps| && Fits(steps[i], passed[i].m)
  }

  /** The capture of the current generation asks for the current step, excluding what is bound. */
  predicate AsksFor(w: Page, a: Awaited) {
    w.index < |w.steps| && a.step == w.steps[w.index] && a.exclude == Codes(w.mappings)
  }

  ghost predicate CurrentInv(x: World) {
    x.w.running ==> forall a :: a in x.flying && a.gen == x.w.gen ==> AsksFor(x.w, a)
  }

  ghost predicate Inv(x: World) { GensInv(x) && PassedInv(x) && CurrentInv(x) }

  lemma MappedSnoc(passed: seq<Passage>, p: Passage)
    ensures MappedOf(passed + [p]) == MappedOf(passed) + if p.Mapped? then [p.m] else []
  {
    assert (passed + [p])[..|passed|] == passed;
  }

  /** Moving on with a page whose captures are all behind it, or none of them current, keeps everything. */
  lemma LaunchKeeps(x: World, w: Page, passed: seq<Passage>)
    requires forall a :: a in x.flying ==> a.gen <= w.gen
    requires forall a, b :: a in x.flying && b in x.flying && a.gen == b.gen ==> a == b
    requires |passed| == w.index && w.mappings == MappedOf(passed) && AllFit(w.steps, passed)
    requires w.running && w.index >= |w.steps| ==> forall a :: a in x.flying ==> a.gen < w.gen
    ensures Inv(Launch(x, Next(w), passed))
  {}

  function Advanced(w: Page, p: Passage): Page {
    w.(mappings := w.mappings + (if p.Mapped? then [p.m] else []), index := w.index + 1)
  }

  lemma AdvancedKeeps(x: World, w: Page, passed: seq<Passage>, p: Passage)
    requires forall a :: a in x.flying ==> a.gen < w.gen
    requires forall a, b :: a in x.flying && b in x.flying && a.gen == b.gen ==> a == b
    requires |passed| == w.index && w.mappings == MappedOf(passed) && AllFit(w.steps, passed)
    requires p.Mapped? ==> w.index < |w.steps| && Fits(w.steps[w.index], p.m)
    ensures Inv(Launch(x, Next(Advanced(w, p)), passed + [p]))
  {
    MappedSnoc(passed, p);
    LaunchKeeps(x, Advanced(w, p), passed + [p]);
  }

  /** What a current reply does, in terms of how the step is left. */
  lemma ReceivedAdvances(w: Page, a: Awaited, reply: Reply)
    requires !Superseded(w, a) && AsksFor(w, a)
    ensures var p := PassageOf(w, a, reply);
            && |p| <= 1
            && Received(w, a, reply) == Next(if p == [] then w else Advanced(w, p[0]))
            && (p != [] && p[0].Mapped? ==> Fits(w.steps[w.index], p[0].m))
  {
    assert w.mappings + [] == w.mappings;
    if reply.Got? {
      var r := ResolveTarget(a.step, reply.axis, reply.code, reply.invert);
      if r.Some? {
        var m := Mapping(reply.axis, reply.code, r.value.0, r.value.1);
        ResolvedFits(a.step, reply.axis, reply.code, reply.invert);
        assert PassageOf(w, a, reply) == [Mapped(m)];
      }
    }
  }

  lemma ResolvedFits(step: Step, axis: bool, code: string, invert: bool)
    requires ResolveTarget(step, axis, code, invert).Some?
    ensures var r := ResolveTarget(step, axis, code, invert).value; Fits(step, Mapping(axis, code, r.0, r.1))
  {
    var r := ResolveTarget(step, axis, code, invert).value;
    assert ResolveTarget(step, axis, code, invert) == Some((r.0, r.1));
  }

  /** Once the current capture is taken out of flight, none of the others is current. */
  lemma OthersAreBehind(x: World, a: Awaited)
    requires GensInv(x) && a in x.flying && a.gen == x.w.gen
    ensures forall b :: b in x.flying - {a} ==> b.gen < x.w.gen
  {}

  lemma CurrentAnswerKeeps(x: World, a: Awaited, reply: Reply)
    requires Inv(x) && a in x.flying && !Superseded(x.w, a)
    ensures Inv(Do(x, Answer(a, reply)))
  {
    var y := x.(flying := x.flying - {a});
    var p := PassageOf(x.w, a, reply);
    OthersAreBehind(x, a);
    ReceivedAdvances(x.w, a, reply);
    if p == [] {
      assert x.passed + [] == x.passed;
      LaunchKeeps(y, x.w, x.passed);
    } else {
      AdvancedKeeps(y, x.w, x.passed, p[0]);
      assert p == [p[0]];
    }
  }

  lemma AnswerKeeps(x: World, a: Awaited, reply: Reply)
    requires Inv(x) && a in x.flying
    ensures Inv(Do(x, Answer(a, reply)))
  {
    if Superseded(x.w, a) {
      assert x.passed + [] == x.passed;
    } else {
      CurrentAnswerKeeps(x, a, reply);
    }
  }

  lemma SkipKeeps(x: World)
    requires Inv(x)
    ensures Inv(Do(x, Skip))
  {
    if x.w.running {
      var w := AbortInFlight(x.w);
      assert w.mappings + [] == w.mappings;
      assert w.(index := x.w.index + 1) == Advanced(w, Unmapped);
      AdvancedKeeps(x, w, x.passed, Unmapped);
    }
  }

  lemma BeginKeeps(x: World, steps: seq<Step>)
    requires Inv(x) && steps != []
    ensures Inv(Do(x, Begin(steps)))
  {
    LaunchKeeps(x, x.w.(steps := steps, index := 0, mappings := [], running := true, saving := false), []);
  }

  lemma OpenKeeps(x: World)
    requires Inv(x)
    ensures Inv(Do(x, Open))
  {
    assert MappedOf([]) == [];
  }

  lemma CancelKeeps(x: World)
    requires Inv(x)
    ensures Inv(Do(x, Cancel))
  {}

  lemma BreakKeeps(x: World, a: Awaited)
    requires Inv(x) && a in x.flying
    ensures Inv(Do(x, Break(a)))
  {}

  lemma GenNeverFalls(x: World, act: Action)
    ensures Do(x, act).w.gen >= x.w.gen
  {}

  lemma StepKeepsInv(x: World, act: Action)
    requires Inv(x) && Enabled(x, act) && Proper(act)
    ensures Inv(Do(x, act)) && Do(x, act).w.gen >= x.w.gen
  {
    GenNeverFalls(x, act);
    match act
    case Open => OpenKeeps(x);
    case Begin(steps) => BeginKeeps(x, steps);
    case Skip => SkipKeeps(x);
    case Cancel => CancelKeeps(x);
    case Answer(a, reply) => AnswerKeeps(x, a, reply);
    case Break(a) => BreakKeeps(x, a);
  }

  lemma {:induction false} RunKeepsInv(x: World, acts: seq<Action>)
    requires Inv(x) && Runs(x, acts)
    ensures Inv(After(x, acts)) && After(x, acts).w.gen >= x.w.gen
    decreases |acts|
  {
    if acts != [] {
      StepKeepsInv(x, acts[0]);
      RunKeepsInv(Do(x, acts[0]), acts[1..]);
    }
  }

  // ---------------------------------------------------------------- what holds in every run

  /** At most one capture is current, and while the wizard runs it asks for the current step. */
  lemma OneCurrentCapture(acts: seq<Action>, a: Awaited, b: Awaited)
    requires Runs(FRESH, acts)
    requires var x := After(FRESH, acts); a in x.flying && b in x.flying && a.gen == x.w.gen && b.gen == x.w.gen
    ensures a == b
    ensures After(FRESH, acts).w.running ==> AsksFor(After(FRESH, acts).w, a)
  {
    RunKeepsInv(FRESH, acts);
  }

  /** Opening, beginning, skipping, cancelling, taking a current reply and noticing a current failure
      supersede every other capture in flight. */
  lemma MovingOnSupersedes(x: World, act: Action, a: Awaited)
    requires Inv(x) && Enabled(x, act) && Proper(act) && a in x.flying
    requires act.Answer? || act.Break? ==> !Superseded(x.w, act.a) && a != act.a
    ensures Superseded(Do(x, act).w, a)
  {}

  lemma StaysSuperseded(x: World, act: Action, a: Awaited)
    requires Inv(x) && Enabled(x, act) && Proper(act) && Superseded(x.w, a) && a.gen <= x.w.gen
    ensures Superseded(Do(x, act).w, a) && a.gen <= Do(x, act).w.gen
  {}

  /** Once superseded, by a later generation or because the page stopped, a capture stays so and changes
      nothing, whatever it brings and whenever it arrives. */
  lemma {:induction false} SupersededChangesNothing(x: World, acts: seq<Action>, a: Awaited, reply: Reply)
    requires Inv(x) && Runs(x, acts) && Superseded(x.w, a) && a.gen <= x.w.gen
    ensures var w := After(x, acts).w;
            Superseded(w, a) && Received(w, a, reply) == (w, None) && Broken(w, a) == w
    decreases |acts|
  {
    if acts != [] {
      StepKeepsInv(x, acts[0]);
      StaysSuperseded(x, acts[0], a);
      SupersededChangesNothing(Do(x, acts[0]), acts[1..], a, reply);
    }
  }

  /** Every step index below the current one was passed once, in order; the mappings are exactly those of
      the steps that were mapped, at most one each, and each says what its step asked for. */
  lemma EachStepPassedOnce(acts: seq<Action>)
    requires Runs(FRESH, acts)
    ensures var x := After(FRESH, acts);
            |x.passed| == x.w.index && x.w.mappings == MappedOf(x.passed) && AllFit(x.w.steps, x.passed)
  {
    RunKeepsInv(FRESH, acts);
  }

  /** No action moves the wizard on by more than one step, and a step is left only by its own reply or by a skip. */
  lemma OneStepAtATime(x: World, act: Action)
    requires Inv(x) && Enabled(x, act) && Proper(act) && !act.Begin? && !act.Open?
    ensures var y := Do(x, act);
            && (y.w.index == x.w.index || y.w.index == x.w.index + 1)
            && (y.w.index != x.w.index && act.Answer? ==> AsksFor(x.w, act.a))
            && x.passed <= y.passed
  {}

  /** While the page runs it awaits an answer for its current step, or has gone to saving. */
  ghost predicate Going(x: World) {
    x.w.running ==> if x.w.index < |x.w.steps| then exists a :: a in x.flying && a.gen == x.w.gen else x.w.saving
  }

  /** Asking for the next step leaves its capture in flight. */
  lemma LaunchGoes(x: World, w: Page, passed: seq<Passage>)
    ensures Going(Launch(x, Next(w), passed))
  {
    if w.running && w.index < |w.steps| {
      assert Next(w).1.value in Launch(x, Next(w), passed).flying;
    }
  }

  /** A current reply always ends by asking for some next step. */
  lemma ReceivedIsNext(w: Page, a: Awaited, reply: Reply) returns (w': Page)
    requires !Superseded(w, a)
    ensures Received(w, a, reply) == Next(w')
  {
    match reply
    case AlreadyBound(_) => w' := w;
    case NothingCaptured => w' := w.(index := w.index + 1);
    case Got(axis, code, invert) =>
      var to := ResolveTarget(a.step, axis, code, invert);
      w' := if to.None? then w
            else w.(mappings := w.mappings + [Mapping(axis, code, to.value.0, to.value.1)], index := w.index + 1);
  }

  lemma AnswerKeepsGoing(x: World, a: Awaited, reply: Reply)
    requires a in x.flying && Going(x)
    ensures Going(Do(x, Answer(a, reply)))
  {
    if Superseded(x.w, a) {
      StaysAwaited(x, a);
    } else {
      var w := ReceivedIsNext(x.w, a, reply);
      LaunchGoes(x.(flying := x.flying - {a}), w, x.passed + PassageOf(x.w, a, reply));
    }
  }

  /** The capture awaited is not the one that a superseded reply came for. */
  lemma StaysAwaited(x: World, a: Awaited)
    requires Going(x) && Superseded(x.w, a)
    ensures Going(x.(flying := x.flying - {a}))
  {
    if x.w.running && x.w.index < |x.w.steps| {
      var b :| b in x.flying && b.gen == x.w.gen;
      assert b in x.flying - {a};
    }
  }

  lemma SkipKeepsGoing(x: World)
    requires Going(x)
    ensures Going(Do(x, Skip))
  {
    if x.w.running { LaunchGoes(x, AbortInFlight(x.w).(index := x.w.index + 1), x.passed + [Unmapped]); }
  }

  lemma StepKeepsGoing(x: World, act: Action)
    requires Inv(x) && Enabled(x, act) && Going(x)
    ensures Going(Do(x, act))
  {
    match act
    case Open =>
    case Begin(steps) =>
      LaunchGoes(x, x.w.(steps := steps, index := 0, mappings := [], running := true, saving := false), []);
    case Skip => SkipKeepsGoing(x);
    case Cancel =>
    case Answer(a, reply) => AnswerKeepsGoing(x, a, reply);
    case Break(a) => if Superseded(x.w, a) { StaysAwaited(x, a); }
  }

  lemma {:induction false} RunKeepsGoing(x: World, acts: seq<Action>)
    requires Inv(x) && Runs(x, acts) && Going(x)
    ensures Going(After(x, acts))
    decreases |acts|
  {
    if acts != [] {
      StepKeepsInv(x, acts[0]);
      StepKeepsGoing(x, acts[0]);
      RunKeepsGoing(Do(x, acts[0]), acts[1..]);
    }
  }

  /** The wizard is never stuck: in every run, while the page runs and steps are left, a capture whose answer will
      be taken is in flight; and when none is left the page is saving. */
  lemma NeverStuck(acts: seq<Action>)
    requires Runs(FRESH, acts)
    ensures Going(After(FRESH, acts))
  {
    RunKeepsGoing(FRESH, acts);
  }

  /** The same step is asked again exactly when the control was bound already, or an axis that is no hat answered
      a step with no axis to map it to. */
  predicate AsksAgain(s: Step, reply: Reply) {
    || reply.AlreadyBound?
    || (reply.Got? && reply.axis && !IsHatName(reply.code) && s.capture != WantsAxis && s.targetAxis == "")
  }

  /** What the answer to a current capture does: the step is passed unless it is asked again, and a control that
      passes it is mapped, once, under its own name. */
  lemma CurrentReplyMoves(x: World, a: Awaited, reply: Reply)
    requires Inv(x) && a in x.flying && !Superseded(x.w, a)
    ensures var w, again := Received(x.w, a, reply).0, AsksAgain(x.w.steps[x.w.index], reply);
            var n := |x.w.mappings|;
            && w.index == x.w.index + (if again then 0 else 1) && w.running && w.steps == x.w.steps
            && w.mappings[..n] == x.w.mappings
            && |w.mappings| == n + (if reply.Got? && !again then 1 else 0)
            && (reply.Got? && !again ==> w.mappings[n].code == reply.code && w.mappings[n].axis == reply.axis)
  {
    assert AsksFor(x.w, a);
  }

  /** Beginning supersedes a capture in flight exactly when the target has a step to ask for, or the
      capture was behind already. */
  lemma BeginSupersedesExactly(x: World, steps: seq<Step>, a: Awaited)
    requires Inv(x) && a in x.flying
    ensures Superseded(Do(x, Begin(steps)).w, a) <==> steps != [] || a.gen != x.w.gen
  {}

  /** Why a target must have a step: with none, beginning does not advance the generation, and the reply
      to a capture of the run before is still taken. */
  lemma EmptyTargetTakesStaleReply(s: Step)
    requires s.capture == WantsAny
    ensures var a := Awaited(1, s, []);
            var x := After(FRESH, [Begin([s]), Open, Begin([])]);
            var y := Do(x, Answer(a, Got(false, "BTN_A", false)));
            && a in x.flying && x.w.steps == [] && x.w.mappings == []
            && y.w.mappings == [Mapping(false, "BTN_A", s.target, false)] && y.w.index == 1
  {
    var acts := [Begin([s]), Open, Begin([])];
    assert acts[1..] == [Open, Begin([])] && acts[1..][1..] == [Begin([])] && acts[1..][1..][1..] == [];
    var x1 := Do(FRESH, acts[0]);
    assert [s][0] == s && x1.flying == {Awaited(1, s, [])};
    var x2 := Do(x1, Open);
    var x3 := Do(x2, Begin([]));
    assert After(x2, [Begin([])]) == After(x3, []);
    assert After(x1, [Open, Begin([])]) == x3;
  }
}
