/** The bridge's event loop over a coalescing sink (src/bridge.cpp, src/sinks/ns_hid_sink.cpp): every
    step the loop can take, with the environment choosing what the source reads, what write(2) answers
    and what the clock shows. */
module Bridge {
  import opened Wrappers
  import opened Bits
  import opened Gamepad
  import opened NsHid

  const RETRY_INTERVAL_NS: nat := 500_000_000

  /** encode is the sink's report encoding, shape the chain of transforms. */
  datatype Config = Config(
    encode: GamepadState -> PokkenReport, shape: GamepadState -> GamepadState, canonical: bool, record: bool)

  datatype Stats = Stats(
    updates: nat, submits: nat, coalesced: nat, heartbeats: nat, disconnects: nat, reconnects: nat,
    lastWriteOk: u64, writeFailures: nat)

  /** subs: the report of every submit so far. idx: which of them each report on the wire was, since the
      wire held base reports. displaced: pending reports that a successful submit overtook. quietFrom:
      the wire length when a lost device was first noticed since the source last wrote a state. unsent:
      current has changed since the last submit. recorded: what went to the recorder, and updateReports
      the reports submitted with it. */
  datatype History = History(
    base: nat, subs: seq<PokkenReport>, idx: seq<nat>, displaced: nat, quietFrom: Option<nat>, unsent: bool,
    recorded: seq<GamepadState>, updateReports: seq<PokkenReport>)

  datatype State = State(
    current: GamepadState, sink: Sink, armed: bool, stats: Stats, wasConnected: bool, nextRetry: u64, h: History)

  datatype Reading = NoState | NewState(s: GamepadState)

  /** LoopTop is the connection check before the wait; the others are the events of one epoll_wait. */
  datatype Input =
    | LoopTop(connected: bool, reconnects: bool, w: Write, now: u64)
    | SourceError(r: Reading)
    | SourceReady(r: Reading, w: Write, now: u64)
    | Timer(readOk: bool, w: Write, now: u64)
    | Writable(w: Write)

  function Initial(sink: Sink, connected: bool): State {
    State(NEUTRAL, sink, false, Stats(0, 0, 0, 0, 0, 0, 0, 0), connected, 0,
          History(|sink.wire|, [], [], 0, None, true, [], []))
  }

  function SubmitCurrent(cfg: Config, b: State, w: Write, now: u64): State {
    var r := cfg.encode(b.current);
    var c := b.stats;
    var n := |b.h.subs|;
    b.(sink := Submit(b.sink, r, w),
       armed := !w.Ok(),
       stats := c.(submits := c.submits + 1,
                   coalesced := c.coalesced + (if !w.Ok() && b.sink.pending then 1 else 0),
                   lastWriteOk := if w.Ok() then now else c.lastWriteOk,
                   writeFailures := if w.Ok() then 0 else c.writeFailures + 1),
       h := b.h.(subs := b.h.subs + [r],
                 idx := if w.Ok() then b.h.idx + [n] else b.h.idx,
                 displaced := b.h.displaced + (if w.Ok() && b.sink.pending then 1 else 0),
                 unsent := false))
  }

  function NoticeLoss(cfg: Config, b: State, w: Write, now: u64): State {
    SubmitCurrent(cfg, Lost(b), w, now)
  }

  function Lost(b: State): State {
    b.(current := NEUTRAL, wasConnected := false, stats := b.stats.(disconnects := b.stats.disconnects + 1),
       h := b.h.(quietFrom := QuietSince(b)))
  }

  function QuietSince(b: State): Option<nat> {
    if b.h.quietFrom.Some? then b.h.quietFrom else Some(|b.sink.wire|)
  }

  function TryReconnect(b: State, reconnects: bool, now: u64): State {
    if now < b.nextRetry then b
    else if reconnects then b.(wasConnected := true, stats := b.stats.(reconnects := b.stats.reconnects + 1))
    else b.(nextRetry := (now + RETRY_INTERVAL_NS) % TWO64)
  }

  function Update(cfg: Config, b: State, s: GamepadState, w: Write, now: u64): State {
    SubmitCurrent(cfg, Updated(cfg, b, if cfg.canonical then s else cfg.shape(s)), w, now)
  }

  function Updated(cfg: Config, b: State, c: GamepadState): State {
    b.(current := c, stats := b.stats.(updates := b.stats.updates + 1),
       h := b.h.(quietFrom := None, recorded := if cfg.record then b.h.recorded + [c] else b.h.recorded,
                 updateReports := b.h.updateReports + [cfg.encode(c)]))
  }

  function Beat(b: State): State { b.(stats := b.stats.(heartbeats := b.stats.heartbeats + 1)) }

  function Step(cfg: Config, b: State, i: Input): State {
    match i
    case LoopTop(connected, reconnects, w, now) =>
      if connected then b
      else TryReconnect(if b.wasConnected then NoticeLoss(cfg, b, w, now) else b, reconnects, now)
    case SourceError(NoState) => b
    case SourceError(NewState(s)) => b.(current := s, h := b.h.(quietFrom := None, unsent := true))
    case SourceReady(NoState, _, _) => b
    case SourceReady(NewState(s), w, now) => Update(cfg, b, s, w, now)
    case Timer(readOk, w, now) =>
      if !readOk then b
      else SubmitCurrent(cfg, Beat(b), w, now)
    case Writable(w) => OnWritable(b, w)
  }

  function OnWritable(b: State, w: Write): State {
    var wrote := b.sink.pending && w.Ok();
    b.(sink := Flush(b.sink, w),
       armed := b.armed && b.sink.pending && !w.Ok(),
       h := b.h.(idx := if wrote && |b.h.subs| > 0 then b.h.idx + [|b.h.subs| - 1] else b.h.idx))
  }

  function Run(cfg: Config, b: State, inputs: seq<Input>): State {
    if inputs == [] then b else Step(cfg, Run(cfg, b, inputs[..|inputs| - 1]), inputs[|inputs| - 1])
  }

  // ---------------------------------------------------------------- coalescing

  predicate Increasing(s: seq<nat>) { forall i, j :: 0 <= i < j < |s| ==> s[i] < s[j] }

  /** The wire, since the run began, is a strictly increasing choice among the submits. */
  predicate WireInv(b: State) { Chosen(b.sink.wire, b.h.base, b.h.idx, b.h.subs) }

  predicate Chosen(wire: seq<PokkenReport>, base: nat, idx: seq<nat>, subs: seq<PokkenReport>) {
    && |wire| == base + |idx|
    && Increasing(idx)
    && forall i :: 0 <= i < |idx| ==> idx[i] < |subs| && wire[base + i] == subs[idx[i]]
  }

  /** Only the newest submit is ever waiting; with none waiting, the newest one was written last. */
  predicate NewestInv(cfg: Config, b: State) {
    var n := |b.h.subs|;
    && (b.sink.pending ==> n > 0 && b.sink.pendingReport == b.h.subs[n - 1] && b.stats.writeFailures > 0
                           && (b.h.idx != [] ==> b.h.idx[|b.h.idx| - 1] < n - 1))
    && (!b.sink.pending && n > 0 ==> b.h.idx != [] && b.h.idx[|b.h.idx| - 1] == n - 1)
    && (n > 0 && !b.h.unsent ==> b.h.subs[n - 1] == cfg.encode(b.current))
    && (n == 0 ==> b.h.unsent)
    && (b.armed <==> b.sink.pending)
  }

  predicate CountInv(b: State) {
    var c := b.stats;
    && c.submits == |b.h.subs| == c.updates + c.heartbeats + c.disconnects
    && c.submits == |b.h.idx| + c.coalesced + b.h.displaced + (if b.sink.pending then 1 else 0)
    && c.updates == |b.h.updateReports|
  }

  predicate Inv(cfg: Config, b: State) { WireInv(b) && NewestInv(cfg, b) && CountInv(b) }

  lemma InitialInv(cfg: Config, sink: Sink, connected: bool)
    requires !sink.pending
    ensures Inv(cfg, Initial(sink, connected))
  {}

  /** The state just before a submit: its cause is counted, the submit itself is not. */
  predicate Submitting(b: State) {
    && WireInv(b)
    && (b.sink.pending ==> |b.h.subs| > 0 && (b.h.idx != [] ==> b.h.idx[|b.h.idx| - 1] < |b.h.subs| - 1))
    && b.stats.submits == |b.h.subs|
    && b.stats.submits == |b.h.idx| + b.stats.coalesced + b.h.displaced + (if b.sink.pending then 1 else 0)
    && b.stats.submits + 1 == b.stats.updates + b.stats.heartbeats + b.stats.disconnects
    && b.stats.updates == |b.h.updateReports|
  }

  lemma IncreasingSnoc(idx: seq<nat>, n: nat)
    requires Increasing(idx) && forall i :: 0 <= i < |idx| ==> idx[i] < n
    ensures Increasing(idx + [n])
  {}

  /** A choice stays one when more is submitted, and when that is written too. */
  lemma ChosenSubmit(wire: seq<PokkenReport>, base: nat, idx: seq<nat>, subs: seq<PokkenReport>, r: PokkenReport)
    requires Chosen(wire, base, idx, subs)
    ensures Chosen(wire, base, idx, subs + [r])
    ensures Chosen(wire + [r], base, idx + [|subs|], subs + [r])
  {
    IncreasingSnoc(idx, |subs|);
  }

  /** Writing the newest submit, when what was written last is older. */
  lemma ChosenFlush(wire: seq<PokkenReport>, base: nat, idx: seq<nat>, subs: seq<PokkenReport>)
    requires Chosen(wire, base, idx, subs) && subs != []
    requires idx != [] ==> idx[|idx| - 1] < |subs| - 1
    ensures Chosen(wire + [subs[|subs| - 1]], base, idx + [|subs| - 1], subs)
  {
    forall i | 0 <= i < |idx|
      ensures idx[i] < |subs| - 1
    {
      if i < |idx| - 1 { assert idx[i] < idx[|idx| - 1]; }
    }
    IncreasingSnoc(idx, |subs| - 1);
  }

  lemma SubmitKeepsWire(cfg: Config, b: State, w: Write, now: u64)
    requires Submitting(b)
    ensures WireInv(SubmitCurrent(cfg, b, w, now))
  {
    ChosenSubmit(b.sink.wire, b.h.base, b.h.idx, b.h.subs, cfg.encode(b.current));
  }

  lemma SubmitMakesNewest(cfg: Config, b: State, w: Write, now: u64)
    requires Submitting(b)
    ensures NewestInv(cfg, SubmitCurrent(cfg, b, w, now))
  {}

  lemma SubmitKeepsCount(cfg: Config, b: State, w: Write, now: u64)
    requires Submitting(b)
    ensures CountInv(SubmitCurrent(cfg, b, w, now))
  {}

  /** What a submit establishes, whoever asked for it and whatever the write answers. */
  lemma SubmitKeepsInv(cfg: Config, b: State, w: Write, now: u64)
    requires Submitting(b)
    ensures Inv(cfg, SubmitCurrent(cfg, b, w, now))
  {
    SubmitKeepsWire(cfg, b, w, now);
    SubmitMakesNewest(cfg, b, w, now);
    SubmitKeepsCount(cfg, b, w, now);
  }

  lemma LossCounts(cfg: Config, b: State)
    requires Inv(cfg, b)
    ensures Submitting(Lost(b))
  {}

  lemma BeatCounts(cfg: Config, b: State)
    requires Inv(cfg, b)
    ensures Submitting(Beat(b))
  {}

  lemma UpdateCounts(cfg: Config, b: State, c: GamepadState)
    requires Inv(cfg, b)
    ensures Submitting(Updated(cfg, b, c))
  {}

  lemma FlushedParts(b: State, w: Write)
    requires b.sink.pending && w.Ok() && b.h.subs != [] && b.sink.pendingReport == b.h.subs[|b.h.subs| - 1]
    ensures var z := OnWritable(b, w);
            && z.sink.wire == b.sink.wire + [b.h.subs[|b.h.subs| - 1]] && z.h.idx == b.h.idx + [|b.h.subs| - 1]
            && z.h.base == b.h.base && z.h.subs == b.h.subs
  {}

  lemma UnflushedParts(b: State, w: Write)
    requires !(b.sink.pending && w.Ok())
    ensures var z := OnWritable(b, w);
            && z.sink.wire == b.sink.wire && z.h.idx == b.h.idx && z.h.base == b.h.base && z.h.subs == b.h.subs
  {}

  lemma FlushKeepsWire(b: State, w: Write)
    requires WireInv(b)
    requires b.sink.pending ==> b.h.subs != [] && b.sink.pendingReport == b.h.subs[|b.h.subs| - 1]
    requires b.sink.pending && b.h.idx != [] ==> b.h.idx[|b.h.idx| - 1] < |b.h.subs| - 1
    ensures WireInv(OnWritable(b, w))
  {
    if b.sink.pending && w.Ok() {
      FlushedParts(b, w);
      ChosenFlush(b.sink.wire, b.h.base, b.h.idx, b.h.subs);
    } else {
      UnflushedParts(b, w);
    }
  }

  lemma FlushKeepsInv(cfg: Config, b: State, w: Write)
    requires Inv(cfg, b)
    ensures Inv(cfg, OnWritable(b, w))
  {
    FlushKeepsWire(b, w);
  }

  lemma ReconnectKeepsInv(cfg: Config, b: State, reconnects: bool, now: u64)
    requires Inv(cfg, b)
    ensures Inv(cfg, TryReconnect(b, reconnects, now))
  {}

  lemma StepKeepsInv(cfg: Config, b: State, i: Input)
    requires Inv(cfg, b)
    ensures Inv(cfg, Step(cfg, b, i))
  {
    match i
    case LoopTop(connected, reconnects, w, now) =>
      if !connected {
        if b.wasConnected {
          LossCounts(cfg, b);
          SubmitKeepsInv(cfg, Lost(b), w, now);
        }
        ReconnectKeepsInv(cfg, if b.wasConnected then NoticeLoss(cfg, b, w, now) else b, reconnects, now);
      }
    case SourceError(_) =>
    case SourceReady(NoState, _, _) =>
    case SourceReady(NewState(s), w, now) =>
      var c := if cfg.canonical then s else cfg.shape(s);
      UpdateCounts(cfg, b, c);
      SubmitKeepsInv(cfg, Updated(cfg, b, c), w, now);
    case Timer(readOk, w, now) =>
      if readOk {
        BeatCounts(cfg, b);
        SubmitKeepsInv(cfg, Beat(b), w, now);
      }
    case Writable(w) => FlushKeepsInv(cfg, b, w);
  }

  lemma {:induction false} RunKeepsInv(cfg: Config, b: State, inputs: seq<Input>)
    requires Inv(cfg, b)
    ensures Inv(cfg, Run(cfg, b, inputs))
  {
    if inputs != [] {
      RunKeepsInv(cfg, b, inputs[..|inputs| - 1]);
      StepKeepsInv(cfg, Run(cfg, b, inputs[..|inputs| - 1]), inputs[|inputs| - 1]);
    }
  }

  /** Reports reached the wire in strictly increasing submit order, each submit at most once; what waits
      is the newest submit, and with nothing waiting the newest submit was the last report written;
      the newest submit is the held state's unless an error read changed it since; EPOLLOUT is armed
      exactly while something waits. */
  predicate NewestWins(cfg: Config, b: State) {
    var n := |b.h.subs|;
    && |b.sink.wire| == b.h.base + |b.h.idx| && Increasing(b.h.idx)
    && (forall i :: 0 <= i < |b.h.idx| ==> b.h.idx[i] < n && b.sink.wire[b.h.base + i] == b.h.subs[b.h.idx[i]])
    && (b.sink.pending ==> n > 0 && b.sink.pendingReport == b.h.subs[n - 1])
    && (!b.sink.pending && n > 0 ==> |b.sink.wire| > 0 && b.sink.wire[|b.sink.wire| - 1] == b.h.subs[n - 1])
    && (n > 0 && !b.h.unsent ==> b.h.subs[n - 1] == cfg.encode(b.current))
    && (b.armed <==> b.sink.pending)
  }

  /** Over every run and every write outcome, the newest state wins. */
  lemma NewestStateWins(cfg: Config, sink: Sink, connected: bool, inputs: seq<Input>)
    requires !sink.pending
    ensures NewestWins(cfg, Run(cfg, Initial(sink, connected), inputs))
  {
    InitialInv(cfg, sink, connected);
    RunKeepsInv(cfg, Initial(sink, connected), inputs);
    InvMeansNewestWins(cfg, Run(cfg, Initial(sink, connected), inputs));
  }

  lemma InvMeansNewestWins(cfg: Config, b: State)
    requires Inv(cfg, b)
    ensures NewestWins(cfg, b)
  {
    if !b.sink.pending && |b.h.subs| > 0 { NewestIsLastWritten(cfg, b); }
  }

  lemma NewestIsLastWritten(cfg: Config, b: State)
    requires Inv(cfg, b) && !b.sink.pending && |b.h.subs| > 0
    ensures |b.sink.wire| > 0 && b.sink.wire[|b.sink.wire| - 1] == b.h.subs[|b.h.subs| - 1]
  {
    var last := |b.h.idx| - 1;
    assert b.sink.wire[b.h.base + last] == b.h.subs[b.h.idx[last]];
  }

  /** The counters balance: every submit has one cause, and it was written, waits, or was overtaken.
      The coalesced counter misses exactly the pending reports that a successful submit overtook. */
  lemma SubmitsAreAccountedFor(cfg: Config, sink: Sink, connected: bool, inputs: seq<Input>)
    requires !sink.pending
    ensures var b := Run(cfg, Initial(sink, connected), inputs);
            && b.stats.submits == b.stats.updates + b.stats.heartbeats + b.stats.disconnects
            && b.stats.submits == (|b.sink.wire| - |sink.wire|) + b.stats.coalesced + b.h.displaced
                                  + (if b.sink.pending then 1 else 0)
            && (b.sink.pending ==> b.stats.writeFailures > 0)
  {
    InitialInv(cfg, sink, connected);
    RunKeepsInv(cfg, Initial(sink, connected), inputs);
    BaseStays(cfg, Initial(sink, connected), inputs);
  }

  lemma {:induction false} BaseStays(cfg: Config, b: State, inputs: seq<Input>)
    ensures Run(cfg, b, inputs).h.base == b.h.base
  {
    if inputs != [] { BaseStays(cfg, b, inputs[..|inputs| - 1]); }
  }

  // ---------------------------------------------------------------- device loss

  /** While a loss is being served, nothing but the released report is held, waits or is written. */
  predicate QuietInv(b: State) {
    b.h.quietFrom.Some? ==>
      && b.current == NEUTRAL
      && (b.sink.pending ==> b.sink.pendingReport == RELEASED)
      && b.h.quietFrom.value <= |b.sink.wire|
      && forall i :: b.h.quietFrom.value <= i < |b.sink.wire| ==> b.sink.wire[i] == RELEASED
  }

  lemma StepKeepsQuiet(cfg: Config, b: State, i: Input)
    requires QuietInv(b) && cfg.encode(NEUTRAL) == RELEASED
    ensures QuietInv(Step(cfg, b, i))
  {}

  lemma {:induction false} RunKeepsQuiet(cfg: Config, b: State, inputs: seq<Input>)
    requires QuietInv(b) && cfg.encode(NEUTRAL) == RELEASED
    ensures QuietInv(Run(cfg, b, inputs))
  {
    if inputs != [] {
      RunKeepsQuiet(cfg, b, inputs[..|inputs| - 1]);
      StepKeepsQuiet(cfg, Run(cfg, b, inputs[..|inputs| - 1]), inputs[|inputs| - 1]);
    }
  }

  /** No source writes a state among these inputs. */
  predicate SourceSilent(inputs: seq<Input>) {
    forall i :: 0 <= i < |inputs| ==>
      (inputs[i].SourceError? ==> inputs[i].r.NoState?) && (inputs[i].SourceReady? ==> inputs[i].r.NoState?)
  }

  lemma {:induction false} SilenceKeepsQuiet(cfg: Config, b: State, inputs: seq<Input>)
    requires b.h.quietFrom.Some? && SourceSilent(inputs)
    ensures Run(cfg, b, inputs).h.quietFrom == b.h.quietFrom
    ensures |Run(cfg, b, inputs).sink.wire| >= |b.sink.wire|
  {
    if inputs != [] {
      assert SourceSilent(inputs[..|inputs| - 1]);
      SilenceKeepsQuiet(cfg, b, inputs[..|inputs| - 1]);
    }
  }

  /** When the loop may next try to reconnect, going by what it saw: the retry interval after the last
      attempt that failed. */
  function RetryAt(inputs: seq<Input>): u64 {
    if inputs == [] then 0
    else
      var before, i := RetryAt(inputs[..|inputs| - 1]), inputs[|inputs| - 1];
      if i.LoopTop? && !i.connected && i.now >= before && !i.reconnects then (i.now + RETRY_INTERVAL_NS) % TWO64 else before
  }

  /** Whether the device is there, going by what the loop saw: connected at the start or by the last attempt
      due, and not found lost since. */
  predicate Attached(connected: bool, inputs: seq<Input>) {
    if inputs == [] then connected
    else
      var before, i := inputs[..|inputs| - 1], inputs[|inputs| - 1];
      if i.LoopTop? && !i.connected then i.reconnects && i.now >= RetryAt(before) else Attached(connected, before)
  }

  /** In every run the loop knows whether the device is there, so every loss is noticed, the first as well as
      one after any number of reconnects. */
  lemma {:induction false} ConnectionIsTracked(cfg: Config, sink: Sink, connected: bool, inputs: seq<Input>)
    ensures var z := Run(cfg, Initial(sink, connected), inputs);
            z.wasConnected == Attached(connected, inputs) && z.nextRetry == RetryAt(inputs)
  {
    if inputs != [] { ConnectionIsTracked(cfg, sink, connected, inputs[..|inputs| - 1]); }
  }

  /** Losses and reconnects alternate: over every run they balance. */
  lemma {:induction false} LossesMatchReconnects(cfg: Config, sink: Sink, connected: bool, inputs: seq<Input>)
    ensures var z := Run(cfg, Initial(sink, connected), inputs);
            z.stats.disconnects + (if connected then 0 else 1) == z.stats.reconnects + (if z.wasConnected then 0 else 1)
  {
    if inputs != [] { LossesMatchReconnects(cfg, sink, connected, inputs[..|inputs| - 1]); }
  }

  /** In every run, when a device that was there is lost, the loop notices, and for as long as the source
      writes no state: the held state is neutral, and every report the sink holds or writes, heartbeats and late
      flushes included, is the released one - the very bytes shutdown() writes, in both face modes. */
  lemma LostDeviceReleasesEverything(
    cfg: Config, sink: Sink, connected: bool, past: seq<Input>, top: Input, silent: seq<Input>, byPosition: bool)
    requires cfg.encode == ((s: GamepadState) => Encode(s, byPosition))
    requires top.LoopTop? && !top.connected && Attached(connected, past)
    requires SourceSilent(silent)
    ensures var b := Run(cfg, Initial(sink, connected), past);
            var z := Run(cfg, Step(cfg, b, top), silent);
            && Step(cfg, b, top).stats.disconnects == b.stats.disconnects + 1
            && z.current == NEUTRAL
            && (z.sink.pending ==> z.sink.pendingReport == RELEASED)
            && |z.sink.wire| >= |b.sink.wire|
            && forall i :: |b.sink.wire| <= i < |z.sink.wire| ==> z.sink.wire[i] == RELEASED
  {
    ConnectionIsTracked(cfg, sink, connected, past);
    NeutralEncodesToReleased(NEUTRAL, byPosition);
    assert cfg.encode(NEUTRAL) == RELEASED;
    RunKeepsQuiet(cfg, Initial(sink, connected), past);
    var b := Run(cfg, Initial(sink, connected), past);
    StepKeepsQuiet(cfg, b, top);
    var b1 := Step(cfg, b, top);
    assert b1.h.quietFrom == QuietSince(b) && |b1.sink.wire| >= |b.sink.wire|;
    RunKeepsQuiet(cfg, b1, silent);
    SilenceKeepsQuiet(cfg, b1, silent);
  }

  // ---------------------------------------------------------------- what is held, and what is submitted

  /** Where a held state came from: released on a loss, or read from the source, on the error path or not. */
  datatype Origin = Released | FromSource(s: GamepadState, error: bool)

  /** What an input writes into current. */
  function Wrote(b: State, i: Input): Option<Origin> {
    match i
    case LoopTop(connected, _, _, _) => if !connected && b.wasConnected then Some(Released) else None
    case SourceError(NewState(s)) => Some(FromSource(s, true))
    case SourceReady(NewState(s), _, _) => Some(FromSource(s, false))
    case _ => None
  }

  function LastWrite(cfg: Config, b: State, inputs: seq<Input>): Option<Origin> {
    if inputs == [] then None
    else
      var before := inputs[..|inputs| - 1];
      var o := Wrote(Run(cfg, b, before), inputs[|inputs| - 1]);
      if o.Some? then o else LastWrite(cfg, b, before)
  }

  function Shaped(cfg: Config, s: GamepadState): GamepadState { if cfg.canonical then s else cfg.shape(s) }

  /** The state the loop holds after a write: shaped, unless it was read on the error path. */
  function HeldFrom(cfg: Config, o: Option<Origin>): GamepadState {
    match o
    case None => NEUTRAL
    case Some(Released) => NEUTRAL
    case Some(FromSource(s, error)) => if error then s else Shaped(cfg, s)
  }

  /** The state a host is meant to see: every state of the source shaped. */
  function MeantBy(cfg: Config, o: Option<Origin>): GamepadState {
    match o
    case None => NEUTRAL
    case Some(Released) => NEUTRAL
    case Some(FromSource(s, _)) => Shaped(cfg, s)
  }

  /** In every run the held state is what the last input that wrote it left. */
  lemma {:induction false} HeldStateIsLastWritten(cfg: Config, sink: Sink, connected: bool, inputs: seq<Input>)
    ensures Run(cfg, Initial(sink, connected), inputs).current
            == HeldFrom(cfg, LastWrite(cfg, Initial(sink, connected), inputs))
  {
    if inputs != [] { HeldStateIsLastWritten(cfg, sink, connected, inputs[..|inputs| - 1]); }
  }

  /** The write of the submit an input makes, if it makes one. */
  function SubmitBy(b: State, i: Input): Option<Write> {
    match i
    case LoopTop(connected, _, w, _) => if !connected && b.wasConnected then Some(w) else None
    case SourceReady(NewState(_), w, _) => Some(w)
    case Timer(readOk, w, _) => if readOk then Some(w) else None
    case _ => None
  }

  /** An input submits the state held after it, or nothing. */
  lemma SubmitsWhatIsHeld(cfg: Config, b: State, i: Input)
    ensures var z := Step(cfg, b, i);
            z.h.subs == b.h.subs + if SubmitBy(b, i).Some? then [cfg.encode(z.current)] else []
  {
    assert b.h.subs + [] == b.h.subs;
  }

  lemma {:induction false} SubmitsOnlyGrow(cfg: Config, b: State, xs: seq<Input>, ys: seq<Input>)
    ensures Run(cfg, b, xs).h.subs <= Run(cfg, b, xs + ys).h.subs
  {
    if ys == [] {
      assert xs + ys == xs;
    } else {
      assert (xs + ys)[..|xs + ys| - 1] == xs + ys[..|ys| - 1];
      SubmitsOnlyGrow(cfg, b, xs, ys[..|ys| - 1]);
      SubmitsWhatIsHeld(cfg, Run(cfg, b, xs + ys[..|ys| - 1]), ys[|ys| - 1]);
    }
  }

  /** In every run, every report submitted - by update, heartbeat or release - encodes the state the last
      write left; so it is the one meant for the host exactly when that write was not an error read, or
      shaping its state leaves the report as it is. For a canonical source shaping does nothing, so every
      report is the one meant. */
  lemma ReportIsShapedExactly(
    cfg: Config, sink: Sink, connected: bool, past: seq<Input>, i: Input, later: seq<Input>)
    requires SubmitBy(Run(cfg, Initial(sink, connected), past), i).Some?
    ensures var b := Initial(sink, connected);
            var n := |Run(cfg, b, past).h.subs|;
            var o := LastWrite(cfg, b, past + [i]);
            var subs := Run(cfg, b, past + [i] + later).h.subs;
            && n < |subs| && subs[n] == cfg.encode(HeldFrom(cfg, o))
            && (subs[n] == cfg.encode(MeantBy(cfg, o)) <==>
                  (o.Some? && o.value.FromSource? && o.value.error
                   ==> cfg.encode(o.value.s) == cfg.encode(Shaped(cfg, o.value.s))))
            && (cfg.canonical ==> subs[n] == cfg.encode(MeantBy(cfg, o)))
  {
    var b := Initial(sink, connected);
    assert (past + [i])[..|past|] == past;
    SubmitsWhatIsHeld(cfg, Run(cfg, b, past), i);
    HeldStateIsLastWritten(cfg, sink, connected, past + [i]);
    SubmitsOnlyGrow(cfg, b, past + [i], later);
  }

  /** The states the source handed over on one of the two paths. */
  function StatesRead(inputs: seq<Input>, error: bool): seq<GamepadState> {
    if inputs == [] then []
    else
      var i := inputs[|inputs| - 1];
      StatesRead(inputs[..|inputs| - 1], error)
      + if error && i.SourceError? && i.r.NewState? then [i.r.s]
        else if !error && i.SourceReady? && i.r.NewState? then [i.r.s]
        else []
  }

  lemma UpdatesStep(cfg: Config, b: State, i: Input)
    ensures var z, n := Step(cfg, b, i), if i.SourceReady? && i.r.NewState? then 1 else 0;
            && z.stats.updates == b.stats.updates + n
            && |z.h.recorded| == |b.h.recorded| + if cfg.record then n else 0
  {}

  lemma StatesReadStep(inputs: seq<Input>, error: bool)
    requires inputs != []
    ensures var i := inputs[|inputs| - 1];
            |StatesRead(inputs, error)| == |StatesRead(inputs[..|inputs| - 1], error)|
            + if (if error then i.SourceError? && i.r.NewState? else i.SourceReady? && i.r.NewState?) then 1 else 0
  {}

  lemma {:induction false} CountNormalReads(cfg: Config, sink: Sink, connected: bool, inputs: seq<Input>)
    ensures var z := Run(cfg, Initial(sink, connected), inputs);
            && z.stats.updates == |StatesRead(inputs, false)|
            && (cfg.record ==> |z.h.recorded| == |StatesRead(inputs, false)|)
  {
    if inputs != [] {
      var before := inputs[..|inputs| - 1];
      CountNormalReads(cfg, sink, connected, before);
      StatesReadStep(inputs, false);
      UpdatesStep(cfg, Run(cfg, Initial(sink, connected), before), inputs[|inputs| - 1]);
    }
  }

  /** Updates count exactly the states read normally, for every source: an error read is never counted,
      recorded or submitted when it happens. */
  lemma UpdatesCountNormalReads(cfg: Config, sink: Sink, connected: bool, inputs: seq<Input>)
    ensures var z := Run(cfg, Initial(sink, connected), inputs);
            && z.stats.updates == |StatesRead(inputs, false)|
            && (cfg.record ==> |z.h.recorded| == |StatesRead(inputs, false)|)
    ensures var updates := Run(cfg, Initial(sink, connected), inputs).stats.updates;
            updates == |StatesRead(inputs, false)| + |StatesRead(inputs, true)| <==> StatesRead(inputs, true) == []
  {
    CountNormalReads(cfg, sink, connected, inputs);
  }

  /** A concrete instance: a state read on the error path is sent raw by the next heartbeat. */
  lemma ErrorPathStateIsSentUnshaped(cfg: Config, b: State, s: GamepadState, w: Write, now: u64)
    requires Inv(cfg, b)
    ensures var z := Step(cfg, Step(cfg, b, SourceError(NewState(s))), Timer(true, w, now));
            && z.stats.updates == b.stats.updates
            && |z.h.subs| == |b.h.subs| + 1 && z.h.subs[|b.h.subs|] == cfg.encode(s)
  {}

  // ---------------------------------------------------------------- the health counters

  /** Submits whose own write failed, since the last one whose own write succeeded. */
  function FailedSubmits(cfg: Config, b: State, inputs: seq<Input>): nat {
    if inputs == [] then 0
    else
      var before := inputs[..|inputs| - 1];
      match SubmitBy(Run(cfg, b, before), inputs[|inputs| - 1])
      case None => FailedSubmits(cfg, b, before)
      case Some(w) => if w.Ok() then 0 else FailedSubmits(cfg, b, before) + 1
  }

  /** The clock at the last submit whose own write succeeded. */
  function LastGoodSubmit(cfg: Config, b: State, inputs: seq<Input>): u64 {
    if inputs == [] then 0
    else
      var before, i := inputs[..|inputs| - 1], inputs[|inputs| - 1];
      var w := SubmitBy(Run(cfg, b, before), i);
      if w.Some? && w.value.Ok() && (i.LoopTop? || i.SourceReady? || i.Timer?) then i.now
      else LastGoodSubmit(cfg, b, before)
  }

  /** An input by which a pending report is flushed to the wire. */
  predicate Flushes(b: State, i: Input) { i.Writable? && b.sink.pending && i.w.Ok() }

  /** What the counter is documented to be: consecutive failed submits, reset by any success, a flush included. */
  function FailuresSinceAnyWrite(cfg: Config, b: State, inputs: seq<Input>): nat {
    if inputs == [] then 0
    else
      var before, i := inputs[..|inputs| - 1], inputs[|inputs| - 1];
      var at := Run(cfg, b, before);
      if Flushes(at, i) then 0
      else match SubmitBy(at, i)
        case None => FailuresSinceAnyWrite(cfg, b, before)
        case Some(w) => if w.Ok() then 0 else FailuresSinceAnyWrite(cfg, b, before) + 1
  }

  /** Whether a flush has reached the wire since the last submit that did. */
  predicate FlushedSinceGoodSubmit(cfg: Config, b: State, inputs: seq<Input>) {
    inputs != [] &&
      var before, i := inputs[..|inputs| - 1], inputs[|inputs| - 1];
      var at := Run(cfg, b, before);
      Flushes(at, i)
      || (FlushedSinceGoodSubmit(cfg, b, before) && !(SubmitBy(at, i).Some? && SubmitBy(at, i).value.Ok()))
  }

  lemma HealthStep(cfg: Config, b: State, i: Input)
    ensures Step(cfg, b, i).stats.writeFailures
            == if SubmitBy(b, i).None? then b.stats.writeFailures
               else if SubmitBy(b, i).value.Ok() then 0 else b.stats.writeFailures + 1
  {}

  lemma {:induction false} FailuresFollowSubmits(cfg: Config, sink: Sink, connected: bool, inputs: seq<Input>)
    ensures var b := Initial(sink, connected);
            Run(cfg, b, inputs).stats.writeFailures == FailedSubmits(cfg, b, inputs)
  {
    if inputs != [] {
      var before := inputs[..|inputs| - 1];
      FailuresFollowSubmits(cfg, sink, connected, before);
      HealthStep(cfg, Run(cfg, Initial(sink, connected), before), inputs[|inputs| - 1]);
    }
  }

  lemma {:induction false} LastGoodFollowsSubmits(cfg: Config, sink: Sink, connected: bool, inputs: seq<Input>)
    ensures var b := Initial(sink, connected);
            Run(cfg, b, inputs).stats.lastWriteOk == LastGoodSubmit(cfg, b, inputs)
  {
    if inputs != [] { LastGoodFollowsSubmits(cfg, sink, connected, inputs[..|inputs| - 1]); }
  }

  /** Over every run the counter is the number of failed submits since the last good one, and the time of
      the last good write is that submit's; no flush moves either. */
  lemma HealthFollowsSubmits(cfg: Config, sink: Sink, connected: bool, inputs: seq<Input>)
    ensures var b := Initial(sink, connected);
            var c := Run(cfg, b, inputs).stats;
            c.writeFailures == FailedSubmits(cfg, b, inputs) && c.lastWriteOk == LastGoodSubmit(cfg, b, inputs)
  {
    FailuresFollowSubmits(cfg, sink, connected, inputs);
    LastGoodFollowsSubmits(cfg, sink, connected, inputs);
  }

  /** So it agrees with its documentation exactly while no flush has reached the wire since the last
      submit that did; otherwise it is too high. */
  lemma {:induction false} FailuresAgreeExactly(cfg: Config, sink: Sink, connected: bool, inputs: seq<Input>)
    requires !sink.pending
    ensures var b := Initial(sink, connected);
            var n, meant := Run(cfg, b, inputs).stats.writeFailures, FailuresSinceAnyWrite(cfg, b, inputs);
            meant <= n && (n == meant <==> !FlushedSinceGoodSubmit(cfg, b, inputs))
  {
    if inputs != [] {
      var before := inputs[..|inputs| - 1];
      FailuresAgreeExactly(cfg, sink, connected, before);
      InitialInv(cfg, sink, connected);
      RunKeepsInv(cfg, Initial(sink, connected), before);
      HealthStep(cfg, Run(cfg, Initial(sink, connected), before), inputs[|inputs| - 1]);
    }
  }

  /** Submits made while a report was still pending. */
  function SubmitsOverPending(cfg: Config, b: State, inputs: seq<Input>): nat {
    if inputs == [] then 0
    else
      var before, i := inputs[..|inputs| - 1], inputs[|inputs| - 1];
      var at := Run(cfg, b, before);
      SubmitsOverPending(cfg, b, before) + if at.sink.pending && SubmitBy(at, i).Some? then 1 else 0
  }

  /** Those among them that reached the wire at once. */
  function Overtaking(cfg: Config, b: State, inputs: seq<Input>): nat {
    if inputs == [] then 0
    else
      var before, i := inputs[..|inputs| - 1], inputs[|inputs| - 1];
      var at := Run(cfg, b, before);
      Overtaking(cfg, b, before)
      + if at.sink.pending && SubmitBy(at, i).Some? && SubmitBy(at, i).value.Ok() then 1 else 0
  }

  lemma CoalescedStep(cfg: Config, b: State, i: Input)
    ensures Step(cfg, b, i).stats.coalesced
            == b.stats.coalesced + if b.sink.pending && SubmitBy(b, i).Some? && !SubmitBy(b, i).value.Ok() then 1 else 0
  {}

  lemma {:induction false} CoalescedFollowsSubmits(cfg: Config, sink: Sink, connected: bool, inputs: seq<Input>)
    ensures var b := Initial(sink, connected);
            Run(cfg, b, inputs).stats.coalesced + Overtaking(cfg, b, inputs) == SubmitsOverPending(cfg, b, inputs)
  {
    if inputs != [] {
      var before := inputs[..|inputs| - 1];
      CoalescedFollowsSubmits(cfg, sink, connected, before);
      CoalescedStep(cfg, Run(cfg, Initial(sink, connected), before), inputs[|inputs| - 1]);
    }
  }

  /** The coalesced counter is the number of submits over a pending report exactly when none of them was
      written at once. */
  lemma CoalescedAgreesExactly(cfg: Config, sink: Sink, connected: bool, inputs: seq<Input>)
    ensures var b := Initial(sink, connected);
            Run(cfg, b, inputs).stats.coalesced == SubmitsOverPending(cfg, b, inputs) <==> Overtaking(cfg, b, inputs) == 0
  {
    CoalescedFollowsSubmits(cfg, sink, connected, inputs);
  }

  /** After a failed reconnect nothing changes at the top of the loop until the retry interval is over. */
  lemma RetryWaits(cfg: Config, b: State, w: Write, now: u64, reconnects: bool, v: Write, later: u64)
    requires now >= b.nextRetry && now <= later < now + RETRY_INTERVAL_NS < TWO64
    ensures var z := Step(cfg, b, LoopTop(false, false, w, now));
            Step(cfg, z, LoopTop(false, reconnects, v, later)) == z && !z.wasConnected
  {}

  // ---------------------------------------------------------------- the class

  class EventLoop {
    const sink: NsHidSink
    const shape: GamepadState -> GamepadState
    const canonical: bool
    const record: bool
    var current: GamepadState
    var armed: bool
    var stats: Stats
    var wasConnected: bool
    var nextRetry: u64
    ghost var h: History

    ghost function Cfg(): Config {
      var byPosition := sink.byPosition;
      Config((s: GamepadState) => Encode(s, byPosition), shape, canonical, record)
    }

    ghost function View(): State
      reads this, sink
    {
      State(current, sink.View(), armed, stats, wasConnected, nextRetry, h)
    }

    constructor (sink: NsHidSink, shape: GamepadState -> GamepadState, canonical: bool, record: bool, connected: bool)
      requires !sink.pending
      ensures this.sink == sink && View() == Initial(sink.View(), connected)
      ensures Inv(Cfg(), View())
    {
      this.sink, this.shape, this.canonical, this.record := sink, shape, canonical, record;
      current, armed, stats := NEUTRAL, false, Stats(0, 0, 0, 0, 0, 0, 0, 0);
      wasConnected, nextRetry := connected, 0;
      h := History(|sink.wire|, [], [], 0, None, true, [], []);
    }

    method DoSubmitCurrent(w: Write, now: u64)
      modifies this, sink
      ensures View() == SubmitCurrent(Cfg(), old(View()), w, now)
    {
      var wasPending := sink.pending;
      h := h.(subs := h.subs + [Cfg().encode(current)],
              idx := if w.Ok() then h.idx + [|h.subs|] else h.idx,
              displaced := h.displaced + (if w.Ok() && wasPending then 1 else 0),
              unsent := false);
      var sent := sink.DoSubmit(current, w);
      stats := stats.(submits := stats.submits + 1);
      if !sent && wasPending { stats := stats.(coalesced := stats.coalesced + 1); }
      armed := sink.pending;
      if sent {
        stats := stats.(lastWriteOk := now, writeFailures := 0);
      } else {
        stats := stats.(writeFailures := stats.writeFailures + 1);
      }
    }

    /** The connection check at the top of the loop. */
    method CheckConnection(connected: bool, reconnects: bool, w: Write, now: u64)
      modifies this, sink
      ensures View() == Step(Cfg(), old(View()), LoopTop(connected, reconnects, w, now))
    {
      if !connected {
        if wasConnected {
          wasConnected := false;
          stats := stats.(disconnects := stats.disconnects + 1);
          current := NEUTRAL;
          h := h.(quietFrom := if h.quietFrom.Some? then h.quietFrom else Some(|sink.wire|));
          DoSubmitCurrent(w, now);
        }
        if now >= nextRetry {
          if reconnects {
            stats := stats.(reconnects := stats.reconnects + 1);
            wasConnected := true;
          } else {
            nextRetry := (now + RETRY_INTERVAL_NS) % TWO64;
          }
        }
      }
    }

    method OnSource(error: bool, r: Reading, w: Write, now: u64)
      modifies this, sink
      ensures View() == Step(Cfg(), old(View()), if error then SourceError(r) else SourceReady(r, w, now))
    {
      if error {
        if r.NewState? {
          current := r.s;
          h := h.(quietFrom := None, unsent := true);
        }
        return;
      }
      if r.NoState? { return; }
      current := r.s;
      stats := stats.(updates := stats.updates + 1);
      if !canonical { current := shape(current); }
      h := h.(quietFrom := None, recorded := if record then h.recorded + [current] else h.recorded,
              updateReports := h.updateReports + [Cfg().encode(current)]);
      DoSubmitCurrent(w, now);
    }

    method OnTimer(readOk: bool, w: Write, now: u64)
      modifies this, sink
      ensures View() == Step(Cfg(), old(View()), Timer(readOk, w, now))
    {
      if !readOk { return; }
      stats := stats.(heartbeats := stats.heartbeats + 1);
      DoSubmitCurrent(w, now);
    }

    method OnSinkWritable(w: Write)
      modifies this, sink
      ensures View() == Step(Cfg(), old(View()), Writable(w))
    {
      h := h.(idx := if sink.pending && w.Ok() && |h.subs| > 0 then h.idx + [|h.subs| - 1] else h.idx);
      var empty := sink.DoFlush(w);
      if empty { armed := false; }
    }
  }
}
