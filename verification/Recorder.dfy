/** The capture ring of src/recorder.cpp: a producer, a writer thread and a stopping thread that
    interleave at every load, slot copy, fwrite and store. */
module Recorder {
  import opened Wrappers
  import opened Bits
  import opened Gamepad
  import opened RingArithmetic

  /** Where record() stands: nothing in progress, called, head_ loaded, tail_ loaded, slot copied. */
  datatype Producer =
    | Idle
    | Called(s: GamepadState)
    | HaveHead(s: GamepadState, h: u64)
    | HaveTail(s: GamepadState, h: u64, t: u64)
    | Copied(s: GamepadState, h: u64)

  /** Where writer_loop() stands: top of the loop, head_ loaded, found the ring empty, in the inner
      loop, past the break, returned. */
  datatype Writer =
    | Top
    | LoadedHead(h: u64)
    | Empty
    | Draining(h: u64, t: u64)
    | Flushing
    | Done

  datatype Stopper = NotStopped | Joining | Closed

  /** The shared variables, the three program counters and a history of what has happened. */
  datatype State = State(
    ring: seq<GamepadState>, head: u64, tail: u64, running: bool, written: nat, dropped: nat,
    producer: Producer, writer: Writer, stopper: Stopper,
    h: History)

  /** offered: record() calls begun. accepted: states published by a store to head_. oks: one entry per
      fwrite, its success; handed: what each was given. published: how many of them a store to tail_
      has released. seenTail, seenHead: the unwrapped values of the last loads of tail_ by the
      producer and of head_ by the writer. */
  datatype History = History(
    offered: nat, accepted: seq<GamepadState>, handed: seq<GamepadState>, oks: seq<bool>,
    published: nat, seenTail: nat, seenHead: nat)

  datatype Action = Record(s: GamepadState) | ProducerStep | WriterStep(ok: bool) | Stop | Join

  function Start(ring: seq<GamepadState>): State {
    State(ring, 0, 0, true, 0, 0, Idle, Top, NotStopped, History(0, [], [], [], 0, 0, 0))
  }

  predicate Enabled(s: State, a: Action) {
    match a
    case Record(_) => s.producer.Idle?
    case ProducerStep => !s.producer.Idle?
    case WriterStep(_) => !s.writer.Done?
    case Stop => s.stopper.NotStopped?
    case Join => s.stopper.Joining? && s.writer.Done?
  }

  function ProducerNext(s: State): State
    requires |s.ring| > 0
  {
    match s.producer
    case Idle => s
    case Called(x) => s.(producer := HaveHead(x, s.head))
    case HaveHead(x, h) => s.(producer := HaveTail(x, h, s.tail), h := s.h.(seenTail := s.h.published))
    case HaveTail(x, h, t) =>
      if (h - t) % TWO64 >= |s.ring| then s.(producer := Idle, dropped := s.dropped + 1)
      else s.(producer := Copied(x, h), ring := s.ring[h % |s.ring| := x])
    case Copied(x, h) =>
      s.(producer := Idle, head := (h + 1) % TWO64, h := s.h.(accepted := s.h.accepted + [x]))
  }

  function WriterNext(s: State, ok: bool): State
    requires |s.ring| > 0
  {
    match s.writer
    case Top => s.(writer := LoadedHead(s.head), h := s.h.(seenHead := |s.h.accepted|))
    case LoadedHead(h) => s.(writer := if s.tail == h then Empty else Draining(h, s.tail))
    case Empty => s.(writer := if s.running then Top else Flushing)
    case Draining(h, t) =>
      if t == h then s.(writer := Top, tail := t, h := s.h.(published := |s.h.handed|))
      else
        s.(writer := Draining(h, (t + 1) % TWO64), written := s.written + (if ok then 1 else 0),
           h := s.h.(handed := s.h.handed + [s.ring[t % |s.ring|]], oks := s.h.oks + [ok]))
    case Flushing => s.(writer := Done)
    case Done => s
  }

  function Next(s: State, a: Action): State
    requires |s.ring| > 0
  {
    match a
    case Record(x) => s.(producer := Called(x), h := s.h.(offered := s.h.offered + 1))
    case ProducerStep => ProducerNext(s)
    case WriterStep(ok) => WriterNext(s, ok)
    case Stop => s.(running := false, stopper := Joining)
    case Join => s.(stopper := Closed)
  }

  function Count(oks: seq<bool>): nat {
    if oks == [] then 0 else Count(oks[..|oks| - 1]) + if oks[|oks| - 1] then 1 else 0
  }

  // ---------------------------------------------------------------- what every step keeps

  predicate SizeOk(n: nat, k: nat) { k <= 63 && n == Pow2(k) }

  /** The queue itself: what has been consumed is a prefix of what was accepted, at most a ring's
      worth is outstanding, and every outstanding record still sits in its slot. */
  predicate QueueInv(s: State, k: nat) {
    && SizeOk(|s.ring|, k)
    && s.head == |s.h.accepted| % TWO64 && s.tail == s.h.published % TWO64
    && s.h.published <= |s.h.handed| <= |s.h.accepted| <= s.h.published + |s.ring|
    && s.h.handed == s.h.accepted[..|s.h.handed|]
    && forall i :: s.h.published <= i < |s.h.accepted| ==> InSlot(s, i)
  }

  predicate InSlot(s: State, i: nat)
    requires i < |s.h.accepted|
  {
    |s.ring| > 0 && s.ring[i % |s.ring|] == s.h.accepted[i]
  }

  predicate ProducerInv(s: State) {
    var n := |s.h.accepted|;
    match s.producer
    case Idle => true
    case Called(_) => true
    case HaveHead(_, h) => h == s.head
    case HaveTail(_, h, t) =>
      && h == s.head && t == s.h.seenTail % TWO64
      && s.h.seenTail <= s.h.published && n <= s.h.seenTail + |s.ring|
    case Copied(x, h) => h == s.head && n < s.h.published + |s.ring| && |s.ring| > 0 && s.ring[n % |s.ring|] == x
  }

  predicate WriterInv(s: State) {
    var c := |s.h.handed|;
    match s.writer
    case Top => s.h.published == c
    case LoadedHead(h) => s.h.published == c && h == s.h.seenHead % TWO64 && c <= s.h.seenHead <= |s.h.accepted|
    case Empty => s.h.published == c && c == s.h.seenHead
    case Draining(h, t) =>
      h == s.h.seenHead % TWO64 && t == c % TWO64 && c <= s.h.seenHead <= |s.h.accepted|
    case Flushing => s.h.published == c && c == s.h.seenHead && !s.running
    case Done => s.h.published == c && c == s.h.seenHead && !s.running
  }

  predicate CountInv(s: State) {
    && s.h.offered == |s.h.accepted| + s.dropped + (if s.producer.Idle? then 0 else 1)
    && |s.h.oks| == |s.h.handed| && s.written == Count(s.h.oks)
    && (s.running <==> s.stopper.NotStopped?)
    && (s.stopper.Closed? ==> s.writer.Done?)
  }

  predicate Inv(s: State, k: nat) {
    QueueInv(s, k) && ProducerInv(s) && WriterInv(s) && CountInv(s)
  }

  lemma StartInv(ring: seq<GamepadState>, k: nat)
    requires SizeOk(|ring|, k)
    ensures Inv(Start(ring), k)
  {}

  lemma SizeFits(n: nat, k: nat)
    requires SizeOk(n, k)
    ensures 0 < n < TWO64
  {
    Pow2Values();
    Pow2Add(32, 32);
    Pow2Add(63 - k, k);
    if n > Pow2(63) { ProductAtLeast(Pow2(63 - k), n); }
    ProductAtLeast(Pow2(63 - k), n);
    assert Pow2(64) == 2 * Pow2(63);
  }

  /** The wrapped full test is the true one, so a slot the producer fills is outside [tail, head). */
  lemma FullTestIsTrue(s: State, k: nat)
    requires Inv(s, k) && s.producer.HaveTail?
    ensures (s.producer.h - s.producer.t) % TWO64 == |s.h.accepted| - s.h.seenTail
  {
    SizeFits(|s.ring|, k);
    WrappedDistance(|s.h.accepted|, s.h.seenTail);
  }

  lemma SlotOf(s: State, k: nat, x: nat)
    requires SizeOk(|s.ring|, k)
    ensures x % TWO64 % |s.ring| == x % |s.ring|
  {
    WrapKeepsSlot(x, k);
  }

  lemma CopyKeepsQueue(s: State, k: nat)
    requires Inv(s, k) && s.producer.HaveTail? && (s.producer.h - s.producer.t) % TWO64 < |s.ring|
    ensures QueueInv(ProducerNext(s), k) && ProducerInv(ProducerNext(s))
  {
    FullTestIsTrue(s, k);
    var n := |s.h.accepted|;
    SlotOf(s, k, n);
    var s' := ProducerNext(s);
    forall i | s.h.published <= i < n
      ensures InSlot(s', i)
    {
      assert InSlot(s, i);
      DistinctSlots(i, n, |s.ring|);
    }
  }

  lemma PublishKeepsQueue(s: State, k: nat)
    requires Inv(s, k) && s.producer.Copied?
    ensures QueueInv(ProducerNext(s), k)
  {
    var s' := ProducerNext(s);
    WrappedSuccessor(|s.h.accepted|);
    forall i | s'.h.published <= i < |s'.h.accepted|
      ensures InSlot(s', i)
    {
      if i < |s.h.accepted| { assert InSlot(s, i); }
    }
  }

  lemma CopyKeepsInv(s: State, k: nat)
    requires Inv(s, k) && s.producer.HaveTail?
    ensures Inv(ProducerNext(s), k)
  {
    if (s.producer.h - s.producer.t) % TWO64 < |s.ring| {
      CopyKeepsQueue(s, k);
    } else {
      SameQueue(s, ProducerNext(s), k);
    }
  }

  lemma PublishKeepsInv(s: State, k: nat)
    requires Inv(s, k) && s.producer.Copied?
    ensures Inv(ProducerNext(s), k)
  {
    PublishKeepsQueue(s, k);
  }

  lemma LoadKeepsInv(s: State, k: nat)
    requires Inv(s, k) && (s.producer.Called? || s.producer.HaveHead?)
    ensures Inv(ProducerNext(s), k)
  {
    SameQueue(s, ProducerNext(s), k);
  }

  lemma ProducerKeepsInv(s: State, k: nat)
    requires Inv(s, k) && !s.producer.Idle?
    ensures Inv(ProducerNext(s), k)
  {
    match s.producer
    case Called(_) => LoadKeepsInv(s, k);
    case HaveHead(_, _) => LoadKeepsInv(s, k);
    case HaveTail(_, _, _) => CopyKeepsInv(s, k);
    case Copied(_, _) => PublishKeepsInv(s, k);
  }

  /** A step that leaves the queue variables alone keeps the queue invariant. */
  lemma SameQueue(s: State, s': State, k: nat)
    requires QueueInv(s, k)
    requires s'.ring == s.ring && s'.head == s.head && s'.tail == s.tail
    requires s'.h.accepted == s.h.accepted && s'.h.handed == s.h.handed && s'.h.published == s.h.published
    ensures QueueInv(s', k)
  {
    forall i | s'.h.published <= i < |s'.h.accepted|
      ensures InSlot(s', i)
    {
      assert InSlot(s, i);
    }
  }

  lemma FwriteKeepsQueue(s: State, k: nat, ok: bool)
    requires Inv(s, k) && s.writer.Draining? && s.writer.t != s.writer.h
    ensures QueueInv(WriterNext(s, ok), k) && WriterInv(WriterNext(s, ok))
    ensures WriterNext(s, ok).h.handed == s.h.handed + [s.h.accepted[|s.h.handed|]]
  {
    var c := |s.h.handed|;
    assert c < s.h.seenHead;
    SlotOf(s, k, c);
    assert InSlot(s, c);
    WrappedSuccessor(c);
    var s' := WriterNext(s, ok);
    forall i | s'.h.published <= i < |s'.h.accepted|
      ensures InSlot(s', i)
    {
      assert InSlot(s, i);
    }
  }

  lemma ReleaseKeepsQueue(s: State, k: nat, ok: bool)
    requires Inv(s, k) && s.writer.Draining? && s.writer.t == s.writer.h
    ensures QueueInv(WriterNext(s, ok), k) && WriterInv(WriterNext(s, ok)) && ProducerInv(WriterNext(s, ok))
  {
    var s' := WriterNext(s, ok);
    forall i | s'.h.published <= i < |s'.h.accepted|
      ensures InSlot(s', i)
    {
      assert InSlot(s, i);
    }
  }

  lemma EmptyTestIsTrue(s: State, k: nat)
    requires Inv(s, k) && s.writer.LoadedHead?
    ensures s.tail == s.writer.h <==> s.h.published == s.h.seenHead
  {
    SizeFits(|s.ring|, k);
    WrappedDistance(s.h.seenHead, s.h.published);
  }

  lemma LoadHeadKeepsInv(s: State, k: nat, ok: bool)
    requires Inv(s, k) && s.writer.Top?
    ensures Inv(WriterNext(s, ok), k)
  {
    SameQueue(s, WriterNext(s, ok), k);
  }

  lemma TestKeepsInv(s: State, k: nat, ok: bool)
    requires Inv(s, k) && s.writer.LoadedHead?
    ensures Inv(WriterNext(s, ok), k)
  {
    EmptyTestIsTrue(s, k);
    SameQueue(s, WriterNext(s, ok), k);
  }

  lemma IdleKeepsInv(s: State, k: nat, ok: bool)
    requires Inv(s, k) && (s.writer.Empty? || s.writer.Flushing?)
    ensures Inv(WriterNext(s, ok), k)
  {
    SameQueue(s, WriterNext(s, ok), k);
  }

  lemma ReleaseKeepsInv(s: State, k: nat, ok: bool)
    requires Inv(s, k) && s.writer.Draining? && s.writer.t == s.writer.h
    ensures Inv(WriterNext(s, ok), k)
  {
    ReleaseKeepsQueue(s, k, ok);
  }

  lemma FwriteKeepsCount(s: State, k: nat, ok: bool)
    requires Inv(s, k) && s.writer.Draining? && s.writer.t != s.writer.h
    ensures CountInv(WriterNext(s, ok)) && ProducerInv(WriterNext(s, ok))
  {
    assert (s.h.oks + [ok])[..|s.h.oks|] == s.h.oks;
  }

  lemma FwriteKeepsInv(s: State, k: nat, ok: bool)
    requires Inv(s, k) && s.writer.Draining? && s.writer.t != s.writer.h
    ensures Inv(WriterNext(s, ok), k)
  {
    FwriteKeepsQueue(s, k, ok);
    FwriteKeepsCount(s, k, ok);
  }

  lemma WriterKeepsInv(s: State, k: nat, ok: bool)
    requires Inv(s, k) && !s.writer.Done?
    ensures Inv(WriterNext(s, ok), k)
  {
    match s.writer
    case Top => LoadHeadKeepsInv(s, k, ok);
    case LoadedHead(_) => TestKeepsInv(s, k, ok);
    case Empty => IdleKeepsInv(s, k, ok);
    case Draining(h, t) => if t == h { ReleaseKeepsInv(s, k, ok); } else { FwriteKeepsInv(s, k, ok); }
    case Flushing => IdleKeepsInv(s, k, ok);
  }

  lemma StepKeepsInv(s: State, k: nat, a: Action)
    requires Inv(s, k) && Enabled(s, a)
    ensures Inv(Next(s, a), k)
  {
    match a
    case Record(_) => SameQueue(s, Next(s, a), k);
    case ProducerStep => ProducerKeepsInv(s, k);
    case WriterStep(ok) => WriterKeepsInv(s, k, ok);
    case Stop => SameQueue(s, Next(s, a), k);
    case Join => SameQueue(s, Next(s, a), k);
  }

  // ---------------------------------------------------------------- runs

  /** The state after an interleaving, if every step of it could be taken. */
  function Exec(s: State, acts: seq<Action>): Option<State> {
    if acts == [] then Some(s)
    else
      var before := Exec(s, acts[..|acts| - 1]);
      var a := acts[|acts| - 1];
      if before.Some? && |before.value.ring| > 0 && Enabled(before.value, a) then Some(Next(before.value, a)) else None
  }

  /** s is reached from a fresh ring of 2^k slots by the given interleaving. */
  predicate Reaches(k: nat, ring: seq<GamepadState>, acts: seq<Action>, s: State) {
    SizeOk(|ring|, k) && Exec(Start(ring), acts) == Some(s)
  }

  lemma {:induction false} RunKeepsInv(k: nat, ring: seq<GamepadState>, acts: seq<Action>, s: State)
    requires Reaches(k, ring, acts, s)
    ensures Inv(s, k)
    decreases |acts|
  {
    if acts == [] {
      StartInv(ring, k);
    } else {
      var before := Exec(Start(ring), acts[..|acts| - 1]).value;
      RunKeepsInv(k, ring, acts[..|acts| - 1], before);
      StepKeepsInv(before, k, acts[|acts| - 1]);
    }
  }

  /** Under every interleaving: the outstanding count never exceeds the ring, what fwrite was given is
      a prefix of what was accepted, in order and once each, and the books balance. */
  lemma CaptureIsFaithful(k: nat, ring: seq<GamepadState>, acts: seq<Action>, s: State)
    requires Reaches(k, ring, acts, s)
    ensures 0 <= |s.h.accepted| - s.h.published <= |s.ring|
    ensures s.h.handed <= s.h.accepted
    ensures s.producer.Idle? ==> s.h.offered == |s.h.accepted| + s.dropped
    ensures |s.h.oks| == |s.h.handed| && s.written == Count(s.h.oks)
  {
    RunKeepsInv(k, ring, acts, s);
  }

  /** No producer step changes the slot of a record that has not been released. */
  lemma ProducerNeverOverwrites(k: nat, ring: seq<GamepadState>, acts: seq<Action>, s: State, i: nat)
    requires Reaches(k, ring, acts, s) && !s.producer.Idle?
    requires s.h.published <= i < |s.h.accepted|
    ensures |s.ring| > 0 && |ProducerNext(s).ring| == |s.ring|
    ensures ProducerNext(s).ring[i % |s.ring|] == s.ring[i % |s.ring|] == s.h.accepted[i]
  {
    RunKeepsInv(k, ring, acts, s);
    assert InSlot(s, i);
    if s.producer.HaveTail? && (s.producer.h - s.producer.t) % TWO64 < |s.ring| {
      CopyKeepsQueue(s, k);
      assert InSlot(ProducerNext(s), i);
    }
  }

  /** A record is dropped only when, at the moment tail_ was read, the ring was truly full. */
  lemma DropOnlyWhenFull(k: nat, ring: seq<GamepadState>, acts: seq<Action>, s: State)
    requires Reaches(k, ring, acts, s) && s.producer.HaveTail?
    ensures |s.ring| > 0
    ensures ProducerNext(s).dropped == s.dropped + 1 <==> |s.h.accepted| - s.h.seenTail == |s.ring|
  {
    RunKeepsInv(k, ring, acts, s);
    FullTestIsTrue(s, k);
  }

  /** When the writer thread has returned it has consumed exactly what was accepted up to its last load
      of head_; so nothing accepted is lost exactly when nothing was published after that load. */
  lemma WriterExitIsExact(k: nat, ring: seq<GamepadState>, acts: seq<Action>, s: State)
    requires Reaches(k, ring, acts, s) && s.writer.Done?
    ensures s.h.seenHead <= |s.h.accepted| && s.h.handed == s.h.accepted[..s.h.seenHead]
    ensures s.h.handed == s.h.accepted <==> |s.h.accepted| == s.h.seenHead
    ensures !s.running
  {
    RunKeepsInv(k, ring, acts, s);
  }

  /** Stopping after record() has returned does not save its record: the writer may have read head_
      just before the store and running_ just after the stop. */
  lemma StopCanLoseAnAcceptedRecord(x: GamepadState)
    ensures exists acts: seq<Action>, s: State ::
              && Reaches(0, [NEUTRAL], acts, s) && s.stopper.Closed? && s.producer.Idle?
              && s.h.accepted == [x] && s.h.handed == []
              && acts[|acts| - 1].Join? && (exists i :: 0 <= i < |acts| && acts[i].Stop?)
  {
    var s0 := Start([NEUTRAL]);
    assert Pow2(0) == 1;
    assert Reaches(0, [NEUTRAL], [], s0);
    var a1, s1 := Extend([NEUTRAL], [], s0, WriterStep(true));
    var a2, s2 := Extend([NEUTRAL], a1, s1, Record(x));
    var a3, s3 := Extend([NEUTRAL], a2, s2, ProducerStep);
    var a4, s4 := Extend([NEUTRAL], a3, s3, ProducerStep);
    var a5, s5 := Extend([NEUTRAL], a4, s4, ProducerStep);
    var a6, s6 := Extend([NEUTRAL], a5, s5, ProducerStep);
    var a7, s7 := Extend([NEUTRAL], a6, s6, Stop);
    var a8, s8 := Extend([NEUTRAL], a7, s7, WriterStep(true));
    var a9, s9 := Extend([NEUTRAL], a8, s8, WriterStep(true));
    var a10, s10 := Extend([NEUTRAL], a9, s9, WriterStep(true));
    var a11, s11 := Extend([NEUTRAL], a10, s10, Join);
    assert a11[6].Stop?;
  }

  lemma Extend(ring: seq<GamepadState>, acts: seq<Action>, before: State, a: Action)
    returns (acts': seq<Action>, s: State)
    requires Reaches(0, ring, acts, before) && |before.ring| > 0 && Enabled(before, a)
    ensures acts' == acts + [a] && s == Next(before, a) && Reaches(0, ring, acts', s)
  {
    acts', s := acts + [a], Next(before, a);
    assert acts'[..|acts'| - 1] == acts && acts'[|acts'| - 1] == a;
  }

  // ---------------------------------------------------------------- the file against the calls

  function OfferedNext(offered: seq<GamepadState>, a: Action): seq<GamepadState> {
    if a.Record? then offered + [a.s] else offered
  }

  /** The records record() was called with, in order. */
  function Offered(acts: seq<Action>): seq<GamepadState> {
    if acts == [] then [] else OfferedNext(Offered(acts[..|acts| - 1]), acts[|acts| - 1])
  }

  function KeptNext(s: State, offered: seq<GamepadState>, kept: seq<int>, a: Action): seq<int> {
    if a.ProducerStep? && s.producer.Copied? then kept + [|offered| - 1] else kept
  }

  /** Which of those calls were published, in order. */
  function KeptAt(ring: seq<GamepadState>, acts: seq<Action>): seq<int> {
    if acts == [] then []
    else
      var before := acts[..|acts| - 1];
      var s := Exec(Start(ring), before);
      if s.None? then [] else KeptNext(s.value, Offered(before), KeptAt(ring, before), acts[|acts| - 1])
  }

  /** The capture holds, in order, some of the records offered: entry k is the one offered at kept[k]. */
  predicate CaptureOf(capture: seq<GamepadState>, offered: seq<GamepadState>, kept: seq<int>) {
    && |kept| == |capture|
    && (forall k, l :: 0 <= k < l < |kept| ==> kept[k] < kept[l])
    && forall k :: 0 <= k < |kept| ==> 0 <= kept[k] < |offered| && capture[k] == offered[kept[k]]
  }

  /** The record of the call in progress. */
  function InProgress(p: Producer): Option<GamepadState> {
    match p
    case Idle => None
    case Called(x) => Some(x)
    case HaveHead(x, _) => Some(x)
    case HaveTail(x, _, _) => Some(x)
    case Copied(x, _) => Some(x)
  }

  /** A call in progress is the last one offered, and not kept yet. */
  predicate LastInProgress(p: Producer, offered: seq<GamepadState>, kept: seq<int>) {
    InProgress(p).Some? ==>
      && offered != [] && offered[|offered| - 1] == InProgress(p).value
      && forall k :: 0 <= k < |kept| ==> kept[k] < |offered| - 1
  }

  lemma KeepLast(capture: seq<GamepadState>, offered: seq<GamepadState>, kept: seq<int>, x: GamepadState)
    requires CaptureOf(capture, offered, kept) && offered != [] && offered[|offered| - 1] == x
    requires forall k :: 0 <= k < |kept| ==> kept[k] < |offered| - 1
    ensures CaptureOf(capture + [x], offered, kept + [|offered| - 1])
  {}

  lemma OfferMore(capture: seq<GamepadState>, offered: seq<GamepadState>, kept: seq<int>, x: GamepadState)
    requires CaptureOf(capture, offered, kept)
    ensures CaptureOf(capture, offered + [x], kept)
    ensures forall k :: 0 <= k < |kept| ==> kept[k] < |offered|
  {}

  predicate KeptInv(s: State, offered: seq<GamepadState>, kept: seq<int>) {
    && CaptureOf(s.h.accepted, offered, kept) && LastInProgress(s.producer, offered, kept)
    && |offered| == |s.h.accepted| + s.dropped + (if s.producer.Idle? then 0 else 1)
  }

  lemma StepKeepsKept(s: State, a: Action, offered: seq<GamepadState>, kept: seq<int>)
    requires KeptInv(s, offered, kept) && Enabled(s, a) && |s.ring| > 0
    ensures KeptInv(Next(s, a), OfferedNext(offered, a), KeptNext(s, offered, kept, a))
  {
    match a
    case Record(x) => OfferMore(s.h.accepted, offered, kept, x);
    case ProducerStep => if s.producer.Copied? { KeepLast(s.h.accepted, offered, kept, s.producer.s); }
    case WriterStep(_) =>
    case Stop =>
    case Join =>
  }

  /** In every interleaving the records accepted are, in order and once each, those of the calls that were not
      dropped; as many calls are missing as were dropped or are still in progress. */
  lemma {:induction false} AcceptedAreTheUndropped(k: nat, ring: seq<GamepadState>, acts: seq<Action>, s: State)
    requires Reaches(k, ring, acts, s)
    ensures CaptureOf(s.h.accepted, Offered(acts), KeptAt(ring, acts))
    ensures |Offered(acts)| == |s.h.accepted| + s.dropped + (if s.producer.Idle? then 0 else 1)
    ensures LastInProgress(s.producer, Offered(acts), KeptAt(ring, acts))
    decreases |acts|
  {
    if acts != [] {
      var before := acts[..|acts| - 1];
      var was := Exec(Start(ring), before).value;
      AcceptedAreTheUndropped(k, ring, before, was);
      StepKeepsKept(was, acts[|acts| - 1], Offered(before), KeptAt(ring, before));
    }
  }

  /** The positions of the fwrites that succeeded. */
  function WrittenAt(oks: seq<bool>): seq<int> {
    if oks == [] then []
    else WrittenAt(oks[..|oks| - 1]) + if oks[|oks| - 1] then [|oks| - 1] else []
  }

  /** What the file holds: the records whose fwrite succeeded. */
  function FileOf(handed: seq<GamepadState>, oks: seq<bool>): seq<GamepadState>
    requires |handed| == |oks|
  {
    if oks == [] then []
    else
      var n := |oks| - 1;
      FileOf(handed[..n], oks[..n]) + if oks[n] then [handed[n]] else []
  }

  lemma {:induction false} FileIsOfHanded(handed: seq<GamepadState>, oks: seq<bool>)
    requires |handed| == |oks|
    ensures CaptureOf(FileOf(handed, oks), handed, WrittenAt(oks))
    ensures |FileOf(handed, oks)| == Count(oks)
    ensures Count(oks) <= |oks| && (Count(oks) == |oks| ==> FileOf(handed, oks) == handed)
  {
    if oks != [] {
      var n := |oks| - 1;
      FileIsOfHanded(handed[..n], oks[..n]);
      assert handed == handed[..n] + [handed[n]];
      OfferMore(FileOf(handed[..n], oks[..n]), handed[..n], WrittenAt(oks[..n]), handed[n]);
      if oks[n] { KeepLast(FileOf(handed[..n], oks[..n]), handed, WrittenAt(oks[..n]), handed[n]); }
    }
  }

  function Compose(inner: seq<int>, outer: seq<int>): seq<int>
    requires forall k :: 0 <= k < |inner| ==> 0 <= inner[k] < |outer|
  {
    seq(|inner|, k requires 0 <= k < |inner| => outer[inner[k]])
  }

  lemma CaptureOfCapture(file: seq<GamepadState>, handed: seq<GamepadState>, offered: seq<GamepadState>,
                         inner: seq<int>, outer: seq<int>)
    requires CaptureOf(file, handed, inner) && CaptureOf(handed, offered, outer)
    ensures CaptureOf(file, offered, Compose(inner, outer))
  {}

  lemma CaptureOfPrefix(handed: seq<GamepadState>, accepted: seq<GamepadState>, offered: seq<GamepadState>, kept: seq<int>)
    requires handed <= accepted && CaptureOf(accepted, offered, kept)
    ensures CaptureOf(handed, offered, kept[..|handed|])
  {}

  /** From the calls to the file: in every interleaving, and whatever fwrite answers, the file holds some of the
      records record() was called with, in order and once each, and as many as the written counter says. It
      holds them all once the writer has returned, if none was dropped, every fwrite succeeded, and the writer's
      last load of head_ saw the last of them. */
  lemma FileIsCapture(k: nat, ring: seq<GamepadState>, acts: seq<Action>, s: State) returns (kept: seq<int>)
    requires Reaches(k, ring, acts, s)
    ensures |s.h.handed| == |s.h.oks|
    ensures CaptureOf(FileOf(s.h.handed, s.h.oks), Offered(acts), kept) && |kept| == s.written
    ensures s.writer.Done? && s.producer.Idle? && s.dropped == 0 && s.written == |s.h.oks| && s.h.seenHead == |s.h.accepted|
            ==> FileOf(s.h.handed, s.h.oks) == Offered(acts)
  {
    RunKeepsInv(k, ring, acts, s);
    AcceptedAreTheUndropped(k, ring, acts, s);
    FileIsOfHanded(s.h.handed, s.h.oks);
    CaptureOfPrefix(s.h.handed, s.h.accepted, Offered(acts), KeptAt(ring, acts));
    CaptureOfCapture(FileOf(s.h.handed, s.h.oks), s.h.handed, Offered(acts),
                     WrittenAt(s.h.oks), KeptAt(ring, acts)[..|s.h.handed|]);
    kept := Compose(WrittenAt(s.h.oks), KeptAt(ring, acts)[..|s.h.handed|]);
    if s.h.handed == s.h.accepted && |s.h.accepted| == |Offered(acts)| {
      CaptureOfAll(s.h.accepted, Offered(acts), KeptAt(ring, acts));
    }
  }

  /** As many as were offered, in order, are all of them. */
  lemma {:induction false} CaptureOfAll(capture: seq<GamepadState>, offered: seq<GamepadState>, kept: seq<int>)
    requires CaptureOf(capture, offered, kept) && |capture| == |offered|
    ensures capture == offered
  {
    forall i | 0 <= i < |kept|
      ensures kept[i] == i
    {
      AtLeast(kept, i);
      AtMost(kept, i, |offered|);
    }
  }

  lemma {:induction false} AtLeast(kept: seq<int>, i: nat)
    requires i < |kept| && kept[0] >= 0 && forall k, l :: 0 <= k < l < |kept| ==> kept[k] < kept[l]
    ensures kept[i] >= i
  {
    if i > 0 { AtLeast(kept, i - 1); }
  }

  lemma {:induction false} AtMost(kept: seq<int>, i: nat, n: nat)
    requires i < |kept| && kept[|kept| - 1] < n && forall k, l :: 0 <= k < l < |kept| ==> kept[k] < kept[l]
    ensures kept[i] <= n - (|kept| - i)
    decreases |kept| - i
  {
    if i < |kept| - 1 { AtMost(kept, i + 1, n); }
  }

  // ---------------------------------------------------------------- the class

  /** The recorder as the source keeps it: an array, two indices, a mask and counters. Each method is
      one atomic step of one of the threads. */
  class CaptureRecorder {
    const ring: array<GamepadState>
    const mask: nat
    var head: u64
    var tail: u64
    var running: bool
    var written: nat
    var dropped: nat
    var producer: Producer
    var writer: Writer
    var stopper: Stopper
    ghost var h: History
    ghost const k: nat

    ghost predicate Sized() {
      SizeOk(ring.Length, k) && mask == ring.Length - 1
    }

    ghost function View(): State
      reads this, ring
    {
      State(ring[..], head, tail, running, written, dropped, producer, writer, stopper, h)
    }

    /** start(), after the file has been opened. */
    constructor (slots: nat)
      requires slots <= Pow2(63)
      ensures Sized() && View() == Start(View().ring) && Inv(View(), k)
      ensures slots <= ring.Length && (ring.Length > 1 ==> ring.Length < 2 * slots)
      ensures fresh(ring)
    {
      var n, k' := RoundUp(slots);
      ring := new GamepadState[n](_ => NEUTRAL);
      mask := n - 1;
      head, tail, running, written, dropped := 0, 0, true, 0, 0;
      producer, writer, stopper := Idle, Top, NotStopped;
      h := History(0, [], [], [], 0, 0, 0);
      k := k';
      new;
      StartInv(ring[..], k');
      if ring.Length > 1 { assert k' > 0 && Pow2(k') == 2 * Pow2(k' - 1); }
    }

    method BeginRecord(s: GamepadState)
      requires Sized() && producer.Idle?
      modifies this
      ensures View() == Next(old(View()), Record(s))
    {
      producer := Called(s);
      h := h.(offered := h.offered + 1);
    }

    method StepProducer()
      requires Sized()
      modifies this, ring
      ensures |old(View()).ring| > 0 && View() == ProducerNext(old(View()))
    {
      match producer
      case Idle =>
      case Called(s) => producer := HaveHead(s, head);
      case HaveHead(s, hd) =>
        producer := HaveTail(s, hd, tail);
        h := h.(seenTail := h.published);
      case HaveTail(s, hd, t) =>
        if (hd - t) % TWO64 >= ring.Length {
          dropped := dropped + 1;
          producer := Idle;
        } else {
          MaskIsMod(hd, k);
          ring[BitAnd(hd, mask)] := s;
          producer := Copied(s, hd);
        }
      case Copied(s, hd) =>
        head := (hd + 1) % TWO64;
        producer := Idle;
        h := h.(accepted := h.accepted + [s]);
    }

    /** ok is what fwrite reports, and given what it was handed, when the step is an fwrite. */
    method StepWriter(ok: bool) returns (given: Option<GamepadState>)
      requires Sized()
      modifies this
      ensures |old(View()).ring| > 0 && View() == WriterNext(old(View()), ok)
      ensures h.handed == old(h.handed) + if given.Some? then [given.value] else []
    {
      given := None;
      match writer
      case Top =>
        writer := LoadedHead(head);
        h := h.(seenHead := |h.accepted|);
      case LoadedHead(hd) =>
        writer := if tail == hd then Empty else Draining(hd, tail);
      case Empty => writer := if running then Top else Flushing;
      case Draining(hd, t) =>
        if t != hd {
          MaskIsMod(t, k);
          given := Some(ring[BitAnd(t, mask)]);
          if ok { written := written + 1; }
          h := h.(handed := h.handed + [given.value], oks := h.oks + [ok]);
          writer := Draining(hd, (t + 1) % TWO64);
        } else {
          tail := t;
          writer := Top;
          h := h.(published := |h.handed|);
        }
      case Flushing => writer := Done;
      case Done =>
    }

    /** stop() up to the join: the exchange decides who joins. */
    method BeginStop() returns (joins: bool)
      requires Sized() && (running <==> stopper.NotStopped?)
      modifies `running, `stopper
      ensures joins == old(running)
      ensures joins ==> View() == Next(old(View()), Stop)
      ensures !joins ==> View() == old(View())
    {
      joins := running;
      running := false;
      if joins { stopper := Joining; }
    }

    method FinishStop()
      requires Sized() && stopper.Joining? && writer.Done?
      modifies `stopper
      ensures View() == Next(old(View()), Join)
    {
      stopper := Closed;
    }
  }
}
