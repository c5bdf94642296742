/** Decoding kernel input events into states (EvdevSource::read and reconnect,
    src/sources/evdev_source.cpp): events accumulate until a SYN_REPORT closes a packet. */
module Evdev {
  import opened Wrappers
  import opened Bits
  import opened Gamepad
  import opened Scaling

  const EV_SYN: nat := 0
  const EV_KEY: nat := 1
  const EV_ABS: nat := 3
  const SYN_REPORT: nat := 0

  datatype Event = Event(kind: nat, code: nat, value: int, sec: nat, usec: nat)

  datatype Bindings = Bindings(axes: map<nat, AxisBinding>, buttons: map<nat, bv32>)

  /** acc_, hat_x_, hat_y_ and dirty_, with the local flag complete of one read(). */
  datatype Accumulator = Accumulator(pad: GamepadState, hatX: int, hatY: int, dirty: bool, complete: bool)

  const CLEAN: Accumulator := Accumulator(NEUTRAL, 0, 0, false, false)

  function EventTime(e: Event): u64 { (e.sec * 1_000_000_000 + e.usec * 1_000) % TWO64 }

  function OnAxis(d: Accumulator, b: AxisBinding, value: int): Accumulator {
    match b.target
    case LX => d.(pad := d.pad.(lx := ScaleAxis(b, value)), dirty := true)
    case LY => d.(pad := d.pad.(ly := ScaleAxis(b, value)), dirty := true)
    case RX => d.(pad := d.pad.(rx := ScaleAxis(b, value)), dirty := true)
    case RY => d.(pad := d.pad.(ry := ScaleAxis(b, value)), dirty := true)
    case LT => d.(pad := d.pad.(lt := ScaleTrigger(b, value)), dirty := true)
    case RT => d.(pad := d.pad.(rt := ScaleTrigger(b, value)), dirty := true)
    case HatX => d.(hatX := value, dirty := true)
    case HatY => d.(hatY := value, dirty := true)
    case NoTarget => d.(dirty := true)
  }

  function Apply(cfg: Bindings, d: Accumulator, e: Event): Accumulator {
    if e.kind == EV_ABS then
      if e.code in cfg.axes then OnAxis(d, cfg.axes[e.code], e.value) else d
    else if e.kind == EV_KEY then
      if e.code in cfg.buttons then d.(pad := d.pad.Set(cfg.buttons[e.code], e.value != 0), dirty := true) else d
    else if e.kind == EV_SYN && e.code == SYN_REPORT && d.dirty then
      d.(pad := d.pad.(tMono := EventTime(e)), dirty := false, complete := true)
    else d
  }

  function Fold(cfg: Bindings, d: Accumulator, es: seq<Event>): Accumulator {
    if es == [] then d else Apply(cfg, Fold(cfg, d, es[..|es| - 1]), es[|es| - 1])
  }

  /** A run of set() calls. */
  function SetAll(b: bv32, moves: seq<(bv32, bool)>): bv32 {
    if moves == [] then b
    else SetBits(SetAll(b, moves[..|moves| - 1]), moves[|moves| - 1].0, moves[|moves| - 1].1)
  }

  function SetFour(b: bv32, left: bool, right: bool, up: bool, down: bool): bv32 {
    SetAll(b, [(DLEFT, left), (DRIGHT, right), (DUP, up), (DDOWN, down)])
  }

  lemma SetSnoc(b: bv32, moves: seq<(bv32, bool)>, mask: bv32, on: bool)
    ensures SetAll(b, moves + [(mask, on)]) == SetBits(SetAll(b, moves), mask, on)
  {
    assert (moves + [(mask, on)])[..|moves|] == moves;
  }

  lemma SetFourIs(b: bv32, left: bool, right: bool, up: bool, down: bool)
    ensures SetFour(b, left, right, up, down)
            == SetBits(SetBits(SetBits(SetBits(b, DLEFT, left), DRIGHT, right), DUP, up), DDOWN, down)
  {
    var m1 := [(DLEFT, left)];
    var m2 := m1 + [(DRIGHT, right)];
    var m3 := m2 + [(DUP, up)];
    assert [] + [(DLEFT, left)] == m1;
    SetSnoc(b, [], DLEFT, left);
    SetSnoc(b, m1, DRIGHT, right);
    SetSnoc(b, m2, DUP, up);
    SetSnoc(b, m3, DDOWN, down);
    assert m3 + [(DDOWN, down)] == [(DLEFT, left), (DRIGHT, right), (DUP, up), (DDOWN, down)];
  }

  /** The hat values folded into the d-pad bits. */
  function WithHat(d: Accumulator): GamepadState {
    d.pad.(buttons := SetFour(d.pad.buttons, d.hatX < 0, d.hatX > 0, d.hatY < 0, d.hatY > 0))
  }

  /** What one ::read of the descriptor gives the drain loop. */
  datatype Chunk = Events(es: seq<Event>) | WouldBlock | Interrupted | EndOfFile | Lost

  /** All events a drain takes, and whether it ends with the device lost. */
  function Drained(chunks: seq<Chunk>): (seq<Event>, bool) {
    if chunks == [] then ([], false)
    else match chunks[0]
      case Events(es) => var (rest, lost) := Drained(chunks[1..]); (es + rest, lost)
      case Interrupted => Drained(chunks[1..])
      case WouldBlock => ([], false)
      case EndOfFile => ([], false)
      case Lost => ([], true)
  }

  /** What read() returns for a drain: a function of the concatenated events only. */
  function Result(cfg: Bindings, d: Accumulator, es: seq<Event>, lost: bool, seqno: word, wall: u64): Option<GamepadState> {
    var z := Fold(cfg, d.(complete := false), es);
    if lost || !z.complete then None else Some(WithHat(z).(seqno := (seqno + 1) % TWO32, tReal := wall))
  }

  /** What successive reads carry over: the accumulator, the updates returned so far, and the last result. */
  datatype Reader = Reader(d: Accumulator, updates: nat, out: Option<GamepadState>)

  /** One read of a drain that does not end with the device lost. */
  function NextRead(cfg: Bindings, r: Reader, es: seq<Event>, wall: u64): Reader {
    var z := Fold(cfg, r.d, es);
    var out := Result(cfg, r.d, es, false, r.updates % TWO32, wall);
    Reader(z.(pad := if out.Some? then out.value else z.pad, complete := false),
           if out.Some? then r.updates + 1 else r.updates, out)
  }

  class EvdevSource {
    const cfg: Bindings
    var pad: GamepadState
    var hatX: int
    var hatY: int
    var dirty: bool
    var seqno: word
    var open: bool
    /** Updates returned since construction. */
    ghost var updates: nat

    ghost predicate Valid()
      reads this
    {
      seqno == updates % TWO32
    }

    function View(): Accumulator
      reads this
    {
      Accumulator(pad, hatX, hatY, dirty, false)
    }

    constructor (cfg: Bindings, startsOpen: bool)
      ensures Valid() && this.cfg == cfg && View() == CLEAN && updates == 0 && open == startsOpen
    {
      this.cfg := cfg;
      pad, hatX, hatY, dirty, seqno, open, updates := NEUTRAL, 0, 0, false, 0, startsOpen, 0;
    }

    /** The body of the event loop. */
    method Take(e: Event, done: bool) returns (complete: bool)
      modifies `pad, `hatX, `hatY, `dirty
      ensures View().(complete := complete) == Apply(cfg, old(View()).(complete := done), e)
    {
      complete := done;
      if e.kind == EV_ABS {
        if e.code in cfg.axes {
          var b := cfg.axes[e.code];
          match b.target {
            case LX => pad := pad.(lx := ScaleAxis(b, e.value));
            case LY => pad := pad.(ly := ScaleAxis(b, e.value));
            case RX => pad := pad.(rx := ScaleAxis(b, e.value));
            case RY => pad := pad.(ry := ScaleAxis(b, e.value));
            case LT => pad := pad.(lt := ScaleTrigger(b, e.value));
            case RT => pad := pad.(rt := ScaleTrigger(b, e.value));
            case HatX => hatX := e.value;
            case HatY => hatY := e.value;
            case NoTarget =>
          }
          dirty := true;
        }
      } else if e.kind == EV_KEY {
        if e.code in cfg.buttons {
          pad := pad.Set(cfg.buttons[e.code], e.value != 0);
          dirty := true;
        }
      } else if e.kind == EV_SYN {
        if e.code == SYN_REPORT && dirty {
          pad := pad.(tMono := EventTime(e));
          complete := true;
          dirty := false;
        }
      }
    }

    method TakeAll(es: seq<Event>, done: bool) returns (complete: bool)
      modifies `pad, `hatX, `hatY, `dirty
      ensures View().(complete := complete) == Fold(cfg, old(View()).(complete := done), es)
    {
      complete := done;
      for i := 0 to |es|
        invariant View().(complete := complete) == Fold(cfg, old(View()).(complete := done), es[..i])
      {
        complete := Take(es[i], complete);
        assert es[..i + 1][..i] == es[..i];
      }
      assert es[..|es|] == es;
    }

    /** The drain loop of read(). */
    method Drain(chunks: seq<Chunk>) returns (complete: bool, lost: bool)
      modifies `pad, `hatX, `hatY, `dirty
      ensures lost == Drained(chunks).1
      ensures View().(complete := complete) == Fold(cfg, old(View()), Drained(chunks).0)
    {
      ghost var was := View();
      ghost var taken: seq<Event> := [];
      complete, lost := false, false;
      var rest := chunks;
      assert taken + Drained(rest).0 == Drained(chunks).0;
      while rest != []
        invariant !lost
        invariant View().(complete := complete) == Fold(cfg, was, taken)
        invariant Drained(chunks) == (taken + Drained(rest).0, Drained(rest).1)
        decreases |rest|
      {
        match rest[0] {
          case Events(es) =>
            complete := TakeAll(es, complete);
            FoldSplits(cfg, was, taken, es);
            assert taken + (es + Drained(rest[1..]).0) == (taken + es) + Drained(rest[1..]).0;
            taken := taken + es;
          case Interrupted =>
          case WouldBlock => break;
          case EndOfFile => break;
          case Lost =>
            lost := true;
            break;
        }
        rest := rest[1..];
      }
      assert taken + [] == taken;
    }

    method FoldHats()
      modifies `pad
      ensures pad == WithHat(old(View()))
    {
      SetFourIs(pad.buttons, hatX < 0, hatX > 0, hatY < 0, hatY > 0);
      pad := pad.Set(DLEFT, hatX < 0);
      pad := pad.Set(DRIGHT, hatX > 0);
      pad := pad.Set(DUP, hatY < 0);
      pad := pad.Set(DDOWN, hatY > 0);
    }

    /** read(): however the kernel cuts the events into reads, the outcome depends only on the events. */
    method Read(chunks: seq<Chunk>, wall: u64) returns (out: Option<GamepadState>)
      requires Valid()
      modifies this
      ensures Valid()
      ensures out == Result(cfg, old(View()), Drained(chunks).0, Drained(chunks).1, old(seqno), wall)
      ensures var z := Fold(cfg, old(View()), Drained(chunks).0);
              View() == z.(pad := if out.Some? then out.value else z.pad, complete := false)
      ensures open == (old(open) && !Drained(chunks).1)
      ensures !Drained(chunks).1 ==>
                Reader(View(), updates, out) == NextRead(cfg, Reader(old(View()), old(updates), None), Drained(chunks).0, wall)
      ensures updates == old(updates) + (if out.Some? then 1 else 0)
    {
      var complete, lost := Drain(chunks);
      if lost {
        open := false;
        return None;
      }
      if !complete { return None; }
      FoldHats();
      NextNumber(updates);
      seqno := (seqno + 1) % TWO32;
      updates := updates + 1;
      pad := pad.(seqno := seqno, tReal := wall);
      out := Some(pad);
    }

    /** reconnect(): a clean accumulator, whatever was held; the numbering goes on. */
    method Reconnect(opens: bool) returns (ok: bool)
      requires Valid()
      modifies this
      ensures Valid() && View() == CLEAN && seqno == old(seqno) && updates == old(updates)
      ensures ok == open == opens
    {
      pad, hatX, hatY, dirty := NEUTRAL, 0, 0, false;
      open := opens;
      ok := opens;
    }
  }

  lemma {:induction false} FoldSplits(cfg: Bindings, d: Accumulator, xs: seq<Event>, ys: seq<Event>)
    ensures Fold(cfg, d, xs + ys) == Fold(cfg, Fold(cfg, d, xs), ys)
  {
    if ys == [] {
      assert xs + ys == xs;
    } else {
      assert (xs + ys)[..|xs + ys| - 1] == xs + ys[..|ys| - 1];
      FoldSplits(cfg, d, xs, ys[..|ys| - 1]);
    }
  }

  // ---------------------------------------------------------------- one event at a time

  /** The reference: a state is published at each SYN_REPORT that closes a changed packet, and a reader
      sees the last one published. */
  datatype Reference = Reference(d: Accumulator, published: Option<GamepadState>)

  function Publish(cfg: Bindings, r: Reference, e: Event): Reference {
    var d' := Apply(cfg, r.d, e);
    Reference(d', if e.kind == EV_SYN && e.code == SYN_REPORT && r.d.dirty then Some(WithHat(d')) else r.published)
  }

  function PublishAll(cfg: Bindings, d: Accumulator, es: seq<Event>): Reference {
    if es == [] then Reference(d, None) else Publish(cfg, PublishAll(cfg, d, es[..|es| - 1]), es[|es| - 1])
  }

  /** The reference and read() agree on whether anything was published, always; and on what, whenever
      the drain ends with a closed packet. */
  lemma {:induction false} DrainEqualsReference(cfg: Bindings, d: Accumulator, es: seq<Event>)
    requires !d.complete
    ensures var r, z := PublishAll(cfg, d, es), Fold(cfg, d, es);
            && r.d == z && (r.published.Some? <==> z.complete)
            && (z.complete && !z.dirty ==> r.published == Some(WithHat(z)))
  {
    if es != [] { DrainEqualsReference(cfg, d, es[..|es| - 1]); }
  }

  /** Equal in all that a read can show or the next one can build on, but for the d-pad bits and stamps
      that a read writes back. */
  predicate Agrees(a: Accumulator, b: Accumulator) {
    AgreesInAxes(a, b) && SameBut(DPAD, a.pad.buttons, b.pad.buttons)
  }

  predicate AgreesInAxes(a: Accumulator, b: Accumulator) {
    && a.pad.lx == b.pad.lx && a.pad.ly == b.pad.ly && a.pad.rx == b.pad.rx && a.pad.ry == b.pad.ry
    && a.pad.lt == b.pad.lt && a.pad.rt == b.pad.rt && a.pad.tMono == b.pad.tMono
    && a.hatX == b.hatX && a.hatY == b.hatY && a.dirty == b.dirty
  }

  predicate SameBut(m: bv32, a: bv32, b: bv32) { a & !m == b & !m }

  lemma SetKeepsSameBut(m: bv32, a: bv32, b: bv32, mask: bv32, down: bool)
    requires SameBut(m, a, b)
    ensures SameBut(m, SetBits(a, mask, down), SetBits(b, mask, down))
    ensures SameBut(m & !mask, SetBits(a, mask, down), SetBits(b, mask, down))
  {}

  lemma SetFourDecides(a: bv32, b: bv32, left: bool, right: bool, up: bool, down: bool)
    requires SameBut(DPAD, a, b)
    ensures SetFour(a, left, right, up, down) == SetFour(b, left, right, up, down)
  {
    SetFourIs(a, left, right, up, down);
    SetFourIs(b, left, right, up, down);
    var a1, b1 := SetBits(a, DLEFT, left), SetBits(b, DLEFT, left);
    SetKeepsSameBut(DPAD, a, b, DLEFT, left);
    var a2, b2 := SetBits(a1, DRIGHT, right), SetBits(b1, DRIGHT, right);
    SetKeepsSameBut(DPAD & !DLEFT, a1, b1, DRIGHT, right);
    var a3, b3 := SetBits(a2, DUP, up), SetBits(b2, DUP, up);
    SetKeepsSameBut(DPAD & !DLEFT & !DRIGHT, a2, b2, DUP, up);
    SetKeepsSameBut(DPAD & !DLEFT & !DRIGHT & !DUP, a3, b3, DDOWN, down);
    SameButNothing(SetBits(a3, DDOWN, down), SetBits(b3, DDOWN, down));
  }

  lemma SameButNothing(a: bv32, b: bv32)
    requires SameBut(DPAD & !DLEFT & !DRIGHT & !DUP & !DDOWN, a, b)
    ensures a == b
  {}

  lemma OnAxisKeepsAxes(a: Accumulator, b: Accumulator, binding: AxisBinding, value: int)
    requires AgreesInAxes(a, b)
    ensures AgreesInAxes(OnAxis(a, binding, value), OnAxis(b, binding, value))
    ensures OnAxis(a, binding, value).complete == a.complete && OnAxis(b, binding, value).complete == b.complete
  {}

  lemma ApplyKeepsAxes(cfg: Bindings, a: Accumulator, b: Accumulator, e: Event)
    requires AgreesInAxes(a, b)
    ensures AgreesInAxes(Apply(cfg, a, e), Apply(cfg, b, e))
    ensures a.complete == b.complete ==> Apply(cfg, a, e).complete == Apply(cfg, b, e).complete
  {
    if e.kind == EV_ABS && e.code in cfg.axes { OnAxisKeepsAxes(a, b, cfg.axes[e.code], e.value); }
  }

  lemma KeyKeepsSameBut(cfg: Bindings, code: nat, down: bool, a: bv32, a': bv32, b: bv32, b': bv32)
    requires SameBut(DPAD, a, b) && code in cfg.buttons
    requires a' == SetBits(a, cfg.buttons[code], down) && b' == SetBits(b, cfg.buttons[code], down)
    ensures SameBut(DPAD, a', b')
  {
    SetKeepsSameBut(DPAD, a, b, cfg.buttons[code], down);
  }

  lemma ApplyKeepsAgrees(cfg: Bindings, a: Accumulator, b: Accumulator, e: Event)
    requires Agrees(a, b)
    ensures Agrees(Apply(cfg, a, e), Apply(cfg, b, e))
    ensures a.complete == b.complete ==> Apply(cfg, a, e).complete == Apply(cfg, b, e).complete
  {
    ApplyKeepsAxes(cfg, a, b, e);
    ButtonsMoved(cfg, a, e);
    ButtonsMoved(cfg, b, e);
    if IsBoundKey(cfg, e) {
      KeyKeepsSameBut(cfg, e.code, e.value != 0, a.pad.buttons, Apply(cfg, a, e).pad.buttons,
                      b.pad.buttons, Apply(cfg, b, e).pad.buttons);
    }
  }

  lemma {:induction false} FoldKeepsAgrees(cfg: Bindings, a: Accumulator, b: Accumulator, es: seq<Event>)
    requires Agrees(a, b)
    ensures Agrees(Fold(cfg, a, es), Fold(cfg, b, es))
    ensures a.complete == b.complete ==> Fold(cfg, a, es).complete == Fold(cfg, b, es).complete
  {
    if es != [] {
      FoldKeepsAgrees(cfg, a, b, es[..|es| - 1]);
      ApplyKeepsAgrees(cfg, Fold(cfg, a, es[..|es| - 1]), Fold(cfg, b, es[..|es| - 1]), es[|es| - 1]);
    }
  }

  /** The hat decides the d-pad, so agreeing accumulators show the same state. */
  lemma AgreeingShowTheSame(a: Accumulator, b: Accumulator, seqno: word, wall: u64)
    requires Agrees(a, b)
    ensures WithHat(a).(seqno := seqno, tReal := wall) == WithHat(b).(seqno := seqno, tReal := wall)
  {
    SetFourDecides(a.pad.buttons, b.pad.buttons, a.hatX < 0, a.hatX > 0, a.hatY < 0, a.hatY > 0);
  }

  lemma ReadBackAgrees(f: Accumulator, g: Accumulator, seqno: word, wall: u64)
    requires Agrees(f, g)
    ensures Agrees(f.(pad := WithHat(f).(seqno := seqno, tReal := wall), complete := false), g)
  {
    OtherButtonsPassThrough(f);
  }

  // ---------------------------------------------------------------- a stream of reads

  /** One drain of a descriptor, and the clock at its read. */
  datatype Drain = Drain(es: seq<Event>, wall: u64)

  /** The kernel hands over whole packets. */
  predicate Whole(es: seq<Event>) {
    es != [] ==> es[|es| - 1].kind == EV_SYN && es[|es| - 1].code == SYN_REPORT
  }

  function ReadAll(cfg: Bindings, n: nat, drains: seq<Drain>): Reader {
    if drains == [] then Reader(CLEAN, n, None)
    else
      var last := drains[|drains| - 1];
      NextRead(cfg, ReadAll(cfg, n, drains[..|drains| - 1]), last.es, last.wall)
  }

  function AllEvents(drains: seq<Drain>): seq<Event> {
    if drains == [] then [] else AllEvents(drains[..|drains| - 1]) + drains[|drains| - 1].es
  }

  /** How many of the drains close a packet that changed something, going by the events alone. */
  function Closed(cfg: Bindings, drains: seq<Drain>): nat {
    if drains == [] then 0
    else Closed(cfg, drains[..|drains| - 1]) + if Closes(cfg, drains) then 1 else 0
  }

  predicate Closes(cfg: Bindings, drains: seq<Drain>)
    requires drains != []
  {
    var before := Fold(cfg, CLEAN, AllEvents(drains[..|drains| - 1]));
    PublishAll(cfg, before.(complete := false), drains[|drains| - 1].es).published.Some?
  }

  /** A read publishes when the reference does from an agreeing accumulator. */
  lemma ReadPublishes(cfg: Bindings, d: Accumulator, z: Accumulator, es: seq<Event>)
    requires Agrees(d, z) && !d.complete
    ensures Fold(cfg, d, es).complete <==> PublishAll(cfg, z.(complete := false), es).published.Some?
  {
    FoldKeepsAgrees(cfg, d, z.(complete := false), es);
    DrainEqualsReference(cfg, z.(complete := false), es);
  }

  /** What a read leaves and returns, in terms of its fold f. */
  lemma ReadFromFold(cfg: Bindings, r: Reader, es: seq<Event>, wall: u64, f: Accumulator)
    requires !r.d.complete && f == Fold(cfg, r.d, es)
    ensures var next := NextRead(cfg, r, es, wall);
            && next.out == (if f.complete then Some(WithHat(f).(seqno := (r.updates + 1) % TWO32, tReal := wall)) else None)
            && next.d == f.(pad := if f.complete then next.out.value else f.pad, complete := false)
  {
    assert r.d.(complete := false) == r.d;
    NextNumber(r.updates);
  }

  lemma ReadAgrees(cfg: Bindings, r: Reader, z: Accumulator, es: seq<Event>, wall: u64)
    requires Agrees(r.d, z) && !r.d.complete
    ensures var next := NextRead(cfg, r, es, wall);
            && Agrees(next.d, Fold(cfg, z, es)) && !next.d.complete
            && (next.out.Some? <==> PublishAll(cfg, z.(complete := false), es).published.Some?)
            && (next.out.Some? ==>
                  next.out.value == WithHat(Fold(cfg, z, es)).(seqno := (r.updates + 1) % TWO32, tReal := wall))
  {
    var f, g := Fold(cfg, r.d, es), Fold(cfg, z, es);
    FoldKeepsAgrees(cfg, r.d, z, es);
    ReadPublishes(cfg, r.d, z, es);
    ReadFromFold(cfg, r, es, wall, f);
    if f.complete {
      AgreeingShowTheSame(f, g, (r.updates + 1) % TWO32, wall);
      ReadBackAgrees(f, g, (r.updates + 1) % TWO32, wall);
    }
  }

  /** However a stream is cut into reads, what is carried over agrees with the fold of the whole stream. */
  lemma {:induction false} StreamAgrees(cfg: Bindings, n: nat, drains: seq<Drain>)
    ensures var r := ReadAll(cfg, n, drains);
            && Agrees(r.d, Fold(cfg, CLEAN, AllEvents(drains))) && !r.d.complete
            && r.updates == n + Closed(cfg, drains)
  {
    if drains != [] {
      var front, last := drains[..|drains| - 1], drains[|drains| - 1];
      StreamAgrees(cfg, n, front);
      ReadAgrees(cfg, ReadAll(cfg, n, front), Fold(cfg, CLEAN, AllEvents(front)), last.es, last.wall);
      FoldSplits(cfg, CLEAN, AllEvents(front), last.es);
    }
  }

  /** The last read of a stream of drains. */
  lemma LastReadAgrees(cfg: Bindings, n: nat, drains: seq<Drain>)
    requires drains != []
    ensures var r, all := ReadAll(cfg, n, drains), AllEvents(drains);
            && (r.out.Some? <==> Closes(cfg, drains))
            && (r.out.Some? ==>
                  r.out.value == WithHat(Fold(cfg, CLEAN, all)).(
                    seqno := (n + Closed(cfg, drains)) % TWO32, tReal := drains[|drains| - 1].wall))
  {
    var front, last := drains[..|drains| - 1], drains[|drains| - 1];
    StreamAgrees(cfg, n, front);
    ReadAgrees(cfg, ReadAll(cfg, n, front), Fold(cfg, CLEAN, AllEvents(front)), last.es, last.wall);
    FoldSplits(cfg, CLEAN, AllEvents(front), last.es);
  }

  /** For every list of drains since construction or a reconnect, after n earlier updates: the last read
      returns a state exactly when its drain closes a changed packet; that state is the fold of all events
      so far, hats folded in; and the k-th state returned is numbered n + k. When the kernel hands over whole
      packets it is also the state of the last closed packet, so no read mixes two. */
  lemma StreamIsCoherent(cfg: Bindings, n: nat, drains: seq<Drain>)
    requires drains != []
    ensures var r, all, last := ReadAll(cfg, n, drains), AllEvents(drains), drains[|drains| - 1];
            && (r.out.Some? <==> Closes(cfg, drains))
            && (r.out.Some? ==>
                  r.out.value == WithHat(Fold(cfg, CLEAN, all)).(
                    seqno := (n + Closed(cfg, drains)) % TWO32, tReal := last.wall))
            && (r.out.Some? && Whole(last.es) ==>
                  PublishAll(cfg, CLEAN, all).published == Some(WithHat(Fold(cfg, CLEAN, all))))
  {
    LastReadAgrees(cfg, n, drains);
    if Closes(cfg, drains) && Whole(drains[|drains| - 1].es) {
      WholeStreamPublishes(cfg, AllEvents(drains[..|drains| - 1]), drains[|drains| - 1].es);
    }
  }

  /** A stream that ends with a closing report has published its fold. */
  lemma WholeStreamPublishes(cfg: Bindings, before: seq<Event>, es: seq<Event>)
    requires Whole(es)
    requires PublishAll(cfg, Fold(cfg, CLEAN, before).(complete := false), es).published.Some?
    ensures PublishAll(cfg, CLEAN, before + es).published == Some(WithHat(Fold(cfg, CLEAN, before + es)))
  {
    var b := Fold(cfg, CLEAN, before);
    DrainEqualsReference(cfg, CLEAN, before + es);
    DrainEqualsReference(cfg, b.(complete := false), es);
    FoldSplits(cfg, CLEAN, before, es);
    FoldKeepsAgrees(cfg, b, b.(complete := false), es);
    CompleteStays(cfg, b, es);
    var all := before + es;
    assert all[|all| - 1] == es[|es| - 1];
  }

  lemma {:induction false} FoldKeepsAxes(cfg: Bindings, a: Accumulator, b: Accumulator, es: seq<Event>)
    requires AgreesInAxes(a, b)
    ensures AgreesInAxes(Fold(cfg, a, es), Fold(cfg, b, es))
  {
    if es != [] {
      FoldKeepsAxes(cfg, a, b, es[..|es| - 1]);
      ApplyKeepsAxes(cfg, Fold(cfg, a, es[..|es| - 1]), Fold(cfg, b, es[..|es| - 1]), es[|es| - 1]);
    }
  }

  lemma CompleteStep(cfg: Bindings, a: Accumulator, b: Accumulator, e: Event)
    requires AgreesInAxes(a, b) && (a.complete ==> b.complete)
    ensures Apply(cfg, a, e).complete ==> Apply(cfg, b, e).complete
  {}

  /** Once a packet has been closed, or would have been from a fresh flag, the flag is up. */
  lemma {:induction false} CompleteStays(cfg: Bindings, b: Accumulator, es: seq<Event>)
    ensures Fold(cfg, b.(complete := false), es).complete ==> Fold(cfg, b, es).complete
  {
    if es != [] {
      var before := es[..|es| - 1];
      CompleteStays(cfg, b, before);
      FoldKeepsAxes(cfg, b.(complete := false), b, before);
      CompleteStep(cfg, Fold(cfg, b.(complete := false), before), Fold(cfg, b, before), es[|es| - 1]);
    }
  }

  /** A packet cut short: the events of the unfinished packet leak into the state. The drain ends inside a
      packet, which a kernel that hands over whole packets never does. */
  lemma UnfinishedPacketLeaks(b: AxisBinding)
    requires b.target == LX && b.min == 0 && b.max == 2 && !b.invert
    ensures exists cfg: Bindings, es: seq<Event> ::
              && !Whole(es) && PublishAll(cfg, CLEAN, es).published.Some? && Fold(cfg, CLEAN, es).complete
              && PublishAll(cfg, CLEAN, es).published != Some(WithHat(Fold(cfg, CLEAN, es)))
  {
    var cfg := Bindings(map[0 := b], map[]);
    var x0, syn, x1 := Event(EV_ABS, 0, 0, 0, 0), Event(EV_SYN, SYN_REPORT, 0, 0, 0), Event(EV_ABS, 0, 2, 0, 0);
    AxisEndpoints(b);
    var es := [x0, syn, x1];
    assert es[..2] == [x0, syn] && [x0, syn][..1] == [x0] && [x0][..0] == [];
    assert Fold(cfg, CLEAN, []) == CLEAN && PublishAll(cfg, CLEAN, []) == Reference(CLEAN, None);
    var d1 := Apply(cfg, CLEAN, x0);
    assert Fold(cfg, CLEAN, [x0]) == d1 && PublishAll(cfg, CLEAN, [x0]) == Reference(d1, None);
    var d2 := Apply(cfg, d1, syn);
    assert Fold(cfg, CLEAN, [x0, syn]) == d2 && PublishAll(cfg, CLEAN, [x0, syn]) == Reference(d2, Some(WithHat(d2)));
    assert Fold(cfg, CLEAN, es) == Apply(cfg, d2, x1) && PublishAll(cfg, CLEAN, es).published == Some(WithHat(d2));
    assert WithHat(d2).lx == -FULL && WithHat(Apply(cfg, d2, x1)).lx == FULL;
  }

  predicate Closing(d: Accumulator, e: Event) { e.kind == EV_SYN && e.code == SYN_REPORT && d.dirty }

  lemma {:induction false} PublishSplits(cfg: Bindings, d: Accumulator, xs: seq<Event>, ys: seq<Event>)
    ensures var r := PublishAll(cfg, Fold(cfg, d, xs), ys);
            PublishAll(cfg, d, xs + ys)
            == Reference(r.d, if r.published.Some? then r.published else PublishAll(cfg, d, xs).published)
  {
    if ys == [] {
      assert xs + ys == xs;
      PublishFolds(cfg, d, xs);
    } else {
      assert (xs + ys)[..|xs + ys| - 1] == xs + ys[..|ys| - 1];
      PublishSplits(cfg, d, xs, ys[..|ys| - 1]);
    }
  }

  lemma {:induction false} PublishFolds(cfg: Bindings, d: Accumulator, es: seq<Event>)
    ensures PublishAll(cfg, d, es).d == Fold(cfg, d, es)
  {
    if es != [] { PublishFolds(cfg, d, es[..|es| - 1]); }
  }

  /** Nothing in es closes a changed packet. */
  predicate NoneClosing(cfg: Bindings, d: Accumulator, es: seq<Event>) {
    forall i :: 0 <= i < |es| ==> !Closing(Fold(cfg, d, es[..i]), es[i])
  }

  lemma {:induction false} NoneClosingPublishesNothing(cfg: Bindings, d: Accumulator, es: seq<Event>)
    requires NoneClosing(cfg, d, es)
    ensures PublishAll(cfg, d, es).published == None && Fold(cfg, d, es).complete == d.complete
  {
    if es != [] {
      var before := es[..|es| - 1];
      forall i | 0 <= i < |before|
        ensures !Closing(Fold(cfg, d, before[..i]), before[i])
      {
        assert before[..i] == es[..i];
      }
      NoneClosingPublishesNothing(cfg, d, before);
      PublishFolds(cfg, d, before);
    }
  }

  /** A drain in terms of its last closed packet: that packet's state is published, the tail after it is
      folded in, and the flag is up. */
  lemma DrainSplitsAtLastClose(cfg: Bindings, d: Accumulator, head: seq<Event>, close: Event, tail: seq<Event>)
    requires !d.complete && Closing(Fold(cfg, d, head), close)
    requires NoneClosing(cfg, Apply(cfg, Fold(cfg, d, head), close), tail)
    ensures var at := Apply(cfg, Fold(cfg, d, head), close);
            var es := head + [close] + tail;
            && Fold(cfg, d, es) == Fold(cfg, at, tail) && Fold(cfg, d, es).complete
            && PublishAll(cfg, d, es).published == Some(WithHat(at))
  {
    var closed := head + [close];
    var at := Apply(cfg, Fold(cfg, d, head), close);
    assert closed[..|closed| - 1] == head;
    assert Fold(cfg, d, closed) == at;
    PublishFolds(cfg, d, head);
    assert PublishAll(cfg, d, closed).published == Some(WithHat(at));
    PublishSplits(cfg, d, closed, tail);
    FoldSplits(cfg, d, closed, tail);
    NoneClosingPublishesNothing(cfg, at, tail);
  }

  // ---------------------------------------------------------------- when a packet changed something, and when it closed

  predicate IsReport(e: Event) { e.kind == EV_SYN && e.code == SYN_REPORT }

  /** An event of a bound control. */
  predicate Moves(cfg: Bindings, e: Event) {
    (e.kind == EV_ABS && e.code in cfg.axes) || (e.kind == EV_KEY && e.code in cfg.buttons)
  }

  /** The open packet holds an event of a bound control. */
  predicate OpenPacketMoves(cfg: Bindings, es: seq<Event>) {
    exists i :: 0 <= i < |es| && Moves(cfg, es[i]) && forall j :: i < j < |es| ==> !IsReport(es[j])
  }

  predicate NoReport(es: seq<Event>) { forall i :: 0 <= i < |es| ==> !IsReport(es[i]) }

  /** A change is pending exactly when a bound control moved since the last report. */
  lemma {:induction false} DirtyExactly(cfg: Bindings, d: Accumulator, es: seq<Event>)
    ensures Fold(cfg, d, es).dirty <==> OpenPacketMoves(cfg, es) || (d.dirty && NoReport(es))
  {
    if es != [] {
      var n := |es| - 1;
      var before := es[..n];
      DirtyExactly(cfg, d, before);
      assert forall i :: 0 <= i < n ==> before[i] == es[i];
      if Moves(cfg, es[n]) {
        assert OpenPacketMoves(cfg, es);
      } else if IsReport(es[n]) {
        assert !NoReport(es);
      } else {
        if OpenPacketMoves(cfg, before) {
          var i :| 0 <= i < n && Moves(cfg, before[i]) && forall j :: i < j < n ==> !IsReport(before[j]);
          assert Moves(cfg, es[i]) && forall j :: i < j < |es| ==> !IsReport(es[j]);
        }
        assert NoReport(es) <==> NoReport(before);
      }
    }
  }

  /** The last report that closes a changed packet. */
  function LastClosing(cfg: Bindings, d: Accumulator, es: seq<Event>): (r: int)
    ensures -1 <= r < |es|
  {
    if es == [] then -1
    else
      var before := es[..|es| - 1];
      if Closing(Fold(cfg, d, before), es[|es| - 1]) then |es| - 1 else LastClosing(cfg, d, before)
  }

  lemma {:induction false} LastClosingIsLast(cfg: Bindings, d: Accumulator, es: seq<Event>, i: nat)
    requires LastClosing(cfg, d, es) <= i < |es|
    ensures i == LastClosing(cfg, d, es) <==> Closing(Fold(cfg, d, es[..i]), es[i])
  {
    var before := es[..|es| - 1];
    if i < |before| {
      assert before[..i] == es[..i];
      LastClosingIsLast(cfg, d, before, i);
    }
  }

  lemma ClosingSteps(cfg: Bindings, z: Accumulator, e: Event)
    ensures var z' := Apply(cfg, z, e);
            && z'.complete == (z.complete || Closing(z, e))
            && z'.pad.tMono == if Closing(z, e) then EventTime(e) else z.pad.tMono
  {}

  /** A drain is complete exactly when a report closed a changed packet in it, and the state is stamped with
      the time of the last report that did. */
  lemma {:induction false} StampIsOfLastClosed(cfg: Bindings, d: Accumulator, es: seq<Event>)
    ensures var z, last := Fold(cfg, d, es), LastClosing(cfg, d, es);
            && (z.complete <==> d.complete || last >= 0)
            && z.pad.tMono == if last >= 0 then EventTime(es[last]) else d.pad.tMono
  {
    if es != [] {
      var before := es[..|es| - 1];
      StampIsOfLastClosed(cfg, d, before);
      ClosingSteps(cfg, Fold(cfg, d, before), es[|es| - 1]);
    }
  }

  /** The stamp is the report's time in nanoseconds, as long as that fits. */
  lemma StampReadsBack(e: Event)
    requires e.usec < 1_000_000 && (e.sec + 1) * 1_000_000_000 <= TWO64
    ensures EventTime(e) / 1_000_000_000 == e.sec && EventTime(e) % 1_000_000_000 / 1_000 == e.usec
  {}

  // ---------------------------------------------------------------- what each field follows

  /** The last event of an axis bound to the given target, with its binding. */
  function LastOn(cfg: Bindings, es: seq<Event>, target: AxisTarget): Option<(AxisBinding, int)> {
    if es == [] then None
    else
      var e := es[|es| - 1];
      if e.kind == EV_ABS && e.code in cfg.axes && cfg.axes[e.code].target == target then Some((cfg.axes[e.code], e.value))
      else LastOn(cfg, es[..|es| - 1], target)
  }

  function StickOr(last: Option<(AxisBinding, int)>, was: int16): int16 {
    if last.Some? then ScaleAxis(last.value.0, last.value.1) else was
  }

  function TriggerOr(last: Option<(AxisBinding, int)>, was: byte): byte {
    if last.Some? then ScaleTrigger(last.value.0, last.value.1) else was
  }

  function RawOr(last: Option<(AxisBinding, int)>, was: int): int {
    if last.Some? then last.value.1 else was
  }

  /** Each stick coordinate holds the scaled value of the last event of an axis bound to it, and no other
      event moves it. */
  lemma {:induction false} SticksFollowTheirAxes(cfg: Bindings, d: Accumulator, es: seq<Event>)
    ensures var z := Fold(cfg, d, es);
            && z.pad.lx == StickOr(LastOn(cfg, es, LX), d.pad.lx) && z.pad.ly == StickOr(LastOn(cfg, es, LY), d.pad.ly)
            && z.pad.rx == StickOr(LastOn(cfg, es, RX), d.pad.rx) && z.pad.ry == StickOr(LastOn(cfg, es, RY), d.pad.ry)
  {
    if es != [] { SticksFollowTheirAxes(cfg, d, es[..|es| - 1]); }
  }

  /** So do the triggers, and the hat values unscaled. */
  lemma {:induction false} TriggersAndHatsFollowTheirAxes(cfg: Bindings, d: Accumulator, es: seq<Event>)
    ensures var z := Fold(cfg, d, es);
            && z.pad.lt == TriggerOr(LastOn(cfg, es, LT), d.pad.lt) && z.pad.rt == TriggerOr(LastOn(cfg, es, RT), d.pad.rt)
            && z.hatX == RawOr(LastOn(cfg, es, HatX), d.hatX) && z.hatY == RawOr(LastOn(cfg, es, HatY), d.hatY)
  {
    if es != [] { TriggersAndHatsFollowTheirAxes(cfg, d, es[..|es| - 1]); }
  }

  /** The last event of a key bound to the given mask. */
  function LastKey(cfg: Bindings, es: seq<Event>, mask: bv32): Option<int> {
    if es == [] then None
    else
      var e := es[|es| - 1];
      if Decides(cfg, e, mask) then Some(e.value) else LastKey(cfg, es[..|es| - 1], mask)
  }

  /** Masks that are bound either are this one or share no bit with it. */
  predicate StandsAlone(cfg: Bindings, mask: bv32) {
    mask != 0 && forall c :: c in cfg.buttons ==> cfg.buttons[c] == mask || cfg.buttons[c] & mask == 0
  }

  predicate IsBoundKey(cfg: Bindings, e: Event) { e.kind == EV_KEY && e.code in cfg.buttons }

  lemma ButtonsMoved(cfg: Bindings, z: Accumulator, e: Event)
    ensures Apply(cfg, z, e).pad.buttons == KeyMoves(cfg, z.pad.buttons, e)
  {}

  function KeyMoves(cfg: Bindings, b: bv32, e: Event): bv32 {
    if IsBoundKey(cfg, e) then SetBits(b, cfg.buttons[e.code], e.value != 0) else b
  }

  /** The buttons alone. */
  function Buttons(cfg: Bindings, b: bv32, es: seq<Event>): bv32
    decreases |es|, 1
  {
    if es == [] then b else ButtonsLast(cfg, b, es)
  }

  function ButtonsLast(cfg: Bindings, b: bv32, es: seq<Event>): bv32
    requires es != []
    decreases |es|, 0
  {
    KeyMoves(cfg, Buttons(cfg, b, es[..|es| - 1]), es[|es| - 1])
  }

  lemma {:induction false} FoldMovesButtons(cfg: Bindings, d: Accumulator, es: seq<Event>)
    ensures Fold(cfg, d, es).pad.buttons == Buttons(cfg, d.pad.buttons, es)
  {
    if es != [] {
      FoldMovesButtons(cfg, d, es[..|es| - 1]);
      ButtonsMoved(cfg, Fold(cfg, d, es[..|es| - 1]), es[|es| - 1]);
    }
  }

  lemma KeyEffect(b: bv32, b': bv32, bound: bv32, down: bool, mask: bv32)
    requires b' == SetBits(b, bound, down) && mask != 0 && (bound == mask || bound & mask == 0)
    ensures Has(b', mask) <==> if bound == mask then down else Has(b, mask)
  {
    if bound == mask { SetOwn(b, mask, down); } else { SetOther(b, bound, down, mask); }
  }

  lemma BoundKeyMoves(cfg: Bindings, code: nat, b: bv32, b': bv32, down: bool, mask: bv32)
    requires StandsAlone(cfg, mask) && code in cfg.buttons && b' == SetBits(b, cfg.buttons[code], down)
    ensures Has(b', mask) <==> if cfg.buttons[code] == mask then down else Has(b, mask)
  {
    KeyEffect(b, b', cfg.buttons[code], down, mask);
  }

  predicate Decides(cfg: Bindings, e: Event, mask: bv32) { IsBoundKey(cfg, e) && cfg.buttons[e.code] == mask }

  lemma LastKeyMoves(cfg: Bindings, b: bv32, b': bv32, e: Event, mask: bv32)
    requires StandsAlone(cfg, mask) && b' == KeyMoves(cfg, b, e)
    ensures Has(b', mask) <==> if Decides(cfg, e, mask) then e.value != 0 else Has(b, mask)
  {
    if IsBoundKey(cfg, e) { BoundKeyMoves(cfg, e.code, b, b', e.value != 0, mask); }
  }

  lemma LastEventDecides(cfg: Bindings, b: bv32, es: seq<Event>, mask: bv32)
    requires StandsAlone(cfg, mask) && es != []
    ensures Has(Buttons(cfg, b, es), mask)
            <==> if Decides(cfg, es[|es| - 1], mask) then es[|es| - 1].value != 0
                 else Has(Buttons(cfg, b, es[..|es| - 1]), mask)
  {
    assert Buttons(cfg, b, es) == ButtonsLast(cfg, b, es);
    LastKeyMoves(cfg, Buttons(cfg, b, es[..|es| - 1]), Buttons(cfg, b, es), es[|es| - 1], mask);
  }

  lemma {:induction false} ButtonsFollow(cfg: Bindings, b: bv32, es: seq<Event>, mask: bv32)
    requires StandsAlone(cfg, mask)
    ensures Has(Buttons(cfg, b, es), mask)
            <==> if LastKey(cfg, es, mask).Some? then LastKey(cfg, es, mask).value != 0 else Has(b, mask)
  {
    if es != [] {
      ButtonsFollow(cfg, b, es[..|es| - 1], mask);
      LastEventDecides(cfg, b, es, mask);
    }
  }

  /** A button is held exactly when the last event of a key bound to it was not a release; autorepeat
      keeps it held. */
  lemma ButtonsFollowTheirKeys(cfg: Bindings, d: Accumulator, es: seq<Event>, mask: bv32)
    requires StandsAlone(cfg, mask)
    ensures Has(Fold(cfg, d, es).pad.buttons, mask)
            <==> if LastKey(cfg, es, mask).Some? then LastKey(cfg, es, mask).value != 0 else Has(d.pad.buttons, mask)
  {
    FoldMovesButtons(cfg, d, es);
    ButtonsFollow(cfg, d.pad.buttons, es, mask);
  }

  // ---------------------------------------------------------------- unbound events, d-pad, numbering

  predicate Bound(cfg: Bindings, e: Event) {
    (e.kind == EV_ABS ==> e.code in cfg.axes) && (e.kind == EV_KEY ==> e.code in cfg.buttons)
  }

  function OnlyBound(cfg: Bindings, es: seq<Event>): seq<Event> {
    if es == [] then []
    else OnlyBound(cfg, es[..|es| - 1]) + if Bound(cfg, es[|es| - 1]) then [es[|es| - 1]] else []
  }

  /** Unbound events might as well not have happened: they cause no update and change none. */
  lemma {:induction false} UnboundEventsAreInvisible(cfg: Bindings, d: Accumulator, es: seq<Event>)
    ensures Fold(cfg, d, OnlyBound(cfg, es)) == Fold(cfg, d, es)
  {
    if es != [] {
      var before, e := es[..|es| - 1], es[|es| - 1];
      UnboundEventsAreInvisible(cfg, d, before);
      if Bound(cfg, e) {
        assert (OnlyBound(cfg, before) + [e])[..|OnlyBound(cfg, before)|] == OnlyBound(cfg, before);
      } else {
        assert OnlyBound(cfg, es) == OnlyBound(cfg, before);
      }
    }
  }

  lemma {:induction false} QuietPadStaysQuiet(cfg: Bindings, d: Accumulator, es: seq<Event>)
    requires !d.dirty && forall i :: 0 <= i < |es| ==> es[i].kind == EV_SYN || !Bound(cfg, es[i])
    ensures Fold(cfg, d, es) == d
  {
    if es != [] { QuietPadStaysQuiet(cfg, d, es[..|es| - 1]); }
  }

  lemma SetOwn(b: bv32, mask: bv32, down: bool)
    requires mask != 0
    ensures Has(SetBits(b, mask, down), mask) <==> down
  {}

  lemma SetOther(b: bv32, mask: bv32, down: bool, other: bv32)
    requires mask & other == 0
    ensures SetBits(b, mask, down) & other == b & other
    ensures Has(SetBits(b, mask, down), other) <==> Has(b, other)
  {}

  lemma LeftOfFour(b: bv32, left: bool, right: bool, up: bool, down: bool)
    ensures Has(SetFour(b, left, right, up, down), DLEFT) <==> left
  {
    SetFourIs(b, left, right, up, down);
    var b1 := SetBits(b, DLEFT, left);
    var b2 := SetBits(b1, DRIGHT, right);
    var b3 := SetBits(b2, DUP, up);
    SetOwn(b, DLEFT, left);
    SetOther(b1, DRIGHT, right, DLEFT);
    SetOther(b2, DUP, up, DLEFT);
    SetOther(b3, DDOWN, down, DLEFT);
  }

  lemma RightOfFour(b: bv32, left: bool, right: bool, up: bool, down: bool)
    ensures Has(SetFour(b, left, right, up, down), DRIGHT) <==> right
  {
    SetFourIs(b, left, right, up, down);
    var b1 := SetBits(b, DLEFT, left);
    var b2 := SetBits(b1, DRIGHT, right);
    var b3 := SetBits(b2, DUP, up);
    SetOwn(b1, DRIGHT, right);
    SetOther(b2, DUP, up, DRIGHT);
    SetOther(b3, DDOWN, down, DRIGHT);
  }

  lemma UpOfFour(b: bv32, left: bool, right: bool, up: bool, down: bool)
    ensures Has(SetFour(b, left, right, up, down), DUP) <==> up
  {
    SetFourIs(b, left, right, up, down);
    var b2 := SetBits(SetBits(b, DLEFT, left), DRIGHT, right);
    var b3 := SetBits(b2, DUP, up);
    SetOwn(b2, DUP, up);
    SetOther(b3, DDOWN, down, DUP);
  }

  lemma DownOfFour(b: bv32, left: bool, right: bool, up: bool, down: bool)
    ensures Has(SetFour(b, left, right, up, down), DDOWN) <==> down
  {
    SetFourIs(b, left, right, up, down);
    SetOwn(SetBits(SetBits(SetBits(b, DLEFT, left), DRIGHT, right), DUP, up), DDOWN, down);
  }

  lemma OthersOfFour(b: bv32, left: bool, right: bool, up: bool, down: bool)
    ensures SetFour(b, left, right, up, down) & !DPAD == b & !DPAD
  {
    SetFourIs(b, left, right, up, down);
    var b1 := SetBits(b, DLEFT, left);
    var b2 := SetBits(b1, DRIGHT, right);
    var b3 := SetBits(b2, DUP, up);
    SetOther(b, DLEFT, left, !DPAD);
    SetOther(b1, DRIGHT, right, !DPAD);
    SetOther(b2, DUP, up, !DPAD);
    SetOther(b3, DDOWN, down, !DPAD);
  }

  lemma HatXShows(d: Accumulator)
    ensures WithHat(d).Pressed(DLEFT) <==> d.hatX < 0
    ensures WithHat(d).Pressed(DRIGHT) <==> d.hatX > 0
  {
    LeftOfFour(d.pad.buttons, d.hatX < 0, d.hatX > 0, d.hatY < 0, d.hatY > 0);
    RightOfFour(d.pad.buttons, d.hatX < 0, d.hatX > 0, d.hatY < 0, d.hatY > 0);
  }

  lemma HatYShows(d: Accumulator)
    ensures WithHat(d).Pressed(DUP) <==> d.hatY < 0
    ensures WithHat(d).Pressed(DDOWN) <==> d.hatY > 0
  {
    UpOfFour(d.pad.buttons, d.hatX < 0, d.hatX > 0, d.hatY < 0, d.hatY > 0);
    DownOfFour(d.pad.buttons, d.hatX < 0, d.hatX > 0, d.hatY < 0, d.hatY > 0);
  }

  /** The d-pad of every returned state comes from the two hat values and nothing else, so a key bound
      to a d-pad direction never shows. */
  lemma DpadComesFromHatsOnly(d: Accumulator)
    ensures var s := WithHat(d);
            && (s.Pressed(DLEFT) <==> d.hatX < 0) && (s.Pressed(DRIGHT) <==> d.hatX > 0)
            && (s.Pressed(DUP) <==> d.hatY < 0) && (s.Pressed(DDOWN) <==> d.hatY > 0)
  {
    HatXShows(d);
    HatYShows(d);
  }

  /** Every other button of the accumulator passes through. */
  lemma OtherButtonsPassThrough(d: Accumulator)
    ensures WithHat(d).buttons & !DPAD == d.pad.buttons & !DPAD
  {
    OthersOfFour(d.pad.buttons, d.hatX < 0, d.hatX > 0, d.hatY < 0, d.hatY > 0);
  }

  // ---------------------------------------------------------------- when an unfinished packet does not show

  function Sign(v: int): int { if v < 0 then -1 else if v > 0 then 1 else 0 }

  /** Keys are bound to single buttons, as the configuration binds them. */
  ghost predicate SingleTargets(cfg: Bindings) { forall c :: c in cfg.buttons ==> SingleBit(cfg.buttons[c]) }

  /** The last event of each axis bound to a stick or trigger scales to the value held; the last of a hat
      points where it pointed. */
  predicate AxesUnmoved(cfg: Bindings, at: Accumulator, tail: seq<Event>) {
    && StickOr(LastOn(cfg, tail, LX), at.pad.lx) == at.pad.lx && StickOr(LastOn(cfg, tail, LY), at.pad.ly) == at.pad.ly
    && StickOr(LastOn(cfg, tail, RX), at.pad.rx) == at.pad.rx && StickOr(LastOn(cfg, tail, RY), at.pad.ry) == at.pad.ry
    && TriggerOr(LastOn(cfg, tail, LT), at.pad.lt) == at.pad.lt && TriggerOr(LastOn(cfg, tail, RT), at.pad.rt) == at.pad.rt
    && Sign(RawOr(LastOn(cfg, tail, HatX), at.hatX)) == Sign(at.hatX)
    && Sign(RawOr(LastOn(cfg, tail, HatY), at.hatY)) == Sign(at.hatY)
  }

  /** The last event of the keys bound to a button leaves it held, or not, as it was. */
  predicate KeyUnmoved(cfg: Bindings, at: Accumulator, tail: seq<Event>, mask: bv32) {
    var last := LastKey(cfg, tail, mask);
    last.Some? ==> (last.value != 0 <==> Has(at.pad.buttons, mask))
  }

  /** So for every bound button outside the d-pad, which only the hat shows. */
  predicate KeysUnmoved(cfg: Bindings, at: Accumulator, tail: seq<Event>) {
    forall c :: c in cfg.buttons && cfg.buttons[c] & DPAD == 0 ==> KeyUnmoved(cfg, at, tail, cfg.buttons[c])
  }

  /** Without a closing report nothing is stamped. */
  lemma {:induction false} TailStampsNothing(cfg: Bindings, at: Accumulator, tail: seq<Event>)
    requires NoneClosing(cfg, at, tail)
    ensures var z := Fold(cfg, at, tail).pad;
            z.tMono == at.pad.tMono && z.seqno == at.pad.seqno && z.tReal == at.pad.tReal
  {
    if tail != [] {
      var before := tail[..|tail| - 1];
      assert !Closing(Fold(cfg, at, tail[..|tail| - 1]), tail[|tail| - 1]);
      forall i | 0 <= i < |before|
        ensures !Closing(Fold(cfg, at, before[..i]), before[i])
      {
        assert before[..i] == tail[..i] && !Closing(Fold(cfg, at, tail[..i]), tail[i]);
      }
      TailStampsNothing(cfg, at, before);
    }
  }

  lemma SingleBitsStandAlone(cfg: Bindings, mask: bv32)
    requires SingleTargets(cfg) && SingleBit(mask)
    ensures StandsAlone(cfg, mask)
  {
    forall c | c in cfg.buttons
      ensures cfg.buttons[c] == mask || cfg.buttons[c] & mask == 0
    {
      assert SingleBit(cfg.buttons[c]);
      TwoSingleBits(cfg.buttons[c], mask);
    }
  }

  lemma TwoSingleBits(a: bv32, b: bv32)
    requires SingleBit(a) && SingleBit(b)
    ensures a == b || a & b == 0
  {
    assert Splits(a, b) && Splits(b, a);
  }

  lemma {:induction false} NoKeyBound(cfg: Bindings, es: seq<Event>, mask: bv32)
    requires forall c :: c in cfg.buttons ==> cfg.buttons[c] != mask
    ensures LastKey(cfg, es, mask) == None
  {
    if es != [] { NoKeyBound(cfg, es[..|es| - 1], mask); }
  }

  /** A button outside the d-pad is held after the tail as before it exactly when its keys left it so. */
  lemma ButtonUnmoved(cfg: Bindings, at: Accumulator, tail: seq<Event>, mask: bv32)
    requires SingleTargets(cfg) && SingleBit(mask)
    ensures (Has(Fold(cfg, at, tail).pad.buttons, mask) <==> Has(at.pad.buttons, mask)) <==> KeyUnmoved(cfg, at, tail, mask)
  {
    SingleBitsStandAlone(cfg, mask);
    ButtonsFollowTheirKeys(cfg, at, tail, mask);
  }

  predicate SameAt(a: bv32, b: bv32, m: bv32) { Has(a, m) <==> Has(b, m) }

  lemma SingleBits0()
    ensures SingleBit(0x1) && SingleBit(0x2) && SingleBit(0x4) && SingleBit(0x8)
    ensures SingleBit(0x10) && SingleBit(0x20) && SingleBit(0x40) && SingleBit(0x80)
  {}

  lemma SingleBits1()
    ensures SingleBit(0x100) && SingleBit(0x200) && SingleBit(0x400) && SingleBit(0x800)
    ensures SingleBit(0x1000) && SingleBit(0x2000)
  {}

  lemma SingleBits2()
    ensures SingleBit(0x40000) && SingleBit(0x80000) && SingleBit(0x100000) && SingleBit(0x200000)
    ensures SingleBit(0x400000) && SingleBit(0x800000) && SingleBit(0x1000000)
  {}

  lemma SingleBits3()
    ensures SingleBit(0x2000000) && SingleBit(0x4000000) && SingleBit(0x8000000) && SingleBit(0x10000000)
    ensures SingleBit(0x20000000) && SingleBit(0x40000000) && SingleBit(0x80000000)
  {}

  lemma SameInGroup0(a: bv32, b: bv32)
    requires SameAt(a, b, 0x1) && SameAt(a, b, 0x2) && SameAt(a, b, 0x4) && SameAt(a, b, 0x8)
    requires SameAt(a, b, 0x10) && SameAt(a, b, 0x20) && SameAt(a, b, 0x40) && SameAt(a, b, 0x80)
    ensures a & 0xff == b & 0xff
  {}

  lemma SameInGroup1(a: bv32, b: bv32)
    requires SameAt(a, b, 0x100) && SameAt(a, b, 0x200) && SameAt(a, b, 0x400) && SameAt(a, b, 0x800)
    requires SameAt(a, b, 0x1000) && SameAt(a, b, 0x2000)
    ensures a & 0x3f00 == b & 0x3f00
  {}

  lemma SameInGroup2(a: bv32, b: bv32)
    requires SameAt(a, b, 0x40000) && SameAt(a, b, 0x80000) && SameAt(a, b, 0x100000) && SameAt(a, b, 0x200000)
    requires SameAt(a, b, 0x400000) && SameAt(a, b, 0x800000) && SameAt(a, b, 0x1000000)
    ensures a & 0x1fc0000 == b & 0x1fc0000
  {}

  lemma SameInGroup3(a: bv32, b: bv32)
    requires SameAt(a, b, 0x2000000) && SameAt(a, b, 0x4000000) && SameAt(a, b, 0x8000000) && SameAt(a, b, 0x10000000)
    requires SameAt(a, b, 0x20000000) && SameAt(a, b, 0x40000000) && SameAt(a, b, 0x80000000)
    ensures a & 0xfe000000 == b & 0xfe000000
  {}

  /** Values with the same bits outside a mask are the same outside it. */
  lemma SameOutsideDpad(a: bv32, b: bv32)
    requires forall m :: SingleBit(m) && m & DPAD == 0 ==> SameAt(a, b, m)
    ensures SameBut(DPAD, a, b)
  {
    SingleBits0();
    SingleBits1();
    SingleBits2();
    SingleBits3();
    SameInGroup0(a, b);
    SameInGroup1(a, b);
    SameInGroup2(a, b);
    SameInGroup3(a, b);
    GroupsCover(a, b);
  }

  lemma GroupsCover(a: bv32, b: bv32)
    requires a & 0xff == b & 0xff && a & 0x3f00 == b & 0x3f00
    requires a & 0x1fc0000 == b & 0x1fc0000 && a & 0xfe000000 == b & 0xfe000000
    ensures SameBut(DPAD, a, b)
  {}

  lemma OneTargetAgrees(a: bv32, b: bv32, m: bv32)
    requires SameBut(DPAD, a, b) && m & DPAD == 0
    ensures SameAt(a, b, m)
  {}

  /** The buttons outside the d-pad are what they were exactly when no bound key moved one. */
  lemma ButtonsUnmoved(cfg: Bindings, at: Accumulator, tail: seq<Event>)
    requires SingleTargets(cfg)
    ensures SameBut(DPAD, Fold(cfg, at, tail).pad.buttons, at.pad.buttons) <==> KeysUnmoved(cfg, at, tail)
  {
    var a, b := Fold(cfg, at, tail).pad.buttons, at.pad.buttons;
    if SameBut(DPAD, a, b) {
      forall c | c in cfg.buttons && cfg.buttons[c] & DPAD == 0
        ensures KeyUnmoved(cfg, at, tail, cfg.buttons[c])
      {
        ButtonUnmoved(cfg, at, tail, cfg.buttons[c]);
        OneTargetAgrees(a, b, cfg.buttons[c]);
      }
    }
    if KeysUnmoved(cfg, at, tail) {
      forall m | SingleBit(m) && m & DPAD == 0
        ensures SameAt(a, b, m)
      {
        OneBitUnmoved(cfg, at, tail, m);
      }
      SameOutsideDpad(a, b);
    }
  }

  lemma OneBitUnmoved(cfg: Bindings, at: Accumulator, tail: seq<Event>, m: bv32)
    requires SingleTargets(cfg) && KeysUnmoved(cfg, at, tail) && SingleBit(m) && m & DPAD == 0
    ensures SameAt(Fold(cfg, at, tail).pad.buttons, at.pad.buttons, m)
  {
    ButtonUnmoved(cfg, at, tail, m);
    if exists c :: c in cfg.buttons && cfg.buttons[c] == m {
      var c :| c in cfg.buttons && cfg.buttons[c] == m;
      assert KeyUnmoved(cfg, at, tail, cfg.buttons[c]);
    } else {
      NoKeyBound(cfg, tail, m);
    }
  }

  lemma SameFourX(a: bv32, l: bool, r: bool, u: bool, d: bool, b: bv32, l': bool, r': bool, u': bool, d': bool)
    requires SetFour(a, l, r, u, d) == SetFour(b, l', r', u', d')
    ensures l == l' && r == r'
  {
    LeftOfFour(a, l, r, u, d);
    LeftOfFour(b, l', r', u', d');
    RightOfFour(a, l, r, u, d);
    RightOfFour(b, l', r', u', d');
  }

  lemma SameFourY(a: bv32, l: bool, r: bool, u: bool, d: bool, b: bv32, l': bool, r': bool, u': bool, d': bool)
    requires SetFour(a, l, r, u, d) == SetFour(b, l', r', u', d')
    ensures u == u' && d == d'
  {
    UpOfFour(a, l, r, u, d);
    UpOfFour(b, l', r', u', d');
    DownOfFour(a, l, r, u, d);
    DownOfFour(b, l', r', u', d');
  }

  lemma SameFourOthers(a: bv32, l: bool, r: bool, u: bool, d: bool, b: bv32, l': bool, r': bool, u': bool, d': bool)
    requires SetFour(a, l, r, u, d) == SetFour(b, l', r', u', d')
    ensures SameBut(DPAD, a, b)
  {
    OthersOfFour(a, l, r, u, d);
    OthersOfFour(b, l', r', u', d');
  }

  function HatButtons(z: Accumulator): bv32 {
    SetFour(z.pad.buttons, z.hatX < 0, z.hatX > 0, z.hatY < 0, z.hatY > 0)
  }

  lemma SameHatX(z: Accumulator, at: Accumulator)
    requires HatButtons(z) == HatButtons(at)
    ensures Sign(z.hatX) == Sign(at.hatX)
  {
    SameFourX(z.pad.buttons, z.hatX < 0, z.hatX > 0, z.hatY < 0, z.hatY > 0,
              at.pad.buttons, at.hatX < 0, at.hatX > 0, at.hatY < 0, at.hatY > 0);
  }

  lemma SameHatY(z: Accumulator, at: Accumulator)
    requires HatButtons(z) == HatButtons(at)
    ensures Sign(z.hatY) == Sign(at.hatY)
  {
    SameFourY(z.pad.buttons, z.hatX < 0, z.hatX > 0, z.hatY < 0, z.hatY > 0,
              at.pad.buttons, at.hatX < 0, at.hatX > 0, at.hatY < 0, at.hatY > 0);
  }

  lemma SameOtherButtons(z: Accumulator, at: Accumulator)
    requires HatButtons(z) == HatButtons(at)
    ensures SameBut(DPAD, z.pad.buttons, at.pad.buttons)
  {
    SameFourOthers(z.pad.buttons, z.hatX < 0, z.hatX > 0, z.hatY < 0, z.hatY > 0,
                   at.pad.buttons, at.hatX < 0, at.hatX > 0, at.hatY < 0, at.hatY > 0);
  }

  lemma HatButtonsDecide(z: Accumulator, at: Accumulator)
    requires Sign(z.hatX) == Sign(at.hatX) && Sign(z.hatY) == Sign(at.hatY)
    requires SameBut(DPAD, z.pad.buttons, at.pad.buttons)
    ensures HatButtons(z) == HatButtons(at)
  {
    SetFourDecides(z.pad.buttons, at.pad.buttons, at.hatX < 0, at.hatX > 0, at.hatY < 0, at.hatY > 0);
  }

  lemma ShownFields(z: Accumulator, at: Accumulator)
    requires z.pad.tMono == at.pad.tMono && z.pad.seqno == at.pad.seqno && z.pad.tReal == at.pad.tReal
    ensures WithHat(z) == WithHat(at) <==>
              && z.pad.lx == at.pad.lx && z.pad.ly == at.pad.ly && z.pad.rx == at.pad.rx && z.pad.ry == at.pad.ry
              && z.pad.lt == at.pad.lt && z.pad.rt == at.pad.rt && HatButtons(z) == HatButtons(at)
  {}

  /** Two accumulators show the same exactly when they agree but for the d-pad bits, which the signs of the
      hat values decide. */
  lemma ShowTheSameExactly(z: Accumulator, at: Accumulator)
    requires z.pad.tMono == at.pad.tMono && z.pad.seqno == at.pad.seqno && z.pad.tReal == at.pad.tReal
    ensures WithHat(z) == WithHat(at) <==>
              && z.pad.lx == at.pad.lx && z.pad.ly == at.pad.ly && z.pad.rx == at.pad.rx && z.pad.ry == at.pad.ry
              && z.pad.lt == at.pad.lt && z.pad.rt == at.pad.rt
              && Sign(z.hatX) == Sign(at.hatX) && Sign(z.hatY) == Sign(at.hatY)
              && SameBut(DPAD, z.pad.buttons, at.pad.buttons)
  {
    ShownFields(z, at);
    if HatButtons(z) == HatButtons(at) {
      SameHatX(z, at);
      SameHatY(z, at);
      SameOtherButtons(z, at);
    } else if Sign(z.hatX) == Sign(at.hatX) && Sign(z.hatY) == Sign(at.hatY) && SameBut(DPAD, z.pad.buttons, at.pad.buttons) {
      HatButtonsDecide(z, at);
    }
  }

  /** Exactly when a drain is coherent, going by the events after the last packet it closed: the state
      returned is that packet's if and only if in the unfinished tail the last event of every bound axis
      says what was held (a hat: the same direction), and so does the last event of every bound button
      outside the d-pad. A tail of no bound events, as in a drain of whole packets, always does. */
  lemma CoherentExactlyWhenTailSaysNothingNew(
    cfg: Bindings, d: Accumulator, head: seq<Event>, close: Event, tail: seq<Event>)
    requires SingleTargets(cfg) && !d.complete && Closing(Fold(cfg, d, head), close)
    requires NoneClosing(cfg, Apply(cfg, Fold(cfg, d, head), close), tail)
    ensures var at := Apply(cfg, Fold(cfg, d, head), close);
            var es := head + [close] + tail;
            && Fold(cfg, d, es).complete
            && (PublishAll(cfg, d, es).published == Some(WithHat(Fold(cfg, d, es)))
                <==> AxesUnmoved(cfg, at, tail) && KeysUnmoved(cfg, at, tail))
  {
    var at := Apply(cfg, Fold(cfg, d, head), close);
    DrainSplitsAtLastClose(cfg, d, head, close, tail);
    TailShowsNothingExactly(cfg, at, tail);
  }

  lemma TailShowsNothingExactly(cfg: Bindings, at: Accumulator, tail: seq<Event>)
    requires SingleTargets(cfg) && NoneClosing(cfg, at, tail)
    ensures WithHat(Fold(cfg, at, tail)) == WithHat(at) <==> AxesUnmoved(cfg, at, tail) && KeysUnmoved(cfg, at, tail)
  {
    TailStampsNothing(cfg, at, tail);
    ShowTheSameExactly(Fold(cfg, at, tail), at);
    SticksFollowTheirAxes(cfg, at, tail);
    TriggersAndHatsFollowTheirAxes(cfg, at, tail);
    ButtonsUnmoved(cfg, at, tail);
  }
}
