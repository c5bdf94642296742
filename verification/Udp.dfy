/** The UDP control source of src/sources/udp_source.cpp and the sequence counter of the clients. */
module Udp {
  import opened Wrappers
  import opened Bits
  import opened Gamepad
  import opened UdpSession
  import opened Wire

  /** The longest datagram recvfrom hands over; anything longer is cut. */
  const DATAGRAM_MAX: nat := 64
  /** "GPBQCAPS" */
  const QUERY_CAPS: Bytes := [71, 80, 66, 81, 67, 65, 80, 83]

  datatype Config = Config(peer: string, key: Bytes, gap: u64)

  /** One datagram as recvfrom delivers it, with the sender's address also in text form and the
      clock reading taken while it is handled. */
  datatype Arrival = Arrival(ip: word, port: nat, ipText: string, bytes: Bytes, now: u64)

  function Received(a: Arrival): Bytes {
    if |a.bytes| > DATAGRAM_MAX then a.bytes[..DATAGRAM_MAX] else a.bytes
  }

  function ValidBody(body: Body): Verdict {
    FieldBounds(body);
    Valid(Field(body, 8, 4), body)
  }

  /** The checks that do not depend on what came before, in the order the source makes them. */
  function Classify(cfg: Config, a: Arrival): Verdict {
    var buf := Received(a);
    if cfg.peer != "" && cfg.peer != a.ipText then WrongPeer
    else if buf == QUERY_CAPS then Query
    else if |buf| != STATE_SIZE + (if cfg.key == [] then 0 else TAG_BYTES) then BadFrame
    else if !Authentic(cfg.key, STATE_SIZE, buf) then BadTag
    else if !WellFormed(buf[..STATE_SIZE]) then BadFrame
    else ValidBody(buf[..STATE_SIZE])
  }

  function EventOf(cfg: Config, a: Arrival): Event {
    Event(a.ip, a.port, a.now, Classify(cfg, a))
  }

  function EventsOf(cfg: Config, arrivals: seq<Arrival>): seq<Event>
    decreases |arrivals|, 1
  {
    if arrivals == [] then [] else EventsLast(cfg, arrivals)
  }

  function EventsLast(cfg: Config, arrivals: seq<Arrival>): seq<Event>
    requires arrivals != []
    decreases |arrivals|, 0
  {
    EventsOf(cfg, arrivals[..|arrivals| - 1]) + [EventOf(cfg, arrivals[|arrivals| - 1])]
  }

  /** The state that read() hands out, with the arrival stamped by the local clocks. */
  function Stamped(body: Option<Body>, mono: u64, wall: u64): Option<GamepadState> {
    if body.Some? then Some(Unpack(body.value).(tMono := mono, tReal := wall)) else None
  }

  lemma RunExtends(cfg: Config, st: State, arrivals: seq<Arrival>, a: Arrival)
    ensures var before := EventsOf(cfg, arrivals);
            && EventsOf(cfg, arrivals + [a]) == before + [EventOf(cfg, a)]
            && Run(cfg.gap, st, EventsOf(cfg, arrivals + [a])) == Receive(cfg.gap, Run(cfg.gap, st, before), EventOf(cfg, a))
            && Held(cfg.gap, st, EventsOf(cfg, arrivals + [a]))
               == if Accepts(cfg.gap, Run(cfg.gap, st, before), EventOf(cfg, a)) then Some(Classify(cfg, a).body)
                  else Held(cfg.gap, st, before)
  {
    var before := EventsOf(cfg, arrivals);
    assert (arrivals + [a])[..|arrivals|] == arrivals;
    assert (before + [EventOf(cfg, a)])[..|before|] == before;
  }

  class UdpSource {
    const cfg: Config
    const capsJson: string
    var lastSeq: word
    var haveSeq: bool
    var lastIp: word
    var lastPort: nat
    var lastAccept: u64
    var counters: Counters

    constructor (cfg: Config, capsJson: string)
      ensures this.cfg == cfg && this.capsJson == capsJson && View() == INITIAL
    {
      this.cfg, this.capsJson := cfg, capsJson;
      lastSeq, haveSeq, lastIp, lastPort, lastAccept := 0, false, 0, 0, 0;
      counters := INITIAL.counters;
    }

    function View(): State
      reads this
    {
      State(lastSeq, haveSeq, lastIp, lastPort, lastAccept, counters)
    }

    /** The stateless checks of the loop body, in the source's order. */
    method Check(a: Arrival) returns (v: Verdict)
      ensures v == Classify(cfg, a)
    {
      var buf := if |a.bytes| > DATAGRAM_MAX then a.bytes[..DATAGRAM_MAX] else a.bytes;
      if cfg.peer != "" && cfg.peer != a.ipText { return WrongPeer; }
      if buf == QUERY_CAPS { return Query; }
      var expected := STATE_SIZE + if cfg.key == [] then 0 else TAG_BYTES;
      if |buf| != expected { return BadFrame; }
      if cfg.key != [] {
        var want := ComputeTag(cfg.key, buf[..STATE_SIZE]);
        var same := TagEquals(want, buf[STATE_SIZE..]);
        if !same { return BadTag; }
      }
      if !WellFormed(buf[..STATE_SIZE]) { return BadFrame; }
      return ValidBody(buf[..STATE_SIZE]);
    }

    /** The session logic of the loop body on a valid datagram. */
    method Order(e: Event) returns (accepted: bool)
      requires e.verdict.Valid?
      modifies this
      ensures View() == ReceiveValid(cfg.gap, old(View()), e, e.verdict.seqno)
      ensures accepted == Accepts(cfg.gap, old(View()), e)
    {
      var newSender := e.ip != lastIp || e.port != lastPort;
      var resumed := lastAccept != 0 && (e.now - lastAccept) % TWO64 > cfg.gap;
      if newSender || resumed {
        if haveSeq { counters := counters.(sessions := counters.sessions + 1); }
        haveSeq := false;
      }
      lastIp, lastPort := e.ip, e.port;
      if haveSeq && WrappedDifference(e.verdict.seqno, lastSeq) <= 0 {
        counters := counters.(stale := counters.stale + 1);
        return false;
      }
      lastSeq, haveSeq, lastAccept := e.verdict.seqno, true, e.now;
      counters := counters.(accepted := counters.accepted + 1);
      return true;
    }

    /** Counting and ordering a checked datagram; replied says whether a capability reply is sent. */
    method Apply(e: Event) returns (accepted: bool, replied: bool)
      modifies this
      ensures View() == Receive(cfg.gap, old(View()), e)
      ensures accepted == Accepts(cfg.gap, old(View()), e)
      ensures replied <==> e.verdict.Query? && capsJson != ""
    {
      accepted, replied := false, false;
      match e.verdict
      case WrongPeer => counters := counters.(wrongPeer := counters.wrongPeer + 1);
      case Query =>
        counters := counters.(queries := counters.queries + 1);
        replied := capsJson != "";
      case BadFrame => counters := counters.(badFrame := counters.badFrame + 1);
      case BadTag => counters := counters.(badTag := counters.badTag + 1);
      case Valid(_, _) => accepted := Order(e);
    }

    /** One pass of the loop body: newest is what the passes before it left in out. */
    method TakeDatagram(a: Arrival, newest: Option<Body>, ghost was: State, ghost before: seq<Arrival>)
      returns (out: Option<Body>)
      requires View() == Run(cfg.gap, was, EventsOf(cfg, before))
      requires newest == Held(cfg.gap, was, EventsOf(cfg, before))
      modifies this
      ensures View() == Run(cfg.gap, was, EventsOf(cfg, before + [a]))
      ensures out == Held(cfg.gap, was, EventsOf(cfg, before + [a]))
    {
      RunExtends(cfg, was, before, a);
      out := newest;
      var v := Check(a);
      var accepted, _ := Apply(Event(a.ip, a.port, a.now, v));
      if accepted { out := Some(v.body); }
    }

    method TakeNext(arrivals: seq<Arrival>, i: nat, newest: Option<Body>, ghost was: State) returns (out: Option<Body>)
      requires i < |arrivals|
      requires View() == Run(cfg.gap, was, EventsOf(cfg, arrivals[..i]))
      requires newest == Held(cfg.gap, was, EventsOf(cfg, arrivals[..i]))
      modifies this
      ensures View() == Run(cfg.gap, was, EventsOf(cfg, arrivals[..i + 1]))
      ensures out == Held(cfg.gap, was, EventsOf(cfg, arrivals[..i + 1]))
    {
      assert arrivals[..i] + [arrivals[i]] == arrivals[..i + 1];
      out := TakeDatagram(arrivals[i], newest, was, arrivals[..i]);
    }

    /** The drain loop on everything recvfrom returns before it reports an empty socket or an error. */
    method Drain(arrivals: seq<Arrival>) returns (newest: Option<Body>)
      modifies this
      ensures View() == Run(cfg.gap, old(View()), EventsOf(cfg, arrivals))
      ensures newest == Held(cfg.gap, old(View()), EventsOf(cfg, arrivals))
    {
      ghost var was := View();
      newest := None;
      for i := 0 to |arrivals|
        invariant View() == Run(cfg.gap, was, EventsOf(cfg, arrivals[..i]))
        invariant newest == Held(cfg.gap, was, EventsOf(cfg, arrivals[..i]))
      {
        newest := TakeNext(arrivals, i, newest, was);
      }
      assert arrivals[..|arrivals|] == arrivals;
    }

    /** read(): keeps the newest state and stamps it with the local clocks. */
    method Read(arrivals: seq<Arrival>, mono: u64, wall: u64) returns (out: Option<GamepadState>)
      modifies this
      ensures View() == Run(cfg.gap, old(View()), EventsOf(cfg, arrivals))
      ensures out == Stamped(Held(cfg.gap, old(View()), EventsOf(cfg, arrivals)), mono, wall)
    {
      var newest := Drain(arrivals);
      out := Stamped(newest, mono, wall);
    }
  }

  // ---------------------------------------------------------------- the sender

  /** The sending half of a client. */
  class ControlClient {
    const key: Bytes
    var state: GamepadState
    var seqno: word
    /** How many datagrams have been numbered; the wire carries it modulo 2^32. */
    ghost var count: nat

    ghost predicate Numbered()
      reads this
    {
      seqno == count % TWO32
    }

    constructor (key: Bytes)
      ensures Numbered() && count == 0 && this.key == key && state == NEUTRAL
    {
      this.key, state, seqno, count := key, NEUTRAL, 0, 0;
    }

    method Send(mono: u64, wall: u64) returns (datagram: Bytes)
      requires Numbered()
      modifies `seqno, `count
      ensures Numbered() && count == old(count) + 1
      ensures datagram == Sign(key, Pack(state.(seqno := count % TWO32, tMono := mono, tReal := wall)))
    {
      seqno := (seqno + 1) % TWO32;
      count := count + 1;
      NextNumber(count - 1);
      var payload := Pack(state.(seqno := seqno, tMono := mono, tReal := wall));
      datagram := payload;
      if key != [] {
        var tag := ComputeTag(key, payload);
        datagram := payload + tag;
      }
    }
  }

  /** What a client sends under the receiver's key is always read as exactly the state it sent. */
  lemma ClientDatagramIsValid(cfg: Config, a: Arrival, s: GamepadState)
    requires a.bytes == Sign(cfg.key, Pack(s))
    requires cfg.peer == "" || cfg.peer == a.ipText
    ensures Classify(cfg, a) == Valid(s.seqno, Pack(s)) && Unpack(Pack(s)) == s
  {
    PackRoundTrip(s);
    PackedHead(s);
    assert Received(a) == a.bytes;
    assert a.bytes[..STATE_SIZE] == Pack(s);
    AuthenticIffSigned(cfg.key, STATE_SIZE, a.bytes);
  }

  /** Under a key, every body that gets past the tag check is one a holder of the key would tag
      exactly so, and everything else is counted, not applied. */
  lemma OnlySignedBodiesAreRead(cfg: Config, a: Arrival)
    requires cfg.key != []
    ensures Classify(cfg, a).Valid? ==>
              && |Received(a)| >= STATE_SIZE
              && Received(a) == Sign(cfg.key, Received(a)[..STATE_SIZE])
              && Classify(cfg, a.(bytes := Received(a)[..STATE_SIZE])).BadFrame?
  {
    if Classify(cfg, a).Valid? { AuthenticIffSigned(cfg.key, STATE_SIZE, Received(a)); }
  }

  /** A peer is configured, and this is not it. */
  predicate Foreign(cfg: Config, a: Arrival) { cfg.peer != "" && cfg.peer != a.ipText }

  /** A datagram from anyone but the configured peer is counted and otherwise ignored. */
  lemma ForeignIsIgnored(cfg: Config, st: State, a: Arrival)
    requires Foreign(cfg, a)
    ensures !Accepts(cfg.gap, st, EventOf(cfg, a))
    ensures Receive(cfg.gap, st, EventOf(cfg, a))
            == st.(counters := st.counters.(wrongPeer := st.counters.wrongPeer + 1))
  {}

  function OwnArrivals(cfg: Config, arrivals: seq<Arrival>): seq<Arrival> {
    if arrivals == [] then []
    else
      var a := arrivals[|arrivals| - 1];
      OwnArrivals(cfg, arrivals[..|arrivals| - 1]) + if Foreign(cfg, a) then [] else [a]
  }

  function CountForeign(st: State, n: nat): State {
    st.(counters := st.counters.(wrongPeer := st.counters.wrongPeer + n))
  }

  /** The count of foreign datagrams decides nothing. */
  lemma ForeignCountIsInert(cfg: Config, st: State, n: nat, e: Event)
    ensures Accepts(cfg.gap, CountForeign(st, n), e) == Accepts(cfg.gap, st, e)
    ensures Receive(cfg.gap, CountForeign(st, n), e) == CountForeign(Receive(cfg.gap, st, e), n)
  {}

  /** Runs that agree but for foreign datagrams, of which the first had n more. */
  predicate SameButForeign(cfg: Config, st: State, arrivals: seq<Arrival>, own: seq<Arrival>, n: nat) {
    && Held(cfg.gap, st, EventsOf(cfg, arrivals)) == Held(cfg.gap, st, EventsOf(cfg, own))
    && Run(cfg.gap, st, EventsOf(cfg, arrivals)) == CountForeign(Run(cfg.gap, st, EventsOf(cfg, own)), n)
  }

  lemma ForeignArrives(cfg: Config, st: State, before: seq<Arrival>, own: seq<Arrival>, n: nat, a: Arrival)
    requires SameButForeign(cfg, st, before, own, n) && Foreign(cfg, a)
    ensures SameButForeign(cfg, st, before + [a], own, n + 1)
  {
    RunExtends(cfg, st, before, a);
    ForeignIsIgnored(cfg, Run(cfg.gap, st, EventsOf(cfg, before)), a);
  }

  lemma OwnArrives(cfg: Config, st: State, before: seq<Arrival>, own: seq<Arrival>, n: nat, a: Arrival)
    requires SameButForeign(cfg, st, before, own, n)
    ensures SameButForeign(cfg, st, before + [a], own + [a], n)
  {
    RunExtends(cfg, st, before, a);
    RunExtends(cfg, st, own, a);
    ForeignCountIsInert(cfg, Run(cfg.gap, st, EventsOf(cfg, own)), n, EventOf(cfg, a));
  }

  lemma OwnSnoc(cfg: Config, before: seq<Arrival>, a: Arrival)
    ensures OwnArrivals(cfg, before + [a]) == OwnArrivals(cfg, before) + if Foreign(cfg, a) then [] else [a]
  {
    assert (before + [a])[..|before|] == before;
  }

  /** In every run foreign datagrams might as well not arrive: what is held, and the whole state but their
      own count, are those of the run without them. */
  lemma {:induction false} ForeignArrivalsChangeNothing(cfg: Config, st: State, arrivals: seq<Arrival>)
    ensures var own := OwnArrivals(cfg, arrivals);
            |own| <= |arrivals| && SameButForeign(cfg, st, arrivals, own, |arrivals| - |own|)
  {
    if arrivals != [] {
      var before, a := arrivals[..|arrivals| - 1], arrivals[|arrivals| - 1];
      var own := OwnArrivals(cfg, before);
      ForeignArrivalsChangeNothing(cfg, st, before);
      assert before + [a] == arrivals && own + [] == own;
      OwnSnoc(cfg, before, a);
      if Foreign(cfg, a) {
        ForeignArrives(cfg, st, before, own, |before| - |own|, a);
      } else {
        OwnArrives(cfg, st, before, own, |before| - |own|, a);
      }
    }
  }

  /** The bytes of a text. */
  predicate Spells(b: Bytes, text: string) {
    |b| == |text| && forall i :: 0 <= i < |b| ==> b[i] == text[i] as int
  }

  /** What came in is a state with the right header, signed if there is a key. */
  ghost predicate CarriesState(cfg: Config, buf: Bytes, body: Body) {
    body[..6] == HEADER && buf == Sign(cfg.key, body)
  }

  /** What each verdict means in bytes, going by what was sent instead of how it is checked. A datagram of
      the length of a signed state is a wrong tag exactly when it is not the signed form of its body. */
  lemma VerdictsMean(cfg: Config, a: Arrival, body: Body)
    ensures var v, buf, own := Classify(cfg, a), Received(a), !Foreign(cfg, a);
            var full := STATE_SIZE + (if cfg.key == [] then 0 else TAG_BYTES);
            && (v.WrongPeer? <==> !own)
            && (v.Query? <==> own && Spells(buf, "GPBQCAPS"))
            && (v.Valid? && v.body == body <==> own && CarriesState(cfg, buf, body))
            && (v.Valid? ==> v.seqno == Unpack(v.body).seqno)
            && (v.BadTag? <==> own && |buf| == full && buf != Sign(cfg.key, buf[..STATE_SIZE]))
            && (v.BadFrame? <==> own && !Spells(buf, "GPBQCAPS")
                                 && (|buf| == full ==> buf == Sign(cfg.key, buf[..STATE_SIZE]) && buf[..6] != HEADER))
  {
    var buf := Received(a);
    QuerySpelled(buf);
    SignedForm(cfg.key, body);
    if |buf| == STATE_SIZE + (if cfg.key == [] then 0 else TAG_BYTES) {
      AuthenticIffSigned(cfg.key, STATE_SIZE, buf);
      WellFormedIffHeader(buf[..STATE_SIZE]);
      assert buf[..STATE_SIZE][..6] == buf[..6];
    }
  }

  lemma SignedForm(key: Bytes, body: Body)
    ensures |Sign(key, body)| == STATE_SIZE + (if key == [] then 0 else TAG_BYTES) && Sign(key, body)[..STATE_SIZE] == body
  {}

  lemma QuerySpelled(b: Bytes)
    ensures b == QUERY_CAPS <==> Spells(b, "GPBQCAPS")
  {}

  /** And so each moves its own counter. */
  lemma VerdictsAreCounted(cfg: Config, st: State, a: Arrival)
    ensures var c, buf, own := st.counters, Received(a), !Foreign(cfg, a);
            var z := Receive(cfg.gap, st, EventOf(cfg, a));
            && (own && Spells(buf, "GPBQCAPS") ==> z == st.(counters := c.(queries := c.queries + 1)))
            && (own && cfg.key != [] && |buf| == STATE_SIZE + TAG_BYTES && buf != Sign(cfg.key, buf[..STATE_SIZE])
                ==> z == st.(counters := c.(badTag := c.badTag + 1)))
            && (own && !Spells(buf, "GPBQCAPS") && |buf| != STATE_SIZE + (if cfg.key == [] then 0 else TAG_BYTES)
                ==> z == st.(counters := c.(badFrame := c.badFrame + 1)))
  {
    VerdictsMean(cfg, a, Pack(NEUTRAL));
  }

  lemma EventsAt(cfg: Config, arrivals: seq<Arrival>, k: nat)
    requires k < |arrivals|
    ensures |EventsOf(cfg, arrivals)| == |arrivals| && EventsOf(cfg, arrivals)[k] == EventOf(cfg, arrivals[k])
    decreases |arrivals|
  {
    var front := arrivals[..|arrivals| - 1];
    if front != [] { EventsAt(cfg, front, if k < |front| then k else 0); }
    if k < |front| { assert front[k] == arrivals[k]; }
  }

  lemma ArrivalCarries(cfg: Config, arrivals: seq<Arrival>, k: nat, s: GamepadState, mono: u64, wall: u64)
    requires k < |arrivals| && arrivals[k].bytes == Sign(cfg.key, Pack(s))
    requires cfg.peer == "" || cfg.peer == arrivals[k].ipText
    ensures |EventsOf(cfg, arrivals)| == |arrivals|
    ensures EventsOf(cfg, arrivals)[k].verdict == Valid(s.seqno, Pack(s))
    ensures Stamped(Some(Pack(s)), mono, wall) == Some(s.(tMono := mono, tReal := wall))
  {
    EventsAt(cfg, arrivals, k);
    ClientDatagramIsValid(cfg, arrivals[k], s);
  }

  /** The state sent under the counter n, as the receiver stamps it. */
  predicate IsSent(s: GamepadState, sent: seq<GamepadState>, cs: seq<nat>, n: nat, mono: u64, wall: u64)
    requires |sent| == |cs|
  {
    exists k :: 0 <= k < |sent| && cs[k] == n && s == sent[k].(tMono := mono, tReal := wall)
  }

  /** Arrival k carries the k-th state, signed, from a sender the receiver listens to. */
  predicate Delivers(cfg: Config, arrivals: seq<Arrival>, sent: seq<GamepadState>, k: nat)
    requires k < |arrivals| && |sent| == |arrivals|
  {
    (cfg.peer == "" || cfg.peer == arrivals[k].ipText) && arrivals[k].bytes == Sign(cfg.key, Pack(sent[k]))
  }

  lemma BodyIsSent(
    cfg: Config, arrivals: seq<Arrival>, sent: seq<GamepadState>, cs: seq<nat>, k: nat, mono: u64, wall: u64)
    requires k < |arrivals| == |sent| == |cs| && Delivers(cfg, arrivals, sent, k)
    requires |EventsOf(cfg, arrivals)| == |arrivals| && EventsOf(cfg, arrivals)[k].verdict.Valid?
    ensures var r := Stamped(Some(EventsOf(cfg, arrivals)[k].verdict.body), mono, wall);
            r.Some? && IsSent(r.value, sent, cs, cs[k], mono, wall)
  {
    ArrivalCarries(cfg, arrivals, k, sent[k], mono, wall);
  }

  /** End to end: whatever signed states arrive within one session, in whatever order and however often,
      read() hands out the one its sender numbered highest, unchanged but for the local time stamps; or
      nothing, when none is newer than what was held. */
  lemma NewestSentStateIsRead(
    cfg: Config, st: State, m: nat, arrivals: seq<Arrival>, sent: seq<GamepadState>, cs: seq<nat>, mono: u64, wall: u64)
    requires st.haveSeq && st.lastSeq == m % TWO32
    requires |sent| == |cs| == |arrivals| && OneSession(cfg.gap, st, m, EventsOf(cfg, arrivals), cs)
    requires forall k :: 0 <= k < |arrivals| ==> Delivers(cfg, arrivals, sent, k)
    ensures var r := Stamped(Held(cfg.gap, st, EventsOf(cfg, arrivals)), mono, wall);
            if r.None? then Max(m, cs) == m else IsSent(r.value, sent, cs, Max(m, cs), mono, wall)
  {
    var es := EventsOf(cfg, arrivals);
    if Held(cfg.gap, st, es).None? {
      HeldStateIsNewest(cfg.gap, st, m, es, cs);
    } else {
      var k := HeldWitness(cfg.gap, st, m, es, cs);
      BodyIsSent(cfg, arrivals, sent, cs, k, mono, wall);
    }
  }

  /** The same for the read in which a session begins, after startup, after a gap or with a new sender:
      something is always handed out, and it is the state numbered highest. */
  lemma NewSessionIsRead(
    cfg: Config, st: State, arrivals: seq<Arrival>, sent: seq<GamepadState>, cs: seq<nat>, mono: u64, wall: u64)
    requires |sent| == |cs| == |arrivals| && BeginsSession(cfg.gap, st, EventsOf(cfg, arrivals), cs)
    requires forall k :: 0 <= k < |arrivals| ==> Delivers(cfg, arrivals, sent, k)
    ensures var r := Stamped(Held(cfg.gap, st, EventsOf(cfg, arrivals)), mono, wall);
            r.Some? && IsSent(r.value, sent, cs, Max(cs[0], cs[1..]), mono, wall)
  {
    var k := NewSessionHoldsNewest(cfg.gap, st, EventsOf(cfg, arrivals), cs);
    BodyIsSent(cfg, arrivals, sent, cs, k, mono, wall);
  }
}
