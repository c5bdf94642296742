/** The session state machine inside UdpSource::read: which valid datagrams are new, which are
    stale, and what the counters say about it. */
module UdpSession {
  import opened Wrappers
  import opened Bits
  import opened Gamepad

  const HALF32: nat := 0x8000_0000

  datatype Counters = Counters(
    accepted: nat, stale: nat, badTag: nat, badFrame: nat, wrongPeer: nat, queries: nat, sessions: nat)
  {
    /** The counters that classify datagrams; sessions counts something else. */
    function Handled(): nat { accepted + stale + badTag + badFrame + wrongPeer + queries }
  }

  datatype State = State(
    lastSeq: word, haveSeq: bool, lastIp: word, lastPort: nat, lastAccept: u64, counters: Counters)

  const INITIAL: State := State(0, false, 0, 0, 0, Counters(0, 0, 0, 0, 0, 0, 0))

  datatype Verdict = WrongPeer | Query | BadFrame | BadTag | Valid(seqno: word, body: Body)

  /** A datagram as the session logic sees it: who sent it, when it is handled, and what the
      stateless checks made of it. */
  datatype Event = Event(ip: word, port: nat, now: u64, verdict: Verdict)

  /** static_cast<int32_t>(seq - last) */
  function WrappedDifference(seqno: word, last: word): int {
    var d := (seqno - last) % TWO32;
    if d >= HALF32 then d - TWO32 else d
  }

  predicate NewSession(gap: u64, st: State, e: Event) {
    || e.ip != st.lastIp || e.port != st.lastPort
    || (st.lastAccept != 0 && (e.now - st.lastAccept) % TWO64 > gap)
  }

  predicate Accepts(gap: u64, st: State, e: Event) {
    e.verdict.Valid?
    && (!st.haveSeq || NewSession(gap, st, e) || WrappedDifference(e.verdict.seqno, st.lastSeq) > 0)
  }

  /** One turn of the drain loop. */
  function Receive(gap: u64, st: State, e: Event): State {
    var c := st.counters;
    match e.verdict
    case WrongPeer => st.(counters := c.(wrongPeer := c.wrongPeer + 1))
    case Query => st.(counters := c.(queries := c.queries + 1))
    case BadFrame => st.(counters := c.(badFrame := c.badFrame + 1))
    case BadTag => st.(counters := c.(badTag := c.badTag + 1))
    case Valid(n, _) => ReceiveValid(gap, st, e, n)
  }

  function ReceiveValid(gap: u64, st: State, e: Event, seqno: word): State
    requires e.verdict.Valid? && e.verdict.seqno == seqno
  {
    var c := if NewSession(gap, st, e) && st.haveSeq then st.counters.(sessions := st.counters.sessions + 1) else st.counters;
    if Accepts(gap, st, e) then State(seqno, true, e.ip, e.port, e.now, c.(accepted := c.accepted + 1))
    else st.(counters := c.(stale := c.stale + 1))
  }

  function Run(gap: u64, st: State, es: seq<Event>): State {
    if es == [] then st else Receive(gap, Run(gap, st, es[..|es| - 1]), es[|es| - 1])
  }

  /** The body of the last datagram accepted, if any was. */
  function Held(gap: u64, st: State, es: seq<Event>): Option<Body> {
    if es == [] then None
    else
      var before, e := es[..|es| - 1], es[|es| - 1];
      if Accepts(gap, Run(gap, st, before), e) then Some(e.verdict.body) else Held(gap, st, before)
  }

  // ---------------------------------------------------------------- every datagram is accounted for

  /** Each datagram moves exactly one of the six classifying counters, by one. */
  lemma OneCounterPerDatagram(gap: u64, st: State, e: Event)
    ensures var c, c' := st.counters, Receive(gap, st, e).counters;
            && c'.Handled() == c.Handled() + 1
            && c.accepted <= c'.accepted && c.stale <= c'.stale && c.badTag <= c'.badTag
            && c.badFrame <= c'.badFrame && c.wrongPeer <= c'.wrongPeer && c.queries <= c'.queries
            && (c'.accepted == c.accepted + 1 <==> Accepts(gap, st, e))
            && (c'.stale == c.stale + 1 <==> e.verdict.Valid? && !Accepts(gap, st, e))
  {}

  lemma {:induction false} CountersAccountForAll(gap: u64, st: State, es: seq<Event>)
    ensures Run(gap, st, es).counters.Handled() == st.counters.Handled() + |es|
  {
    if es != [] {
      CountersAccountForAll(gap, st, es[..|es| - 1]);
      OneCounterPerDatagram(gap, Run(gap, st, es[..|es| - 1]), es[|es| - 1]);
    }
  }

  lemma {:induction false} RunSplits(gap: u64, st: State, xs: seq<Event>, ys: seq<Event>)
    ensures Run(gap, st, xs + ys) == Run(gap, Run(gap, st, xs), ys)
  {
    if ys == [] {
      assert xs + ys == xs;
    } else {
      assert (xs + ys)[..|xs + ys| - 1] == xs + ys[..|ys| - 1];
      RunSplits(gap, st, xs, ys[..|ys| - 1]);
    }
  }

  // ---------------------------------------------------------------- sessions

  /** How many datagrams were accepted without a sequence number to compare against. */
  function SessionStarts(gap: u64, st: State, es: seq<Event>): nat {
    if es == [] then 0
    else
      var before, e := es[..|es| - 1], es[|es| - 1];
      var s := Run(gap, st, before);
      SessionStarts(gap, st, before)
      + if e.verdict.Valid? && (!s.haveSeq || NewSession(gap, s, e)) then 1 else 0
  }

  /** The sessions counter is one less than the number of sessions begun, and stays 0 until then. */
  lemma {:induction false} SessionsCounted(gap: u64, es: seq<Event>)
    ensures var st := Run(gap, INITIAL, es);
            && st.counters.sessions == SessionStarts(gap, INITIAL, es) - (if st.haveSeq then 1 else 0)
            && (st.haveSeq <==> SessionStarts(gap, INITIAL, es) > 0)
            && (st.haveSeq <==> st.counters.accepted > 0)
  {
    if es != [] { SessionsCounted(gap, es[..|es| - 1]); }
  }

  /** The index of the last datagram accepted. */
  function LastAccepted(gap: u64, es: seq<Event>): (r: Option<nat>)
    ensures r.Some? ==> r.value < |es|
  {
    if es == [] then None
    else
      var before, e := es[..|es| - 1], es[|es| - 1];
      if Accepts(gap, Run(gap, INITIAL, before), e) then Some(|before|) else LastAccepted(gap, before)
  }

  /** The receiver remembers exactly the datagram it accepted last. */
  lemma {:induction false} RemembersLastAccepted(gap: u64, es: seq<Event>)
    ensures var st := Run(gap, INITIAL, es);
            match LastAccepted(gap, es)
            case None => !st.haveSeq
            case Some(j) =>
              && es[j].verdict.Valid?
              && st == st.(haveSeq := true, lastIp := es[j].ip, lastPort := es[j].port,
                           lastAccept := es[j].now, lastSeq := es[j].verdict.seqno)
              && Held(gap, INITIAL, es) == Some(es[j].verdict.body)
  {
    if es != [] { RemembersLastAccepted(gap, es[..|es| - 1]); }
  }

  /** A positive clock that never runs backwards. */
  predicate Clock(es: seq<Event>) {
    && (forall i :: 0 <= i < |es| ==> es[i].now > 0)
    && (forall i, j :: 0 <= i <= j < |es| ==> es[i].now <= es[j].now)
  }

  /** In every run: a valid datagram is turned away exactly when the last accepted one came from the
      same sender, at most the session gap ago, and its sequence number is not ahead of that one.
      So nothing older than the gap, and nobody else's stream, can lock a client out. */
  lemma RejectedExactlyWithinSession(gap: u64, es: seq<Event>, e: Event)
    requires Clock(es + [e]) && e.verdict.Valid?
    ensures Accepts(gap, Run(gap, INITIAL, es), e) <==>
            match LastAccepted(gap, es)
            case None => true
            case Some(j) =>
              || e.ip != es[j].ip || e.port != es[j].port
              || e.now - es[j].now > gap
              || (es[j].verdict.Valid?
                  && WrappedDifference(e.verdict.seqno, es[j].verdict.seqno) > 0)
  {
    RemembersLastAccepted(gap, es);
    match LastAccepted(gap, es)
    case None =>
    case Some(j) =>
      assert (es + [e])[j] == es[j] && (es + [e])[|es|] == e;
      SmallMod64(e.now - es[j].now);
  }

  lemma SmallMod64(d: int)
    requires 0 <= d < TWO64
    ensures d % TWO64 == d
  {}

  // ---------------------------------------------------------------- sequence numbers

  /** The receiver's test against the sender's true counters, which it never sees: it reads as newer
      exactly the counters 1 to 2^31 - 1 ahead, modulo 2^32. */
  lemma NewerIffAheadByLessThanHalf(c: nat, last: nat)
    ensures WrappedDifference(c % TWO32, last % TWO32) > 0 <==> 0 < (c - last) % TWO32 < HALF32
  {
    ModSubtract(c, last);
  }

  lemma ModSubtract(c: nat, last: nat)
    ensures (c % TWO32 - last % TWO32) % TWO32 == (c - last) % TWO32
  {
    var k := c / TWO32 - last / TWO32;
    assert c - last == TWO32 * k + (c % TWO32 - last % TWO32);
  }

  /** Within half the sequence space the wrapped comparison is the true one. */
  lemma WrappedComparisonIsTrueOrder(c: nat, last: nat)
    requires last - HALF32 <= c < last + HALF32
    ensures WrappedDifference(c % TWO32, last % TWO32) > 0 <==> c > last
  {
    NewerIffAheadByLessThanHalf(c, last);
    if c < last {
      assert (c - last) % TWO32 == c - last + TWO32;
    }
  }

  /** The bound is tight: exactly half the space ahead is taken for stale. */
  lemma HalfAheadLooksStale(last: nat)
    ensures WrappedDifference((last + HALF32) % TWO32, last % TWO32) < 0
  {
    ModSubtract(last + HALF32, last);
  }

  function Max(m: nat, cs: seq<nat>): nat {
    if cs == [] then m
    else
      var b := Max(m, cs[..|cs| - 1]);
      if cs[|cs| - 1] > b then cs[|cs| - 1] else b
  }

  /** Arrivals of one session, with the counters their sender gave them: all valid, all from the
      last accepted sender, none after a gap, none further than half the space from the newest one. */
  predicate OneSession(gap: u64, st: State, m: nat, es: seq<Event>, cs: seq<nat>) {
    && |es| == |cs|
    && forall k :: 0 <= k < |es| ==> InSessionAt(gap, st, m, es, cs, k)
  }

  predicate InSessionAt(gap: u64, st: State, m: nat, es: seq<Event>, cs: seq<nat>, k: nat)
    requires |es| == |cs| && k < |es|
  {
    && es[k].verdict.Valid?
    && es[k].verdict.seqno == cs[k] % TWO32
    && !NewSession(gap, Run(gap, st, es[..k]), es[k])
    && Max(m, cs[..k]) - HALF32 <= cs[k] < Max(m, cs[..k]) + HALF32
  }

  lemma OneSessionUpTo(gap: u64, st: State, m: nat, es: seq<Event>, cs: seq<nat>, n: nat)
    requires OneSession(gap, st, m, es, cs) && n <= |es|
    ensures OneSession(gap, st, m, es[..n], cs[..n])
  {
    forall k | 0 <= k < n
      ensures InSessionAt(gap, st, m, es[..n], cs[..n], k)
    {
      assert InSessionAt(gap, st, m, es, cs, k);
      assert es[..n][..k] == es[..k] && cs[..n][..k] == cs[..k];
    }
  }

  lemma {:induction false} StandsAtNewestCounter(gap: u64, st: State, m: nat, es: seq<Event>, cs: seq<nat>)
    requires st.haveSeq && st.lastSeq == m % TWO32
    requires OneSession(gap, st, m, es, cs)
    ensures Run(gap, st, es).haveSeq && Run(gap, st, es).lastSeq == Max(m, cs) % TWO32
  {
    if es != [] {
      var n := |es| - 1;
      OneSessionUpTo(gap, st, m, es, cs, n);
      assert InSessionAt(gap, st, m, es, cs, n);
      StandsAtNewestCounter(gap, st, m, es[..n], cs[..n]);
      WrappedComparisonIsTrueOrder(cs[n], Max(m, cs[..n]));
    }
  }

  /** Whatever the network loses, repeats or reorders inside a session, a datagram is accepted exactly
      when its true counter exceeds every counter accepted before it, across wraps. */
  lemma SessionFollowsTrueCounters(gap: u64, st: State, m: nat, es: seq<Event>, cs: seq<nat>, k: nat)
    requires st.haveSeq && st.lastSeq == m % TWO32
    requires OneSession(gap, st, m, es, cs) && k < |es|
    ensures Accepts(gap, Run(gap, st, es[..k]), es[k]) <==> cs[k] > Max(m, cs[..k])
  {
    OneSessionUpTo(gap, st, m, es, cs, k);
    assert InSessionAt(gap, st, m, es, cs, k);
    StandsAtNewestCounter(gap, st, m, es[..k], cs[..k]);
    WrappedComparisonIsTrueOrder(cs[k], Max(m, cs[..k]));
  }

  lemma MaxIsReached(m: nat, cs: seq<nat>)
    ensures Max(m, cs) >= m && (forall c :: c in cs ==> c <= Max(m, cs))
    ensures Max(m, cs) > m ==> Max(m, cs) in cs
  {
    if cs != [] {
      MaxIsReached(m, cs[..|cs| - 1]);
      assert cs == cs[..|cs| - 1] + [cs[|cs| - 1]];
    }
  }

  /** The held state is the one sent under the greatest counter delivered, when any is new. */
  lemma {:induction false} HeldStateIsNewest(gap: u64, st: State, m: nat, es: seq<Event>, cs: seq<nat>)
    requires st.haveSeq && st.lastSeq == m % TWO32
    requires OneSession(gap, st, m, es, cs)
    ensures match Held(gap, st, es)
            case None => Max(m, cs) == m
            case Some(body) =>
              exists k :: && 0 <= k < |es| && cs[k] == Max(m, cs)
                          && es[k].verdict.Valid? && es[k].verdict.body == body
  {
    if es != [] {
      var n := |es| - 1;
      OneSessionUpTo(gap, st, m, es, cs, n);
      assert InSessionAt(gap, st, m, es, cs, n);
      HeldStateIsNewest(gap, st, m, es[..n], cs[..n]);
      SessionFollowsTrueCounters(gap, st, m, es, cs, n);
      if Accepts(gap, Run(gap, st, es[..n]), es[n]) {
        assert cs[n] == Max(m, cs);
      } else if Held(gap, st, es).Some? {
        var k :| && 0 <= k < n && cs[..n][k] == Max(m, cs[..n])
                 && es[..n][k].verdict.Valid? && es[..n][k].verdict.body == Held(gap, st, es).value;
        assert cs[k] == Max(m, cs) && es[k] == es[..n][k];
      }
    }
  }

  /** Where the held state came from. */
  lemma HeldWitness(gap: u64, st: State, m: nat, es: seq<Event>, cs: seq<nat>) returns (k: nat)
    requires st.haveSeq && st.lastSeq == m % TWO32
    requires OneSession(gap, st, m, es, cs) && Held(gap, st, es).Some?
    ensures k < |es| == |cs| && cs[k] == Max(m, cs)
    ensures es[k].verdict.Valid? && Held(gap, st, es) == Some(es[k].verdict.body)
  {
    HeldStateIsNewest(gap, st, m, es, cs);
    k :| 0 <= k < |es| && cs[k] == Max(m, cs) && es[k].verdict.Valid? && es[k].verdict.body == Held(gap, st, es).value;
  }

  /** The same, when the first of the arrivals begins the session: the sender is new, came back after the
      gap, or is the first ever. */
  predicate BeginsSession(gap: u64, st: State, es: seq<Event>, cs: seq<nat>) {
    && |es| == |cs| > 0
    && es[0].verdict.Valid? && es[0].verdict.seqno == cs[0] % TWO32
    && (!st.haveSeq || NewSession(gap, st, es[0]))
    && OneSession(gap, Receive(gap, st, es[0]), cs[0], es[1..], cs[1..])
  }

  lemma {:induction false} HeldSplits(gap: u64, st: State, xs: seq<Event>, ys: seq<Event>)
    ensures Held(gap, st, xs + ys)
            == if Held(gap, Run(gap, st, xs), ys).Some? then Held(gap, Run(gap, st, xs), ys) else Held(gap, st, xs)
  {
    if ys == [] {
      assert xs + ys == xs;
    } else {
      assert (xs + ys)[..|xs + ys| - 1] == xs + ys[..|ys| - 1];
      HeldSplits(gap, st, xs, ys[..|ys| - 1]);
      RunSplits(gap, st, xs, ys[..|ys| - 1]);
    }
  }

  lemma FirstStarts(gap: u64, st: State, es: seq<Event>, cs: seq<nat>)
    requires BeginsSession(gap, st, es, cs)
    ensures var st1 := Receive(gap, st, es[0]);
            && st1.haveSeq && st1.lastSeq == cs[0] % TWO32
            && Run(gap, st, [es[0]]) == st1 && Held(gap, st, [es[0]]) == Some(es[0].verdict.body)
  {
    assert [es[0]][..0] == [];
    assert Run(gap, st, []) == st;
  }

  /** In a session from its first datagram on, each later one is accepted exactly when its true counter
      exceeds all before it. */
  lemma NewSessionFollowsTrueCounters(gap: u64, st: State, es: seq<Event>, cs: seq<nat>, k: nat)
    requires BeginsSession(gap, st, es, cs) && 0 < k < |es|
    ensures Accepts(gap, st, es[0])
    ensures Accepts(gap, Run(gap, st, es[..k]), es[k]) <==> cs[k] > Max(cs[0], cs[1..k])
  {
    FirstStarts(gap, st, es, cs);
    SessionFollowsTrueCounters(gap, Receive(gap, st, es[0]), cs[0], es[1..], cs[1..], k - 1);
    RunSplits(gap, st, [es[0]], es[1..][..k - 1]);
    assert [es[0]] + es[1..][..k - 1] == es[..k];
    assert cs[1..][..k - 1] == cs[1..k];
  }

  /** And the state held after it is the one sent under the greatest counter delivered. */
  lemma NewSessionHoldsNewest(gap: u64, st: State, es: seq<Event>, cs: seq<nat>) returns (k: nat)
    requires BeginsSession(gap, st, es, cs)
    ensures k < |es| && cs[k] == Max(cs[0], cs[1..])
    ensures es[k].verdict.Valid? && Held(gap, st, es) == Some(es[k].verdict.body)
  {
    var st1, rest := Receive(gap, st, es[0]), es[1..];
    FirstStarts(gap, st, es, cs);
    HeldSplits(gap, st, [es[0]], rest);
    assert [es[0]] + rest == es;
    if Held(gap, st1, rest).Some? {
      k := HeldWitness(gap, st1, cs[0], rest, cs[1..]);
      k := k + 1;
    } else {
      HeldStateIsNewest(gap, st1, cs[0], rest, cs[1..]);
      k := 0;
    }
  }
}
