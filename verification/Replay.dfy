/** Replaying a capture: the Unix-socket source of src/sources/socket_source.cpp feeding the bridge
    with the states an earlier run recorded (src/bridge.cpp). */
module Replay {
  import opened Wrappers
  import opened Bits
  import opened Gamepad
  import opened NsHid
  import Bridge
  import Recorder

  /** What the loop in read() keeps of a frame: recv cuts it to 48 bytes, a wrong one is skipped. */
  predicate Good(frame: Bytes) { |frame| >= STATE_SIZE && WellFormed(frame[..STATE_SIZE]) }

  /** The newest good frame of a backlog. */
  function NewestGood(frames: seq<Bytes>): Option<Body> {
    if frames == [] then None
    else
      var last := frames[|frames| - 1];
      if Good(last) then Some(last[..STATE_SIZE]) else NewestGood(frames[..|frames| - 1])
  }

  function Stamp(body: Body, seqno: word, mono: u64, wall: u64): GamepadState {
    Unpack(body).(seqno := seqno, tMono := mono, tReal := wall)
  }

  class SocketSource {
    var client: bool
    var seqno: word

    constructor ()
      ensures !client && seqno == 0
    {
      client, seqno := false, 0;
    }

    /** read(): with no client it only accepts one; otherwise it drains the backlog recv returns before
        it would block, fails or reports that the peer closed, and hands out the newest good frame. */
    method Read(accepts: bool, frames: seq<Bytes>, closes: bool, mono: u64, wall: u64) returns (out: Option<GamepadState>)
      modifies this
      ensures client == if old(client) then !closes else accepts
      ensures old(client) && NewestGood(frames).Some? ==>
                && seqno == (old(seqno) + 1) % TWO32
                && out == Some(Stamp(NewestGood(frames).value, seqno, mono, wall))
      ensures !old(client) || NewestGood(frames).None? ==> out == None && seqno == old(seqno)
    {
      out := None;
      if !client {
        client := accepts;
        return;
      }
      var newest: Option<Body> := None;
      for i := 0 to |frames|
        invariant newest == NewestGood(frames[..i])
        invariant client && seqno == old(seqno)
      {
        assert frames[..i + 1][..i] == frames[..i];
        var n := if |frames[i]| < STATE_SIZE then |frames[i]| else STATE_SIZE;
        if n == STATE_SIZE {
          var body: Body := frames[i][..STATE_SIZE];
          if WellFormed(body) { newest := Some(body); }
        }
      }
      assert frames[..|frames|] == frames;
      if closes { client := false; }
      if newest.Some? {
        seqno := (seqno + 1) % TWO32;
        out := Some(Stamp(newest.value, seqno, mono, wall));
      }
    }
  }

  /** A frame as it should be: long enough, and with the header of a state. */
  predicate Framed(frame: Bytes) { |frame| >= STATE_SIZE && frame[..6] == HEADER }

  /** Whatever else arrives, the newest frame with the right length and header is the one read. */
  lemma {:induction false} NewestFramedIsRead(frames: seq<Bytes>)
    ensures match NewestGood(frames)
            case None => forall i :: 0 <= i < |frames| ==> !Framed(frames[i])
            case Some(body) =>
              exists i :: && 0 <= i < |frames| && Framed(frames[i]) && body == frames[i][..STATE_SIZE]
                          && forall j :: i < j < |frames| ==> !Framed(frames[j])
  {
    if frames != [] {
      var n := |frames| - 1;
      var before := frames[..n];
      NewestFramedIsRead(before);
      if |frames[n]| >= STATE_SIZE {
        WellFormedIffHeader(frames[n][..STATE_SIZE]);
        assert frames[n][..STATE_SIZE][..6] == frames[n][..6];
      }
      assert Good(frames[n]) <==> Framed(frames[n]);
      if !Good(frames[n]) {
        assert forall i :: 0 <= i < n ==> before[i] == frames[i];
        if NewestGood(before).Some? {
          var i :| && 0 <= i < n && Framed(before[i]) && NewestGood(before).value == before[i][..STATE_SIZE]
                   && forall j :: i < j < n ==> !Framed(before[j]);
          assert Framed(frames[i]);
        }
      }
    }
  }

  function PackAll(states: seq<GamepadState>): seq<Bytes> { seq(|states|, i requires 0 <= i < |states| => Pack(states[i])) }

  /** A backlog of recorded states reads back as its last one, in everything a sink transmits. */
  lemma ReadsLastOfGroup(group: seq<GamepadState>, seqno: word, mono: u64, wall: u64)
    requires group != []
    ensures var last := group[|group| - 1];
            && NewestGood(PackAll(group)) == Some(Pack(last))
            && Stamp(Pack(last), seqno, mono, wall).SameInput(last)
  {
    var last := group[|group| - 1];
    var frames := PackAll(group);
    assert frames[|frames| - 1] == Pack(last);
    PackRoundTrip(last);
    assert Pack(last)[..STATE_SIZE] == Pack(last);
  }

  // ---------------------------------------------------------------- what the bridge reports for updates

  /** The states a run's source handed over, in order. */
  function Handed(inputs: seq<Bridge.Input>): seq<GamepadState> {
    if inputs == [] then []
    else
      var i := inputs[|inputs| - 1];
      Handed(inputs[..|inputs| - 1]) + if i.SourceReady? && i.r.NewState? then [i.r.s] else []
  }

  function Reports(encode: GamepadState -> PokkenReport, states: seq<GamepadState>): seq<PokkenReport> {
    seq(|states|, i requires 0 <= i < |states| => encode(states[i]))
  }

  function ShapedAll(cfg: Bridge.Config, states: seq<GamepadState>): seq<GamepadState> {
    seq(|states|, i requires 0 <= i < |states| => Bridge.Shaped(cfg, states[i]))
  }

  /** Whatever else happens in a run, its update reports encode the shaped states in order, and the
      recorder is offered exactly those states. */
  lemma {:induction false} UpdatesFollowSource(cfg: Bridge.Config, b: Bridge.State, inputs: seq<Bridge.Input>)
    requires b.h.updateReports == [] && b.h.recorded == []
    ensures var z := Bridge.Run(cfg, b, inputs);
            && z.h.updateReports == Reports(cfg.encode, ShapedAll(cfg, Handed(inputs)))
            && z.h.recorded == if cfg.record then ShapedAll(cfg, Handed(inputs)) else []
  {
    if inputs != [] {
      var before, i := inputs[..|inputs| - 1], inputs[|inputs| - 1];
      UpdatesFollowSource(cfg, b, before);
      StepReports(cfg, Bridge.Run(cfg, b, before), i);
      if i.SourceReady? && i.r.NewState? {
        var hs := Handed(before);
        assert ShapedAll(cfg, hs + [i.r.s]) == ShapedAll(cfg, hs) + [Bridge.Shaped(cfg, i.r.s)];
        assert Reports(cfg.encode, ShapedAll(cfg, hs) + [Bridge.Shaped(cfg, i.r.s)])
            == Reports(cfg.encode, ShapedAll(cfg, hs)) + [cfg.encode(Bridge.Shaped(cfg, i.r.s))];
      } else {
        assert Handed(inputs) == Handed(before);
      }
    }
  }

  lemma StepReports(cfg: Bridge.Config, b: Bridge.State, i: Bridge.Input)
    ensures var z := Bridge.Step(cfg, b, i);
            if i.SourceReady? && i.r.NewState? then
              && z.h.updateReports == b.h.updateReports + [cfg.encode(Bridge.Shaped(cfg, i.r.s))]
              && z.h.recorded == if cfg.record then b.h.recorded + [Bridge.Shaped(cfg, i.r.s)] else b.h.recorded
            else z.h.updateReports == b.h.updateReports && z.h.recorded == b.h.recorded
  {}

  // ---------------------------------------------------------------- replay

  /** What the clocks and the counter of the replaying source stamp on one read. */
  datatype Stamps = Stamps(seqno: word, mono: u64, wall: u64)

  /** What the socket source hands over when the frames of a group are its backlog. */
  function ReadGroup(group: seq<GamepadState>, t: Stamps): Option<GamepadState> {
    match NewestGood(PackAll(group))
    case None => None
    case Some(body) => Some(Stamp(body, t.seqno, t.mono, t.wall))
  }

  /** One read of the source per group, in order. */
  predicate ReadBySocket(groups: seq<seq<GamepadState>>, stamps: seq<Stamps>, handed: seq<GamepadState>) {
    && |handed| == |stamps| == |groups|
    && forall i :: 0 <= i < |groups| ==> groups[i] != [] && ReadGroup(groups[i], stamps[i]) == Some(handed[i])
  }

  lemma GroupReadsItsLast(group: seq<GamepadState>, t: Stamps)
    requires group != []
    ensures ReadGroup(group, t).Some? && ReadGroup(group, t).value.SameInput(group[|group| - 1])
  {
    ReadsLastOfGroup(group, t.seqno, t.mono, t.wall);
  }

  /** The two runs compared: both fresh, one offering its states to the recorder, one fed by a canonical source. */
  predicate Comparable(rec: Bridge.Config, a: Bridge.State, rep: Bridge.Config, b: Bridge.State) {
    && a.h.updateReports == [] && a.h.recorded == [] && b.h.updateReports == [] && b.h.recorded == []
    && rec.record && rep.canonical
  }

  /** Any run that records, and any run that replays groups of frames through the socket source: where the
      last frame of group i is the j-th state offered to the recorder, the i-th replayed report is byte for
      byte the j-th recorded one. Nothing is asked of the other frames, or of frames that were dropped. */
  lemma ReplayedReportsMatch(
    rec: Bridge.Config, a: Bridge.State, recInputs: seq<Bridge.Input>,
    rep: Bridge.Config, b: Bridge.State, repInputs: seq<Bridge.Input>,
    groups: seq<seq<GamepadState>>, stamps: seq<Stamps>, i: nat, j: nat, byPosition: bool)
    requires Comparable(rec, a, rep, b)
    requires rec.encode == rep.encode == ((s: GamepadState) => Encode(s, byPosition))
    requires ReadBySocket(groups, stamps, Handed(repInputs)) && i < |groups|
    requires var offered := Bridge.Run(rec, a, recInputs).h.recorded;
             j < |offered| && groups[i][|groups[i]| - 1] == offered[j]
    ensures var want, got := Bridge.Run(rec, a, recInputs).h.updateReports, Bridge.Run(rep, b, repInputs).h.updateReports;
            && |got| == |groups| && |want| == |Bridge.Run(rec, a, recInputs).h.recorded|
            && got[i] == want[j]
  {
    UpdatesFollowSource(rec, a, recInputs);
    UpdatesFollowSource(rep, b, repInputs);
    GroupReadsItsLast(groups[i], stamps[i]);
    EncodeIgnoresStamps(Handed(repInputs)[i], groups[i][|groups[i]| - 1], byPosition);
  }

  function Flatten(groups: seq<seq<GamepadState>>): seq<GamepadState> {
    if groups == [] then [] else Flatten(groups[..|groups| - 1]) + groups[|groups| - 1]
  }

  /** The position in the capture of the last frame of group i. */
  function EndOf(groups: seq<seq<GamepadState>>, i: nat): int
    requires i < |groups|
  {
    |Flatten(groups[..i + 1])| - 1
  }

  lemma {:induction false} EndIsLastOfGroup(groups: seq<seq<GamepadState>>, i: nat)
    requires i < |groups| && groups[i] != []
    ensures 0 <= EndOf(groups, i) < |Flatten(groups)|
    ensures Flatten(groups)[EndOf(groups, i)] == groups[i][|groups[i]| - 1]
    decreases |groups|
  {
    var before := groups[..|groups| - 1];
    if i == |groups| - 1 {
      assert groups[..i + 1] == groups;
    } else {
      EndIsLastOfGroup(before, i);
      assert before[..i + 1] == groups[..i + 1];
    }
  }

  /** Replaying a whole capture, whatever the recorder dropped from it and however the frames are grouped:
      each replayed report is the one recorded for the last frame of its group. */
  lemma ReplayedCaptureMatches(
    rec: Bridge.Config, a: Bridge.State, recInputs: seq<Bridge.Input>,
    rep: Bridge.Config, b: Bridge.State, repInputs: seq<Bridge.Input>,
    groups: seq<seq<GamepadState>>, stamps: seq<Stamps>, kept: seq<int>, i: nat, byPosition: bool)
    requires Comparable(rec, a, rep, b)
    requires rec.encode == rep.encode == ((s: GamepadState) => Encode(s, byPosition))
    requires Recorder.CaptureOf(Flatten(groups), Bridge.Run(rec, a, recInputs).h.recorded, kept)
    requires ReadBySocket(groups, stamps, Handed(repInputs)) && i < |groups|
    ensures var want, got := Bridge.Run(rec, a, recInputs).h.updateReports, Bridge.Run(rep, b, repInputs).h.updateReports;
            && |got| == |groups| && 0 <= EndOf(groups, i) < |kept|
            && kept[EndOf(groups, i)] < |want| && got[i] == want[kept[EndOf(groups, i)]]
  {
    EndIsLastOfGroup(groups, i);
    ReplayedReportsMatch(rec, a, recInputs, rep, b, repInputs, groups, stamps, i, kept[EndOf(groups, i)], byPosition);
  }

  lemma EndIsOfFront(groups: seq<seq<GamepadState>>, i: nat)
    requires i + 1 < |groups|
    ensures EndOf(groups[..|groups| - 1], i) == EndOf(groups, i)
  {
    assert groups[..|groups| - 1][..i + 1] == groups[..i + 1];
  }

  lemma {:induction false} EndsIncrease(groups: seq<seq<GamepadState>>, i: nat, j: nat)
    requires i < j < |groups| && forall k :: 0 <= k < |groups| ==> groups[k] != []
    ensures EndOf(groups, i) < EndOf(groups, j)
    decreases |groups|
  {
    var front := groups[..|groups| - 1];
    EndIsOfFront(groups, i);
    if j < |front| {
      EndIsOfFront(groups, j);
      EndsIncrease(front, i, j);
    } else {
      assert groups[..j + 1] == groups;
      EndIsLastOfGroup(front, i);
    }
  }

  /** Each replayed report is one of those first reported, and they come in the order those did. */
  predicate ReplaysInOrder(got: seq<PokkenReport>, want: seq<PokkenReport>, from: seq<int>) {
    && |got| == |from|
    && (forall i, j :: 0 <= i < j < |from| ==> from[i] < from[j])
    && forall i :: 0 <= i < |got| ==> 0 <= from[i] < |want| && got[i] == want[from[i]]
  }

  function At(kept: seq<int>, i: int): int { if 0 <= i < |kept| then kept[i] else 0 }

  function Ends(groups: seq<seq<GamepadState>>, kept: seq<int>): seq<int> {
    seq(|groups|, i requires 0 <= i < |groups| => At(kept, EndOf(groups, i)))
  }

  lemma EndsAreKept(groups: seq<seq<GamepadState>>, kept: seq<int>, i: nat, j: nat)
    requires i < j < |groups| && |kept| == |Flatten(groups)|
    requires forall k :: 0 <= k < |groups| ==> groups[k] != []
    requires forall k, l :: 0 <= k < l < |kept| ==> kept[k] < kept[l]
    ensures Ends(groups, kept)[i] < Ends(groups, kept)[j]
  {
    EndsIncrease(groups, i, j);
    EndIsLastOfGroup(groups, i);
    EndIsLastOfGroup(groups, j);
  }

  lemma CaptureReplaysInOrder(
    rec: Bridge.Config, a: Bridge.State, recInputs: seq<Bridge.Input>,
    rep: Bridge.Config, b: Bridge.State, repInputs: seq<Bridge.Input>,
    groups: seq<seq<GamepadState>>, stamps: seq<Stamps>, kept: seq<int>, byPosition: bool)
    requires Comparable(rec, a, rep, b)
    requires rec.encode == rep.encode == ((s: GamepadState) => Encode(s, byPosition))
    requires Recorder.CaptureOf(Flatten(groups), Bridge.Run(rec, a, recInputs).h.recorded, kept)
    requires ReadBySocket(groups, stamps, Handed(repInputs))
    ensures ReplaysInOrder(Bridge.Run(rep, b, repInputs).h.updateReports, Bridge.Run(rec, a, recInputs).h.updateReports,
                           Ends(groups, kept))
  {
    var want, got := Bridge.Run(rec, a, recInputs).h.updateReports, Bridge.Run(rep, b, repInputs).h.updateReports;
    var from := Ends(groups, kept);
    UpdatesFollowSource(rep, b, repInputs);
    assert |got| == |groups|;
    forall i | 0 <= i < |got|
      ensures 0 <= from[i] < |want| && got[i] == want[from[i]]
    {
      ReplayedCaptureMatches(rec, a, recInputs, rep, b, repInputs, groups, stamps, kept, i, byPosition);
    }
    forall i, j | 0 <= i < j < |from|
      ensures from[i] < from[j]
    {
      EndsAreKept(groups, kept, i, j);
    }
  }

  /** From one bridge through the ring and the file to another: a bridge runs, the recorder is called with the
      states it offers, in any interleaving of its threads, with any drops and failed writes, and what the
      file then holds is replayed in groups. Each replayed report is one of those first reported, for the
      last record of its group, and they come in the order they were first reported in. */
  lemma RecordedFileReplays(
    rec: Bridge.Config, a: Bridge.State, recInputs: seq<Bridge.Input>,
    k: nat, ring: seq<GamepadState>, acts: seq<Recorder.Action>, s: Recorder.State,
    rep: Bridge.Config, b: Bridge.State, repInputs: seq<Bridge.Input>,
    groups: seq<seq<GamepadState>>, stamps: seq<Stamps>, byPosition: bool) returns (from: seq<int>)
    requires Comparable(rec, a, rep, b)
    requires rec.encode == rep.encode == ((s: GamepadState) => Encode(s, byPosition))
    requires Recorder.Reaches(k, ring, acts, s) && Recorder.Offered(acts) == Bridge.Run(rec, a, recInputs).h.recorded
    requires |s.h.handed| == |s.h.oks| && Flatten(groups) == Recorder.FileOf(s.h.handed, s.h.oks)
    requires ReadBySocket(groups, stamps, Handed(repInputs))
    ensures ReplaysInOrder(Bridge.Run(rep, b, repInputs).h.updateReports, Bridge.Run(rec, a, recInputs).h.updateReports, from)
  {
    var kept := Recorder.FileIsCapture(k, ring, acts, s);
    from := Ends(groups, kept);
    CaptureReplaysInOrder(rec, a, recInputs, rep, b, repInputs, groups, stamps, kept, byPosition);
  }

  /** With one frame per read and nothing dropped the whole sequence of update reports is reproduced. */
  lemma ReplayIsExact(
    rec: Bridge.Config, a: Bridge.State, recInputs: seq<Bridge.Input>,
    rep: Bridge.Config, b: Bridge.State, repInputs: seq<Bridge.Input>,
    groups: seq<seq<GamepadState>>, stamps: seq<Stamps>, byPosition: bool)
    requires Comparable(rec, a, rep, b)
    requires rec.encode == rep.encode == ((s: GamepadState) => Encode(s, byPosition))
    requires ReadBySocket(groups, stamps, Handed(repInputs))
    requires var offered := Bridge.Run(rec, a, recInputs).h.recorded;
             |groups| == |offered| && forall k :: 0 <= k < |groups| ==> groups[k] == [offered[k]]
    ensures Bridge.Run(rep, b, repInputs).h.updateReports == Bridge.Run(rec, a, recInputs).h.updateReports
  {
    var want, got := Bridge.Run(rec, a, recInputs).h.updateReports, Bridge.Run(rep, b, repInputs).h.updateReports;
    UpdatesFollowSource(rec, a, recInputs);
    UpdatesFollowSource(rep, b, repInputs);
    assert |want| == |groups| == |got|;
    forall i | 0 <= i < |groups|
      ensures got[i] == want[i]
    {
      ReplayedReportsMatch(rec, a, recInputs, rep, b, repInputs, groups, stamps, i, i, byPosition);
    }
  }
}
