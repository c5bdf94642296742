/** The wizard's ini printer (web/gpb_web.py) and the bindings src/sources/evdev_source.cpp makes of the
    loaded file. */
module MappingIni {
  import opened Wrappers
  import opened Config
  import opened EvdevNames
  import opened Gamepad
  import opened Scaling

  const AXIS_PREFIX := "source.evdev.axis."
  const BUTTON_PREFIX := "source.evdev.button."

  function Get<K, V>(m: map<K, V>, k: K): Option<V> { if k in m then Some(m[k]) else None }

  // ---------------------------------------------------------------- binding

  datatype AxisBind = AxisBind(target: AxisTarget, invert: bool)

  datatype Bindings = Bindings(axes: map<nat, AxisBind>, buttons: map<nat, bv32>)

  const UNBOUND := Bindings(map[], map[])

  function AxisTargetOf(n: string): AxisTarget {
    if n == "lx" then LX else if n == "ly" then LY else if n == "rx" then RX else if n == "ry" then RY
    else if n == "lt" then LT else if n == "rt" then RT else if n == "hatx" then HatX else if n == "haty" then HatY
    else NoTarget
  }

  function ButtonMask(n: string): bv32 {
    if n == "south" then SOUTH else if n == "east" then EAST else if n == "west" then WEST
    else if n == "north" then NORTH else if n == "l1" then L1 else if n == "r1" then R1
    else if n == "l2" then L2 else if n == "r2" then R2 else if n == "select" then SELECT
    else if n == "start" then START else if n == "l3" then L3 else if n == "r3" then R3
    else if n == "guide" then GUIDE else if n == "misc1" then MISC1 else if n == "dup" then DUP
    else if n == "ddown" then DDOWN else if n == "dleft" then DLEFT else if n == "dright" then DRIGHT
    else 0
  }

  /** A value names a target, inverted when it starts with a minus sign. */
  function AxisValue(val: string): AxisBind {
    if val != "" && val[0] == '-' then AxisBind(AxisTargetOf(val[1..]), true) else AxisBind(AxisTargetOf(val), false)
  }

  function BindAxis(b: Bindings, name: string, val: string): Bindings {
    match CodeFromName(name)
    case None => b
    case Some(code) => if AxisValue(val).target == NoTarget then b else b.(axes := b.axes[code := AxisValue(val)])
  }

  function BindButton(b: Bindings, name: string, val: string): Bindings {
    match CodeFromName(name)
    case None => b
    case Some(code) => if ButtonMask(val) == 0 then b else b.(buttons := b.buttons[code := ButtonMask(val)])
  }

  function BindKey(b: Bindings, key: string, val: string): Bindings {
    if AXIS_PREFIX <= key then BindAxis(b, key[|AXIS_PREFIX|..], val)
    else if BUTTON_PREFIX <= key then BindButton(b, key[|BUTTON_PREFIX|..], val)
    else b
  }

  predicate KeysOf(keys: seq<string>, kv: map<string, string>) { forall k :: k in keys ==> k in kv }

  function BindAll(keys: seq<string>, kv: map<string, string>, b: Bindings): Bindings
    requires KeysOf(keys, kv)
    decreases |keys|, 1
  {
    if keys == [] then b else BindLast(keys, kv, b)
  }

  function BindLast(keys: seq<string>, kv: map<string, string>, b: Bindings): Bindings
    requires KeysOf(keys, kv) && keys != []
    decreases |keys|, 0
  {
    BindKey(BindAll(keys[..|keys| - 1], kv, b), keys[|keys| - 1], kv[keys[|keys| - 1]])
  }

  class EvdevBindings {
    var axes: map<nat, AxisBind>
    var buttons: map<nat, bv32>

    /** bind_from_config; keys lists the entries of the configuration in the order of the walk. */
    method BindFromConfig(keys: seq<string>, kv: map<string, string>)
      requires KeysOf(keys, kv)
      modifies this
      ensures Bindings(axes, buttons) == BindAll(keys, kv, old(Bindings(axes, buttons)))
    {
      for i := 0 to |keys|
        invariant Bindings(axes, buttons) == BindAll(keys[..i], kv, old(Bindings(axes, buttons)))
      {
        var key, val := keys[i], kv[keys[i]];
        assert keys[..i + 1][..i] == keys[..i];
        if AXIS_PREFIX <= key {
          var code := CodeFromName(key[|AXIS_PREFIX|..]);
          if code.Some? {
            var target, invert := val, false;
            if target != "" && target[0] == '-' {
              invert := true;
              target := target[1..];
            }
            if AxisTargetOf(target) != NoTarget {
              axes := axes[code.value := AxisBind(AxisTargetOf(target), invert)];
            }
          }
        } else if BUTTON_PREFIX <= key {
          var code := CodeFromName(key[|BUTTON_PREFIX|..]);
          if code.Some? && ButtonMask(val) != 0 { buttons := buttons[code.value := ButtonMask(val)]; }
        }
      }
      assert keys[..|keys|] == keys;
    }
  }

  // ---------------------------------------------------------------- printing

  /** One captured control; `axis` is the kind. */
  datatype Mapping = Mapping(axis: bool, code: string, target: string, invert: bool)

  /** What the printer is told besides the mappings. */
  datatype Heading = Heading(name: string, description: string, device: string, title: string, sink: string)

  predicate WritesAxis(m: Mapping) {
    m.code != "" && m.target != "" && m.axis && AxisTargetOf(m.target) != NoTarget
  }

  predicate WritesButton(m: Mapping) { m.code != "" && m.target != "" && !m.axis }

  function SignedTarget(m: Mapping): string { if m.invert then "-" + m.target else m.target }

  function AxisLine(m: Mapping): string { "axis." + m.code + " = " + SignedTarget(m) }
  function ButtonLine(m: Mapping): string { "button." + m.code + " = " + m.target }

  function AxisLines(ms: seq<Mapping>): seq<string> {
    if ms == [] then []
    else
      var m := ms[|ms| - 1];
      AxisLines(ms[..|ms| - 1]) + if WritesAxis(m) then [AxisLine(m)] else []
  }

  function ButtonLines(ms: seq<Mapping>): seq<string> {
    if ms == [] then []
    else
      var m := ms[|ms| - 1];
      ButtonLines(ms[..|ms| - 1]) + if WritesButton(m) then [ButtonLine(m)] else []
  }

  function LineKey(line: string): string { Trim(Before(line, {'='})) }

  function LineKeys(lines: seq<string>): set<string> { set i | 0 <= i < |lines| :: LineKey(lines[i]) }

  /** The lines whose key no earlier line has. */
  function Deduped(lines: seq<string>): seq<string> {
    if lines == [] then []
    else
      var front, last := lines[..|lines| - 1], lines[|lines| - 1];
      if LineKey(last) in LineKeys(front) then Deduped(front) else Deduped(front) + [last]
  }

  method Dedupe(lines: seq<string>) returns (out: seq<string>)
    ensures out == Deduped(lines)
  {
    var seen := {};
    out := [];
    for i := 0 to |lines|
      invariant seen == LineKeys(lines[..i]) && out == Deduped(lines[..i])
    {
      assert lines[..i + 1][..i] == lines[..i];
      var key := LineKey(lines[i]);
      KeysSnoc(lines[..i], lines[i]);
      assert lines[..i + 1] == lines[..i] + [lines[i]];
      if key !in seen {
        seen := seen + {key};
        out := out + [lines[i]];
      }
    }
    assert lines[..|lines|] == lines;
  }

  lemma KeysSnoc(lines: seq<string>, line: string)
    ensures LineKeys(lines + [line]) == LineKeys(lines) + {LineKey(line)}
  {
    var all := lines + [line];
    forall k | k in LineKeys(lines) + {LineKey(line)}
      ensures k in LineKeys(all)
    {
      if k in LineKeys(lines) {
        var i :| 0 <= i < |lines| && k == LineKey(lines[i]);
        assert all[i] == lines[i];
      } else {
        assert all[|lines|] == line;
      }
    }
  }

  method CollectLines(ms: seq<Mapping>) returns (axisLines: seq<string>, buttonLines: seq<string>)
    ensures axisLines == AxisLines(ms) && buttonLines == ButtonLines(ms)
  {
    axisLines, buttonLines := [], [];
    for i := 0 to |ms|
      invariant axisLines == AxisLines(ms[..i]) && buttonLines == ButtonLines(ms[..i])
    {
      var m := ms[i];
      assert ms[..i + 1][..i] == ms[..i];
      if m.code == "" || m.target == "" { continue; }
      if m.axis && AxisTargetOf(m.target) == NoTarget { continue; }
      if m.axis {
        axisLines := axisLines + [AxisLine(m)];
      } else {
        buttonLines := buttonLines + [ButtonLine(m)];
      }
    }
    assert ms[..|ms|] == ms;
  }

  function Assign(key: string, value: string): string { key + " = " + value }

  function MetaLines(h: Heading): seq<string> {
    [Assign("name", h.name), Assign("description", h.description), ""]
  }
  function BridgeLines(h: Heading): seq<string> {
    [Assign("source", "evdev"), Assign("sink", h.sink), Assign("rumble", "false")] + [""]
  }
  function DeviceLines(h: Heading): seq<string> {
    [Assign("device", h.device), Assign("grab  ", "true"), ""]
  }
  function PadLines(): seq<string> {
    [Assign("device", "/dev/hidg0"), Assign("face_by_position", "true"), ""]
  }
  function RateNote1(): string {
    "Consoles expect state every polling " + "interval, not only on change. At 0, " + "buttons"
  }
  function RateNote2(): string { "are mostly missed while " + "sticks appear to work." }
  function RateLines(): seq<string> {
    [Comment(RateNote1()), Comment(RateNote2()), Assign("heartbeat_hz", "125")]
  }
  function SinkLines(): seq<string> { PadLines() + RateLines() + [""] }
  function StickLines(): seq<string> {
    [Assign("deadzone  ", "2000"), Assign("saturation", "32000"), Assign("expo      ", "1.0")] + [""]
  }

  function Comment(text: string): string { "# " + text }

  function TopLines(h: Heading): seq<string> {
    [Comment("Generated by the gpb-web mapping wizard."), Comment("Target: " + h.title), ""]
  }

  function SectionLine(name: string): string { "[" + name + "]" }

  function Section(name: string, lines: seq<string>): seq<string> { [SectionLine(name)] + lines }

  function Head(h: Heading): seq<string> {
    TopLines(h) + Section("meta", MetaLines(h)) + Section("bridge", BridgeLines(h))
    + Section("source.evdev", DeviceLines(h))
  }

  function Tail(h: Heading): seq<string> {
    [""] + Section("sink." + h.sink, SinkLines()) + Section("profile", [Assign("trigger_deadzone", "12"), ""])
    + Section("profile.left", StickLines()) + Section("profile.right", StickLines())
  }

  function BindingLines(ms: seq<Mapping>): seq<string> {
    Deduped(AxisLines(ms)) + [""] + Deduped(ButtonLines(ms))
  }

  function Rendered(h: Heading, ms: seq<Mapping>): seq<string> { Head(h) + BindingLines(ms) + Tail(h) }

  /** render_config. */
  method RenderConfig(h: Heading, ms: seq<Mapping>) returns (text: string)
    ensures text == JoinLines(Rendered(h, ms))
  {
    var axisLines, buttonLines := CollectLines(ms);
    var a := Dedupe(axisLines);
    var b := Dedupe(buttonLines);
    text := JoinLines(Head(h) + (a + [""] + b) + Tail(h));
  }
}
