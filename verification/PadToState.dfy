/** From a line of the configuration to the state and the report it moves, and from a control pushed during a
    capture to the same control moving what was asked for once the saved configuration is bound. */
module PadToState {
  import opened Wrappers
  import opened Bits
  import opened Gamepad
  import opened Scaling
  import opened MappingIni
  import opened MappingRoundTrip
  import E = Evdev
  import H = NsHid

  // ---------------------------------------------------------------- what a target name means

  const STICKS: set<string> := {"lx", "ly", "rx", "ry"}
  const TRIGGERS: set<string> := {"lt", "rt"}
  const HATS: set<string> := {"hatx", "haty"}

  /** The value a name stands for. */
  function Coordinate(d: E.Accumulator, name: string): int {
    if name == "lx" then d.pad.lx else if name == "ly" then d.pad.ly
    else if name == "rx" then d.pad.rx else if name == "ry" then d.pad.ry
    else if name == "lt" then d.pad.lt else if name == "rt" then d.pad.rt
    else if name == "hatx" then d.hatX else if name == "haty" then d.hatY else 0
  }

  /** A raw value as a target of that name takes it. */
  function Taken(name: string, b: AxisBinding, value: int): int {
    if name in STICKS then ScaleAxis(b, value) else if name in TRIGGERS then ScaleTrigger(b, value) else value
  }

  /** The names of axis targets are these eight, and an event on an axis bound to one moves the value of that
      name, to the scaled value, and nothing else. */
  lemma AxisNameMovesItsValue(cfg: E.Bindings, d: E.Accumulator, e: E.Event, name: string, other: string)
    requires AxisTargetOf(name) != NoTarget
    requires e.kind == E.EV_ABS && e.code in cfg.axes && cfg.axes[e.code].target == AxisTargetOf(name)
    ensures name in STICKS + TRIGGERS + HATS
    ensures var z := E.Apply(cfg, d, e);
            && Coordinate(z, name) == Taken(name, cfg.axes[e.code], e.value)
            && (other != name ==> Coordinate(z, other) == Coordinate(d, other))
            && z.pad.buttons == d.pad.buttons && z.dirty
  {}

  lemma AxisNamesAreEight(name: string)
    ensures AxisTargetOf(name) != NoTarget <==> name in STICKS + TRIGGERS + HATS
  {}

  const BUTTONS: set<string> := {
    "south", "east", "west", "north", "l1", "r1", "l2", "r2", "select", "start", "l3", "r3", "guide", "misc1"}

  /** Whether a report that keeps positions shows the button of a name. */
  predicate Shows(r: H.PokkenReport, name: string) {
    if name == "south" then H.On(r.lo, H.B) else if name == "east" then H.On(r.lo, H.A)
    else if name == "west" then H.On(r.lo, H.Y) else if name == "north" then H.On(r.lo, H.X)
    else if name == "l1" then H.On(r.lo, H.L) else if name == "r1" then H.On(r.lo, H.R)
    else if name == "l2" then H.On(r.lo, H.ZL) else if name == "r2" then H.On(r.lo, H.ZR)
    else if name == "select" then H.On(r.hi, H.MINUS) else if name == "start" then H.On(r.hi, H.PLUS)
    else if name == "l3" then H.On(r.hi, H.LCLICK) else if name == "r3" then H.On(r.hi, H.RCLICK)
    else if name == "guide" then H.On(r.hi, H.HOME) else if name == "misc1" then H.On(r.hi, H.CAPTURE)
    else false
  }

  /** An analog trigger pushed far enough shows by itself. */
  predicate Pushed(s: GamepadState, name: string) { (name == "l2" && s.lt > 40) || (name == "r2" && s.rt > 40) }

  lemma ButtonsAre(name: string)
    requires name in BUTTONS
    ensures || name == "south" || name == "east" || name == "west" || name == "north" || name == "l1" || name == "r1"
            || name == "l2" || name == "r2" || name == "select" || name == "start" || name == "l3" || name == "r3"
            || name == "guide" || name == "misc1"
  {}

  predicate ShowsExactly(s: GamepadState, name: string) {
    Shows(H.Encode(s, true), name) <==> s.Pressed(ButtonMask(name)) || Pushed(s, name)
  }

  lemma FacesMasks()
    ensures ButtonMask("south") == SOUTH && ButtonMask("east") == EAST
    ensures ButtonMask("west") == WEST && ButtonMask("north") == NORTH
  {}

  lemma FacesBits(r: H.PokkenReport)
    ensures (Shows(r, "south") <==> H.On(r.lo, H.B)) && (Shows(r, "east") <==> H.On(r.lo, H.A))
    ensures (Shows(r, "west") <==> H.On(r.lo, H.Y)) && (Shows(r, "north") <==> H.On(r.lo, H.X))
  {}

  lemma ShouldersMasks()
    ensures ButtonMask("l1") == L1 && ButtonMask("r1") == R1
    ensures ButtonMask("l2") == L2 && ButtonMask("r2") == R2
  {}

  lemma ShouldersBits(r: H.PokkenReport)
    ensures (Shows(r, "l1") <==> H.On(r.lo, H.L)) && (Shows(r, "r1") <==> H.On(r.lo, H.R))
    ensures (Shows(r, "l2") <==> H.On(r.lo, H.ZL)) && (Shows(r, "r2") <==> H.On(r.lo, H.ZR))
  {}

  lemma ClicksMasks()
    ensures ButtonMask("select") == SELECT && ButtonMask("start") == START
    ensures ButtonMask("l3") == L3 && ButtonMask("r3") == R3
  {}

  lemma ClicksBits(r: H.PokkenReport)
    ensures (Shows(r, "select") <==> H.On(r.hi, H.MINUS)) && (Shows(r, "start") <==> H.On(r.hi, H.PLUS))
    ensures (Shows(r, "l3") <==> H.On(r.hi, H.LCLICK)) && (Shows(r, "r3") <==> H.On(r.hi, H.RCLICK))
  {}

  lemma ExtrasMasks()
    ensures ButtonMask("guide") == GUIDE && ButtonMask("misc1") == MISC1
  {}

  lemma ExtrasBits(r: H.PokkenReport)
    ensures (Shows(r, "guide") <==> H.On(r.hi, H.HOME)) && (Shows(r, "misc1") <==> H.On(r.hi, H.CAPTURE))
  {}

  lemma FacesShow(s: GamepadState)
    ensures ShowsExactly(s, "south") && ShowsExactly(s, "east") && ShowsExactly(s, "west") && ShowsExactly(s, "north")
  {
    FacesMasks();
    FacesBits(H.Encode(s, true));
    H.FaceBitsMeanButtons(s, true);
  }

  lemma ShouldersShow(s: GamepadState)
    ensures ShowsExactly(s, "l1") && ShowsExactly(s, "r1") && ShowsExactly(s, "l2") && ShowsExactly(s, "r2")
  {
    ShouldersMasks();
    ShouldersBits(H.Encode(s, true));
    H.ShoulderBitsMeanButtons(s, true);
  }

  lemma RightByteShows(s: GamepadState)
    ensures ShowsExactly(s, "select") && ShowsExactly(s, "start") && ShowsExactly(s, "l3") && ShowsExactly(s, "r3")
    ensures ShowsExactly(s, "guide") && ShowsExactly(s, "misc1")
  {
    ClicksMasks();
    ExtrasMasks();
    ClicksBits(H.Encode(s, true));
    ExtrasBits(H.Encode(s, true));
    H.RightByteMeansButtons(s, true);
  }

  /** The report shows a button of the pad under the name the configuration gives it. */
  lemma ReportShowsButtons(s: GamepadState, name: string)
    requires name in BUTTONS
    ensures ShowsExactly(s, name)
  {
    FacesShow(s);
    ShouldersShow(s);
    RightByteShows(s);
    ButtonsAre(name);
  }

  /** The button of a mask. */
  function NameOf(m: bv32): string {
    if m == SOUTH then "south" else if m == EAST then "east" else if m == WEST then "west"
    else if m == NORTH then "north" else if m == L1 then "l1" else if m == R1 then "r1"
    else if m == L2 then "l2" else if m == R2 then "r2" else if m == SELECT then "select"
    else if m == START then "start" else if m == L3 then "l3" else if m == R3 then "r3"
    else if m == GUIDE then "guide" else "misc1"
  }

  predicate OutsideDpad(m: bv32) { m != 0 && m & DPAD == 0 }

  predicate NamedBack(name: string) { NameOf(ButtonMask(name)) == name && OutsideDpad(ButtonMask(name)) }

  lemma FaceNames()
    ensures NamedBack("south") && NamedBack("east") && NamedBack("west") && NamedBack("north")
  {
    FacesMasks();
  }

  lemma ShoulderNames()
    ensures NamedBack("l1") && NamedBack("r1") && NamedBack("l2") && NamedBack("r2")
  {
    ShouldersMasks();
  }

  lemma RightNames()
    ensures NamedBack("select") && NamedBack("start") && NamedBack("l3") && NamedBack("r3")
    ensures NamedBack("guide") && NamedBack("misc1")
  {
    ClicksMasks();
    ExtrasMasks();
  }

  /** A name of a button has a mask of its own, which no direction shares. */
  lemma MaskNames(name: string)
    requires name in BUTTONS
    ensures NamedBack(name)
  {
    FaceNames();
    ShoulderNames();
    RightNames();
    ButtonsAre(name);
  }

  lemma MasksAreDisjoint(name: string, other: string)
    requires name in BUTTONS && other in BUTTONS && name != other
    ensures ButtonMask(name) & ButtonMask(other) == 0
  {
    MaskNames(name);
    MaskNames(other);
    MaskIsSingleBit(name);
    MaskIsSingleBit(other);
    E.TwoSingleBits(ButtonMask(name), ButtonMask(other));
  }

  lemma HatKeepsButton(d: E.Accumulator, m: bv32)
    requires OutsideDpad(m)
    ensures E.WithHat(d).Pressed(m) <==> d.pad.Pressed(m)
  {
    E.OtherButtonsPassThrough(d);
    E.OneTargetAgrees(E.WithHat(d).buttons, d.pad.buttons, m);
  }

  predicate KeyOf(cfg: E.Bindings, e: E.Event, m: bv32) {
    e.kind == E.EV_KEY && e.code in cfg.buttons && cfg.buttons[e.code] == m
  }

  lemma KeyMovesItsButton(cfg: E.Bindings, d: E.Accumulator, e: E.Event, m: bv32)
    requires KeyOf(cfg, e, m) && OutsideDpad(m)
    ensures E.WithHat(E.Apply(cfg, d, e)).Pressed(m) <==> e.value != 0
  {
    HatKeepsButton(E.Apply(cfg, d, e), m);
    E.SetOwn(d.pad.buttons, m, e.value != 0);
  }

  lemma KeyMovesNoOther(cfg: E.Bindings, d: E.Accumulator, e: E.Event, m: bv32, o: bv32)
    requires KeyOf(cfg, e, m) && m & o == 0 && OutsideDpad(o)
    ensures E.WithHat(E.Apply(cfg, d, e)).Pressed(o) <==> E.WithHat(d).Pressed(o)
  {
    HatKeepsButton(E.Apply(cfg, d, e), o);
    HatKeepsButton(d, o);
    E.SetOther(d.pad.buttons, m, e.value != 0, o);
  }

  lemma KeyMovesNoAxis(cfg: E.Bindings, d: E.Accumulator, e: E.Event, m: bv32)
    requires KeyOf(cfg, e, m)
    ensures var was, now := E.WithHat(d), E.WithHat(E.Apply(cfg, d, e));
            && H.HatOf(now.buttons) == H.HatOf(was.buttons) && now.lx == was.lx && now.ly == was.ly
            && now.rx == was.rx && now.ry == was.ry && now.lt == was.lt && now.rt == was.rt
  {
    E.DpadComesFromHatsOnly(d);
    E.DpadComesFromHatsOnly(E.Apply(cfg, d, e));
  }

  /** An event of a key bound to a button name shows in the report as that button, held unless the event is a
      release, and as no other. */
  lemma KeyNameShowsInReport(cfg: E.Bindings, d: E.Accumulator, e: E.Event, name: string, other: string)
    requires name in BUTTONS && other in BUTTONS && KeyOf(cfg, e, ButtonMask(name))
    ensures var was, now := E.WithHat(d), E.WithHat(E.Apply(cfg, d, e));
            var r0, r := H.Encode(was, true), H.Encode(now, true);
            && (Shows(r, name) <==> e.value != 0 || Pushed(was, name))
            && (other != name ==> (Shows(r, other) <==> Shows(r0, other)))
            && r.hat == r0.hat && r.lx == r0.lx && r.ly == r0.ly && r.rx == r0.rx && r.ry == r0.ry
  {
    var was, now := E.WithHat(d), E.WithHat(E.Apply(cfg, d, e));
    MaskNames(name);
    MaskNames(other);
    KeyMovesItsButton(cfg, d, e, ButtonMask(name));
    KeyMovesNoAxis(cfg, d, e, ButtonMask(name));
    ReportShowsButtons(now, name);
    ReportShowsButtons(now, other);
    ReportShowsButtons(was, other);
    if other != name {
      MasksAreDisjoint(name, other);
      KeyMovesNoOther(cfg, d, e, ButtonMask(name), ButtonMask(other));
    }
  }

  /** An event of a hat axis points the report's hat the same way along it, and leaves the other way alone. */
  lemma HatNameShowsInReport(cfg: E.Bindings, d: E.Accumulator, e: E.Event, name: string)
    requires name in HATS
    requires e.kind == E.EV_ABS && e.code in cfg.axes && cfg.axes[e.code].target == AxisTargetOf(name)
    ensures var r0, r := H.Encode(E.WithHat(d), true), H.Encode(E.WithHat(E.Apply(cfg, d, e)), true);
            if name == "hatx" then H.HatX(r.hat) == E.Sign(e.value) && H.HatY(r.hat) == H.HatY(r0.hat)
            else H.HatY(r.hat) == E.Sign(e.value) && H.HatX(r.hat) == H.HatX(r0.hat)
  {
    var z := E.Apply(cfg, d, e);
    E.DpadComesFromHatsOnly(d);
    E.DpadComesFromHatsOnly(z);
    H.HatMeansDpad(E.WithHat(d), true);
    H.HatMeansDpad(E.WithHat(z), true);
  }
}
