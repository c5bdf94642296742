/** A rendered configuration, loaded and bound, gives each code its first captured target. */
module MappingRoundTrip {
  import opened Wrappers
  import opened Config
  import opened EvdevNames
  import opened Gamepad
  import opened Scaling
  import opened MappingIni
  import opened MappingValues
  import opened MappingText

  // ---------------------------------------------------------------- the bindings

  ghost predicate AxisKeysCanonical(kv: map<string, string>) {
    forall k :: k in kv && AXIS_PREFIX <= k ==> exists c: nat :: c <= KEY_MAX && k == AXIS_PREFIX + AbsName(c)
  }

  ghost predicate ButtonKeysCanonical(kv: map<string, string>) {
    forall k :: k in kv && BUTTON_PREFIX <= k ==> exists c: nat :: c <= KEY_MAX && k == BUTTON_PREFIX + KeyName(c)
  }

  function AxisIfValid(val: Option<string>): Option<AxisBind> {
    if val.None? || AxisValue(val.value).target == NoTarget then None else Some(AxisValue(val.value))
  }

  function ButtonIfValid(val: Option<string>): Option<bv32> {
    if val.None? || ButtonMask(val.value) == 0 then None else Some(ButtonMask(val.value))
  }

  lemma AxisKeyBinds(b: Bindings, c: nat, val: string, code: nat)
    requires c <= KEY_MAX
    ensures var r := BindKey(b, AXIS_PREFIX + AbsName(c), val);
            && r.buttons == b.buttons
            && Get(r.axes, code) == if c == code then Or(AxisIfValid(Some(val)), Get(b.axes, code)) else Get(b.axes, code)
  {
    var key := AXIS_PREFIX + AbsName(c);
    assert AXIS_PREFIX <= key && key[|AXIS_PREFIX|..] == AbsName(c);
    AbsNameReadsBack(c);
  }

  lemma ButtonKeyBinds(b: Bindings, c: nat, val: string, code: nat)
    requires c <= KEY_MAX
    ensures var r := BindKey(b, BUTTON_PREFIX + KeyName(c), val);
            && r.axes == b.axes
            && Get(r.buttons, code)
               == if c == code then Or(ButtonIfValid(Some(val)), Get(b.buttons, code)) else Get(b.buttons, code)
  {
    var key := BUTTON_PREFIX + KeyName(c);
    assert key[13] == 'b' && AXIS_PREFIX[13] == 'a';
    assert !(AXIS_PREFIX <= key) && BUTTON_PREFIX <= key && key[|BUTTON_PREFIX|..] == KeyName(c);
    KeyNameReadsBack(c);
  }

  lemma SameName(c: nat, code: nat)
    requires c <= KEY_MAX
    ensures AbsName(c) == AbsName(code) <==> c == code
    ensures KeyName(c) == KeyName(code) <==> c == code
  {
    AbsNameReadsBack(c);
    AbsNameReadsBack(code);
    KeyNameReadsBack(c);
    KeyNameReadsBack(code);
  }

  function ValueIn(keys: seq<string>, kv: map<string, string>, k: string): Option<string>
    requires KeysOf(keys, kv)
  {
    if k in keys then Some(kv[k]) else None
  }

  /** In whatever order the entries are walked, a code is bound by the entry under its canonical name. */
  lemma {:induction false} AxisBound(keys: seq<string>, kv: map<string, string>, code: nat)
    requires KeysOf(keys, kv) && AxisKeysCanonical(kv)
    ensures Get(BindAll(keys, kv, UNBOUND).axes, code) == AxisIfValid(ValueIn(keys, kv, AXIS_PREFIX + AbsName(code)))
  {
    if keys != [] {
      var front, key := keys[..|keys| - 1], keys[|keys| - 1];
      AxisBound(front, kv, code);
      assert keys == front + [key];
      if AXIS_PREFIX <= key {
        var c: nat :| c <= KEY_MAX && key == AXIS_PREFIX + AbsName(c);
        AxisKeyBinds(BindAll(front, kv, UNBOUND), c, kv[key], code);
        SameName(c, code);
        SameAfter(AXIS_PREFIX, AbsName(c), AbsName(code));
      }
    }
  }

  lemma ButtonWalkStep(b: Bindings, c: nat, val: string, code: nat)
    requires c <= KEY_MAX
    ensures var key := BUTTON_PREFIX + KeyName(c);
            Get(BindKey(b, key, val).buttons, code)
            == if key == BUTTON_PREFIX + KeyName(code) then Or(ButtonIfValid(Some(val)), Get(b.buttons, code))
               else Get(b.buttons, code)
  {
    ButtonKeyBinds(b, c, val, code);
    SameName(c, code);
    SameAfter(BUTTON_PREFIX, KeyName(c), KeyName(code));
  }

  lemma {:induction false} ButtonBound(keys: seq<string>, kv: map<string, string>, code: nat)
    requires KeysOf(keys, kv) && ButtonKeysCanonical(kv)
    ensures Get(BindAll(keys, kv, UNBOUND).buttons, code) == ButtonIfValid(ValueIn(keys, kv, BUTTON_PREFIX + KeyName(code)))
  {
    if keys != [] {
      var front, key := keys[..|keys| - 1], keys[|keys| - 1];
      ButtonBound(front, kv, code);
      assert keys == front + [key];
      if BUTTON_PREFIX <= key {
        var c: nat :| c <= KEY_MAX && key == BUTTON_PREFIX + KeyName(c);
        ButtonWalkStep(BindAll(front, kv, UNBOUND), c, kv[key], code);
      }
    }
  }

  // ---------------------------------------------------------------- the whole way round

  lemma TargetsAreSingleBits()
    ensures SingleBit(SOUTH) && SingleBit(EAST) && SingleBit(WEST) && SingleBit(NORTH) && SingleBit(L1) && SingleBit(R1)
    ensures SingleBit(L2) && SingleBit(R2) && SingleBit(SELECT) && SingleBit(START) && SingleBit(L3) && SingleBit(R3)
    ensures SingleBit(GUIDE) && SingleBit(MISC1) && SingleBit(DUP) && SingleBit(DDOWN) && SingleBit(DLEFT) && SingleBit(DRIGHT)
  {}

  lemma MaskIsSingleBit(n: string)
    requires ButtonMask(n) != 0
    ensures SingleBit(ButtonMask(n))
  {
    TargetsAreSingleBits();
  }

  /** Whatever the configuration says, a key is only ever bound to a single button. */
  lemma {:induction false} KeysBindSingleButtons(keys: seq<string>, kv: map<string, string>, code: nat)
    requires KeysOf(keys, kv)
    ensures var b := BindAll(keys, kv, UNBOUND).buttons; code in b ==> SingleBit(b[code])
  {
    if keys != [] {
      var last := keys[|keys| - 1];
      KeysBindSingleButtons(keys[..|keys| - 1], kv, code);
      if ButtonMask(kv[last]) != 0 { MaskIsSingleBit(kv[last]); }
    }
  }

  /** What the wizard captured for an axis code: its first target and inversion. */
  function WantedAxis(ms: seq<Mapping>, code: nat): Option<AxisBind> {
    match FirstAxis(ms, AbsName(code))
    case None => None
    case Some(m) => Some(AxisBind(AxisTargetOf(m.target), m.invert))
  }

  function WantedButton(ms: seq<Mapping>, code: nat): Option<bv32> {
    match FirstButton(ms, KeyName(code))
    case None => None
    case Some(m) => Some(ButtonMask(m.target))
  }

  /** The walk visits every entry. */
  predicate Covers(keys: seq<string>, kv: map<string, string>) { forall k :: k in kv ==> k in keys }

  lemma LoadedKeysCanonical(h: Heading, ms: seq<Mapping>)
    requires AllCanonical(ms) && '#' !in h.sink && ';' !in h.sink
    ensures var kv := LoadLines(Rendered(h, ms), Start(map[])).kv;
            AxisKeysCanonical(kv) && ButtonKeysCanonical(kv)
  {
    var kv := LoadLines(Rendered(h, ms), Start(map[])).kv;
    forall k | k in kv && AXIS_PREFIX <= k
      ensures exists c: nat :: c <= KEY_MAX && k == AXIS_PREFIX + AbsName(c)
    {
      var name := k[|AXIS_PREFIX|..];
      assert k == AXIS_PREFIX + name;
      LoadedBindings(h, ms, name);
      assert Canonical(FirstAxis(ms, name).value);
    }
    forall k | k in kv && BUTTON_PREFIX <= k
      ensures exists c: nat :: c <= KEY_MAX && k == BUTTON_PREFIX + KeyName(c)
    {
      var name := k[|BUTTON_PREFIX|..];
      assert k == BUTTON_PREFIX + name;
      LoadedBindings(h, ms, name);
      assert Canonical(FirstButton(ms, name).value);
    }
  }

  lemma LoadedValueBinds(ms: seq<Mapping>, code: nat)
    requires AllCanonical(ms)
    ensures AxisIfValid(ValueOf(FirstAxis(ms, AbsName(code)))) == WantedAxis(ms, code)
    ensures ButtonIfValid(ValueOf(FirstButton(ms, KeyName(code)))) == WantedButton(ms, code)
  {
    if FirstAxis(ms, AbsName(code)).Some? { SignedTargetReads(FirstAxis(ms, AbsName(code)).value); }
    if FirstButton(ms, KeyName(code)).Some? { assert Canonical(FirstButton(ms, KeyName(code)).value); }
  }

  lemma LoadedConfigBinds(h: Heading, ms: seq<Mapping>, keys: seq<string>, code: nat)
    requires '#' !in h.sink && ';' !in h.sink && AllCanonical(ms)
    ensures var r := LoadLines(Rendered(h, ms), Start(map[]));
            && r.error == None
            && (KeysOf(keys, r.kv) && Covers(keys, r.kv) ==>
                  && Get(BindAll(keys, r.kv, UNBOUND).axes, code) == WantedAxis(ms, code)
                  && Get(BindAll(keys, r.kv, UNBOUND).buttons, code) == WantedButton(ms, code))
  {
    var kv := LoadLines(Rendered(h, ms), Start(map[])).kv;
    LoadedKeysCanonical(h, ms);
    LoadedBindings(h, ms, AbsName(code));
    LoadedBindings(h, ms, KeyName(code));
    if KeysOf(keys, kv) && Covers(keys, kv) {
      AxisBound(keys, kv, code);
      ButtonBound(keys, kv, code);
      LoadedValueBinds(ms, code);
    }
  }

  /** Loading the text is loading its lines. */
  lemma RenderedTextLoads(h: Heading, ms: seq<Mapping>)
    requires HeadingOnOneLine(h) && AllCanonical(ms)
    ensures var lines := Rendered(h, ms);
            var r, all := LoadLines(Lines(JoinLines(lines)), Start(map[])), LoadLines(lines, Start(map[]));
            r.kv == all.kv && r.error == all.error
  {
    RenderedOneLine(h, ms);
    LinesOfJoined(Rendered(h, ms));
    FinalBlankIsQuiet(Rendered(h, ms), Start(map[]));
  }

  /** Rendering the captured mappings, loading the text and binding it gives each code exactly its first
      captured target, and its inversion, and binds nothing else; the order of the walk does not matter. */
  lemma WizardMappingsBind(h: Heading, ms: seq<Mapping>, keys: seq<string>, code: nat)
    requires HeadingOnOneLine(h) && '#' !in h.sink && ';' !in h.sink && AllCanonical(ms)
    ensures var r := LoadLines(Lines(JoinLines(Rendered(h, ms))), Start(map[]));
            && r.error == None
            && (KeysOf(keys, r.kv) && Covers(keys, r.kv) ==>
                  && Get(BindAll(keys, r.kv, UNBOUND).axes, code) == WantedAxis(ms, code)
                  && Get(BindAll(keys, r.kv, UNBOUND).buttons, code) == WantedButton(ms, code))
  {
    RenderedTextLoads(h, ms);
    LoadedConfigBinds(h, ms, keys, code);
  }
}
