/** Evdev code names, both ways (src/sources/evdev_source.cpp). */
module EvdevNames {
  import opened Wrappers

  const KEY_MAX: nat := 767

  datatype NamedCode = NamedCode(name: string, code: nat)

  const ABS_CODES: seq<NamedCode> := [
    NamedCode("ABS_X", 0), NamedCode("ABS_Y", 1), NamedCode("ABS_Z", 2), NamedCode("ABS_RX", 3),
    NamedCode("ABS_RY", 4), NamedCode("ABS_RZ", 5), NamedCode("ABS_THROTTLE", 6), NamedCode("ABS_RUDDER", 7),
    NamedCode("ABS_WHEEL", 8), NamedCode("ABS_GAS", 9), NamedCode("ABS_BRAKE", 10), NamedCode("ABS_HAT0X", 16),
    NamedCode("ABS_HAT0Y", 17), NamedCode("ABS_HAT1X", 18), NamedCode("ABS_HAT1Y", 19), NamedCode("ABS_TILT_X", 26)]

  const KEY_CODES: seq<NamedCode> := [
    NamedCode("BTN_SOUTH", 0x130), NamedCode("BTN_A", 0x130), NamedCode("BTN_EAST", 0x131), NamedCode("BTN_B", 0x131),
    NamedCode("BTN_NORTH", 0x133), NamedCode("BTN_X", 0x133), NamedCode("BTN_WEST", 0x134), NamedCode("BTN_Y", 0x134),
    NamedCode("BTN_C", 0x132), NamedCode("BTN_Z", 0x135), NamedCode("BTN_TL", 0x136), NamedCode("BTN_TR", 0x137),
    NamedCode("BTN_TL2", 0x138), NamedCode("BTN_TR2", 0x139), NamedCode("BTN_SELECT", 0x13a), NamedCode("BTN_START", 0x13b),
    NamedCode("BTN_MODE", 0x13c), NamedCode("BTN_THUMBL", 0x13d), NamedCode("BTN_THUMBR", 0x13e),
    NamedCode("BTN_DPAD_UP", 0x220), NamedCode("BTN_DPAD_DOWN", 0x221), NamedCode("BTN_DPAD_LEFT", 0x222),
    NamedCode("BTN_DPAD_RIGHT", 0x223), NamedCode("BTN_TRIGGER_HAPPY1", 0x2c0), NamedCode("BTN_TRIGGER_HAPPY2", 0x2c1),
    NamedCode("BTN_TRIGGER_HAPPY3", 0x2c2), NamedCode("BTN_TRIGGER_HAPPY4", 0x2c3), NamedCode("KEY_BACK", 158),
    NamedCode("KEY_HOMEPAGE", 172), NamedCode("BTN_TRIGGER", 0x120)]

  // ---------------------------------------------------------------- decimal numbers

  predicate IsDigit(c: char) { '0' <= c <= '9' }

  predicate AllDigits(s: string) { forall i :: 0 <= i < |s| ==> IsDigit(s[i]) }

  /** std::to_string. */
  function Decimal(n: nat): (s: string)
    ensures s != "" && AllDigits(s)
  {
    var last := [(('0' as int) + n % 10) as char];
    if n < 10 then last else Decimal(n / 10) + last
  }

  /** strtoul over digits, without its saturation at the top of unsigned long. */
  function Value(s: string): nat
    requires AllDigits(s)
  {
    if s == "" then 0 else 10 * Value(s[..|s| - 1]) + (s[|s| - 1] as int - '0' as int)
  }

  lemma {:induction false} ValueOfDecimal(n: nat)
    ensures Value(Decimal(n)) == n
  {
    var s := Decimal(n);
    var d := ('0' as int + n % 10) as char;
    assert s[|s| - 1] == d && d as int - '0' as int == n % 10;
    if n < 10 {
      assert s[..|s| - 1] == "";
    } else {
      assert s[..|s| - 1] == Decimal(n / 10);
      ValueOfDecimal(n / 10);
    }
  }

  // ---------------------------------------------------------------- the lookups

  function FindName(table: seq<NamedCode>, name: string): Option<nat> {
    if table == [] then None
    else if name == table[0].name then Some(table[0].code)
    else FindName(table[1..], name)
  }

  function FindCode(table: seq<NamedCode>, code: nat): Option<string> {
    if table == [] then None
    else if code == table[0].code then Some(table[0].name)
    else FindCode(table[1..], code)
  }

  function Numeric(name: string, prefix: string): Option<nat> {
    if |name| <= |prefix| || !(prefix <= name) then None
    else
      var digits := name[|prefix|..];
      if AllDigits(digits) && Value(digits) <= KEY_MAX then Some(Value(digits)) else None
  }

  function OrElse(a: Option<nat>, b: Option<nat>): Option<nat> { if a.Some? then a else b }

  function CodeFromName(name: string): Option<nat> {
    OrElse(FindName(ABS_CODES, name), OrElse(FindName(KEY_CODES, name), NumericCode(name)))
  }

  function NumericCode(name: string): Option<nat> {
    OrElse(Numeric(name, "KEY_"), OrElse(Numeric(name, "BTN_"), Numeric(name, "ABS_")))
  }

  function NameOrNumber(table: seq<NamedCode>, prefix: string, code: nat): string {
    match FindCode(table, code)
    case Some(name) => name
    case None => prefix + Decimal(code)
  }

  function AbsName(code: nat): string { NameOrNumber(ABS_CODES, "ABS_", code) }
  function KeyName(code: nat): string { NameOrNumber(KEY_CODES, "KEY_", code) }

  method SearchNames(table: seq<NamedCode>, name: string) returns (r: Option<nat>)
    ensures r == FindName(table, name)
  {
    for i := 0 to |table|
      invariant FindName(table, name) == FindName(table[i..], name)
    {
      if name == table[i].name { return Some(table[i].code); }
      assert table[i..][1..] == table[i + 1..];
    }
    return None;
  }

  method SearchCodes(table: seq<NamedCode>, code: nat) returns (r: Option<string>)
    ensures r == FindCode(table, code)
  {
    for i := 0 to |table|
      invariant FindCode(table, code) == FindCode(table[i..], code)
    {
      if code == table[i].code { return Some(table[i].name); }
      assert table[i..][1..] == table[i + 1..];
    }
    return None;
  }

  // ---------------------------------------------------------------- the tables are unambiguous

  /** A number that tells the names of the tables apart. */
  function Tag(n: string): int
    requires |n| >= 5
  {
    2 * n[0] as int + 4 * n[|n| - 1] as int + n[|n| - 2] as int + 3 * n[4] as int
  }

  function Position(tag: int): int {
    if tag < 750 then LowPosition(tag) else HighPosition(tag)
  }

  function LowPosition(tag: int): int {
    if tag == 660 then 28 else if tag == 666 then 29 else if tag == 669 then 39 else if tag == 673 then 40 else
    if tag == 677 then 41 else if tag == 679 then 10 else if tag == 681 then 42 else if tag == 682 then 17 else
    if tag == 689 then 19 else if tag == 696 then 24 else if tag == 707 then 32 else if tag == 713 then 44 else
    if tag == 715 then 43 else if tag == 734 then 6 else if tag == 735 then 36 else if tag == 738 then 20 else
    if tag == 740 then 9 else if tag == 741 then 35 else if tag == 742 then 37 else if tag == 744 then 38 else
    if tag == 746 then 11 else if tag == 747 then 13 else -1
  }

  function HighPosition(tag: int): int {
    if tag == 750 then 12 else if tag == 751 then 14 else if tag == 753 then 16 else if tag == 754 then 33 else
    if tag == 758 then 18 else if tag == 764 then 8 else if tag == 772 then 26 else if tag == 773 then 7 else
    if tag == 778 then 34 else if tag == 781 then 45 else if tag == 784 then 30 else if tag == 796 then 27 else
    if tag == 799 then 31 else if tag == 810 then 3 else if tag == 812 then 22 else if tag == 814 then 4 else
    if tag == 818 then 5 else if tag == 829 then 15 else if tag == 841 then 0 else if tag == 843 then 21 else
    if tag == 848 then 1 else if tag == 850 then 23 else if tag == 855 then 2 else if tag == 857 then 25 else -1
  }

  predicate Plain(c: char) { 'A' <= c <= 'Z' || IsDigit(c) || c == '_' }

  predicate PlainName(n: string) { n != "" && forall i :: 0 <= i < |n| ==> Plain(n[i]) }

  /** What is checked of each name: its place in the two tables, its alphabet, a letter where a number
      would have its first digit, and the prefix that tells the tables apart. */
  predicate NameAt(n: string, i: int) {
    && |n| >= 5 && Position(Tag(n)) == i && PlainName(n) && !IsDigit(n[4])
    && (i < 16 <==> n[0] == 'A') && (i < 16 ==> n[1] == 'B' && n[2] == 'S' && n[3] == '_')
  }

  lemma AbsNames0()
    ensures NameAt("ABS_X", 0)
    ensures NameAt("ABS_Y", 1)
    ensures NameAt("ABS_Z", 2)
    ensures NameAt("ABS_RX", 3)
  {}

  lemma AbsNames1()
    ensures NameAt("ABS_RY", 4)
    ensures NameAt("ABS_RZ", 5)
    ensures NameAt("ABS_THROTTLE", 6)
    ensures NameAt("ABS_RUDDER", 7)
  {}

  lemma AbsNames2()
    ensures NameAt("ABS_WHEEL", 8)
    ensures NameAt("ABS_GAS", 9)
    ensures NameAt("ABS_BRAKE", 10)
    ensures NameAt("ABS_HAT0X", 11)
  {}

  lemma AbsNames3()
    ensures NameAt("ABS_HAT0Y", 12)
    ensures NameAt("ABS_HAT1X", 13)
    ensures NameAt("ABS_HAT1Y", 14)
    ensures NameAt("ABS_TILT_X", 15)
  {}

  lemma KeyNames0()
    ensures NameAt("BTN_SOUTH", 16)
    ensures NameAt("BTN_A", 17)
    ensures NameAt("BTN_EAST", 18)
    ensures NameAt("BTN_B", 19)
  {}

  lemma KeyNames1()
    ensures NameAt("BTN_NORTH", 20)
    ensures NameAt("BTN_X", 21)
    ensures NameAt("BTN_WEST", 22)
    ensures NameAt("BTN_Y", 23)
  {}

  lemma KeyNames2()
    ensures NameAt("BTN_C", 24)
    ensures NameAt("BTN_Z", 25)
    ensures NameAt("BTN_TL", 26)
    ensures NameAt("BTN_TR", 27)
  {}

  lemma KeyNames3()
    ensures NameAt("BTN_TL2", 28)
    ensures NameAt("BTN_TR2", 29)
    ensures NameAt("BTN_SELECT", 30)
    ensures NameAt("BTN_START", 31)
  {}

  lemma KeyNames4()
    ensures NameAt("BTN_MODE", 32)
    ensures NameAt("BTN_THUMBL", 33)
    ensures NameAt("BTN_THUMBR", 34)
    ensures NameAt("BTN_DPAD_UP", 35)
  {}

  lemma KeyNames5()
    ensures NameAt("BTN_DPAD_DOWN", 36)
    ensures NameAt("BTN_DPAD_LEFT", 37)
    ensures NameAt("BTN_DPAD_RIGHT", 38)
    ensures NameAt("BTN_TRIGGER_HAPPY1", 39)
  {}

  lemma KeyNames6()
    ensures NameAt("BTN_TRIGGER_HAPPY2", 40)
    ensures NameAt("BTN_TRIGGER_HAPPY3", 41)
    ensures NameAt("BTN_TRIGGER_HAPPY4", 42)
    ensures NameAt("KEY_BACK", 43)
  {}

  lemma KeyNames7()
    ensures NameAt("KEY_HOMEPAGE", 44)
    ensures NameAt("BTN_TRIGGER", 45)
  {}

  lemma AbsTable(i: nat)
    requires i < |ABS_CODES|
    ensures NameAt(ABS_CODES[i].name, i)
  {
    if i < 4 { AbsNames0(); }
    else if i < 8 { AbsNames1(); }
    else if i < 12 { AbsNames2(); }
    else { AbsNames3(); }
  }

  lemma LowKeyTable(i: nat)
    requires i < 16
    ensures NameAt(KEY_CODES[i].name, |ABS_CODES| + i)
  {
    if i < 4 { KeyNames0(); }
    else if i < 8 { KeyNames1(); }
    else if i < 12 { KeyNames2(); }
    else { KeyNames3(); }
  }

  lemma HighKeyTable(i: nat)
    requires 16 <= i < |KEY_CODES|
    ensures NameAt(KEY_CODES[i].name, |ABS_CODES| + i)
  {
    if i < 20 { KeyNames4(); }
    else if i < 24 { KeyNames5(); }
    else if i < 28 { KeyNames6(); }
    else { KeyNames7(); }
  }

  lemma KeyTable(i: nat)
    requires i < |KEY_CODES|
    ensures NameAt(KEY_CODES[i].name, |ABS_CODES| + i)
  {
    if i < 16 { LowKeyTable(i); } else { HighKeyTable(i); }
  }

  // ---------------------------------------------------------------- names and codes invert each other

  lemma {:induction false} FirstName(table: seq<NamedCode>, i: nat)
    requires i < |table|
    requires forall j :: 0 <= j < i ==> table[j].name != table[i].name
    ensures FindName(table, table[i].name) == Some(table[i].code)
  {
    if i > 0 {
      assert table[0].name != table[i].name;
      FirstName(table[1..], i - 1);
    }
  }

  lemma {:induction false} NoSuchName(table: seq<NamedCode>, name: string)
    requires forall j :: 0 <= j < |table| ==> table[j].name != name
    ensures FindName(table, name) == None
  {
    if table != [] { NoSuchName(table[1..], name); }
  }

  lemma {:induction false} CodeEntry(table: seq<NamedCode>, code: nat) returns (i: nat)
    requires FindCode(table, code).Some?
    ensures i < |table| && table[i].name == FindCode(table, code).value && table[i].code == code
  {
    if code == table[0].code {
      i := 0;
    } else {
      i := CodeEntry(table[1..], code);
      i := i + 1;
    }
  }

  lemma {:induction false} FirstCode(table: seq<NamedCode>, i: nat)
    requires i < |table|
    requires forall j :: 0 <= j < i ==> table[j].code != table[i].code
    ensures FindCode(table, table[i].code) == Some(table[i].name)
  {
    if i > 0 {
      assert table[0].code != table[i].code;
      FirstCode(table[1..], i - 1);
    }
  }

  lemma HatNameX()
    ensures AbsName(16) == "ABS_HAT0X"
  {
    FirstCode(ABS_CODES, 11);
  }

  lemma HatNameY()
    ensures AbsName(17) == "ABS_HAT0Y"
  {
    FirstCode(ABS_CODES, 12);
  }

  lemma NamesApart(a: string, i: int, b: string, j: int)
    requires NameAt(a, i) && NameAt(b, j) && i != j
    ensures a != b
  {}

  lemma AbsEntryRoundTrip(i: nat)
    requires i < |ABS_CODES|
    ensures CodeFromName(ABS_CODES[i].name) == Some(ABS_CODES[i].code)
  {
    var t := ABS_CODES;
    AbsTable(i);
    forall j | 0 <= j < i
      ensures t[j].name != t[i].name
    {
      AbsTable(j);
      NamesApart(t[j].name, j, t[i].name, i);
    }
    FirstName(t, i);
  }

  lemma KeyEntryRoundTrip(i: nat)
    requires i < |KEY_CODES|
    ensures CodeFromName(KEY_CODES[i].name) == Some(KEY_CODES[i].code)
  {
    var t, n := KEY_CODES, |ABS_CODES|;
    KeyTable(i);
    forall j | 0 <= j < i
      ensures t[j].name != t[i].name
    {
      KeyTable(j);
      NamesApart(t[j].name, n + j, t[i].name, n + i);
    }
    FirstName(t, i);
    forall j | 0 <= j < n
      ensures ABS_CODES[j].name != t[i].name
    {
      AbsTable(j);
      NamesApart(ABS_CODES[j].name, j, t[i].name, n + i);
    }
    NoSuchName(ABS_CODES, t[i].name);
  }

  lemma NotInTables(name: string)
    requires |name| >= 5 && IsDigit(name[4])
    ensures FindName(ABS_CODES, name) == None && FindName(KEY_CODES, name) == None
  {
    forall j | 0 <= j < |ABS_CODES|
      ensures ABS_CODES[j].name != name
    {
      AbsTable(j);
    }
    NoSuchName(ABS_CODES, name);
    forall j | 0 <= j < |KEY_CODES|
      ensures KEY_CODES[j].name != name
    {
      KeyTable(j);
    }
    NoSuchName(KEY_CODES, name);
  }

  lemma NumericRoundTrip(prefix: string, code: nat)
    requires prefix == "KEY_" || prefix == "ABS_"
    ensures CodeFromName(prefix + Decimal(code)) == if code <= KEY_MAX then Some(code) else None
  {
    var name := prefix + Decimal(code);
    assert name[4] == Decimal(code)[0];
    NotInTables(name);
    NumericDigits(prefix, code);
  }

  lemma NumericDigits(prefix: string, code: nat)
    requires prefix == "KEY_" || prefix == "ABS_"
    ensures NumericCode(prefix + Decimal(code)) == if code <= KEY_MAX then Some(code) else None
  {
    var name := prefix + Decimal(code);
    assert name[4..] == Decimal(code);
    ValueOfDecimal(code);
    assert name[0] == prefix[0] && prefix <= name;
  }

  lemma AbsCodesFit(i: nat)
    requires i < |ABS_CODES|
    ensures ABS_CODES[i].code <= KEY_MAX
  {}

  lemma KeyCodesFit(i: nat)
    requires i < |KEY_CODES|
    ensures KEY_CODES[i].code <= KEY_MAX
  {}

  /** The name printed for an axis code reads back as that code exactly when the code is in range,
      tables and decimal fallback included. */
  lemma AbsNameReadsBack(code: nat)
    ensures CodeFromName(AbsName(code)) == if code <= KEY_MAX then Some(code) else None
  {
    if FindCode(ABS_CODES, code).Some? {
      var i := CodeEntry(ABS_CODES, code);
      AbsEntryRoundTrip(i);
      AbsCodesFit(i);
    } else {
      NumericRoundTrip("ABS_", code);
    }
  }

  /** The same for key and button codes. */
  lemma KeyNameReadsBack(code: nat)
    ensures CodeFromName(KeyName(code)) == if code <= KEY_MAX then Some(code) else None
  {
    if FindCode(KEY_CODES, code).Some? {
      var i := CodeEntry(KEY_CODES, code);
      KeyEntryRoundTrip(i);
      KeyCodesFit(i);
    } else {
      NumericRoundTrip("KEY_", code);
    }
  }

  lemma PlainDecimal(prefix: string, code: nat)
    requires PlainName(prefix)
    ensures PlainName(prefix + Decimal(code))
  {
    forall i | 0 <= i < |prefix + Decimal(code)|
      ensures Plain((prefix + Decimal(code))[i])
    {
      if i >= |prefix| { assert IsDigit(Decimal(code)[i - |prefix|]); }
    }
  }

  /** The prefix of a name tells axes from everything else. */
  lemma PrefixTellsAxes(code: nat)
    ensures "ABS_" <= AbsName(code) && !("ABS_" <= KeyName(code))
  {
    if FindCode(ABS_CODES, code).Some? {
      var i := CodeEntry(ABS_CODES, code);
      AbsTable(i);
    } else {
      assert "ABS_" <= "ABS_" + Decimal(code);
    }
    if FindCode(KEY_CODES, code).Some? {
      var i := CodeEntry(KEY_CODES, code);
      KeyTable(i);
      assert KeyName(code)[0] != 'A';
    } else {
      assert ("KEY_" + Decimal(code))[0] == 'K';
    }
  }

  lemma NamesArePlain(code: nat)
    ensures PlainName(AbsName(code)) && PlainName(KeyName(code))
  {
    if FindCode(ABS_CODES, code).Some? {
      var i := CodeEntry(ABS_CODES, code);
      AbsTable(i);
    } else {
      PlainDecimal("ABS_", code);
    }
    if FindCode(KEY_CODES, code).Some? {
      var i := CodeEntry(KEY_CODES, code);
      KeyTable(i);
    } else {
      PlainDecimal("KEY_", code);
    }
  }
}
