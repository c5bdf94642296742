/** The arguments of one capture: excluded codes and resting values, as the web server prints them
    (web/gpb_web.py) and tools/discover.cpp parses them. */
module CaptureCommand {
  import opened Wrappers
  import opened Config
  import opened EvdevNames
  import opened Discover

  // ---------------------------------------------------------------- comma-separated lists

  function AfterComma(csv: string): (r: string)
    ensures csv != "" ==> |r| < |csv|
  {
    var item := Before(csv, {','});
    if |item| == |csv| then "" else csv[|item| + 1..]
  }

  /** The items the parsing loops visit. */
  function Items(csv: string): seq<string>
    decreases |csv|, 1
  {
    if csv == "" then [] else ItemsFrom(csv)
  }

  function ItemsFrom(csv: string): seq<string>
    requires csv != ""
    decreases |csv|, 0
  {
    [FirstItem(csv)] + Items(AfterComma(csv))
  }

  function FirstItem(csv: string): string { Before(csv, {','}) }

  /** One turn of a parsing loop: an item moves from the unread text to the items read. */
  lemma ItemMoves(done: seq<string>, csv: string)
    requires csv != ""
    ensures done + [FirstItem(csv)] + Items(AfterComma(csv)) == done + Items(csv)
  {}

  function Joined(items: seq<string>): string {
    if items == [] then "" else if |items| == 1 then items[0] else items[0] + "," + Joined(items[1..])
  }

  lemma {:induction false} ItemsOfJoined(items: seq<string>)
    requires forall i :: 0 <= i < |items| ==> items[i] != "" && ',' !in items[i]
    ensures Items(Joined(items)) == items
  {
    if items != [] {
      var rest := Joined(items[1..]);
      ItemsOfJoined(items[1..]);
      if |items| == 1 {
        BeforeAppend(items[0], "", {','});
        assert items[0] + "" == items[0];
        assert Items("") == [];
      } else {
        assert Joined(items) == items[0] + ("," + rest);
        BeforeAppend(items[0], "," + rest, {','});
        assert Before("," + rest, {','}) == "" && items[0] + "" == items[0];
        assert AfterComma(Joined(items)) == rest;
      }
    }
  }

  // ---------------------------------------------------------------- exclusions

  datatype Excluded = Excluded(axes: set<nat>, keys: set<nat>)

  function ExcludeItem(x: Excluded, item: string): Excluded {
    match CodeFromName(item)
    case None => x
    case Some(code) =>
      if "ABS_" <= item then x.(axes := x.axes + {code}) else x.(keys := x.keys + {code})
  }

  function ExcludeAll(items: seq<string>): Excluded
    decreases |items|, 1
  {
    if items == [] then Excluded({}, {}) else ExcludeLast(items)
  }

  function ExcludeLast(items: seq<string>): Excluded
    requires items != []
    decreases |items|, 0
  {
    ExcludeItem(ExcludeAll(items[..|items| - 1]), items[|items| - 1])
  }

  lemma ExcludeSnoc(items: seq<string>, item: string)
    ensures ExcludeAll(items + [item]) == ExcludeItem(ExcludeAll(items), item)
  {
    assert (items + [item])[..|items|] == items;
  }

  lemma EmptyItemHasNoCode()
    ensures CodeFromName("") == None
  {
    forall j | 0 <= j < |ABS_CODES|
      ensures ABS_CODES[j].name != ""
    {
      AbsTable(j);
    }
    forall j | 0 <= j < |KEY_CODES|
      ensures KEY_CODES[j].name != ""
    {
      KeyTable(j);
    }
    NoSuchName(ABS_CODES, "");
    NoSuchName(KEY_CODES, "");
  }

  /** The --exclude loop. */
  method ParseExclude(csv0: string) returns (axes: set<nat>, keys: set<nat>)
    ensures Excluded(axes, keys) == ExcludeAll(Items(csv0))
  {
    axes, keys := {}, {};
    var csv := csv0;
    ghost var done := [];
    while csv != ""
      invariant done + Items(csv) == Items(csv0)
      invariant Excluded(axes, keys) == ExcludeAll(done)
      decreases |csv|
    {
      var item := FirstItem(csv);
      ItemMoves(done, csv);
      ExcludeSnoc(done, item);
      done, csv := done + [item], AfterComma(csv);
      if item == "" {
        EmptyItemHasNoCode();
      } else {
        var code := CodeFromName(item);
        if code.Some? {
          if "ABS_" <= item { axes := axes + {code.value}; } else { keys := keys + {code.value}; }
        }
      }
    }
    assert done == Items(csv0);
  }

  ghost predicate CanonicalName(n: string) {
    exists c: nat :: c <= KEY_MAX && (n == AbsName(c) || n == KeyName(c))
  }

  lemma CanonicalItem(n: string)
    requires CanonicalName(n)
    ensures n != "" && ',' !in n
  {
    var c: nat :| c <= KEY_MAX && (n == AbsName(c) || n == KeyName(c));
    NamesArePlain(c);
    forall i | 0 <= i < |n|
      ensures n[i] != ','
    {
      assert Plain(n[i]);
    }
  }

  lemma AxisItem(x: Excluded, d: nat)
    requires d <= KEY_MAX
    ensures ExcludeItem(x, AbsName(d)) == x.(axes := x.axes + {d})
  {
    AbsNameReadsBack(d);
    PrefixTellsAxes(d);
  }

  lemma KeyItem(x: Excluded, d: nat)
    requires d <= KEY_MAX
    ensures ExcludeItem(x, KeyName(d)) == x.(keys := x.keys + {d})
  {
    KeyNameReadsBack(d);
    PrefixTellsAxes(d);
  }

  lemma NamesTellCodes(d: nat, c: nat)
    requires d <= KEY_MAX
    ensures c <= KEY_MAX && AbsName(d) == AbsName(c) <==> c == d
    ensures c <= KEY_MAX && KeyName(d) == KeyName(c) <==> c == d
    ensures AbsName(d) != KeyName(c) && KeyName(d) != AbsName(c)
  {
    AbsNameReadsBack(d);
    AbsNameReadsBack(c);
    KeyNameReadsBack(d);
    KeyNameReadsBack(c);
    PrefixTellsAxes(d);
    PrefixTellsAxes(c);
  }

  /** What one canonical name adds. */
  lemma CanonicalExcludes(x: Excluded, n: string, c: nat)
    requires CanonicalName(n)
    ensures c in ExcludeItem(x, n).axes <==> c in x.axes || (c <= KEY_MAX && n == AbsName(c))
    ensures c in ExcludeItem(x, n).keys <==> c in x.keys || (c <= KEY_MAX && n == KeyName(c))
  {
    var d: nat :| d <= KEY_MAX && (n == AbsName(d) || n == KeyName(d));
    NamesTellCodes(d, c);
    if n == AbsName(d) { AxisItem(x, d); } else { KeyItem(x, d); }
  }

  lemma {:induction false} ExcludesExactly(names: seq<string>, c: nat)
    requires forall n :: n in names ==> CanonicalName(n)
    ensures c in ExcludeAll(names).axes <==> c <= KEY_MAX && AbsName(c) in names
    ensures c in ExcludeAll(names).keys <==> c <= KEY_MAX && KeyName(c) in names
  {
    if names != [] {
      var front, last := names[..|names| - 1], names[|names| - 1];
      ExcludesExactly(front, c);
      assert names == front + [last];
      ExcludeSnoc(front, last);
      CanonicalExcludes(ExcludeAll(front), last, c);
    }
  }

  /** Printing the names of bound controls and parsing them back excludes exactly those controls, axes and
      keys kept apart. */
  lemma ExclusionReadsBack(names: seq<string>, c: nat)
    requires forall n :: n in names ==> CanonicalName(n)
    ensures var x := ExcludeAll(Items(Joined(names)));
            && (c in x.axes <==> c <= KEY_MAX && AbsName(c) in names)
            && (c in x.keys <==> c <= KEY_MAX && KeyName(c) in names)
  {
    forall i | 0 <= i < |names|
      ensures names[i] != "" && ',' !in names[i]
    {
      CanonicalItem(names[i]);
    }
    ItemsOfJoined(names);
    ExcludesExactly(names, c);
  }

  // ---------------------------------------------------------------- resting values

  function LeadingDigits(s: string): (d: string)
    ensures AllDigits(d)
  {
    if s != "" && IsDigit(s[0]) then [s[0]] + LeadingDigits(s[1..]) else ""
  }

  /** std::atoi, over unbounded integers. */
  function Atoi(s: string): int {
    var t := TrimLeft(s);
    if t != "" && t[0] == '-' then 0 - Value(LeadingDigits(t[1..]))
    else if t != "" && t[0] == '+' then Value(LeadingDigits(t[1..]))
    else Value(LeadingDigits(t))
  }

  function Printed(v: int): string { if v < 0 then "-" + Decimal(-v) else Decimal(v) }

  lemma {:induction false} DigitsLead(s: string)
    requires AllDigits(s)
    ensures LeadingDigits(s) == s
  {
    if s != "" { DigitsLead(s[1..]); }
  }

  lemma AtoiOfDigits(d: string)
    requires d != "" && AllDigits(d)
    ensures Atoi(d) == Value(d)
  {
    assert IsDigit(d[0]);
    DigitsLead(d);
  }

  lemma AtoiOfNegative(d: string)
    requires d != "" && AllDigits(d)
    ensures Atoi("-" + d) == 0 - Value(d)
  {
    var t := "-" + d;
    assert TrimLeft(t) == t && t[1..] == d;
    DigitsLead(d);
  }

  lemma AtoiReadsBack(v: int)
    ensures Atoi(Printed(v)) == v
  {
    var m: nat := if v < 0 then -v else v;
    if v < 0 { AtoiOfNegative(Decimal(m)); } else { AtoiOfDigits(Decimal(m)); }
    ValueOfDecimal(m);
  }

  function OverrideItem(neutral: map<nat, AbsInfo>, item: string): map<nat, AbsInfo> {
    var name := Before(item, {'='});
    if |name| == |item| || CodeFromName(name).None? then neutral
    else
      var code := CodeFromName(name).value;
      if code in neutral then neutral[code := neutral[code].(neutral := Atoi(item[|name| + 1..]), confirmed := true)]
      else neutral
  }

  function OverrideAll(neutral: map<nat, AbsInfo>, items: seq<string>): map<nat, AbsInfo>
    decreases |items|, 1
  {
    if items == [] then neutral else OverrideLast(neutral, items)
  }

  function OverrideLast(neutral: map<nat, AbsInfo>, items: seq<string>): map<nat, AbsInfo>
    requires items != []
    decreases |items|, 0
  {
    OverrideItem(OverrideAll(neutral, items[..|items| - 1]), items[|items| - 1])
  }

  lemma OverrideSnoc(neutral: map<nat, AbsInfo>, items: seq<string>, item: string)
    ensures OverrideAll(neutral, items + [item]) == OverrideItem(OverrideAll(neutral, items), item)
  {
    assert (items + [item])[..|items|] == items;
  }

  /** One item, after the items done. */
  method OverrideOne(item: string, before: map<nat, AbsInfo>, ghost neutral0: map<nat, AbsInfo>, ghost done: seq<string>)
    returns (neutral: map<nat, AbsInfo>)
    requires before == OverrideAll(neutral0, done)
    ensures neutral == OverrideAll(neutral0, done + [item])
  {
    OverrideSnoc(neutral0, done, item);
    neutral := before;
    var name := Before(item, {'='});
    if |name| != |item| {
      var code := CodeFromName(name);
      if code.Some? && code.value in neutral {
        neutral := neutral[code.value := neutral[code.value].(neutral := Atoi(item[|name| + 1..]), confirmed := true)];
      }
    }
  }

  /** The --neutral loop. */
  method ParseNeutral(neutral0: map<nat, AbsInfo>, csv0: string) returns (neutral: map<nat, AbsInfo>)
    ensures neutral == OverrideAll(neutral0, Items(csv0))
  {
    neutral := neutral0;
    var csv := csv0;
    ghost var done := [];
    while csv != ""
      invariant done + Items(csv) == Items(csv0)
      invariant neutral == OverrideAll(neutral0, done)
      decreases |csv|
    {
      var item := FirstItem(csv);
      ItemMoves(done, csv);
      neutral := OverrideOne(item, neutral, neutral0, done);
      done, csv := done + [item], AfterComma(csv);
    }
    assert done == Items(csv0);
  }

  /** A baseline entry as it is printed. */
  function Entry(e: (nat, int)): string { AbsName(e.0) + "=" + Printed(e.1) }

  function Entries(es: seq<(nat, int)>): seq<string> {
    if es == [] then [] else Entries(es[..|es| - 1]) + [Entry(es[|es| - 1])]
  }

  lemma EntryReads(e: (nat, int))
    requires e.0 <= KEY_MAX
    ensures var i := Entry(e);
            && i != "" && ',' !in i
            && Before(i, {'='}) == AbsName(e.0) && |AbsName(e.0)| < |i| && i[|AbsName(e.0)| + 1..] == Printed(e.1)
  {
    var n, v := AbsName(e.0), Printed(e.1);
    NamesArePlain(e.0);
    forall i | 0 <= i < |n|
      ensures n[i] != '=' && n[i] != ','
    {
      assert Plain(n[i]);
    }
    assert Entry(e) == n + ("=" + v);
    BeforeAppend(n, "=" + v, {'='});
    assert Before("=" + v, {'='}) == "" && n + "" == n;
    PrintedIsPlain(e.1);
  }

  lemma PrintedIsPlain(v: int)
    ensures ',' !in Printed(v)
  {
    var d := Decimal(if v < 0 then -v else v);
    forall i | 0 <= i < |d|
      ensures d[i] != ','
    {
      assert IsDigit(d[i]);
    }
  }

  function LastFor(es: seq<(nat, int)>, c: nat): Option<int> {
    if es == [] then None
    else if es[|es| - 1].0 == c then Some(es[|es| - 1].1)
    else LastFor(es[..|es| - 1], c)
  }

  /** A resting value handed over replaces the sampled one, and makes it trusted. */
  function Overridden(a: AbsInfo, v: Option<int>): AbsInfo {
    if v.Some? then a.(neutral := v.value, confirmed := true) else a
  }

  /** What a printed entry does to the map. */
  lemma EntryItem(neutral: map<nat, AbsInfo>, e: (nat, int))
    requires e.0 <= KEY_MAX
    ensures OverrideItem(neutral, Entry(e))
            == if e.0 in neutral then neutral[e.0 := Overridden(neutral[e.0], Some(e.1))] else neutral
  {
    EntryReads(e);
    AbsNameReadsBack(e.0);
    AtoiReadsBack(e.1);
  }

  lemma EntryOverrides(neutral: map<nat, AbsInfo>, e: (nat, int), c: nat)
    requires e.0 <= KEY_MAX
    ensures var r := OverrideItem(neutral, Entry(e));
            && (c in r <==> c in neutral)
            && (c in neutral ==> r[c] == if c == e.0 then Overridden(neutral[c], Some(e.1)) else neutral[c])
  {
    EntryItem(neutral, e);
  }

  lemma {:induction false} EntriesOverride(neutral: map<nat, AbsInfo>, es: seq<(nat, int)>, c: nat)
    requires forall i :: 0 <= i < |es| ==> es[i].0 <= KEY_MAX
    ensures var r := OverrideAll(neutral, Entries(es));
            && (c in r <==> c in neutral)
            && (c in neutral ==> r[c] == Overridden(neutral[c], LastFor(es, c)))
  {
    if es != [] {
      var front, last := es[..|es| - 1], es[|es| - 1];
      EntriesOverride(neutral, front, c);
      OverrideSnoc(neutral, Entries(front), Entry(last));
      EntryOverrides(OverrideAll(neutral, Entries(front)), last, c);
    }
  }

  lemma {:induction false} EntriesAreItems(es: seq<(nat, int)>)
    requires forall i :: 0 <= i < |es| ==> es[i].0 <= KEY_MAX
    ensures forall i :: 0 <= i < |Entries(es)| ==> Entries(es)[i] != "" && ',' !in Entries(es)[i]
  {
    if es != [] {
      EntriesAreItems(es[..|es| - 1]);
      EntryReads(es[|es| - 1]);
    }
  }

  /** A baseline printed by name and value and parsed back gives each axis the pad has exactly its printed
      resting value, negative ones included, and adds no axis. */
  lemma BaselineReadsBack(neutral: map<nat, AbsInfo>, es: seq<(nat, int)>, c: nat)
    requires forall i :: 0 <= i < |es| ==> es[i].0 <= KEY_MAX
    ensures var r := OverrideAll(neutral, Items(Joined(Entries(es))));
            && (c in r <==> c in neutral)
            && (c in neutral ==> r[c] == Overridden(neutral[c], LastFor(es, c)))
  {
    EntriesAreItems(es);
    ItemsOfJoined(Entries(es));
    EntriesOverride(neutral, es, c);
  }
}
