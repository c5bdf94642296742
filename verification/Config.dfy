/** The ini loader of src/config.cpp. */
module Config {
  import opened Wrappers

  const SPACES: set<char> := {' ', '\t', '\r', '\n'}

  predicate IsSpace(c: char) { c in SPACES }

  function TrimLeft(s: string): string {
    if s != "" && IsSpace(s[0]) then TrimLeft(s[1..]) else s
  }

  function TrimRight(s: string): string {
    if s != "" && IsSpace(s[|s| - 1]) then TrimRight(s[..|s| - 1]) else s
  }

  function Trim(s: string): string { TrimRight(TrimLeft(s)) }

  /** Everything before the first of the given characters. */
  function Before(s: string, stop: set<char>): (r: string)
    ensures r <= s
    ensures |r| < |s| ==> s[|r|] in stop
    ensures forall i :: 0 <= i < |r| ==> s[i] !in stop
  {
    if s == "" || s[0] in stop then "" else [s[0]] + Before(s[1..], stop)
  }

  datatype Problem = MalformedHeader | ExpectedKeyValue

  datatype Line = Blank | Header(section: string) | Pair(key: string, value: string) | Bad(problem: Problem)

  /** One line: comment stripped, trimmed, then read by its first character. */
  function Parse(line: string): Line { ParseText(Trim(Before(line, {'#', ';'}))) }

  function ParseText(text: string): Line {
    if text == "" then Blank
    else if text[0] == '[' then
      if text[|text| - 1] != ']' then Bad(MalformedHeader)
      else Header(Trim(if |text| == 1 then "" else text[1..|text| - 1]))
    else
      var key := Before(text, {'='});
      if |key| == |text| then Bad(ExpectedKeyValue)
      else Pair(Trim(key), Trim(text[|key| + 1..]))
  }

  function FirstLine(text: string): string { Before(text, {'\n'}) }

  /** What std::getline leaves: everything after the first line. */
  function AfterLine(text: string): (r: string)
    ensures text != "" ==> |r| < |text|
  {
    if |FirstLine(text)| == |text| then "" else text[|FirstLine(text)| + 1..]
  }

  /** What std::getline yields, one line per call. */
  function Lines(text: string): seq<string>
    decreases |text|
  {
    if text == "" then [] else [FirstLine(text)] + Lines(AfterLine(text))
  }

  datatype Loading = Loading(section: string, kv: map<string, string>, lineno: nat, error: Option<Problem>)

  function FullKey(section: string, key: string): string {
    if section == "" then key else section + "." + key
  }

  function Apply(st: Loading, line: Line): Loading {
    if st.error.Some? then st
    else
      var next := st.(lineno := st.lineno + 1);
      match line
      case Blank => next
      case Header(section) => next.(section := section)
      case Pair(key, value) => next.(kv := st.kv[FullKey(st.section, key) := value])
      case Bad(problem) => next.(error := Some(problem))
  }

  function LoadLines(lines: seq<string>, st: Loading): Loading
    decreases |lines|, 1
  {
    if lines == [] then st else LoadLast(lines, st)
  }

  function LoadLast(lines: seq<string>, st: Loading): Loading
    requires lines != []
    decreases |lines|, 0
  {
    Apply(LoadLines(lines[..|lines| - 1], st), Parse(lines[|lines| - 1]))
  }

  /** What load() reports: the line number and the problem. */
  function ReportOf(r: Loading): Option<(nat, Problem)> {
    if r.error.Some? then Some((r.lineno, r.error.value)) else None
  }

  function Start(kv: map<string, string>): Loading { Loading("", kv, 0, None) }

  lemma {:induction false} LoadAppend(a: seq<string>, b: seq<string>, st: Loading)
    ensures LoadLines(a + b, st) == LoadLines(b, LoadLines(a, st))
  {
    if b == [] {
      assert a + b == a;
    } else {
      LoadAppend(a, b[..|b| - 1], st);
      assert (a + b)[..|a + b| - 1] == a + b[..|b| - 1];
    }
  }

  lemma {:induction false} FailedStaysFailed(lines: seq<string>, st: Loading)
    requires st.error.Some?
    ensures LoadLines(lines, st) == st
  {
    if lines != [] { FailedStaysFailed(lines[..|lines| - 1], st); }
  }

  /** Nothing after the first bad line is read. */
  lemma StopsAtError(done: seq<string>, rest: seq<string>, st: Loading)
    requires LoadLines(done, st).error.Some?
    ensures LoadLines(done + rest, st) == LoadLines(done, st)
  {
    LoadAppend(done, rest, st);
    FailedStaysFailed(rest, LoadLines(done, st));
  }

  lemma LoadSnoc(done: seq<string>, line: string, st: Loading)
    ensures LoadLines(done + [line], st) == Apply(LoadLines(done, st), Parse(line))
  {
    assert (done + [line])[..|done|] == done;
  }

  /** One turn of the reading loop: a line moves from the unread text to the lines read. */
  lemma LineMoves(done: seq<string>, rest: string)
    requires rest != ""
    ensures done + [FirstLine(rest)] + Lines(AfterLine(rest)) == done + Lines(rest)
  {
    assert Lines(rest) == [FirstLine(rest)] + Lines(AfterLine(rest));
  }

  class ConfigFile {
    var kv: map<string, string>

    method Take(line: string, section: string, lineno: nat) returns (next: string, problem: Option<Problem>)
      modifies this
      ensures Loading(next, kv, lineno + 1, problem) == Apply(Loading(section, old(kv), lineno, None), Parse(line))
    {
      next, problem := section, None;
      match Parse(line)
      case Blank =>
      case Header(s) => next := s;
      case Pair(key, value) => kv := kv[FullKey(section, key) := value];
      case Bad(p) => problem := Some(p);
    }

    /** load(), with the text of the file as an input; an error carries its line number. Keys read before
        an error stay. */
    method Load(text: string) returns (error: Option<(nat, Problem)>)
      modifies this
      ensures var r := LoadLines(Lines(text), Start(old(kv)));
              kv == r.kv && error == ReportOf(r)
    {
      var rest, section, lineno, problem := text, "", 0, None;
      ghost var done, st := [], Start(kv);
      while rest != "" && problem.None?
        invariant done + Lines(rest) == Lines(text)
        invariant LoadLines(done, st) == Loading(section, kv, lineno, problem)
        decreases |rest|
      {
        LineMoves(done, rest);
        LoadSnoc(done, FirstLine(rest), st);
        section, problem := Take(FirstLine(rest), section, lineno);
        done, rest, lineno := done + [FirstLine(rest)], AfterLine(rest), lineno + 1;
      }
      if problem.Some? {
        StopsAtError(done, Lines(rest), st);
        return Some((lineno, problem.value));
      }
      assert done == Lines(text);
      return None;
    }
  }

  // ---------------------------------------------------------------- what a written line reads as

  lemma {:induction false} BeforeAppend(a: string, b: string, stop: set<char>)
    requires forall i :: 0 <= i < |a| ==> a[i] !in stop
    ensures Before(a + b, stop) == a + Before(b, stop)
  {
    if a == "" {
      assert a + b == b;
    } else {
      BeforeAppend(a[1..], b, stop);
      assert (a + b)[1..] == a[1..] + b;
    }
  }

  lemma {:induction false} TrimRightAppend(a: string, b: string)
    requires a != "" && !IsSpace(a[|a| - 1])
    ensures TrimRight(a + b) == a + TrimRight(b)
  {
    if b != "" && IsSpace(b[|b| - 1]) {
      TrimRightAppend(a, b[..|b| - 1]);
      assert (a + b)[..|a + b| - 1] == a + b[..|b| - 1];
    } else if b == "" {
      assert a + b == a;
    }
  }

  lemma {:induction false} TrimLeftRight(s: string)
    ensures TrimLeft(TrimRight(s)) == TrimRight(TrimLeft(s))
  {
    if s != "" && IsSpace(s[0]) {
      TrimLeftRight(s[1..]);
      TrimRightCons(s[0], s[1..]);
      assert s == [s[0]] + s[1..];
    } else if s != "" {
      TrimRightAppend([s[0]], s[1..]);
      assert s == [s[0]] + s[1..];
    }
  }

  lemma {:induction false} TrimRightCons(c: char, s: string)
    requires IsSpace(c)
    ensures TrimRight([c] + s) == if TrimRight(s) == "" then "" else [c] + TrimRight(s)
  {
    if s == "" {
      assert [c] + s == [c] && [c][..0] == "";
    } else if IsSpace(s[|s| - 1]) {
      TrimRightCons(c, s[..|s| - 1]);
      assert ([c] + s)[..|s|] == [c] + s[..|s| - 1];
    }
  }

  lemma {:induction false} TrimRightIdempotent(s: string)
    ensures TrimRight(TrimRight(s)) == TrimRight(s)
  {
    if s != "" && IsSpace(s[|s| - 1]) { TrimRightIdempotent(s[..|s| - 1]); }
  }

  /** A line written as key, " = ", value reads back as the key and the value up to any comment mark, both
      trimmed, whatever the value is. */
  lemma AssignmentReadsBack(k: string, v: string)
    requires k != "" && !IsSpace(k[0]) && k[0] != '['
    requires '#' !in k && ';' !in k && '=' !in k
    ensures Parse(k + " = " + v) == Pair(Trim(k), Trim(Before(v, {'#', ';'})))
  {
    var w := Before(v, {'#', ';'});
    StrippedAssignment(k, v);
    SplitAtEquals(k + " ", TrimRight([' '] + w));
    TrimPadded(k, w);
  }

  lemma StrippedAssignment(k: string, v: string)
    requires k != "" && !IsSpace(k[0])
    requires '#' !in k && ';' !in k
    ensures Trim(Before(k + " = " + v, {'#', ';'})) == k + " " + "=" + TrimRight([' '] + Before(v, {'#', ';'}))
  {
    var w, tail := Before(v, {'#', ';'}), TrimRight([' '] + Before(v, {'#', ';'}));
    BeforeAppend(k + " = ", v, {'#', ';'});
    Regroup(k, w, tail);
    TrimAssignment(k + " =", [' '] + w);
  }

  lemma Regroup(k: string, w: string, tail: string)
    ensures k + " = " + w == k + " =" + ([' '] + w)
    ensures k + " " + "=" + tail == k + " =" + tail
  {}

  lemma TrimAssignment(head: string, tail: string)
    requires head != "" && !IsSpace(head[0]) && !IsSpace(head[|head| - 1])
    ensures Trim(head + tail) == head + TrimRight(tail)
  {
    TrimRightAppend(head, tail);
  }

  lemma SplitAtEquals(k: string, tail: string)
    requires k != "" && '=' !in k && k[0] != '['
    ensures ParseText(k + "=" + tail) == Pair(Trim(k), Trim(tail))
  {
    assert k + "=" + tail == k + ("=" + tail);
    BeforeAppend(k, "=" + tail, {'='});
    assert Before("=" + tail, {'='}) == "" && k + "" == k;
    assert (k + "=" + tail)[|k| + 1..] == tail;
  }

  lemma TrimPadded(k: string, w: string)
    ensures Trim(k + " ") == Trim(k)
    ensures Trim(TrimRight([' '] + w)) == Trim(w)
  {
    TrimLeftRight(k + " ");
    TrimLeftRight(k);
    assert (k + " ")[..|k|] == k;
    TrimLeftRight([' '] + w);
    assert ([' '] + w)[1..] == w;
    TrimRightIdempotent([' '] + w);
    TrimLeftRight(TrimRight([' '] + w));
  }

  lemma CommentIsBlank(text: string)
    requires text != "" && text[0] == '#'
    ensures Parse(text) == Blank
  {}

  lemma HeaderReadsBack(s: string)
    requires s != "" && '#' !in s && ';' !in s
    ensures Parse("[" + s + "]") == Header(Trim(s))
  {
    var line := "[" + s + "]";
    BeforeAppend(line, "", {'#', ';'});
    assert line + "" == line;
    assert line[1..|line| - 1] == s;
  }

  predicate AllSpace(s: string) { forall i :: 0 <= i < |s| ==> IsSpace(s[i]) }

  lemma {:induction false} TrimRightParts(s: string) returns (tail: string)
    ensures s == TrimRight(s) + tail && AllSpace(tail)
    ensures TrimRight(s) == "" || !IsSpace(TrimRight(s)[|TrimRight(s)| - 1])
  {
    if s != "" && IsSpace(s[|s| - 1]) {
      tail := TrimRightParts(s[..|s| - 1]);
      tail := tail + [s[|s| - 1]];
    } else {
      tail := "";
    }
  }

  lemma {:induction false} TrimLeftParts(s: string) returns (head: string)
    ensures s == head + TrimLeft(s) && AllSpace(head)
    ensures TrimLeft(s) == "" || !IsSpace(TrimLeft(s)[0])
  {
    if s != "" && IsSpace(s[0]) {
      head := TrimLeftParts(s[1..]);
      head := [s[0]] + head;
    } else {
      head := "";
    }
  }

  /** Trimming takes off white space at both ends, all of it and nothing else. */
  lemma TrimIsExact(s: string) returns (head: string, tail: string)
    ensures s == head + Trim(s) + tail && AllSpace(head) && AllSpace(tail)
    ensures Trim(s) == "" || (!IsSpace(Trim(s)[0]) && !IsSpace(Trim(s)[|Trim(s)| - 1]))
  {
    head := TrimLeftParts(s);
    tail := TrimRightParts(TrimLeft(s));
    assert s == head + (Trim(s) + tail);
    if Trim(s) != "" { assert TrimLeft(s)[0] == Trim(s)[0]; }
  }

  /** Which lines are blank and which are bad: going by what is left of a line without its comment, trimmed. */
  lemma LinesAreJudged(line: string)
    ensures var text, r := Trim(Before(line, {'#', ';'})), Parse(line);
            && (r == Blank <==> text == "")
            && (r == Bad(MalformedHeader) <==> text != "" && text[0] == '[' && text[|text| - 1] != ']')
            && (r == Bad(ExpectedKeyValue) <==> text != "" && text[0] != '[' && '=' !in text)
  {
    var text := Trim(Before(line, {'#', ';'}));
    var key := Before(text, {'='});
    if |key| < |text| { assert text[|key|] == '='; } else { assert key == text; }
  }

  /** Loading fails exactly when a line is bad, and reports the first such line by its number, counted from one,
      with what is wrong with it. */
  lemma {:induction false} FirstBadLineIsReported(lines: seq<string>, kv: map<string, string>)
    ensures match ReportOf(LoadLines(lines, Start(kv)))
            case None => LoadLines(lines, Start(kv)).lineno == |lines| && forall i :: 0 <= i < |lines| ==> !Parse(lines[i]).Bad?
            case Some((n, p)) =>
              && 0 < n <= |lines| && Parse(lines[n - 1]) == Bad(p)
              && forall i :: 0 <= i < n - 1 ==> !Parse(lines[i]).Bad?
  {
    if lines != [] {
      var front, last := lines[..|lines| - 1], lines[|lines| - 1];
      FirstBadLineIsReported(front, kv);
      LoadSnoc(front, last, Start(kv));
      assert front + [last] == lines;
      assert forall i :: 0 <= i < |front| ==> front[i] == lines[i];
    }
  }

  // ---------------------------------------------------------------- lines and text

  /** Lines joined by newlines, with none after the last. */
  function JoinLines(lines: seq<string>): string {
    if lines == [] then "" else if |lines| == 1 then lines[0] else lines[0] + "\n" + JoinLines(lines[1..])
  }

  function WithoutFinalBlank(lines: seq<string>): seq<string> {
    if lines != [] && lines[|lines| - 1] == "" then lines[..|lines| - 1] else lines
  }

  /** Joined lines read back as themselves; an empty last line only ends the one before it. */
  lemma {:induction false} LinesOfJoined(lines: seq<string>)
    requires forall i :: 0 <= i < |lines| ==> '\n' !in lines[i]
    ensures Lines(JoinLines(lines)) == WithoutFinalBlank(lines)
  {
    if |lines| == 1 {
      LastLine(lines[0]);
    } else if lines != [] {
      var first, rest := lines[0], JoinLines(lines[1..]);
      LinesOfJoined(lines[1..]);
      FirstOfJoined(first, rest);
      FinalBlankOfRest(lines);
    }
  }

  lemma FinalBlankOfRest(lines: seq<string>)
    requires |lines| > 1
    ensures WithoutFinalBlank(lines) == [lines[0]] + WithoutFinalBlank(lines[1..])
  {}

  lemma LastLine(line: string)
    requires '\n' !in line
    ensures Lines(line) == if line == "" then [] else [line]
  {
    BeforeAppend(line, "", {'\n'});
    assert line + "" == line;
    assert Lines("") == [];
  }

  lemma FirstOfJoined(line: string, rest: string)
    requires '\n' !in line
    ensures Lines(line + "\n" + rest) == [line] + Lines(rest)
  {
    assert line + "\n" + rest == line + ("\n" + rest);
    BeforeAppend(line, "\n" + rest, {'\n'});
    assert Before("\n" + rest, {'\n'}) == "" && line + "" == line;
    assert AfterLine(line + "\n" + rest) == rest;
  }

  /** An empty last line changes nothing that was read. */
  lemma FinalBlankIsQuiet(lines: seq<string>, st: Loading)
    ensures var r, all := LoadLines(WithoutFinalBlank(lines), st), LoadLines(lines, st);
            r.kv == all.kv && r.error == all.error
  {
    if WithoutFinalBlank(lines) != lines {
      LoadSnoc(WithoutFinalBlank(lines), "", st);
      assert lines == WithoutFinalBlank(lines) + [""];
      assert Parse("") == Blank;
    }
  }
}
