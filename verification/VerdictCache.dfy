/**
 The run pre-flight's cache entry: a magic line, a line of the modules the check loaded, and
 one line per warning, whose message is escaped so that it stays on its line. Reading back a
 written entry gives the entry exactly when no text in it is eaten by the line format.
 */
module VerdictCache {
  import opened Wrappers
  import opened Decimal

  type u32 = n: nat | n < 0x1_0000_0000

  datatype Pos = Pos(line: u32, col: u32)

  datatype Warning = Warning(pos: Option<Pos>, msg: string)

  datatype Entry = Entry(loads: seq<string>, warnings: seq<Warning>)

  const MAGIC := "brood-run-check-v2"

  // ----- escaping -----------------------------------------------------------------------------------

  function Replaced(s: string, c: char, put: string): string {
    if s == [] then [] else (if s[0] == c then put else [s[0]]) + Replaced(s[1..], c, put)
  }

  function Escape(msg: string): string {
    Replaced(Replaced(msg, '\\', "\\\\"), '\n', "\\n")
  }

  /** The same in one pass. */
  function EscapeChar(c: char): string {
    if c == '\\' then "\\\\" else if c == '\n' then "\\n" else [c]
  }

  lemma {:induction false} ReplacedAppend(a: string, b: string, c: char, put: string)
    ensures Replaced(a + b, c, put) == Replaced(a, c, put) + Replaced(b, c, put)
  {
    if a == [] {
      assert a + b == b;
    } else {
      assert (a + b)[1..] == a[1..] + b;
      ReplacedAppend(a[1..], b, c, put);
    }
  }

  lemma EscapeFirst(msg: string)
    requires msg != []
    ensures Escape(msg) == EscapeChar(msg[0]) + Escape(msg[1..])
  {
    var first := if msg[0] == '\\' then "\\\\" else [msg[0]];
    var rest := Replaced(msg[1..], '\\', "\\\\");
    ReplacedAppend(first, rest, '\n', "\\n");
    EscapeOne(msg[0], first);
  }

  lemma EscapeOne(c: char, first: string)
    requires first == if c == '\\' then "\\\\" else [c]
    ensures Replaced(first, '\n', "\\n") == EscapeChar(c)
  {
    if c == '\\' {
      assert first[1..] == ['\\'] && ['\\'][1..] == [];
    } else {
      assert [c][1..] == [];
    }
  }

  lemma {:induction false} EscapeAppend(a: string, b: string)
    ensures Escape(a + b) == Escape(a) + Escape(b)
  {
    ReplacedAppend(a, b, '\\', "\\\\");
    ReplacedAppend(Replaced(a, '\\', "\\\\"), Replaced(b, '\\', "\\\\"), '\n', "\\n");
  }

  /** An escaped message stays on one line. */
  lemma {:induction false} EscapeHasNoNewline(msg: string)
    ensures '\n' !in Escape(msg)
  {
    if msg != [] {
      EscapeFirst(msg);
      EscapeHasNoNewline(msg[1..]);
    }
  }

  function Unescaped(s: string): string {
    if s == [] then []
    else if s[0] != '\\' then [s[0]] + Unescaped(s[1..])
    else if |s| == 1 then ['\\']
    else [if s[1] == 'n' then '\n' else s[1]] + Unescaped(s[2..])
  }

  lemma UnescapeFirst(c: char, rest: string)
    ensures Unescaped(EscapeChar(c) + rest) == [c] + Unescaped(rest)
  {
    var first := EscapeChar(c);
    assert (first + rest)[|first|..] == rest;
  }

  lemma {:induction false} UnescapeInverts(msg: string)
    ensures Unescaped(Escape(msg)) == msg
  {
    if msg != [] {
      EscapeFirst(msg);
      UnescapeFirst(msg[0], Escape(msg[1..]));
      UnescapeInverts(msg[1..]);
    }
  }

  /** The character loop; a lone trailing backslash stands for itself. */
  method Unescape(s: string) returns (out: string)
    ensures out == Unescaped(s)
  {
    out := [];
    var i := 0;
    while i < |s|
      invariant i <= |s| && Unescaped(s) == out + Unescaped(s[i..])
    {
      var c := s[i];
      i := i + 1;
      if c == '\\' {
        if i == |s| {
          out := out + ['\\'];
        } else {
          assert s[i - 1..][2..] == s[i + 1..];
          out := out + [if s[i] == 'n' then '\n' else s[i]];
          i := i + 1;
        }
      } else {
        assert s[i - 1..][1..] == s[i..];
        out := out + [c];
      }
    }
  }

  // ----- lines and fields ---------------------------------------------------------------------------

  /** The index of the first `c`, or the length. */
  function Find(s: string, c: char): (i: nat)
    ensures i <= |s| && (i < |s| ==> s[i] == c) && c !in s[..i]
  {
    if s == [] then 0
    else if s[0] == c then 0
    else
      var j := Find(s[1..], c);
      assert s[..j + 1] == [s[0]] + s[1..][..j];
      j + 1
  }

  function StripCr(s: string): string {
    if s != [] && s[|s| - 1] == '\r' then s[..|s| - 1] else s
  }

  /** Lines as an iterator over a text yields them: a line end is LF or CR LF, and an unended last line is kept as it is. */
  function Lines(text: string): seq<string>
    decreases |text|
  {
    if text == [] then []
    else
      var i := Find(text, '\n');
      if i == |text| then [text] else [StripCr(text[..i])] + Lines(text[i + 1..])
  }

  function Split(s: string, c: char): (parts: seq<string>)
    ensures parts != []
    decreases |s|
  {
    var i := Find(s, c);
    if i == |s| then [s] else [s[..i]] + Split(s[i + 1..], c)
  }

  lemma {:induction false} FindIn(a: string, c: char, b: string)
    requires c !in a
    ensures Find(a + [c] + b, c) == |a|
  {
    var s := a + [c] + b;
    if a != [] {
      assert s[1..] == a[1..] + [c] + b;
      FindIn(a[1..], c, b);
    }
  }

  lemma FindNowhere(a: string, c: char)
    requires c !in a
    ensures Find(a, c) == |a|
  {
  }

  lemma LinesCons(line: string, rest: string)
    requires '\n' !in line
    ensures Lines(line + "\n" + rest) == [StripCr(line)] + Lines(rest)
  {
    FindIn(line, '\n', rest);
    var text := line + "\n" + rest;
    assert text[..|line|] == line && text[|line| + 1..] == rest;
  }

  lemma SplitCons(a: string, c: char, rest: string)
    requires c !in a
    ensures Split(a + [c] + rest, c) == [a] + Split(rest, c)
  {
    FindIn(a, c, rest);
    var s := a + [c] + rest;
    assert s[..|a|] == a && s[|a| + 1..] == rest;
  }

  /** The pieces hold none of the separator, and nothing the text does not. */
  lemma {:induction false} PiecesAreClean(s: string, c: char, x: char)
    requires x !in s
    ensures forall p :: p in Split(s, c) ==> c !in p && x !in p
    decreases |s|
  {
    var i := Find(s, c);
    if i < |s| {
      assert forall y :: y in s[i + 1..] ==> y in s;
      PiecesAreClean(s[i + 1..], c, x);
    } else {
      assert s[..i] == s;
    }
  }

  lemma {:induction false} LinesAreClean(text: string)
    ensures forall line :: line in Lines(text) ==> '\n' !in line
    decreases |text|
  {
    if text != [] {
      var i := Find(text, '\n');
      if i < |text| {
        LinesAreClean(text[i + 1..]);
      } else {
        assert text[..i] == text;
      }
    }
  }

  // ----- the entry as text, and back ------------------------------------------------------------------

  function LoadsText(loads: seq<string>): string {
    if loads == [] then [] else "\t" + loads[0] + LoadsText(loads[1..])
  }

  function PosText(pos: Option<Pos>): string {
    if pos.Some? then Digits(pos.value.line) + "\t" + Digits(pos.value.col) + "\t" else "-" + "\t" + "-" + "\t"
  }

  function WarnLine(w: Warning): string {
    PosText(w.pos) + Escape(w.msg)
  }

  function WarnText(warnings: seq<Warning>): string {
    if warnings == [] then [] else WarnLine(warnings[0]) + "\n" + WarnText(warnings[1..])
  }

  function Written(e: Entry): string {
    MAGIC + "\n" + (("loads" + LoadsText(e.loads)) + "\n" + WarnText(e.warnings))
  }

  /** A 32-bit number: an optional plus sign, digits, no overflow. */
  function ParseU32(s: string): Option<u32> {
    var digits := if |s| > 1 && s[0] == '+' then s[1..] else s;
    if digits == [] || !AllDigits(digits) || Value(digits) >= 0x1_0000_0000 then None else Some(Value(digits))
  }

  /** Three fields, the last of which is everything after the second tab. */
  function ParseWarn(line: string): Option<Warning> {
    var i := Find(line, '\t');
    if i == |line| then None
    else
      var after := line[i + 1..];
      var j := Find(after, '\t');
      if j == |after| then None
      else
        WarningOf(line[..i], after[..j], Unescaped(after[j + 1..]))
  }

  function ParseWarns(lines: seq<string>): Option<seq<Warning>> {
    if lines == [] then Some([])
    else
      var w, rest := ParseWarn(lines[0]), ParseWarns(lines[1..]);
      if w.None? || rest.None? then None else Some([w.value] + rest.value)
  }

  function NonEmpty(parts: seq<string>): seq<string> {
    if parts == [] then [] else (if parts[0] == [] then [] else [parts[0]]) + NonEmpty(parts[1..])
  }

  function ParseLoads(line: string): Option<seq<string>> {
    if |line| < 5 || line[..5] != "loads" then None else Some(NonEmpty(Split(line[5..], '\t')))
  }

  function Read(text: string): Option<Entry> {
    var lines := Lines(text);
    if |lines| < 2 || lines[0] != MAGIC then None
    else
      var loads, warnings := ParseLoads(lines[1]), ParseWarns(lines[2..]);
      if loads.None? || warnings.None? then None else Some(Entry(loads.value, warnings.value))
  }

  // ----- a warning's line --------------------------------------------------------------------------------

  lemma ParseDigits(n: u32)
    ensures ParseU32(Digits(n)) == Some(n) && Digits(n) != "-" && '\t' !in Digits(n) && '\n' !in Digits(n)
  {
    DigitsHaveValue(n);
    assert forall c :: c in Digits(n) ==> IsDigit(c);
    assert IsDigit(Digits(n)[0]);
  }

  lemma FieldsFound(l: string, c: string, rest: string)
    requires '\t' !in l && '\t' !in c
    ensures var line := l + "\t" + c + "\t" + rest;
            && Find(line, '\t') == |l| && line[..|l|] == l
            && Find(line[|l| + 1..], '\t') == |c| && line[|l| + 1..][..|c|] == c && line[|l| + 1..][|c| + 1..] == rest
  {
    var line, after := l + "\t" + c + "\t" + rest, c + "\t" + rest;
    assert line == l + "\t" + after && line[|l| + 1..] == after;
    FindIn(l, '\t', after);
    FindIn(c, '\t', rest);
    assert after[..|c|] == c && after[|c| + 1..] == rest;
  }

  function WarningOf(l: string, c: string, msg: string): Option<Warning> {
    if l == "-" then Some(Warning(None, msg))
    else
      var line, col := ParseU32(l), ParseU32(c);
      if line.None? || col.None? then None else Some(Warning(Some(Pos(line.value, col.value)), msg))
  }

  lemma ParseFields(l: string, c: string, rest: string)
    requires '\t' !in l && '\t' !in c
    ensures ParseWarn(l + "\t" + c + "\t" + rest) == WarningOf(l, c, Unescaped(rest))
  {
    FieldsFound(l, c, rest);
  }

  lemma WarnLineParses(w: Warning)
    ensures ParseWarn(WarnLine(w)) == Some(w)
  {
    UnescapeInverts(w.msg);
    if w.pos.Some? {
      var l, c := w.pos.value.line, w.pos.value.col;
      ParseDigits(l);
      ParseDigits(c);
      ParseFields(Digits(l), Digits(c), Escape(w.msg));
    } else {
      ParseFields("-", "-", Escape(w.msg));
    }
  }

  lemma PosTextStaysOnLine(pos: Option<Pos>)
    ensures '\n' !in PosText(pos) && PosText(pos) != [] && PosText(pos)[|PosText(pos)| - 1] == '\t'
  {
    if pos.Some? {
      ParseDigits(pos.value.line);
      ParseDigits(pos.value.col);
    }
  }

  /** A line end takes a carriage return from the message, if it ends in one. */
  lemma CrIsTheMessages(w: Warning)
    ensures StripCr(WarnLine(w)) == WarnLine(w.(msg := StripCr(w.msg)))
  {
    PosTextStaysOnLine(w.pos);
    EscapeKeepsCr(w.msg);
    StripCrAfter(PosText(w.pos), Escape(w.msg));
  }

  lemma StripCrAfter(front: string, s: string)
    requires front != [] && front[|front| - 1] != '\r'
    ensures StripCr(front + s) == front + StripCr(s)
  {
  }

  lemma EscapeKeepsCr(msg: string)
    ensures StripCr(Escape(msg)) == Escape(StripCr(msg))
  {
    if msg != [] {
      var front, last := msg[..|msg| - 1], msg[|msg| - 1];
      assert msg == front + [last];
      EscapeAppend(front, [last]);
      EscapeFirst([last]);
      assert Escape([last][1..]) == [] by {
        assert [last][1..] == [];
      }
      assert Escape(msg) == Escape(front) + EscapeChar(last);
    }
  }

  /** Warnings as they come back: each message without a final carriage return. */
  function WithoutCr(warnings: seq<Warning>): seq<Warning> {
    if warnings == [] then [] else [warnings[0].(msg := StripCr(warnings[0].msg))] + WithoutCr(warnings[1..])
  }

  lemma {:induction false} WarningsRead(warnings: seq<Warning>)
    ensures ParseWarns(Lines(WarnText(warnings))) == Some(WithoutCr(warnings))
  {
    if warnings != [] {
      var w, rest := warnings[0], WarnText(warnings[1..]);
      PosTextStaysOnLine(w.pos);
      EscapeHasNoNewline(w.msg);
      LinesCons(WarnLine(w), rest);
      CrIsTheMessages(w);
      WarnLineParses(w.(msg := StripCr(w.msg)));
      WarningsRead(warnings[1..]);
      assert ([StripCr(WarnLine(w))] + Lines(rest))[1..] == Lines(rest);
    }
  }

  // ----- the line of modules ------------------------------------------------------------------------------

  predicate OneLine(names: seq<string>) {
    forall m :: m in names ==> '\t' !in m && '\n' !in m
  }

  lemma {:induction false} NamesSplit(loads: seq<string>)
    requires loads != [] && OneLine(loads)
    ensures Split(loads[0] + LoadsText(loads[1..]), '\t') == loads
    decreases |loads|
  {
    var m, others := loads[0], loads[1..];
    assert m in loads && loads == [m] + others;
    if others == [] {
      assert m + LoadsText(others) == m;
      FindNowhere(m, '\t');
    } else {
      var rest := others[0] + LoadsText(others[1..]);
      assert m + LoadsText(others) == m + "\t" + rest;
      SplitCons(m, '\t', rest);
      NamesSplit(others);
    }
  }

  lemma LoadsSplit(loads: seq<string>)
    requires OneLine(loads)
    ensures Split(LoadsText(loads), '\t') == [""] + loads
  {
    if loads != [] {
      var names := loads[0] + LoadsText(loads[1..]);
      assert LoadsText(loads) == "" + "\t" + names;
      SplitCons("", '\t', names);
      NamesSplit(loads);
    }
  }

  lemma {:induction false} LoadsTextAppend(loads: seq<string>, last: string)
    ensures LoadsText(loads + [last]) == LoadsText(loads) + "\t" + last
  {
    if loads == [] {
      assert loads + [last] == [last] && LoadsText([last][1..]) == [];
    } else {
      assert (loads + [last])[1..] == loads[1..] + [last];
      LoadsTextAppend(loads[1..], last);
    }
  }

  lemma {:induction false} LoadsStayOnLine(loads: seq<string>)
    requires OneLine(loads)
    ensures '\n' !in LoadsText(loads)
  {
    if loads != [] {
      LoadsStayOnLine(loads[1..]);
    }
  }

  /** The line end takes a carriage return from the last name. */
  function LastWithoutCr(loads: seq<string>): seq<string> {
    if loads == [] then [] else loads[..|loads| - 1] + [StripCr(loads[|loads| - 1])]
  }

  lemma CrIsTheLastNames(loads: seq<string>)
    ensures StripCr("loads" + LoadsText(loads)) == "loads" + LoadsText(LastWithoutCr(loads))
  {
    if loads != [] {
      var front, last := loads[..|loads| - 1], loads[|loads| - 1];
      assert loads == front + [last];
      LoadsTextAppend(front, last);
      LoadsTextAppend(front, StripCr(last));
      var head := "loads" + LoadsText(front) + "\t";
      assert "loads" + LoadsText(loads) == head + last;
      StripCrAfter(head, last);
      assert head + StripCr(last) == "loads" + (LoadsText(front) + "\t" + StripCr(last));
    }
  }

  lemma LastStaysOnLine(loads: seq<string>)
    requires OneLine(loads)
    ensures OneLine(LastWithoutCr(loads))
  {
    if loads != [] {
      assert loads[|loads| - 1] in loads;
    }
  }

  lemma LoadsRead(loads: seq<string>)
    requires OneLine(loads)
    ensures ParseLoads(StripCr("loads" + LoadsText(loads))) == Some(NonEmpty(LastWithoutCr(loads)))
  {
    CrIsTheLastNames(loads);
    LastStaysOnLine(loads);
    var kept := LastWithoutCr(loads);
    LoadsSplit(kept);
    var line := "loads" + LoadsText(kept);
    assert line[..5] == "loads" && line[5..] == LoadsText(kept);
    EmptyFirst(kept);
  }

  lemma EmptyFirst(parts: seq<string>)
    ensures NonEmpty([""] + parts) == NonEmpty(parts)
  {
    assert ([""] + parts)[1..] == parts && [] + NonEmpty(parts) == NonEmpty(parts);
  }

  lemma {:induction false} NonEmptyNames(parts: seq<string>)
    ensures |NonEmpty(parts)| <= |parts| && ([] in parts ==> |NonEmpty(parts)| < |parts|)
    ensures forall m :: m in NonEmpty(parts) <==> m in parts && m != []
    ensures NonEmpty(parts) == parts <==> [] !in parts
  {
    if parts != [] {
      NonEmptyNames(parts[1..]);
      assert parts == [parts[0]] + parts[1..];
    }
  }

  // ----- the entry ------------------------------------------------------------------------------------------

  lemma MagicIsALine()
    ensures StripCr(MAGIC) == MAGIC && '\n' !in MAGIC
  {
  }

  lemma LinesOfTwo(first: string, second: string, rest: string)
    requires '\n' !in first && '\n' !in second
    ensures Lines(first + "\n" + (second + "\n" + rest)) == [StripCr(first), StripCr(second)] + Lines(rest)
  {
    LinesCons(first, second + "\n" + rest);
    LinesCons(second, rest);
  }

  lemma LinesOfWritten(e: Entry)
    requires OneLine(e.loads)
    ensures Lines(Written(e)) == [MAGIC, StripCr("loads" + LoadsText(e.loads))] + Lines(WarnText(e.warnings))
  {
    MagicIsALine();
    LoadsStayOnLine(e.loads);
    LinesOfTwo(MAGIC, "loads" + LoadsText(e.loads), WarnText(e.warnings));
  }

  lemma ReadOfLines(text: string, loads: string, rest: seq<string>)
    requires Lines(text) == [MAGIC, loads] + rest && ParseLoads(loads).Some? && ParseWarns(rest).Some?
    ensures Read(text) == Some(Entry(ParseLoads(loads).value, ParseWarns(rest).value))
  {
    assert ([MAGIC, loads] + rest)[2..] == rest;
  }

  /** What reading a written entry gives, when each module name stays in its field. */
  lemma WhatIsRead(e: Entry)
    requires OneLine(e.loads)
    ensures Read(Written(e)) == Some(Entry(NonEmpty(LastWithoutCr(e.loads)), WithoutCr(e.warnings)))
  {
    LinesOfWritten(e);
    LoadsRead(e.loads);
    WarningsRead(e.warnings);
    ReadOfLines(Written(e), StripCr("loads" + LoadsText(e.loads)), Lines(WarnText(e.warnings)));
  }

  predicate EndsInCr(s: string) {
    s != [] && s[|s| - 1] == '\r'
  }

  /** Nothing in the entry is eaten by the line format. */
  predicate Survives(e: Entry) {
    && OneLine(e.loads) && [] !in e.loads
    && (e.loads != [] ==> !EndsInCr(e.loads[|e.loads| - 1]))
    && forall w :: w in e.warnings ==> !EndsInCr(w.msg)
  }

  lemma {:induction false} WarningsSurvive(warnings: seq<Warning>)
    ensures WithoutCr(warnings) == warnings <==> forall w :: w in warnings ==> !EndsInCr(w.msg)
  {
    if warnings != [] {
      WarningsSurvive(warnings[1..]);
      assert warnings == [warnings[0]] + warnings[1..];
    }
  }

  lemma LoadsSurvive(loads: seq<string>)
    requires [] !in loads
    ensures NonEmpty(LastWithoutCr(loads)) == loads <==> (loads != [] ==> !EndsInCr(loads[|loads| - 1]))
  {
    NonEmptyNames(LastWithoutCr(loads));
    if loads != [] {
      assert LastWithoutCr(loads)[|loads| - 1] == StripCr(loads[|loads| - 1]);
      assert loads == loads[..|loads| - 1] + [loads[|loads| - 1]];
    }
  }

  /** Whatever a read returns, its module names are clean. */
  lemma ReadNamesAreClean(text: string)
    requires Read(text).Some?
    ensures OneLine(Read(text).value.loads) && [] !in Read(text).value.loads
  {
    LinesAreClean(text);
    var line := Lines(text)[1];
    assert line in Lines(text);
    PiecesAreClean(line[5..], '\t', '\n');
    NonEmptyNames(Split(line[5..], '\t'));
  }

  /** A written entry is read back exactly when it survives the line format, for any number of modules and warnings. */
  lemma RoundTripExactlyWhenSurvives(e: Entry)
    ensures Read(Written(e)) == Some(e) <==> Survives(e)
  {
    if Read(Written(e)) == Some(e) {
      ReadNamesAreClean(Written(e));
    }
    if OneLine(e.loads) && [] !in e.loads {
      WhatIsRead(e);
      LoadsSurvive(e.loads);
      WarningsSurvive(e.warnings);
    }
  }

  // ----- the writer and the reader -----------------------------------------------------------------------------

  lemma {:induction false} WarnTextAppend(warnings: seq<Warning>, last: Warning)
    ensures WarnText(warnings + [last]) == WarnText(warnings) + (WarnLine(last) + "\n")
  {
    if warnings == [] {
      assert warnings + [last] == [last] && WarnText([last][1..]) == [];
    } else {
      assert (warnings + [last])[1..] == warnings[1..] + [last];
      WarnTextAppend(warnings[1..], last);
    }
  }

  method WriteLoads(loads: seq<string>) returns (text: string)
    ensures text == "loads" + LoadsText(loads)
  {
    text := "loads";
    for i := 0 to |loads|
      invariant text == "loads" + LoadsText(loads[..i])
    {
      LoadsTextAppend(loads[..i], loads[i]);
      assert loads[..i + 1] == loads[..i] + [loads[i]];
      text := text + "\t";
      text := text + loads[i];
    }
    assert loads[..|loads|] == loads;
  }

  method WriteWarning(text: string, w: Warning) returns (longer: string)
    ensures longer == text + (WarnLine(w) + "\n")
  {
    longer := text + PosText(w.pos);
    longer := longer + Escape(w.msg);
    longer := longer + "\n";
  }

  lemma NextWarning(warnings: seq<Warning>, i: nat)
    requires i < |warnings|
    ensures WarnText(warnings[..i + 1]) == WarnText(warnings[..i]) + (WarnLine(warnings[i]) + "\n")
  {
    WarnTextAppend(warnings[..i], warnings[i]);
    assert warnings[..i + 1] == warnings[..i] + [warnings[i]];
  }

  method WriteWarnings(warnings: seq<Warning>) returns (text: string)
    ensures text == WarnText(warnings)
  {
    text := "";
    for i := 0 to |warnings|
      invariant text == WarnText(warnings[..i])
    {
      NextWarning(warnings, i);
      text := WriteWarning(text, warnings[i]);
    }
    assert warnings[..|warnings|] == warnings;
  }

  method WriteEntry(e: Entry) returns (text: string)
    ensures text == Written(e)
  {
    var loads := WriteLoads(e.loads);
    var warnings := WriteWarnings(e.warnings);
    text := MAGIC + "\n" + (loads + "\n" + warnings);
  }

  method ReadWarn(line: string) returns (w: Option<Warning>)
    ensures w == ParseWarn(line)
  {
    var i := Find(line, '\t');
    if i == |line| {
      return None;
    }
    var after := line[i + 1..];
    var j := Find(after, '\t');
    if j == |after| {
      return None;
    }
    var msg := Unescape(after[j + 1..]);
    w := WarningOf(line[..i], after[..j], msg);
  }

  ghost function After(out: seq<Warning>, rest: Option<seq<Warning>>): Option<seq<Warning>> {
    if rest.None? then None else Some(out + rest.value)
  }

  lemma AfterNext(out: seq<Warning>, lines: seq<string>)
    requires lines != []
    ensures After(out, ParseWarns(lines)) ==
            if ParseWarn(lines[0]).None? then None else After(out + [ParseWarn(lines[0]).value], ParseWarns(lines[1..]))
  {
    var w, rest := ParseWarn(lines[0]), ParseWarns(lines[1..]);
    if w.Some? && rest.Some? {
      assert out + [w.value] + rest.value == out + ([w.value] + rest.value);
    }
  }

  method ReadWarnings(lines: seq<string>) returns (warnings: Option<seq<Warning>>)
    ensures warnings == ParseWarns(lines)
  {
    var out: seq<Warning> := [];
    ghost var all := ParseWarns(lines);
    assert lines[0..] == lines && (all.Some? ==> [] + all.value == all.value);
    for i := 0 to |lines|
      invariant all == After(out, ParseWarns(lines[i..]))
    {
      AfterNext(out, lines[i..]);
      assert lines[i..][1..] == lines[i + 1..];
      var w := ReadWarn(lines[i]);
      if w.None? {
        return None;
      }
      out := out + [w.value];
    }
    assert lines[|lines|..] == [] && out + [] == out;
    warnings := Some(out);
  }

  /** A miss is `None`: too few lines, another magic, or a malformed line. */
  method ReadEntry(text: string) returns (e: Option<Entry>)
    ensures e == Read(text)
  {
    var lines := Lines(text);
    if |lines| < 2 || lines[0] != MAGIC {
      return None;
    }
    var loads := ParseLoads(lines[1]);
    if loads.None? {
      return None;
    }
    var warnings := ReadWarnings(lines[2..]);
    e := if warnings.None? then None else Some(Entry(loads.value, warnings.value));
  }

  // ----- what is read ------------------------------------------------------------------------------------------

  /** Decimal digits, perhaps with zeros or one plus sign in front, of a 32-bit number. */
  ghost predicate NumberDenotes(s: string, n: nat) {
    n < 0x1_0000_0000 && exists zeros: nat :: s == Zeros(zeros) + Digits(n) || s == "+" + (Zeros(zeros) + Digits(n))
  }

  lemma DigitsRead(digits: string)
    requires AllDigits(digits) && digits != []
    ensures digits[0] != '+'
  {
    assert IsDigit(digits[0]);
  }

  lemma NumbersReadExactly(s: string, n: nat)
    ensures ParseU32(s) == Some(n) <==> NumberDenotes(s, n)
  {
    if ParseU32(s) == Some(n) {
      var digits := if |s| > 1 && s[0] == '+' then s[1..] else s;
      var zeros := DigitsAreCanonical(digits);
      assert digits != s ==> s == "+" + digits;
    }
    if n < 0x1_0000_0000 {
      forall zeros: nat | s == Zeros(zeros) + Digits(n) || s == "+" + (Zeros(zeros) + Digits(n))
        ensures ParseU32(s) == Some(n)
      {
        var digits := Zeros(zeros) + Digits(n);
        DigitsHaveValue(n);
        ZerosAddNothing(zeros, Digits(n));
        DigitsRead(digits);
        assert s != digits ==> s[1..] == digits;
      }
    }
  }

  /** Two tabs make three fields: a position or a dash, and an escaped message, which may hold further tabs. */
  ghost predicate WarningDenotes(line: string, w: Warning) {
    exists l, c, m :: FieldsDenote(line, l, c, m, w)
  }

  ghost predicate FieldsDenote(line: string, l: string, c: string, m: string, w: Warning) {
    && line == l + "\t" + c + "\t" + m && '\t' !in l && '\t' !in c && w.msg == Unescaped(m)
    && if l == "-" then w.pos.None?
       else w.pos.Some? && NumberDenotes(l, w.pos.value.line) && NumberDenotes(c, w.pos.value.col)
  }

  lemma FieldsReadExactly(l: string, c: string, m: string, w: Warning)
    requires '\t' !in l && '\t' !in c
    ensures ParseWarn(l + "\t" + c + "\t" + m) == Some(w) <==> FieldsDenote(l + "\t" + c + "\t" + m, l, c, m, w)
  {
    ParseFields(l, c, m);
    if w.pos.Some? {
      NumbersReadExactly(l, w.pos.value.line);
      NumbersReadExactly(c, w.pos.value.col);
    }
  }

  lemma CutAt(s: string, c: char) returns (before: string, rest: string)
    requires Find(s, c) < |s|
    ensures s == before + [c] + rest && c !in before
    ensures before == s[..Find(s, c)] && rest == s[Find(s, c) + 1..]
  {
    before, rest := s[..Find(s, c)], s[Find(s, c) + 1..];
  }

  lemma TwoTabs(line: string)
    requires ParseWarn(line).Some?
    ensures Find(line, '\t') < |line|
    ensures var after := line[Find(line, '\t') + 1..]; Find(after, '\t') < |after|
  {}

  lemma Rejoined(l: string, c: string, m: string)
    ensures l + ['\t'] + (c + ['\t'] + m) == l + "\t" + c + "\t" + m
  {
    assert ['\t'] == "\t";
    assert l + "\t" + (c + "\t" + m) == l + "\t" + c + "\t" + m;
  }

  /** A line that is read at all has two tabs. */
  lemma LineHasFields(line: string) returns (l: string, c: string, m: string)
    requires ParseWarn(line).Some?
    ensures line == l + "\t" + c + "\t" + m && '\t' !in l && '\t' !in c
  {
    TwoTabs(line);
    var after: string;
    l, after := CutAt(line, '\t');
    c, m := CutAt(after, '\t');
    Rejoined(l, c, m);
  }

  lemma WarningReadExactly(line: string, w: Warning)
    ensures ParseWarn(line) == Some(w) <==> WarningDenotes(line, w)
  {
    if ParseWarn(line) == Some(w) {
      var l, c, m := LineHasFields(line);
      FieldsReadExactly(l, c, m, w);
    }
    if l, c, m :| FieldsDenote(line, l, c, m, w) {
      FieldsReadExactly(l, c, m, w);
    }
  }

  ghost predicate WarningsDenote(lines: seq<string>, warnings: seq<Warning>) {
    |lines| == |warnings| && forall i :: 0 <= i < |lines| ==> WarningDenotes(lines[i], warnings[i])
  }

  lemma WarningsCons(line: string, lines: seq<string>, w: Warning, warnings: seq<Warning>)
    ensures WarningsDenote([line] + lines, [w] + warnings) <==> WarningDenotes(line, w) && WarningsDenote(lines, warnings)
  {
    var all, ws := [line] + lines, [w] + warnings;
    if WarningsDenote(all, ws) {
      assert all[0] == line && ws[0] == w;
      forall i | 0 <= i < |lines| ensures WarningDenotes(lines[i], warnings[i]) {
        assert all[i + 1] == lines[i] && ws[i + 1] == warnings[i];
      }
    }
    if WarningDenotes(line, w) && WarningsDenote(lines, warnings) {
      forall i | 0 <= i < |all| ensures WarningDenotes(all[i], ws[i]) {
        assert i > 0 ==> all[i] == lines[i - 1] && ws[i] == warnings[i - 1];
      }
    }
  }

  lemma {:induction false} WarningsReadExactly(lines: seq<string>, warnings: seq<Warning>)
    ensures ParseWarns(lines) == Some(warnings) <==> WarningsDenote(lines, warnings)
  {
    if lines != [] && warnings != [] {
      WarningReadExactly(lines[0], warnings[0]);
      WarningsReadExactly(lines[1..], warnings[1..]);
      WarningsCons(lines[0], lines[1..], warnings[0], warnings[1..]);
      assert warnings == [warnings[0]] + warnings[1..] && lines == [lines[0]] + lines[1..];
      if ParseWarns(lines).Some? {
        assert ParseWarns(lines).value[1..] == ParseWarns(lines[1..]).value;
      }
    }
  }

  /** The magic, a line of module names, and a line for each warning. */
  ghost predicate EntryDenotes(text: string, e: Entry) {
    var lines := Lines(text);
    && |lines| >= 2 && lines[0] == "brood-run-check-v2"
    && (exists names :: lines[1] == "loads" + names && e.loads == NonEmpty(Split(names, '\t')))
    && WarningsDenote(lines[2..], e.warnings)
  }

  lemma LoadsReadExactly(line: string, loads: seq<string>)
    ensures ParseLoads(line) == Some(loads) <==> exists names :: line == "loads" + names && loads == NonEmpty(Split(names, '\t'))
  {
    if ParseLoads(line) == Some(loads) {
      assert line == "loads" + line[5..];
    }
    if names :| line == "loads" + names && loads == NonEmpty(Split(names, '\t')) {
      assert line[5..] == names && line[..5] == "loads";
    }
  }

  /** A text is read as an entry exactly when it is one; every other text is a miss. */
  lemma ReadsExactlyEntries(text: string, e: Entry)
    ensures Read(text) == Some(e) <==> EntryDenotes(text, e)
  {
    var lines := Lines(text);
    if |lines| >= 2 {
      LoadsReadExactly(lines[1], e.loads);
      WarningsReadExactly(lines[2..], e.warnings);
    }
  }
}
