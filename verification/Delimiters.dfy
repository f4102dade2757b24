/**
 Closing what a half-typed buffer leaves open, so that the strict reader can read it: a scan
 that knows strings, escapes and comments, then the missing closers. The closers are not only
 enough but the shortest that are, and the only shortest ones; and the one case in which they
 miss, a buffer cut off after a backslash inside a string, is the only one.
 */
module Delimiters {
  import opened Wrappers

  datatype State = Code | Str | StrEscape | Comment

  /** Where the scan stands, and the closers it still expects, innermost last. */
  datatype Scan = Scan(state: State, open: seq<char>)

  const START := Scan(Code, [])

  predicate IsCloser(c: char) {
    c == ')' || c == ']' || c == '}'
  }

  function Pop(open: seq<char>): seq<char> {
    if open == [] then [] else open[..|open| - 1]
  }

  function StepCode(open: seq<char>, c: char): Scan {
    if c == '"' then Scan(Str, open)
    else if c == ';' then Scan(Comment, open)
    else if c == '(' then Scan(Code, open + [')'])
    else if c == '[' then Scan(Code, open + [']'])
    else if c == '{' then Scan(Code, open + ['}'])
    else if IsCloser(c) then Scan(Code, Pop(open))
    else Scan(Code, open)
  }

  function Step(s: Scan, c: char): Scan {
    match s.state
    case Str => s.(state := if c == '\\' then StrEscape else if c == '"' then Code else Str)
    case StrEscape => s.(state := Str)
    case Comment => s.(state := if c == '\n' then Code else Comment)
    case Code => StepCode(s.open, c)
  }

  function ScanFrom(s: Scan, text: string): Scan
    decreases |text|
  {
    if text == [] then s else ScanFrom(Step(s, text[0]), text[1..])
  }

  /** The closers, innermost first. */
  function Unwind(open: seq<char>): string {
    if open == [] then [] else [open[|open| - 1]] + Unwind(Pop(open))
  }

  /** What leads from a state back to code. */
  function Leave(state: State): string {
    match state
    case Str => "\""
    case StrEscape => "\""
    case Comment => "\n"
    case Code => ""
  }

  function Closers(s: Scan): string {
    Leave(s.state) + Unwind(s.open)
  }

  function Closed(source: string): string {
    source + Closers(ScanFrom(START, source))
  }

  method ScanSource(source: string) returns (state: State, open: seq<char>)
    ensures Scan(state, open) == ScanFrom(START, source)
  {
    state, open := Code, [];
    assert source[0..] == source;
    for i := 0 to |source|
      invariant ScanFrom(START, source) == ScanFrom(Scan(state, open), source[i..])
    {
      var next := Step(Scan(state, open), source[i]);
      assert source[i..][1..] == source[i + 1..];
      state, open := next.state, next.open;
    }
    assert source[|source|..] == [];
  }

  method PopAll(text: string, all: seq<char>) returns (closed: string)
    ensures closed == text + Unwind(all)
  {
    closed := text;
    var open := all;
    while open != []
      invariant text + Unwind(all) == closed + Unwind(open)
      decreases |open|
    {
      assert closed + ([open[|open| - 1]] + Unwind(Pop(open))) == closed + [open[|open| - 1]] + Unwind(Pop(open));
      closed := closed + [open[|open| - 1]];
      open := Pop(open);
    }
    assert closed + [] == closed;
  }

  method CloseOpenDelimiters(source: string) returns (closed: string)
    ensures closed == Closed(source)
  {
    var state, open := ScanSource(source);
    closed := source;
    match state {
      case Str => closed := closed + ['"'];
      case StrEscape => closed := closed + ['"'];
      case Comment => closed := closed + ['\n'];
      case Code =>
    }
    assert closed == source + Leave(state);
    closed := PopAll(closed, open);
    assert closed == source + (Leave(state) + Unwind(open));
  }

  // ----- scanning the closers ---------------------------------------------------------------------------

  lemma {:induction false} ScanAppend(s: Scan, a: string, b: string)
    ensures ScanFrom(s, a + b) == ScanFrom(ScanFrom(s, a), b)
    decreases |a|
  {
    if a == [] {
      assert a + b == b;
    } else {
      assert (a + b)[1..] == a[1..] + b;
      ScanAppend(Step(s, a[0]), a[1..], b);
    }
  }

  predicate AllClosers(open: seq<char>) {
    forall i :: 0 <= i < |open| ==> IsCloser(open[i])
  }

  lemma {:induction false} OpenAreClosers(s: Scan, text: string)
    requires AllClosers(s.open)
    ensures AllClosers(ScanFrom(s, text).open)
    decreases |text|
  {
    if text != [] {
      OpenAreClosers(Step(s, text[0]), text[1..]);
    }
  }

  lemma CloserPops(open: seq<char>)
    requires open != [] && AllClosers(open)
    ensures Step(Scan(Code, open), open[|open| - 1]) == Scan(Code, Pop(open)) && AllClosers(Pop(open))
  {
    assert IsCloser(open[|open| - 1]);
  }

  lemma UnwindFirst(open: seq<char>)
    requires open != []
    ensures Unwind(open) != [] && Unwind(open)[0] == open[|open| - 1] && Unwind(open)[1..] == Unwind(Pop(open))
  {
    var last, rest := open[|open| - 1], Unwind(Pop(open));
    assert Unwind(open) == [last] + rest;
    assert ([last] + rest)[1..] == rest;
  }

  lemma {:induction false} UnwindCloses(open: seq<char>)
    requires AllClosers(open)
    ensures ScanFrom(Scan(Code, open), Unwind(open)) == START
    decreases |open|
  {
    if open != [] {
      CloserPops(open);
      UnwindFirst(open);
      UnwindCloses(Pop(open));
    }
  }

  /** Inside a string the closers are only text. */
  lemma {:induction false} UnwindInString(keep: seq<char>, open: seq<char>)
    requires AllClosers(open)
    ensures ScanFrom(Scan(Str, keep), Unwind(open)) == Scan(Str, keep)
    decreases |open|
  {
    if open != [] {
      UnwindInString(keep, Pop(open));
      assert Unwind(open)[1..] == Unwind(Pop(open));
    }
  }

  lemma ClosersScan(s: Scan)
    requires AllClosers(s.open)
    ensures ScanFrom(s, Closers(s)) == if s.state == StrEscape then Scan(Str, s.open) else START
  {
    ScanAppend(s, Leave(s.state), Unwind(s.open));
    if s.state == Code {
      assert Closers(s) == Unwind(s.open);
    } else {
      assert Leave(s.state)[1..] == [];
      assert ScanFrom(s, Leave(s.state)) == Step(s, Leave(s.state)[0]);
    }
    UnwindCloses(s.open);
    UnwindInString(s.open, s.open);
  }

  /** The scan of the closed buffer. */
  lemma ScanOfClosed(source: string)
    ensures var s := ScanFrom(START, source);
            ScanFrom(START, Closed(source)) == if s.state == StrEscape then Scan(Str, s.open) else START
  {
    var s := ScanFrom(START, source);
    OpenAreClosers(START, source);
    ScanAppend(START, source, Closers(s));
    ClosersScan(s);
  }

  /** The closed buffer extends the source, and is closed exactly when the source did not stop just after a backslash in a string. */
  lemma ClosesExactlyUnlessEscaped(source: string)
    ensures source <= Closed(source)
    ensures ScanFrom(START, Closed(source)) == START <==> ScanFrom(START, source).state != StrEscape
  {
    ScanOfClosed(source);
  }

  /** Closing again adds nothing, under the same condition; closing twice is always enough. */
  lemma ClosingAgainAddsNothing(source: string)
    ensures Closed(Closed(source)) == Closed(source) <==> ScanFrom(START, source).state != StrEscape
    ensures Closed(Closed(Closed(source))) == Closed(Closed(source))
  {
    ScanOfClosed(source);
    ScanOfClosed(Closed(source));
    NothingToClose(Closed(Closed(source)));
    if ScanFrom(START, source).state != StrEscape {
      NothingToClose(Closed(source));
    }
  }

  lemma NothingToClose(source: string)
    requires ScanFrom(START, source) == START
    ensures Closed(source) == source
  {
    assert Closers(START) == [];
  }

  // ----- the shortest completion -----------------------------------------------------------------------------

  /** How many characters at least lead from a scan to closed code. */
  function Need(s: Scan): nat {
    |s.open| + match s.state case Code => 0 case Str => 1 case Comment => 1 case StrEscape => 2
  }

  lemma NeedDropsByOne(s: Scan, c: char)
    ensures Need(Step(s, c)) >= Need(s) - 1
  {
  }

  lemma {:induction false} NeedIsNeeded(s: Scan, text: string)
    ensures Need(ScanFrom(s, text)) >= Need(s) - |text|
    decreases |text|
  {
    if text != [] {
      NeedDropsByOne(s, text[0]);
      NeedIsNeeded(Step(s, text[0]), text[1..]);
    }
  }

  lemma {:induction false} UnwindLength(open: seq<char>)
    ensures |Unwind(open)| == |open|
    decreases |open|
  {
    if open != [] {
      UnwindLength(Pop(open));
    }
  }

  /** No shorter text closes the source. */
  lemma NoShorterCompletion(source: string, text: string)
    requires ScanFrom(START, source + text) == START
    ensures |source + text| >= |Closed(source)|
  {
    var s := ScanFrom(START, source);
    ScanAppend(START, source, text);
    NeedIsNeeded(s, text);
    UnwindLength(s.open);
  }

  // ----- the strict reader's discipline --------------------------------------------------------------------------

  /** A closer must be the one that is expected; any other ends the reading. */
  function StrictFrom(s: Scan, text: string): Option<Scan>
    decreases |text|
  {
    if text == [] then Some(s)
    else if s.state == Code && IsCloser(text[0]) && (s.open == [] || s.open[|s.open| - 1] != text[0]) then None
    else StrictFrom(Step(s, text[0]), text[1..])
  }

  lemma {:induction false} StrictAppend(s: Scan, a: string, b: string)
    ensures StrictFrom(s, a + b) == match StrictFrom(s, a) case None => None case Some(t) => StrictFrom(t, b)
    decreases |a|
  {
    if a == [] {
      assert a + b == b;
    } else {
      assert (a + b)[1..] == a[1..] + b;
      StrictAppend(Step(s, a[0]), a[1..], b);
    }
  }

  lemma {:induction false} StrictIsScan(s: Scan, text: string)
    requires StrictFrom(s, text).Some?
    ensures StrictFrom(s, text).value == ScanFrom(s, text)
    decreases |text|
  {
    if text != [] {
      StrictIsScan(Step(s, text[0]), text[1..]);
    }
  }

  lemma {:induction false} UnwindIsStrict(open: seq<char>)
    requires AllClosers(open)
    ensures StrictFrom(Scan(Code, open), Unwind(open)) == Some(START)
    decreases |open|
  {
    if open != [] {
      CloserPops(open);
      UnwindFirst(open);
      UnwindIsStrict(Pop(open));
    }
  }

  lemma ClosersAreStrict(s: Scan)
    requires AllClosers(s.open) && s.state != StrEscape
    ensures StrictFrom(s, Closers(s)) == Some(START)
  {
    UnwindIsStrict(s.open);
    if s.state == Code {
      assert Closers(s) == Unwind(s.open);
    } else {
      assert Closers(s)[0] == Leave(s.state)[0] && Closers(s)[1..] == Unwind(s.open);
    }
  }

  /** The reader finds the closed buffer balanced exactly when the source has no closer out of place and does not stop after a
      backslash in a string. */
  lemma ReadableExactly(source: string)
    ensures StrictFrom(START, Closed(source)) == Some(START) <==>
            StrictFrom(START, source).Some? && ScanFrom(START, source).state != StrEscape
  {
    var s := ScanFrom(START, source);
    StrictAppend(START, source, Closers(s));
    if StrictFrom(START, source).Some? {
      StrictIsScan(START, source);
      OpenAreClosers(START, source);
      if s.state != StrEscape {
        ClosersAreStrict(s);
      } else {
        ClosersScan(s);
        if StrictFrom(s, Closers(s)).Some? {
          StrictIsScan(s, Closers(s));
        }
      }
    }
  }

  lemma {:induction false} ShortestIsClosers(s: Scan, text: string)
    requires AllClosers(s.open) && s.state != StrEscape
    requires StrictFrom(s, text) == Some(START) && |text| <= Need(s)
    ensures text == Closers(s)
    decreases |text|
  {
    if text != [] {
      var next := Step(s, text[0]);
      StrictIsScan(s, text);
      NeedDropsByOne(s, text[0]);
      NeedIsNeeded(next, text[1..]);
      ShortestIsClosers(next, text[1..]);
    }
  }

  /** Where the reader accepts the closed buffer, its completion is the only one of that length or less. */
  lemma OnlyShortestCompletion(source: string, text: string)
    requires StrictFrom(START, source + text) == Some(START) && ScanFrom(START, source).state != StrEscape
    requires |source + text| <= |Closed(source)|
    ensures source + text == Closed(source)
  {
    var s := ScanFrom(START, source);
    StrictAppend(START, source, text);
    StrictIsScan(START, source);
    OpenAreClosers(START, source);
    UnwindLength(s.open);
    ShortestIsClosers(s, text);
  }
}
