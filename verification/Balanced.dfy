/**
 What the strict reader's discipline accepts, said without a scan: the texts that are printed
 forms. A printed form is built of plain characters, strings in which a backslash goes before
 any quote or backslash, comments that run to the end of their line, and bracketed groups.
 */
module Balanced {
  import opened Wrappers
  import opened Delimiters

  datatype Piece =
    | Plain(c: char)
    | Text(inside: seq<Inside>)
    | Note(words: string)
    | Group(open: char, pieces: seq<Piece>)

  /** One character of a string, as it is or after a backslash. */
  datatype Inside = Bare(c: char) | Escaped(c: char)

  predicate WellFormed(p: Piece) {
    match p
    case Plain(c) => c !in "\";()[]{}"
    case Text(inside) => forall i :: 0 <= i < |inside| && inside[i].Bare? ==> inside[i].c !in "\"\\"
    case Note(words) => '\n' !in words
    case Group(open, pieces) => open in "([{" && AllWellFormed(pieces)
  }

  predicate AllWellFormed(ps: seq<Piece>) {
    forall i :: 0 <= i < |ps| ==> WellFormed(ps[i])
  }

  function Mate(open: char): char {
    if open == '(' then ')' else if open == '[' then ']' else '}'
  }

  function PrintedInside(inside: seq<Inside>): string {
    if inside == [] then []
    else (if inside[0].Bare? then [inside[0].c] else ['\\', inside[0].c]) + PrintedInside(inside[1..])
  }

  function Printed(p: Piece): string {
    match p
    case Plain(c) => [c]
    case Text(inside) => ['"'] + (PrintedInside(inside) + ['"'])
    case Note(words) => [';'] + (words + ['\n'])
    case Group(open, pieces) => [open] + (PrintedAll(pieces) + [Mate(open)])
  }

  function PrintedAll(ps: seq<Piece>): string {
    if ps == [] then [] else Printed(ps[0]) + PrintedAll(ps[1..])
  }

  ghost predicate IsPrinted(text: string) {
    exists ps :: AllWellFormed(ps) && text == PrintedAll(ps)
  }

  // ----- printed forms are accepted -----------------------------------------------------------------------

  lemma StrictCons(s: Scan, c: char, text: string)
    ensures StrictFrom(s, [c] + text) == match StrictFrom(s, [c]) case None => None case Some(t) => StrictFrom(t, text)
  {
    StrictAppend(s, [c], text);
  }

  /** One character of code that is no closer. */
  lemma StrictOne(s: Scan, c: char)
    requires s.state == Code ==> !IsCloser(c)
    ensures StrictFrom(s, [c]) == Some(Step(s, c))
  {
    assert [c][1..] == [];
  }

  lemma {:induction false} InsideIsRead(open: seq<char>, inside: seq<Inside>)
    requires forall i :: 0 <= i < |inside| && inside[i].Bare? ==> inside[i].c !in "\"\\"
    ensures StrictFrom(Scan(Str, open), PrintedInside(inside) + ['"']) == Some(Scan(Code, open))
  {
    var more := PrintedInside(inside) + ['"'];
    if inside == [] {
      StrictOne(Scan(Str, open), '"');
      assert more == ['"'];
    } else {
      var rest := PrintedInside(inside[1..]) + ['"'];
      InsideIsRead(open, inside[1..]);
      var c := inside[0].c;
      if inside[0].Bare? {
        assert more == [c] + rest;
        StrictOne(Scan(Str, open), c);
        StrictCons(Scan(Str, open), c, rest);
      } else {
        assert more == ['\\'] + ([c] + rest);
        StrictOne(Scan(Str, open), '\\');
        StrictCons(Scan(Str, open), '\\', [c] + rest);
        StrictOne(Scan(StrEscape, open), c);
        StrictCons(Scan(StrEscape, open), c, rest);
      }
    }
  }

  lemma {:induction false} NoteIsRead(open: seq<char>, words: string)
    requires '\n' !in words
    ensures StrictFrom(Scan(Comment, open), words + ['\n']) == Some(Scan(Code, open))
  {
    if words == [] {
      assert words + ['\n'] == ['\n'];
      StrictOne(Scan(Comment, open), '\n');
    } else {
      NoteIsRead(open, words[1..]);
      assert words + ['\n'] == [words[0]] + (words[1..] + ['\n']);
      StrictOne(Scan(Comment, open), words[0]);
      StrictCons(Scan(Comment, open), words[0], words[1..] + ['\n']);
    }
  }

  lemma CloserIsRead(open: seq<char>, c: char)
    requires c in "([{"
    ensures StrictFrom(Scan(Code, open + [Mate(c)]), [Mate(c)]) == Some(Scan(Code, open))
  {
    var all := open + [Mate(c)];
    assert Pop(all) == open && [Mate(c)][1..] == [];
  }

  lemma {:induction false} PieceIsRead(open: seq<char>, p: Piece)
    requires WellFormed(p)
    ensures StrictFrom(Scan(Code, open), Printed(p)) == Some(Scan(Code, open))
    decreases p
  {
    var s := Scan(Code, open);
    match p
    case Plain(c) =>
      StrictOne(s, c);
    case Text(inside) =>
      InsideIsRead(open, inside);
      StrictOne(s, '"');
      StrictCons(s, '"', PrintedInside(inside) + ['"']);
    case Note(words) =>
      NoteIsRead(open, words);
      StrictOne(s, ';');
      StrictCons(s, ';', words + ['\n']);
    case Group(c, pieces) =>
      var inner := Scan(Code, open + [Mate(c)]);
      PiecesAreRead(inner.open, pieces);
      CloserIsRead(open, c);
      StrictAppend(inner, PrintedAll(pieces), [Mate(c)]);
      StrictOne(s, c);
      StrictCons(s, c, PrintedAll(pieces) + [Mate(c)]);
  }

  lemma {:induction false} PiecesAreRead(open: seq<char>, ps: seq<Piece>)
    requires AllWellFormed(ps)
    ensures StrictFrom(Scan(Code, open), PrintedAll(ps)) == Some(Scan(Code, open))
    decreases ps
  {
    if ps != [] {
      PieceIsRead(open, ps[0]);
      PiecesAreRead(open, ps[1..]);
      StrictAppend(Scan(Code, open), Printed(ps[0]), PrintedAll(ps[1..]));
    }
  }

  // ----- what is accepted is a printed form ------------------------------------------------------------------

  /** A string that is read to the end has one. */
  lemma {:induction false} InsideOf(open: seq<char>, text: string) returns (inside: seq<Inside>, rest: string)
    requires StrictFrom(Scan(Str, open), text) == Some(START)
    ensures forall i :: 0 <= i < |inside| && inside[i].Bare? ==> inside[i].c !in "\"\\"
    ensures text == PrintedInside(inside) + ['"'] + rest
    ensures StrictFrom(Scan(Code, open), rest) == Some(START)
    decreases |text|
  {
    if text[0] == '"' {
      inside, rest := [], text[1..];
    } else if text[0] == '\\' {
      assert StrictFrom(Scan(StrEscape, open), text[1..]) == Some(START);
      var more: seq<Inside>;
      more, rest := InsideOf(open, text[2..]);
      inside := [Escaped(text[1])] + more;
      assert inside[1..] == more && text == [text[0], text[1]] + text[2..];
    } else {
      var more: seq<Inside>;
      more, rest := InsideOf(open, text[1..]);
      inside := [Bare(text[0])] + more;
      assert inside[1..] == more && text == [text[0]] + text[1..];
    }
  }

  lemma {:induction false} NoteOf(open: seq<char>, text: string) returns (words: string, rest: string)
    requires StrictFrom(Scan(Comment, open), text) == Some(START)
    ensures '\n' !in words && text == words + ['\n'] + rest
    ensures StrictFrom(Scan(Code, open), rest) == Some(START)
    decreases |text|
  {
    if text[0] == '\n' {
      words, rest := [], text[1..];
    } else {
      words, rest := NoteOf(open, text[1..]);
      words := [text[0]] + words;
      assert text == [text[0]] + text[1..];
    }
  }

  /** `text` is pieces, and then what closes the innermost open group. */
  ghost predicate Reads(open: seq<char>, text: string, ps: seq<Piece>, rest: string) {
    && AllWellFormed(ps) && text == PrintedAll(ps) + rest
    && if open == [] then rest == []
       else rest != [] && rest[0] == open[|open| - 1] && StrictFrom(Scan(Code, Pop(open)), rest[1..]) == Some(START)
  }

  lemma PutBefore(open: seq<char>, p: Piece, after: string, ps: seq<Piece>, rest: string)
    requires WellFormed(p) && Reads(open, after, ps, rest)
    ensures Reads(open, Printed(p) + after, [p] + ps, rest)
  {
    assert ([p] + ps)[1..] == ps;
    assert Printed(p) + (PrintedAll(ps) + rest) == Printed(p) + PrintedAll(ps) + rest;
  }

  lemma {:induction false} PiecesOf(open: seq<char>, text: string) returns (ps: seq<Piece>, rest: string)
    requires StrictFrom(Scan(Code, open), text) == Some(START)
    ensures Reads(open, text, ps, rest)
    decreases |text|, 2
  {
    if text == [] || IsCloser(text[0]) {
      return [], text;
    }
    var p, after := FirstPiece(open, text);
    ps, rest := PiecesOf(open, after);
    PutBefore(open, p, after, ps, rest);
    ps := [p] + ps;
  }

  lemma {:induction false} FirstPiece(open: seq<char>, text: string) returns (p: Piece, after: string)
    requires StrictFrom(Scan(Code, open), text) == Some(START) && text != [] && !IsCloser(text[0])
    ensures WellFormed(p) && text == Printed(p) + after && |after| < |text|
    ensures StrictFrom(Scan(Code, open), after) == Some(START)
    decreases |text|, 1
  {
    var c := text[0];
    assert text == [c] + text[1..];
    assert StrictFrom(Step(Scan(Code, open), c), text[1..]) == Some(START);
    if c == '"' {
      var inside: seq<Inside>;
      inside, after := InsideOf(open, text[1..]);
      p := Text(inside);
    } else if c == ';' {
      var words: string;
      words, after := NoteOf(open, text[1..]);
      p := Note(words);
    } else if c in "([{" {
      p, after := FirstGroup(open, c, text);
    } else {
      p, after := Plain(c), text[1..];
    }
  }

  lemma {:induction false} FirstGroup(open: seq<char>, c: char, text: string) returns (p: Piece, after: string)
    requires text != [] && text[0] == c && c in "([{"
    requires StrictFrom(Scan(Code, open + [Mate(c)]), text[1..]) == Some(START)
    ensures WellFormed(p) && text == Printed(p) + after && |after| < |text|
    ensures StrictFrom(Scan(Code, open), after) == Some(START)
    decreases |text|, 0
  {
    var inner := open + [Mate(c)];
    var pieces, rest := PiecesOf(inner, text[1..]);
    p, after := Group(c, pieces), rest[1..];
    assert Pop(inner) == open && rest == [Mate(c)] + after;
    assert text == [c] + (PrintedAll(pieces) + ([Mate(c)] + after));
  }

  /** The discipline accepts exactly the printed forms. */
  lemma AcceptsExactlyPrinted(text: string)
    ensures StrictFrom(START, text) == Some(START) <==> IsPrinted(text)
  {
    if StrictFrom(START, text) == Some(START) {
      var ps, rest := PiecesOf([], text);
      assert text == PrintedAll(ps);
    }
    if ps :| AllWellFormed(ps) && text == PrintedAll(ps) {
      PiecesAreRead([], ps);
    }
  }

  /** Whatever the reader has not refused can be closed, in one step unless it stops after a backslash in a string. */
  lemma UnrefusedCanBeClosed(source: string) returns (more: string)
    requires StrictFrom(START, source).Some?
    ensures StrictFrom(START, source + more) == Some(START)
  {
    var s := ScanFrom(START, source);
    StrictIsScan(START, source);
    OpenAreClosers(START, source);
    if s.state == StrEscape {
      var t := Scan(Str, s.open);
      more := [' '] + Closers(t);
      ClosersAreStrict(t);
      StrictOne(s, ' ');
      StrictCons(s, ' ', Closers(t));
    } else {
      more := Closers(s);
      ClosersAreStrict(s);
    }
    StrictAppend(START, source, more);
  }

  /**
   The closed buffer is a printed form exactly when the source is the beginning of one, and does not
   stop just after a backslash in a string.
   */
  lemma ClosesExactlyBeginnings(source: string)
    ensures IsPrinted(Closed(source)) <==>
            (exists more :: IsPrinted(source + more)) && ScanFrom(START, source).state != StrEscape
  {
    ReadableExactly(source);
    AcceptsExactlyPrinted(Closed(source));
    if StrictFrom(START, source).Some? {
      var more := UnrefusedCanBeClosed(source);
      AcceptsExactlyPrinted(source + more);
    }
    if more :| IsPrinted(source + more) {
      AcceptsExactlyPrinted(source + more);
      StrictAppend(START, source, more);
    }
  }
}
