/**
 * Putting back the entry ends a broken price list lost (apps/web/lib/pricing-history-source.ts). The scanner
 * knows strings and braces and nothing else of JSON.
 */
module SnapshotRepair {
  import opened Prelude

  // --------------------------------------------------------------- the scanner

  datatype Scan = Scan(depth: int, inString: bool, escaped: bool)

  const START: Scan := Scan(0, false, false)

  function Next(scan: Scan, c: char): Scan {
    if scan.inString then
      if scan.escaped then scan.(escaped := false)
      else if c == '\\' then scan.(escaped := true)
      else if c == '"' then scan.(inString := false)
      else scan
    else if c == '"' then scan.(inString := true)
    else if c == '{' then scan.(depth := scan.depth + 1)
    else if c == '}' then scan.(depth := scan.depth - 1)
    else scan
  }

  function ScanText(scan: Scan, text: string): Scan
    decreases |text|
  {
    if text == [] then scan else ScanText(Next(scan, text[0]), text[1..])
  }

  function ScanLines(scan: Scan, lines: seq<string>): Scan
    decreases |lines|
  {
    if lines == [] then scan else ScanLines(ScanText(scan, lines[0]), lines[1..])
  }

  // ------------------------------------------------ the first line of a model's entry

  /** What `\s` matches. */
  predicate IsSpace(c: char) {
    || '\t' <= c <= '\r' || c == ' ' || c == '\U{00A0}' || c == '\U{1680}'
    || '\U{2000}' <= c <= '\U{200A}' || c == '\U{2028}' || c == '\U{2029}'
    || c == '\U{202F}' || c == '\U{205F}' || c == '\U{3000}' || c == '\U{FEFF}'
  }

  /** What `.` does not match. */
  predicate IsLineEnd(c: char) { c == '\n' || c == '\r' || c == '\U{2028}' || c == '\U{2029}' }

  function SkipSpace(text: string): string
    decreases |text|
  {
    if text != [] && IsSpace(text[0]) then SkipSpace(text[1..]) else text
  }

  /** What follows the closing quote of a key; nothing when the key does not end or is broken. */
  function AfterKey(text: string): Option<string>
    decreases |text|
  {
    if text == [] then None
    else if text[0] == '"' then Some(text[1..])
    else if text[0] != '\\' then AfterKey(text[1..])
    else if |text| >= 2 && !IsLineEnd(text[1]) then AfterKey(text[2..])
    else None
  }

  /** Spaces, a colon, spaces, an opening brace, and nothing but spaces up to the end. */
  predicate OpensObject(text: string) {
    var colon := SkipSpace(text);
    && colon != [] && colon[0] == ':'
    && var brace := SkipSpace(colon[1..]);
       brace != [] && brace[0] == '{' && SkipSpace(brace[1..]) == []
  }

  const INDENT: string := "    "

  predicate IsModelStart(line: string) {
    && |line| >= 5 && line[..4] == INDENT && line[4] == '"'
    && |line| >= 6 && line[5] != '"'
    && var rest := AfterKey(line[5..]);
       rest.Some? && OpensObject(rest.value)
  }

  // ---------------------------------------------------------------------- lines

  /** Cuts after every newline; the last line may have none. */
  function Lines(raw: string): seq<string>
    decreases |raw|
  {
    if raw == [] then []
    else if raw[0] == '\n' then [[raw[0]]] + Lines(raw[1..])
    else
      var rest := Lines(raw[1..]);
      if rest == [] then [[raw[0]]] else [[raw[0]] + rest[0]] + rest[1..]
  }

  function Concat(lines: seq<string>): string
    decreases |lines|
  {
    if lines == [] then [] else lines[0] + Concat(lines[1..])
  }

  // --------------------------------------------------------------------- repair

  const BOUNDARY: string := "    },\n"

  /** A model's entry starts inside the entry before it. */
  predicate NeedsBoundary(scan: Scan, line: string) {
    !scan.inString && scan.depth == 2 && IsModelStart(line)
  }

  function Closed(scan: Scan): Scan { scan.(depth := scan.depth - 1) }

  function RepairLines(scan: Scan, lines: seq<string>): seq<string>
    decreases |lines|
  {
    if lines == [] then []
    else if NeedsBoundary(scan, lines[0]) then
      [BOUNDARY, lines[0]] + RepairLines(ScanText(Closed(scan), lines[0]), lines[1..])
    else [lines[0]] + RepairLines(ScanText(scan, lines[0]), lines[1..])
  }

  lemma {:induction false} PlainTextKeepsScan(scan: Scan, text: string)
    requires !scan.inString
    requires Plain(text)
    ensures ScanText(scan, text) == scan
    decreases |text|
  {
    if text != [] {
      PlainTextKeepsScan(scan, text[1..]);
    }
  }

  predicate Plain(text: string) {
    forall k :: 0 <= k < |text| ==> text[k] != '"' && text[k] != '{' && text[k] != '}'
  }

  lemma OneBrace(scan: Scan, before: string, after: string)
    requires !scan.inString && Plain(before) && Plain(after)
    ensures ScanText(scan, before + ['}'] + after) == Closed(scan)
  {
    PlainTextKeepsScan(scan, before);
    PlainTextKeepsScan(Closed(scan), after);
    ScanConcat(scan, before + ['}'], after);
    ScanConcat(scan, before, ['}']);
    assert ScanText(scan, ['}']) == ScanText(Next(scan, '}'), []);
  }

  /** Outside a string the boundary closes one brace. */
  lemma BoundaryScan(scan: Scan)
    requires !scan.inString
    ensures ScanText(scan, BOUNDARY) == Closed(scan)
  {
    hide ScanText;
    OneBrace(scan, "    ", ",\n");
    assert BOUNDARY == "    " + ['}'] + ",\n";
  }

  lemma {:induction false} ScanConcat(scan: Scan, a: string, b: string)
    ensures ScanText(scan, a + b) == ScanText(ScanText(scan, a), b)
    decreases |a|
  {
    if a == [] {
      assert a + b == b;
    } else {
      assert (a + b)[1..] == a[1..] + b;
      ScanConcat(Next(scan, a[0]), a[1..], b);
    }
  }

  /** Character by character through the line, as the scanner does. */
  method ScanLine(start: Scan, line: string) returns (scan: Scan)
    ensures scan == ScanText(start, line)
  {
    var depth, inString, escaped := start.depth, start.inString, start.escaped;
    for n := 0 to |line|
      invariant ScanText(start, line) == ScanText(Scan(depth, inString, escaped), line[n..])
    {
      var c := line[n];
      assert line[n..][0] == c && line[n..][1..] == line[n + 1..];
      if inString {
        if escaped { escaped := false; }
        else if c == '\\' { escaped := true; }
        else if c == '"' { inString := false; }
        continue;
      }
      if c == '"' { inString := true; }
      else if c == '{' { depth := depth + 1; }
      else if c == '}' { depth := depth - 1; }
    }
    return Scan(depth, inString, escaped);
  }

  /** The repair as a function of the text. */
  ghost function Repaired(raw: string): Option<string> {
    var repaired := RepairLines(START, Lines(raw));
    if |repaired| > |Lines(raw)| then Some(Concat(repaired)) else None
  }

  /** The repaired text, or nothing when there was nothing to repair. */
  method RepairMissingModelBoundaries(raw: string) returns (result: Option<string>)
    ensures result == Repaired(raw)
  {
    var lines := Lines(raw);
    var scan, repairs, repaired := START, 0, [];
    ghost var done: seq<string> := [];
    hide ScanText, IsModelStart, Concat, Lines;
    assert lines[0..] == lines && lines[|lines|..] == [];
    RepairNothing(scan);
    hide RepairLines;
    for n := 0 to |lines|
      invariant RepairLines(START, lines) == done + RepairLines(scan, lines[n..])
      invariant repaired == Concat(done) && |done| == n + repairs
    {
      var line := lines[n];
      RepairNext(scan, lines[n..]);
      assert lines[n..][1..] == lines[n + 1..];
      ghost var before, rest := done, RepairLines(ScanText(if NeedsBoundary(scan, line) then Closed(scan) else scan, line), lines[n + 1..]);
      if !scan.inString && scan.depth == 2 && IsModelStart(line) {
        ConcatAppend(done, BOUNDARY);
        repaired := repaired + BOUNDARY;
        scan := scan.(depth := scan.depth - 1);
        repairs := repairs + 1;
        done := done + [BOUNDARY];
      }
      Reassociate(before, line, rest);
      ConcatAppend(done, line);
      repaired := repaired + line;
      done := done + [line];
      scan := ScanLine(scan, line);
    }
    RepairNothing(scan);
    assert done + [] == done;
    assert RepairLines(START, lines) == done + RepairLines(scan, []);
    return if repairs > 0 then Some(repaired) else None;
  }

  lemma RepairNothing(scan: Scan)
    ensures RepairLines(scan, []) == [] && Concat([]) == []
  {
  }

  lemma RepairNext(scan: Scan, lines: seq<string>)
    requires lines != []
    ensures RepairLines(scan, lines) ==
      if NeedsBoundary(scan, lines[0]) then [BOUNDARY, lines[0]] + RepairLines(ScanText(Closed(scan), lines[0]), lines[1..])
      else [lines[0]] + RepairLines(ScanText(scan, lines[0]), lines[1..])
    ensures RepairLines(scan, []) == []
  {
  }

  lemma Reassociate(done: seq<string>, line: string, rest: seq<string>)
    ensures done + ([BOUNDARY, line] + rest) == (done + [BOUNDARY] + [line]) + rest
    ensures done + ([line] + rest) == (done + [line]) + rest
  {
  }

  lemma {:induction false} ConcatAppend(lines: seq<string>, line: string)
    ensures Concat(lines + [line]) == Concat(lines) + line
    decreases |lines|
  {
    if lines == [] {
      assert Concat([line]) == line + Concat([]);
    } else {
      assert (lines + [line])[1..] == lines[1..] + [line];
      ConcatAppend(lines[1..], line);
    }
  }

  // --------------------------------------------------------- what the repair leaves

  /** No entry starts inside another one. */
  ghost predicate Clean(scan: Scan, lines: seq<string>)
    decreases |lines|
  {
    lines == [] || (!NeedsBoundary(scan, lines[0]) && Clean(ScanText(scan, lines[0]), lines[1..]))
  }

  /** The lines that are not marked. */
  function Unmarked(lines: seq<string>, marks: seq<bool>): seq<string>
    requires |marks| == |lines|
    decreases |lines|
  {
    if lines == [] then [] else (if marks[0] then [] else [lines[0]]) + Unmarked(lines[1..], marks[1..])
  }

  /**
   * The marked lines are boundaries, each where an entry would else start inside another one, and there is
   * one everywhere it is needed.
   */
  ghost predicate Repairs(scan: Scan, lines: seq<string>, marks: seq<bool>)
    requires |marks| == |lines|
    decreases |lines|
  {
    if lines == [] then true
    else if marks[0] then
      && |lines| >= 2 && lines[0] == BOUNDARY && !marks[1] && NeedsBoundary(scan, lines[1])
      && Repairs(ScanText(Closed(scan), lines[1]), lines[2..], marks[2..])
    else !NeedsBoundary(scan, lines[0]) && Repairs(ScanText(scan, lines[0]), lines[1..], marks[1..])
  }

  ghost function Marks(scan: Scan, lines: seq<string>): seq<bool>
    decreases |lines|
  {
    if lines == [] then []
    else if NeedsBoundary(scan, lines[0]) then [true, false] + Marks(ScanText(Closed(scan), lines[0]), lines[1..])
    else [false] + Marks(ScanText(scan, lines[0]), lines[1..])
  }

  lemma BoundaryIsRepair(scan: Scan, line: string, out: seq<string>, marks: seq<bool>)
    requires |marks| == |out| && NeedsBoundary(scan, line) && Repairs(ScanText(Closed(scan), line), out, marks)
    ensures Repairs(scan, [BOUNDARY, line] + out, [true, false] + marks)
    ensures Unmarked([BOUNDARY, line] + out, [true, false] + marks) == [line] + Unmarked(out, marks)
  {
    hide ScanText, NeedsBoundary;
    var (lines, all) := ([BOUNDARY, line] + out, [true, false] + marks);
    assert lines[1..] == [line] + out && all[1..] == [false] + marks;
    assert lines[2..] == out && all[2..] == marks;
    assert ([line] + out)[1..] == out && ([false] + marks)[1..] == marks;
    assert Unmarked(lines[1..], all[1..]) == [line] + Unmarked(out, marks);
  }

  lemma KeptIsRepair(scan: Scan, line: string, out: seq<string>, marks: seq<bool>)
    requires |marks| == |out| && !NeedsBoundary(scan, line) && Repairs(ScanText(scan, line), out, marks)
    ensures Repairs(scan, [line] + out, [false] + marks)
    ensures Unmarked([line] + out, [false] + marks) == [line] + Unmarked(out, marks)
  {
    hide ScanText, NeedsBoundary;
    assert ([line] + out)[1..] == out && ([false] + marks)[1..] == marks;
  }

  /** Taking the inserted boundaries out gives the lines back. */
  lemma {:induction false} RepairOnlyInserts(scan: Scan, lines: seq<string>)
    ensures var (out, marks) := (RepairLines(scan, lines), Marks(scan, lines));
            && |marks| == |out| && Repairs(scan, out, marks) && Unmarked(out, marks) == lines
    decreases |lines|
  {
    hide ScanText, NeedsBoundary;
    if lines != [] {
      var line, rest := lines[0], lines[1..];
      var next := ScanText(if NeedsBoundary(scan, line) then Closed(scan) else scan, line);
      RepairOnlyInserts(next, rest);
      hide Repairs, Unmarked;
      if NeedsBoundary(scan, line) {
        BoundaryIsRepair(scan, line, RepairLines(next, rest), Marks(next, rest));
      } else {
        KeptIsRepair(scan, line, RepairLines(next, rest), Marks(next, rest));
      }
    }
  }

  /** The repaired lines are the only way to put boundaries exactly where they are needed. */
  lemma {:induction false} RepairIsUnique(scan: Scan, lines: seq<string>, marks: seq<bool>)
    requires |marks| == |lines| && Repairs(scan, lines, marks)
    ensures RepairLines(scan, Unmarked(lines, marks)) == lines
    decreases |lines|
  {
    if lines != [] {
      hide ScanText, IsModelStart;
      if marks[0] {
        var next := ScanText(Closed(scan), lines[1]);
        assert lines[1..][1..] == lines[2..] && marks[1..][1..] == marks[2..];
        RepairIsUnique(next, lines[2..], marks[2..]);
        var rest := Unmarked(lines[2..], marks[2..]);
        assert Unmarked(lines[1..], marks[1..]) == [lines[1]] + rest;
        assert Unmarked(lines, marks) == [lines[1]] + rest;
        assert ([lines[1]] + rest)[1..] == rest;
      } else {
        RepairIsUnique(ScanText(scan, lines[0]), lines[1..], marks[1..]);
        var rest := Unmarked(lines[1..], marks[1..]);
        assert ([lines[0]] + rest)[1..] == rest;
      }
    }
  }

  lemma BoundaryIsNoStart(scan: Scan)
    ensures !NeedsBoundary(scan, BOUNDARY)
  {
    assert BOUNDARY[4] == '}';
  }

  lemma CleanCons(scan: Scan, line: string, rest: seq<string>)
    requires !NeedsBoundary(scan, line) && Clean(ScanText(scan, line), rest)
    ensures Clean(scan, [line] + rest)
  {
    hide ScanText, NeedsBoundary;
    assert ([line] + rest)[1..] == rest;
  }

  lemma ClosedIsClean(scan: Scan, line: string)
    ensures !NeedsBoundary(if NeedsBoundary(scan, line) then Closed(scan) else scan, line)
  {
  }

  /** After the repair no entry starts inside another one. */
  lemma {:induction false} RepairIsClean(scan: Scan, lines: seq<string>)
    ensures Clean(scan, RepairLines(scan, lines))
    decreases |lines|
  {
    if lines != [] {
      var line := lines[0];
      var from := if NeedsBoundary(scan, line) then Closed(scan) else scan;
      hide ScanText, IsModelStart, Clean;
      RepairNext(scan, lines);
      if NeedsBoundary(scan, line) { BoundaryScan(scan); }
      BoundaryIsNoStart(scan);
      ClosedIsClean(scan, line);
      hide RepairLines, NeedsBoundary, Closed;
      var rest := RepairLines(ScanText(from, line), lines[1..]);
      RepairIsClean(ScanText(from, line), lines[1..]);
      CleanCons(from, line, rest);
      if NeedsBoundary(scan, line) {
        CleanCons(scan, BOUNDARY, [line] + rest);
        assert [BOUNDARY, line] + rest == [BOUNDARY] + ([line] + rest);
      }
    } else {
      RepairNothing(scan);
    }
  }

  /** Exactly the clean lines are left as they are. */
  lemma {:induction false} CleanIsKeptIff(scan: Scan, lines: seq<string>)
    ensures Clean(scan, lines) <==> |RepairLines(scan, lines)| == |lines|
    ensures Clean(scan, lines) ==> RepairLines(scan, lines) == lines
    ensures |RepairLines(scan, lines)| >= |lines|
    decreases |lines|
  {
    if lines != [] {
      hide ScanText, IsModelStart;
      CleanIsKeptIff(ScanText(scan, lines[0]), lines[1..]);
      CleanIsKeptIff(ScanText(Closed(scan), lines[0]), lines[1..]);
    }
  }

  // ------------------------------------------------------ strings and depth at the end

  lemma {:induction false} ShiftText(scan: Scan, text: string, shift: int)
    ensures ScanText(scan.(depth := scan.depth + shift), text) == ScanText(scan, text).(depth := ScanText(scan, text).depth + shift)
    decreases |text|
  {
    if text != [] {
      ShiftText(Next(scan, text[0]), text[1..], shift);
    }
  }

  /** Rescanning ends with the same string state, and one level lower for every boundary put in. */
  lemma {:induction false} RepairLowersDepth(scan: Scan, low: Scan, lines: seq<string>)
    requires low == scan.(depth := low.depth)
    ensures var out := RepairLines(low, lines);
            ScanLines(low, out) ==
              ScanLines(scan, lines).(depth := ScanLines(scan, lines).depth - (scan.depth - low.depth) - (|out| - |lines|))
    decreases |lines|
  {
    if lines != [] {
      var line, rest := lines[0], lines[1..];
      var from := if NeedsBoundary(low, line) then Closed(low) else low;
      ShiftText(scan, line, from.depth - scan.depth);
      RepairNext(low, lines);
      if NeedsBoundary(low, line) { BoundaryScan(low); }
      hide ScanText, RepairLines, NeedsBoundary;
      RepairLowersDepth(ScanText(scan, line), ScanText(from, line), rest);
      ScanThrough(low, if NeedsBoundary(low, line) then [BOUNDARY] else [], line, RepairLines(ScanText(from, line), rest));
      assert [BOUNDARY, line] == [BOUNDARY] + [line];
    }
  }

  lemma ScanThrough(scan: Scan, inserted: seq<string>, line: string, rest: seq<string>)
    requires inserted == [] || inserted == [BOUNDARY]
    ensures var from := if inserted == [] then scan else ScanText(scan, BOUNDARY);
            ScanLines(scan, inserted + [line] + rest) == ScanLines(ScanText(from, line), rest)
  {
    hide ScanText;
    var all := inserted + [line] + rest;
    if inserted == [] {
      assert all[1..] == rest;
    } else {
      assert all[1..][1..] == rest && all[1..][0] == line;
    }
  }

  // -------------------------------------------------------------- lines of a text

  predicate IsLine(line: string) { line != [] && forall k :: 0 <= k < |line| - 1 ==> line[k] != '\n' }

  predicate Ended(line: string) { line != [] && line[|line| - 1] == '\n' }

  ghost predicate Proper(lines: seq<string>)
    decreases |lines|
  {
    lines == [] || (IsLine(lines[0]) && (|lines| > 1 ==> Ended(lines[0])) && Proper(lines[1..]))
  }

  lemma {:induction false} LinesAreProper(raw: string)
    ensures Proper(Lines(raw)) && Concat(Lines(raw)) == raw
    decreases |raw|
  {
    if raw != [] {
      LinesAreProper(raw[1..]);
      var rest := Lines(raw[1..]);
      if raw[0] == '\n' {
        assert ([[raw[0]]] + rest)[1..] == rest;
      } else if rest != [] {
        var first := [raw[0]] + rest[0];
        assert ([first] + rest[1..])[1..] == rest[1..];
        assert Concat(rest) == rest[0] + Concat(rest[1..]);
        assert [raw[0]] + (rest[0] + Concat(rest[1..])) == first + Concat(rest[1..]);
      } else {
        assert raw[1..] == [];
      }
    }
  }

  lemma {:induction false} FirstLine(line: string, rest: string)
    requires IsLine(line) && (rest != [] ==> Ended(line))
    ensures Lines(line + rest) == [line] + Lines(rest)
    decreases |line|
  {
    assert (line + rest)[0] == line[0] && (line + rest)[1..] == line[1..] + rest;
    if |line| == 1 {
      assert line[1..] == [] && [] + rest == rest && line == [line[0]];
    } else {
      FirstLine(line[1..], rest);
      assert ([line[1..]] + Lines(rest))[1..] == Lines(rest);
      assert [line[0]] + line[1..] == line;
    }
  }

  /** Cutting joined lines at the newlines gives the lines back. */
  lemma {:induction false} ProperLinesAreLines(lines: seq<string>)
    requires Proper(lines)
    ensures Lines(Concat(lines)) == lines
    decreases |lines|
  {
    if lines != [] {
      ProperLinesAreLines(lines[1..]);
      if |lines| == 1 { assert lines[1..] == []; }
      FirstLine(lines[0], Concat(lines[1..]));
    }
  }

  lemma ProperCons(line: string, rest: seq<string>)
    requires IsLine(line) && (rest != [] ==> Ended(line)) && Proper(rest)
    ensures Proper([line] + rest)
  {
    assert ([line] + rest)[1..] == rest;
  }

  lemma BoundaryIsLine()
    ensures IsLine(BOUNDARY) && Ended(BOUNDARY)
  {
  }

  lemma {:induction false} RepairKeepsProper(scan: Scan, lines: seq<string>)
    requires Proper(lines)
    ensures Proper(RepairLines(scan, lines)) && (lines == [] <==> RepairLines(scan, lines) == [])
    decreases |lines|
  {
    if lines != [] {
      var line, rest := lines[0], lines[1..];
      RepairNext(scan, lines);
      BoundaryIsLine();
      hide ScanText, RepairLines, NeedsBoundary, IsLine, Ended;
      var next := ScanText(if NeedsBoundary(scan, line) then Closed(scan) else scan, line);
      RepairKeepsProper(next, rest);
      var out := RepairLines(next, rest);
      ProperCons(line, out);
      hide Proper;
      ProperCons(BOUNDARY, [line] + out);
      assert [BOUNDARY, line] + out == [BOUNDARY] + ([line] + out);
    }
  }

  lemma {:induction false} ScanOfLines(scan: Scan, lines: seq<string>)
    ensures ScanText(scan, Concat(lines)) == ScanLines(scan, lines)
    decreases |lines|
  {
    if lines != [] {
      ScanConcat(scan, lines[0], Concat(lines[1..]));
      hide ScanText;
      ScanOfLines(ScanText(scan, lines[0]), lines[1..]);
    }
  }

  // ------------------------------------------------------------- main results

  /** Only boundary lines are put in, each where an entry starts inside another one, and everywhere one does. */
  lemma RepairInsertsBoundaries(raw: string) returns (marks: seq<bool>)
    requires Repaired(raw).Some?
    ensures var lines := Lines(Repaired(raw).value);
            && |marks| == |lines|
            && Repairs(START, lines, marks)
            && Concat(Unmarked(lines, marks)) == raw
  {
    LinesAreProper(raw);
    var lines := RepairLines(START, Lines(raw));
    RepairKeepsProper(START, Lines(raw));
    ProperLinesAreLines(lines);
    RepairOnlyInserts(START, Lines(raw));
    marks := Marks(START, Lines(raw));
  }

  lemma {:induction false} UnmarkedIsProper(scan: Scan, lines: seq<string>, marks: seq<bool>)
    requires |marks| == |lines| && Proper(lines) && Repairs(scan, lines, marks)
    ensures Proper(Unmarked(lines, marks)) && (Unmarked(lines, marks) == [] <==> lines == [])
    decreases |lines|
  {
    hide ScanText, NeedsBoundary, IsLine, Ended;
    if lines == [] {
    } else if marks[0] {
      var rest, kept := lines[1..], Unmarked(lines[2..], marks[2..]);
      assert rest[1..] == lines[2..] && marks[1..][1..] == marks[2..];
      assert Proper(rest) && rest[0] == lines[1];
      UnmarkedIsProper(ScanText(Closed(scan), lines[1]), lines[2..], marks[2..]);
      assert Unmarked(rest, marks[1..]) == [lines[1]] + kept;
      assert Unmarked(lines, marks) == [lines[1]] + kept;
      hide Proper, Repairs, Unmarked;
      ProperCons(lines[1], kept);
    } else {
      var kept := Unmarked(lines[1..], marks[1..]);
      UnmarkedIsProper(ScanText(scan, lines[0]), lines[1..], marks[1..]);
      assert Unmarked(lines, marks) == [lines[0]] + kept;
      ProperCons(lines[0], kept);
    }
  }

  /** A text that lost such boundary lines is repaired to what it was. */
  lemma LostBoundariesComeBack(original: string, marks: seq<bool>)
    requires |marks| == |Lines(original)| && Repairs(START, Lines(original), marks) && true in marks
    ensures Repaired(Concat(Unmarked(Lines(original), marks))) == Some(original)
  {
    var kept := Unmarked(Lines(original), marks);
    LinesAreProper(original);
    UnmarkedIsProper(START, Lines(original), marks);
    ProperLinesAreLines(kept);
    RepairIsUnique(START, Lines(original), marks);
    UnmarkedIsShorter(Lines(original), marks);
  }

  lemma {:induction false} UnmarkedIsShorter(lines: seq<string>, marks: seq<bool>)
    requires |marks| == |lines|
    ensures |Unmarked(lines, marks)| <= |lines|
    ensures true in marks ==> |Unmarked(lines, marks)| < |lines|
    decreases |lines|
  {
    if lines != [] {
      UnmarkedIsShorter(lines[1..], marks[1..]);
      assert true in marks ==> marks[0] || true in marks[1..];
    }
  }

  /** The repaired text needs no repair, and a text needs one exactly when an entry starts inside another one. */
  lemma RepairedNeedsNoRepair(raw: string)
    ensures Repaired(raw).None? <==> Clean(START, Lines(raw))
    ensures Repaired(raw).Some? ==>
      Clean(START, Lines(Repaired(raw).value)) && Repaired(Repaired(raw).value) == None
  {
    var lines := Lines(raw);
    var out := RepairLines(START, lines);
    LinesAreProper(raw);
    RepairKeepsProper(START, lines);
    ProperLinesAreLines(out);
    RepairIsClean(START, lines);
    CleanIsKeptIff(START, lines);
    CleanIsKeptIff(START, out);
  }

  /** Rescanned from its start, the repaired text ends in the same string state, a level lower for every boundary. */
  lemma RepairKeepsStringState(raw: string)
    requires Repaired(raw).Some?
    ensures var after := ScanText(START, Repaired(raw).value);
            && after.inString == ScanText(START, raw).inString
            && after.escaped == ScanText(START, raw).escaped
            && after.depth == ScanText(START, raw).depth - (|Lines(Repaired(raw).value)| - |Lines(raw)|)
  {
    var lines := Lines(raw);
    var out := RepairLines(START, lines);
    LinesAreProper(raw);
    RepairKeepsProper(START, lines);
    ProperLinesAreLines(out);
    ScanOfLines(START, lines);
    ScanOfLines(START, out);
    RepairLowersDepth(START, START, lines);
  }

  // --------------------------------------------------- what counts as the start of an entry

  predicate Spaces(text: string) { forall k :: 0 <= k < |text| ==> IsSpace(text[k]) }

  /** The code units of white space and of line ends, section 22.2.2.9 of ECMA-262. */
  lemma SpaceCodes(c: char)
    ensures IsSpace(c) <==>
      9 <= c as int <= 13 || c as int in {0x20, 0xA0, 0x1680, 0x2028, 0x2029, 0x202F, 0x205F, 0x3000, 0xFEFF} || 0x2000 <= c as int <= 0x200A
    ensures IsLineEnd(c) <==> c as int in {10, 13, 0x2028, 0x2029}
  {
  }

  /** Characters other than quotes and backslashes, and backslashes with the character they escape. */
  predicate KeyText(key: string)
    decreases |key|
  {
    key == [] || (key[0] != '"' && key[0] != '\\' && KeyText(key[1..]))
    || (|key| >= 2 && key[0] == '\\' && !IsLineEnd(key[1]) && KeyText(key[2..]))
  }

  /** Four spaces, a quoted key that is not empty, a colon and an opening brace, with spaces after each of them. */
  ghost predicate StartsEntry(line: string) {
    exists key, a, b, c :: IsEntryLine(line, key, a, b, c)
  }

  ghost predicate IsEntryLine(line: string, key: string, a: string, b: string, c: string) {
    line == "    \"" + key + "\"" + a + ":" + b + "{" + c && key != [] && KeyText(key) && Spaces(a) && Spaces(b) && Spaces(c)
  }

  lemma {:induction false} SplitSpace(text: string) returns (spaces: string)
    ensures text == spaces + SkipSpace(text) && Spaces(spaces)
    ensures SkipSpace(text) == [] || !IsSpace(SkipSpace(text)[0])
    decreases |text|
  {
    spaces := [];
    if text != [] && IsSpace(text[0]) {
      var more := SplitSpace(text[1..]);
      spaces := [text[0]] + more;
    }
  }

  lemma {:induction false} SpacesAreSkipped(spaces: string, rest: string)
    requires Spaces(spaces) && (rest == [] || !IsSpace(rest[0]))
    ensures SkipSpace(spaces + rest) == rest
    decreases |spaces|
  {
    if spaces == [] {
      assert spaces + rest == rest;
    } else {
      assert (spaces + rest)[1..] == spaces[1..] + rest;
      SpacesAreSkipped(spaces[1..], rest);
    }
  }

  lemma {:induction false} SplitKey(text: string) returns (key: string)
    requires AfterKey(text).Some?
    ensures KeyText(key) && text == key + ['"'] + AfterKey(text).value
    decreases |text|
  {
    if text[0] == '"' {
      key := [];
    } else if text[0] != '\\' {
      var more := SplitKey(text[1..]);
      key := [text[0]] + more;
      assert key[1..] == more;
    } else {
      var more := SplitKey(text[2..]);
      key := [text[0], text[1]] + more;
      assert key[2..] == more;
    }
  }

  lemma {:induction false} KeyIsSkipped(key: string, rest: string)
    requires KeyText(key)
    ensures AfterKey(key + ['"'] + rest) == Some(rest)
    decreases |key|
  {
    var text := key + ['"'] + rest;
    if key == [] {
      assert text == ['"'] + rest && text[1..] == rest;
    } else if key[0] != '\\' {
      KeyIsSkipped(key[1..], rest);
      assert text[1..] == key[1..] + ['"'] + rest;
    } else {
      KeyIsSkipped(key[2..], rest);
      assert text[2..] == key[2..] + ['"'] + rest;
    }
  }

  lemma OpeningLine(a: string, b: string, c: string)
    requires Spaces(a) && Spaces(b) && Spaces(c)
    ensures OpensObject(a + ":" + b + "{" + c)
  {
    var brace := "{" + c;
    var colon := ":" + b + brace;
    assert a + ":" + b + "{" + c == a + colon;
    SpacesAreSkipped(a, colon);
    assert colon[1..] == b + brace;
    SpacesAreSkipped(b, brace);
    assert brace[1..] == c && c + [] == c;
    SpacesAreSkipped(c, []);
  }

  lemma ModelStartHasForm(line: string)
    requires IsModelStart(line)
    ensures StartsEntry(line)
  {
    var key := SplitKey(line[5..]);
    var rest := AfterKey(line[5..]).value;
    var colon := SkipSpace(rest);
    var brace := SkipSpace(colon[1..]);
    var a := SplitSpace(rest);
    var b := SplitSpace(colon[1..]);
    var c := SplitSpace(brace[1..]);
    assert line[5..][0] == line[5];
    hide SkipSpace, AfterKey, KeyText, Spaces, IsSpace;
    assert c + [] == c;
    assert brace == "{" + c;
    assert colon == ":" + (b + brace);
    assert line[5..] == key + "\"" + (a + colon);
    assert line == line[..4] + [line[4]] + line[5..];
    PutTogether(line, key, a, b, c);
    assert IsEntryLine(line, key, a, b, c);
  }

  lemma PutTogether(line: string, key: string, a: string, b: string, c: string)
    requires line == "    " + ['"'] + (key + "\"" + (a + (":" + (b + ("{" + c)))))
    ensures line == "    \"" + key + "\"" + a + ":" + b + "{" + c
  {
    assert "    " + ['"'] == "    \"";
  }

  lemma FormIsModelStart(line: string, key: string, a: string, b: string, c: string)
    requires IsEntryLine(line, key, a, b, c)
    ensures IsModelStart(line)
  {
    var rest := a + ":" + b + "{" + c;
    KeyIsSkipped(key, rest);
    OpeningLine(a, b, c);
    assert key[0] != '"';
    hide SkipSpace, AfterKey, KeyText, Spaces, OpensObject;
    TakenApart(line, key, a, b, c);
  }

  lemma TakenApart(line: string, key: string, a: string, b: string, c: string)
    requires line == "    \"" + key + "\"" + a + ":" + b + "{" + c && key != []
    ensures |line| >= 6 && line[..4] == INDENT && line[4] == '"' && line[5] == key[0]
    ensures line[5..] == key + ['"'] + (a + ":" + b + "{" + c)
  {
    assert line[5..] == key + ['"'] + (a + ":" + b + "{" + c);
  }

  /** A line starts an entry exactly when it has this form, which is that of the source's pattern. */
  lemma ModelStartIff(line: string)
    ensures IsModelStart(line) <==> StartsEntry(line)
  {
    if IsModelStart(line) {
      ModelStartHasForm(line);
    }
    if StartsEntry(line) {
      var key, a, b, c :| IsEntryLine(line, key, a, b, c);
      FormIsModelStart(line, key, a, b, c);
    }
  }

  // --------------------------------------------------------- price lists of whole entries

  /** JSON text as far as braces and strings go: text without either, a string, or something in braces. */
  datatype Piece = Bare(text: string) | Quoted(content: string) | Braced(pieces: seq<Piece>)

  /** A string's text: quotes and backslashes are escaped. */
  function Escaped(content: string): string {
    if content == [] then []
    else (if content[0] == '"' || content[0] == '\\' then ['\\', content[0]] else [content[0]]) + Escaped(content[1..])
  }

  function QuotedText(content: string): string { "\"" + Escaped(content) + "\"" }

  function Text(piece: Piece): string
    decreases piece, 0
  {
    match piece
    case Bare(text) => text
    case Quoted(content) => QuotedText(content)
    case Braced(pieces) => "{" + TextOf(pieces) + "}"
  }

  function TextOf(pieces: seq<Piece>): string
    decreases pieces, 1
  {
    if pieces == [] then [] else Text(pieces[0]) + TextOf(pieces[1..])
  }

  predicate BareIsPlain(piece: Piece)
    decreases piece, 0
  {
    match piece
    case Bare(text) => Plain(text)
    case Quoted(_) => true
    case Braced(pieces) => AllPlain(pieces)
  }

  predicate AllPlain(pieces: seq<Piece>)
    decreases pieces, 1
  {
    pieces == [] || (BareIsPlain(pieces[0]) && AllPlain(pieces[1..]))
  }

  lemma {:induction false} EscapedStaysInside(scan: Scan, content: string)
    requires scan.inString && !scan.escaped
    ensures ScanText(scan, Escaped(content)) == scan
    decreases |content|
  {
    if content != [] {
      var rest := Escaped(content[1..]);
      EscapedStaysInside(scan, content[1..]);
      if content[0] == '"' || content[0] == '\\' {
        var all := ['\\', content[0]] + rest;
        assert all[1..] == [content[0]] + rest && all[1..][1..] == rest;
      } else {
        assert ([content[0]] + rest)[1..] == rest;
      }
    }
  }

  /** A string leaves no trace, whatever quotes, backslashes and braces it holds. */
  lemma StringIsSkipped(scan: Scan, content: string)
    requires !scan.inString && !scan.escaped
    ensures ScanText(scan, QuotedText(content)) == scan
  {
    var inside := scan.(inString := true);
    EscapedStaysInside(inside, content);
    ScanConcat(scan, "\"", Escaped(content) + "\"");
    ScanConcat(inside, Escaped(content), "\"");
    assert ScanText(scan, "\"") == ScanText(inside, []) && ScanText(inside, "\"") == ScanText(scan, []);
    assert QuotedText(content) == "\"" + (Escaped(content) + "\"");
  }

  lemma OpeningBrace(scan: Scan)
    requires !scan.inString
    ensures ScanText(scan, "{") == scan.(depth := scan.depth + 1) && ScanText(scan, "}") == scan.(depth := scan.depth - 1)
  {
    assert ScanText(scan, "{") == ScanText(Next(scan, '{'), []) && ScanText(scan, "}") == ScanText(Next(scan, '}'), []);
  }

  /** So do whole pieces. */
  lemma {:induction false} PieceIsSkipped(scan: Scan, piece: Piece)
    requires !scan.inString && !scan.escaped && BareIsPlain(piece)
    ensures ScanText(scan, Text(piece)) == scan
    decreases piece, 0
  {
    match piece
    case Bare(text) => PlainTextKeepsScan(scan, text);
    case Quoted(content) => StringIsSkipped(scan, content);
    case Braced(pieces) =>
      var inside := scan.(depth := scan.depth + 1);
      OpeningBrace(scan);
      OpeningBrace(inside);
      PiecesAreSkipped(inside, pieces);
      ScanConcat(scan, "{", TextOf(pieces));
      ScanConcat(scan, "{" + TextOf(pieces), "}");
  }

  lemma {:induction false} PiecesAreSkipped(scan: Scan, pieces: seq<Piece>)
    requires !scan.inString && !scan.escaped && AllPlain(pieces)
    ensures ScanText(scan, TextOf(pieces)) == scan
    decreases pieces, 1
  {
    if pieces != [] {
      PieceIsSkipped(scan, pieces[0]);
      PiecesAreSkipped(scan, pieces[1..]);
      ScanConcat(scan, Text(pieces[0]), TextOf(pieces[1..]));
    }
  }

  /** A model of the list: its name, and what stands in the braces of its entry. */
  datatype Model = Model(name: string, body: seq<Piece>)

  function NameLine(model: Model): string { "    " + QuotedText(model.name) + ": {\n" }

  predicate LooksLikeKey(line: string) { |line| >= 5 && line[..4] == "    " && line[4] == '"' }

  /** The name fits on a line, and the body is whole lines, none of them a key at the models' indentation. */
  ghost predicate ValidModel(model: Model) {
    && model.name != [] && '\n' !in model.name
    && AllPlain(model.body) && var text := TextOf(model.body);
       (text != [] ==> text[|text| - 1] == '\n') && forall line | line in Lines(text) :: !LooksLikeKey(line)
  }

  function ModelLines(model: Model, lost: bool): seq<string> {
    [NameLine(model)] + Lines(TextOf(model.body)) + if lost then [] else ["    },\n"]
  }

  /** The entries, some of which have lost their last line. */
  function EntryLines(models: seq<Model>, lost: seq<bool>): seq<string>
    requires |lost| == |models|
    decreases |models|
  {
    if models == [] then [] else ModelLines(models[0], lost[0]) + EntryLines(models[1..], lost[1..])
  }

  /** What closes the list after its entries: lines of which none is a key at the models' indentation. */
  ghost predicate ValidClose(close: string) { forall line | line in Lines(close) :: !LooksLikeKey(line) }

  /** The last entry's own end may be part of the close, for it has no comma. */
  function PriceList(models: seq<Model>, lost: seq<bool>, close: string): string
    requires |lost| == |models|
  {
    Concat(["{\n"] + EntryLines(models, lost) + Lines(close))
  }

  /** Only the last entry may still lack its end. */
  function OnlyLast(lost: seq<bool>): (after: seq<bool>)
    ensures |after| == |lost|
  {
    seq(|lost|, k requires 0 <= k < |lost| => k == |lost| - 1 && lost[k])
  }

  lemma {:induction false} EscapedIsKey(content: string)
    ensures KeyText(Escaped(content))
    ensures '\n' !in content ==> '\n' !in Escaped(content)
    decreases |content|
  {
    if content != [] {
      var rest := Escaped(content[1..]);
      EscapedIsKey(content[1..]);
      var text := Escaped(content);
      if content[0] == '"' || content[0] == '\\' {
        assert text == ['\\', content[0]] + rest && text[2..] == rest;
      } else {
        assert text == [content[0]] + rest && text[1..] == rest;
      }
    }
  }

  lemma NameLineStarts(model: Model)
    requires model.name != []
    ensures IsModelStart(NameLine(model))
  {
    var line, key := NameLine(model), Escaped(model.name);
    EscapedIsKey(model.name);
    assert line == "    \"" + key + "\"" + "" + ":" + " " + "{" + "\n";
    assert IsEntryLine(line, key, "", " ", "\n");
    ModelStartIff(line);
  }

  lemma NameLineOpens(scan: Scan, model: Model)
    requires !scan.inString && !scan.escaped
    ensures ScanText(scan, NameLine(model)) == scan.(depth := scan.depth + 1)
  {
    var open := scan.(depth := scan.depth + 1);
    PlainTextKeepsScan(scan, "    ");
    StringIsSkipped(scan, model.name);
    PlainTextKeepsScan(scan, ": ");
    OpeningBrace(scan);
    PlainTextKeepsScan(open, "\n");
    var a, b := "    " + QuotedText(model.name), "    " + QuotedText(model.name) + ": ";
    ScanConcat(scan, "    ", QuotedText(model.name));
    ScanConcat(scan, a, ": ");
    ScanConcat(scan, b, "{");
    ScanConcat(scan, b + "{", "\n");
    assert NameLine(model) == b + "{" + "\n";
  }

  /** Lines of which none starts an entry are kept. */
  lemma {:induction false} PlainLinesAreKept(scan: Scan, lines: seq<string>, rest: seq<string>)
    requires forall line | line in lines :: !IsModelStart(line)
    ensures RepairLines(scan, lines + rest) == lines + RepairLines(ScanLines(scan, lines), rest)
    decreases |lines|
  {
    hide IsModelStart, ScanText;
    if lines == [] {
      assert lines + rest == rest && lines + RepairLines(scan, rest) == RepairLines(scan, rest);
    } else {
      var more := RepairLines(ScanLines(scan, lines), rest);
      assert lines[0] in lines;
      assert (lines + rest)[1..] == lines[1..] + rest;
      RepairNext(scan, lines + rest);
      hide RepairLines;
      PlainLinesAreKept(ScanText(scan, lines[0]), lines[1..], rest);
      assert [lines[0]] + (lines[1..] + more) == lines + more;
    }
  }

  lemma BodyIsKept(model: Model, rest: seq<string>)
    requires ValidModel(model)
    ensures RepairLines(Scan(2, false, false), Lines(TextOf(model.body)) + rest) == Lines(TextOf(model.body)) + RepairLines(Scan(2, false, false), rest)
  {
    var scan, lines := Scan(2, false, false), Lines(TextOf(model.body));
    PiecesAreSkipped(scan, model.body);
    LinesAreProper(TextOf(model.body));
    ScanOfLines(scan, lines);
    hide ScanText, RepairLines, ScanLines;
    forall line | line in lines ensures !IsModelStart(line) {}
    PlainLinesAreKept(scan, lines, rest);
  }

  lemma EndIsKept(rest: seq<string>)
    ensures RepairLines(Scan(2, false, false), ["    },\n"] + rest) == ["    },\n"] + RepairLines(Scan(1, false, false), rest)
  {
    var scan := Scan(2, false, false);
    BoundaryScan(scan);
    assert (["    },\n"] + rest)[1..] == rest;
    RepairNext(scan, ["    },\n"] + rest);
    assert "    },\n"[4] == '}';
  }

  lemma NameLineIsKept(scan: Scan, model: Model, rest: seq<string>)
    requires ValidModel(model) && scan in {Scan(1, false, false), Scan(2, false, false)}
    ensures RepairLines(scan, [NameLine(model)] + rest) ==
      (if scan.depth == 2 then ["    },\n"] else []) + [NameLine(model)] + RepairLines(Scan(2, false, false), rest)
  {
    NameLineStarts(model);
    NameLineOpens(Scan(1, false, false), model);
    RepairNext(scan, [NameLine(model)] + rest);
    hide RepairLines, ScanText, IsModelStart, NameLine;
    assert ([NameLine(model)] + rest)[1..] == rest;
    assert [] + [NameLine(model)] == [NameLine(model)];
    assert ["    },\n"] + [NameLine(model)] == ["    },\n", NameLine(model)];
  }

  lemma {:induction false} EntriesAreRepaired(scan: Scan, models: seq<Model>, lost: seq<bool>, close: seq<string>)
    requires forall line | line in close :: !LooksLikeKey(line)
    requires |lost| == |models| && scan in {Scan(1, false, false), Scan(2, false, false)}
    requires forall k :: 0 <= k < |models| ==> ValidModel(models[k])
    ensures RepairLines(scan, EntryLines(models, lost) + close) ==
      (if scan.depth == 2 && models != [] then ["    },\n"] else []) + (EntryLines(models, OnlyLast(lost)) + close)
    decreases |models|
  {
    if models == [] {
      assert EntryLines(models, lost) + close == close;
      CloseIsKept(scan, close);
      assert [] + (EntryLines(models, OnlyLast(lost)) + close) == close;
    } else {
      var next := if lost[0] then Scan(2, false, false) else Scan(1, false, false);
      hide ScanText, RepairLines, ValidModel, ModelLines, OnlyLast;
      EntriesAreRepaired(next, models[1..], lost[1..], close);
      LastEnd(models, lost);
      var rest := EntryLines(models[1..], OnlyLast(lost[1..]));
      hide EntryLines;
      EntryIsRepaired(scan, models[0], lost[0], EntryLines(models[1..], lost[1..]) + close);
      RepairedJoins(models[0], lost[0], models[1..] == [], EntryLines(models[1..], lost[1..]), rest, close);
      NextEntries(models, lost);
    }
  }

  lemma CloseIsKept(scan: Scan, close: seq<string>)
    requires forall line | line in close :: !LooksLikeKey(line)
    ensures RepairLines(scan, close) == close
  {
    PlainLinesAreKept(scan, close, []);
    RepairNothing(ScanLines(scan, close));
    assert close + [] == close;
  }

  lemma NextEntries(models: seq<Model>, lost: seq<bool>)
    requires |lost| == |models| > 0
    ensures EntryLines(models, lost) == ModelLines(models[0], lost[0]) + EntryLines(models[1..], lost[1..])
  {
  }

  lemma RepairedJoins(model: Model, lost: bool, last: bool, tail: seq<string>, rest: seq<string>, close: seq<string>)
    requires last ==> rest == []
    ensures (ModelLines(model, lost) + tail) + close == ModelLines(model, lost) + (tail + close)
    ensures (ModelLines(model, lost && last) + rest) + close
         == ModelLines(model, lost) + ((if lost && !last then ["    },\n"] else []) + (rest + close))
  {
    hide ModelLines;
    if lost && !last {
      EndComesBack(model, rest + close);
      assert (ModelLines(model, false) + rest) + close == ModelLines(model, false) + (rest + close);
    } else {
      assert [] + (rest + close) == rest + close;
      assert (ModelLines(model, lost) + rest) + close == ModelLines(model, lost) + (rest + close);
    }
  }

  lemma EndComesBack(model: Model, rest: seq<string>)
    ensures ModelLines(model, true) + (["    },\n"] + rest) == ModelLines(model, false) + rest
  {
    hide NameLine, Lines, TextOf;
    assert ModelLines(model, true) + ["    },\n"] == ModelLines(model, false);
  }

  /** One entry: its lines are kept, and the end that the entry before it lacked is put back. */
  lemma EntryIsRepaired(scan: Scan, model: Model, lost: bool, tail: seq<string>)
    requires ValidModel(model) && scan in {Scan(1, false, false), Scan(2, false, false)}
    ensures RepairLines(scan, ModelLines(model, lost) + tail) ==
      (if scan.depth == 2 then ["    },\n"] else [])
      + (ModelLines(model, lost) + RepairLines(if lost then Scan(2, false, false) else Scan(1, false, false), tail))
  {
    hide ScanText, RepairLines, ValidModel, NameLine, Lines, TextOf;
    var body, name := Lines(TextOf(model.body)), [NameLine(model)];
    var end := if lost then [] else ["    },\n"];
    NameLineIsKept(scan, model, body + (end + tail));
    BodyIsKept(model, end + tail);
    if lost { assert end + tail == tail; } else { EndIsKept(tail); }
    var more := RepairLines(if lost then Scan(2, false, false) else Scan(1, false, false), tail);
    assert RepairLines(Scan(2, false, false), end + tail) == end + more;
    assert ModelLines(model, lost) + tail == name + (body + (end + tail));
    assert ModelLines(model, lost) + more == name + (body + (end + more));
  }

  lemma LastEnd(models: seq<Model>, lost: seq<bool>)
    requires |lost| == |models| > 0
    ensures EntryLines(models, OnlyLast(lost)) ==
      ModelLines(models[0], lost[0] && |models| == 1) + EntryLines(models[1..], OnlyLast(lost[1..]))
  {
    hide ModelLines;
    assert OnlyLast(lost)[1..] == OnlyLast(lost[1..]);
  }

  // ------------------------------------------------------------------ main result

  lemma ProperConcat(a: seq<string>, b: seq<string>)
    requires Proper(a) && Proper(b) && forall line | line in a :: Ended(line)
    ensures Proper(a + b)
    decreases |a|
  {
    if a == [] {
      assert a + b == b;
    } else {
      assert (a + b)[1..] == a[1..] + b;
      assert a[0] in a;
      ProperConcat(a[1..], b);
    }
  }

  /** Lines of a text that ends with a newline all end with one. */
  lemma {:induction false} LinesEnd(text: string)
    requires text != [] ==> text[|text| - 1] == '\n'
    ensures forall line | line in Lines(text) :: Ended(line)
    decreases |text|
  {
    if text != [] {
      LinesEnd(text[1..]);
      var rest := Lines(text[1..]);
      if text[0] == '\n' {
        assert Ended([text[0]]);
      } else {
        LinesAreProper(text[1..]);
        assert Concat(rest) != [];
        assert rest[0] in rest;
        assert Ended([text[0]] + rest[0]);
      }
    }
  }

  lemma NameLineIsLine(model: Model)
    requires '\n' !in model.name
    ensures IsLine(NameLine(model)) && Ended(NameLine(model))
  {
    EscapedIsKey(model.name);
    var text := "    \"" + Escaped(model.name) + "\": {";
    assert NameLine(model) == text + "\n";
    hide Escaped, NameLine;
    assert '\n' !in text;
    forall k | 0 <= k < |text| ensures text[k] != '\n' {
      assert text[k] in text;
    }
  }

  lemma EntryIsProper(model: Model, lost: bool)
    requires ValidModel(model)
    ensures Proper(ModelLines(model, lost)) && forall line | line in ModelLines(model, lost) :: Ended(line)
  {
    var body := Lines(TextOf(model.body));
    NameLineIsLine(model);
    LinesEnd(TextOf(model.body));
    LinesAreProper(TextOf(model.body));
    var end := if lost then [] else ["    },\n"];
    hide NameLine, TextOf, Lines, ValidModel;
    BoundaryIsLine();
    assert end != [] ==> end[0] == BOUNDARY && end[1..] == [];
    assert Proper(end) && forall line | line in end :: Ended(line);
    hide IsLine, Ended;
    ProperConcat(body, end);
    ProperCons(NameLine(model), body + end);
    assert ModelLines(model, lost) == [NameLine(model)] + (body + end);
  }

  lemma {:induction false} EntriesAreProper(models: seq<Model>, lost: seq<bool>)
    requires |lost| == |models|
    requires forall k :: 0 <= k < |models| ==> ValidModel(models[k])
    ensures Proper(EntryLines(models, lost)) && forall line | line in EntryLines(models, lost) :: Ended(line)
    decreases |models|
  {
    if models != [] {
      EntryIsProper(models[0], lost[0]);
      hide ValidModel, ModelLines, IsLine, Ended;
      EntriesAreProper(models[1..], lost[1..]);
      ProperConcat(ModelLines(models[0], lost[0]), EntryLines(models[1..], lost[1..]));
    }
  }

  lemma ListLines(models: seq<Model>, lost: seq<bool>, close: string)
    requires |lost| == |models|
    requires forall k :: 0 <= k < |models| ==> ValidModel(models[k])
    ensures Lines(PriceList(models, lost, close)) == ["{\n"] + EntryLines(models, lost) + Lines(close)
  {
    EntriesAreProper(models, lost);
    LinesAreProper(close);
    hide EntryLines, ValidModel, Lines, Proper, Ended, IsLine, Concat;
    ListIsProper(EntryLines(models, lost), Lines(close));
    ProperLinesAreLines(["{\n"] + EntryLines(models, lost) + Lines(close));
  }

  lemma ListIsProper(entries: seq<string>, close: seq<string>)
    requires Proper(entries) && Proper(close) && forall line | line in entries :: Ended(line)
    ensures Proper(["{\n"] + entries + close)
  {
    ProperConcat(entries, close);
    assert IsLine("{\n") && Ended("{\n");
    hide IsLine, Ended, Proper;
    ProperCons("{\n", entries + close);
    assert ["{\n"] + (entries + close) == ["{\n"] + entries + close;
  }

  /** An entry that lost its end is a line shorter. */
  lemma {:induction false} LostIsShorter(models: seq<Model>, lost: seq<bool>, kept: seq<bool>)
    requires |lost| == |kept| == |models| && forall k :: 0 <= k < |models| ==> kept[k] ==> lost[k]
    ensures |EntryLines(models, kept)| >= |EntryLines(models, lost)|
    ensures kept != lost ==> |EntryLines(models, kept)| > |EntryLines(models, lost)|
    decreases |models|
  {
    hide NameLine, Lines, TextOf;
    if models != [] {
      LostIsShorter(models[1..], lost[1..], kept[1..]);
      assert kept[0] == lost[0] && kept[1..] == lost[1..] ==> kept == lost;
    }
  }

  lemma ListIsRepaired(models: seq<Model>, lost: seq<bool>, close: seq<string>)
    requires |lost| == |models| && forall line | line in close :: !LooksLikeKey(line)
    requires forall k :: 0 <= k < |models| ==> ValidModel(models[k])
    ensures RepairLines(START, ["{\n"] + EntryLines(models, lost) + close)
         == ["{\n"] + EntryLines(models, OnlyLast(lost)) + close
  {
    EntriesAreRepaired(Scan(1, false, false), models, lost, close);
    hide EntryLines, ValidModel, RepairLines, LooksLikeKey, OnlyLast;
    var after := EntryLines(models, OnlyLast(lost)) + close;
    FirstLineIsKept(EntryLines(models, lost) + close);
    assert [] + after == after;
    assert ["{\n"] + after == ["{\n"] + EntryLines(models, OnlyLast(lost)) + close;
    assert ["{\n"] + (EntryLines(models, lost) + close) == ["{\n"] + EntryLines(models, lost) + close;
  }

  /**
   * A list of whole entries is left alone. When entries have lost their last lines, the ends of all but the last
   * entry are put back where they stood.
   */
  lemma LostEndsComeBack(models: seq<Model>, lost: seq<bool>, close: string)
    requires |lost| == |models| && ValidClose(close)
    requires forall k :: 0 <= k < |models| ==> ValidModel(models[k])
    ensures Repaired(PriceList(models, lost, close)) ==
      if exists k :: 0 <= k < |models| - 1 && lost[k] then Some(PriceList(models, OnlyLast(lost), close)) else None
  {
    ListLines(models, lost, close);
    ListIsRepaired(models, lost, Lines(close));
    LostIsShorter(models, lost, OnlyLast(lost));
    hide EntryLines, ValidModel, Lines, RepairLines, Concat, LooksLikeKey;
    if exists k :: 0 <= k < |models| - 1 && lost[k] {
      var k :| 0 <= k < |models| - 1 && lost[k];
      assert !OnlyLast(lost)[k];
    } else {
      assert OnlyLast(lost) == lost;
    }
  }

  lemma FirstLineIsKept(rest: seq<string>)
    ensures RepairLines(START, ["{\n"] + rest) == ["{\n"] + RepairLines(Scan(1, false, false), rest)
  {
    OpeningBrace(START);
    PlainTextKeepsScan(Scan(1, false, false), "\n");
    ScanConcat(START, "{", "\n");
    assert "{" + "\n" == "{\n";
    assert (["{\n"] + rest)[1..] == rest;
    RepairNext(START, ["{\n"] + rest);
  }
}
