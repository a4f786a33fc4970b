/**
 Taking the bodies out of JSON-lines files (src/arail/jsonl_purge.py): each file is rewritten to a
 temporary and put in place by a replace, and any of it may fail.

 Reading a line as JSON, writing a value, and what a body is are parameters. What `loads` may do besides
 returning is part of them: text that is not JSON raises an error the loop expects, and nesting beyond
 the interpreter's limit raises one it does not.
 */
module JsonlPurge {
  import opened Basics
  import opened TextLines

  datatype Loaded<E> = Value(event: E) | Malformed | TooDeep

  /** `has` and `strip` are None where the caller's function raises. */
  datatype Rules<!E> = Rules(
    loads: string -> Loaded<E>, dumps: E -> string, has: E -> Option<bool>, strip: E -> Option<E>)

  /** A value that is written as one line which reads back as it. */
  ghost predicate Writable<E>(r: Rules<E>, e: E) {
    && r.loads(r.dumps(e)) == Value(e)
    && '\n' !in r.dumps(e) && '\r' !in r.dumps(e) && !IsBlank(r.dumps(e))
  }

  /** What is asked of the parameters: what was read can be written, and stripping strips. */
  ghost predicate Lawful<E(!new)>(r: Rules<E>) {
    forall s :: r.loads(s).Value? ==> LawfulFor(r, r.loads(s).event)
  }

  ghost predicate LawfulFor<E>(r: Rules<E>, e: E) {
    && Writable(r, e)
    && (r.has(e) == Some(true) ==>
          r.strip(e).Some? && Writable(r, r.strip(e).value) && r.has(r.strip(e).value) == Some(false))
  }

  predicate IsBlank(s: string) {
    forall i :: 0 <= i < |s| ==> IsSpace(s[i])
  }

  /** A line without its newline. */
  function Body(line: string): string {
    if Ended(line) then line[..|line| - 1] else line
  }

  /** A line with a body that can be taken out. */
  predicate Detected<E>(r: Rules<E>, line: string) {
    !IsBlank(Body(line)) && r.loads(Body(line)).Value? && r.has(r.loads(Body(line)).event) == Some(true)
  }

  predicate Strippable<E>(r: Rules<E>, line: string) {
    Detected(r, line) && r.strip(r.loads(Body(line)).event).Some?
  }

  /** Reading this line raises out of the loop. */
  predicate Escapes<E>(r: Rules<E>, line: string) {
    !IsBlank(Body(line)) && r.loads(Body(line)).TooDeep?
  }

  /** What the loop writes for a line. */
  function Cleaned<E>(r: Rules<E>, line: string): string {
    if IsBlank(Body(line)) then line
    else
      match r.loads(Body(line))
      case Malformed => line
      case TooDeep => line
      case Value(event) =>
        match r.has(event)
        case None => line
        case Some(false) => r.dumps(event) + "\n"
        case Some(true) =>
          var stripped := r.strip(event);
          if stripped.None? then line else r.dumps(stripped.value) + "\n"
  }

  function CleanedAll<E>(r: Rules<E>, lines: seq<string>): (out: seq<string>)
    ensures |out| == |lines| && forall i :: 0 <= i < |lines| ==> out[i] == Cleaned(r, lines[i])
  {
    seq(|lines|, i requires 0 <= i < |lines| => Cleaned(r, lines[i]))
  }

  function CountStripped<E>(r: Rules<E>, lines: seq<string>): nat {
    if lines == [] then 0
    else CountStripped(r, lines[..|lines| - 1]) + if Strippable(r, lines[|lines| - 1]) then 1 else 0
  }

  function Purged<E>(r: Rules<E>, text: string): string {
    Join(CleanedAll(r, LinesOf(text)))
  }

  predicate NoneEscapes<E>(r: Rules<E>, text: string) {
    forall i :: 0 <= i < |LinesOf(text)| ==> !Escapes(r, LinesOf(text)[i])
  }

  /** Blank is what stripping leaves nothing of. */
  lemma BlankIff(s: string)
    ensures IsBlank(s) <==> forall c :: c in s ==> IsSpace(c)
  {
  }

  // ----- one line -----

  lemma CleanedIsLine<E(!new)>(r: Rules<E>, line: string)
    requires Lawful(r) && IsChunk(line)
    ensures IsChunk(Cleaned(r, line))
    ensures Ended(line) ==> Ended(Cleaned(r, line))
    ensures '\r' !in line ==> '\r' !in Cleaned(r, line)
  {
  }

  /** Cleaned once, a line has no body to detect, and cleaning it again changes nothing. */
  lemma CleanedIsClean<E(!new)>(r: Rules<E>, line: string)
    requires Lawful(r)
    ensures !Detected(r, Cleaned(r, line))
    ensures Cleaned(r, Cleaned(r, line)) == Cleaned(r, line)
    ensures Escapes(r, Cleaned(r, line)) <==> Escapes(r, line)
  {
  }

  // ----- one file -----

  lemma CleanedAreLines<E(!new)>(r: Rules<E>, lines: seq<string>)
    requires Lawful(r) && AreLines(lines)
    ensures AreLines(CleanedAll(r, lines))
  {
  }

  lemma {:induction false} JoinLacksCR(lines: seq<string>)
    requires forall i :: 0 <= i < |lines| ==> '\r' !in lines[i]
    ensures '\r' !in Join(lines)
  {
    if lines != [] {
      JoinLacksCR(lines[1..]);
    }
  }

  /** The lines of the rewritten file are the cleaned lines of the old one. */
  lemma LinesOfPurged<E(!new)>(r: Rules<E>, text: string)
    requires Lawful(r)
    ensures LinesOf(Purged(r, text)) == CleanedAll(r, LinesOf(text))
  {
    var lines := LinesOf(text);
    UniversalLacksCR(text);
    SplitGivesLines(Universal(text));
    SplitLacksCR(Universal(text));
    CleanedAreLines(r, lines);
    forall i | 0 <= i < |lines| ensures '\r' !in CleanedAll(r, lines)[i] {
      CleanedIsLine(r, lines[i]);
    }
    JoinLacksCR(CleanedAll(r, lines));
    UniversalLacksCR(Purged(r, text));
    SplitOfJoin(CleanedAll(r, lines));
  }

  /** What a line reads as, if it does. */
  function ReadLine<E>(r: Rules<E>, line: string): Option<E> {
    if IsBlank(Body(line)) || !r.loads(Body(line)).Value? then None else Some(r.loads(Body(line)).event)
  }

  /** A value without its body. */
  function WithoutBody<E>(r: Rules<E>, e: E): E {
    if r.has(e) == Some(true) && r.strip(e).Some? then r.strip(e).value else e
  }

  /**
   Line by line: one that reads as a value reads as that value without its body afterwards, printed anew unless
   looking for a body raised; one that does not goes through as it is.
   */
  lemma PurgedMeans<E(!new)>(r: Rules<E>, text: string, i: nat)
    requires Lawful(r) && i < |LinesOf(text)|
    ensures i < |LinesOf(Purged(r, text))|
    ensures var line, out := LinesOf(text)[i], LinesOf(Purged(r, text))[i];
            match ReadLine(r, line)
            case None => out == line
            case Some(e) =>
              && ReadLine(r, out) == Some(WithoutBody(r, e))
              && out == if r.has(e).Some? then r.dumps(WithoutBody(r, e)) + "\n" else line
  {
    LinesOfPurged(r, text);
    CleanedMeans(r, LinesOf(text)[i]);
  }

  lemma CleanedMeans<E(!new)>(r: Rules<E>, line: string)
    requires Lawful(r)
    ensures match ReadLine(r, line)
            case None => Cleaned(r, line) == line
            case Some(e) =>
              && ReadLine(r, Cleaned(r, line)) == Some(WithoutBody(r, e))
              && Cleaned(r, line) == if r.has(e).Some? then r.dumps(WithoutBody(r, e)) + "\n" else line
  {
    var e := ReadLine(r, line);
    if e.Some? {
      assert LawfulFor(r, e.value);
    }
  }

  /** No body is left to detect, no line is more or less, and a second purge changes nothing. */
  lemma PurgedIsClean<E(!new)>(r: Rules<E>, text: string)
    requires Lawful(r)
    ensures |LinesOf(Purged(r, text))| == |LinesOf(text)|
    ensures forall i :: 0 <= i < |LinesOf(text)| ==> !Detected(r, LinesOf(Purged(r, text))[i])
    ensures CountStripped(r, LinesOf(Purged(r, text))) == 0
    ensures Purged(r, Purged(r, text)) == Purged(r, text)
    ensures NoneEscapes(r, text) <==> NoneEscapes(r, Purged(r, text))
  {
    LinesOfPurged(r, text);
    var lines, cleaned := LinesOf(text), CleanedAll(r, LinesOf(text));
    forall i | 0 <= i < |lines|
      ensures !Detected(r, cleaned[i]) && Cleaned(r, cleaned[i]) == cleaned[i]
      ensures Escapes(r, cleaned[i]) <==> Escapes(r, lines[i])
    {
      CleanedIsClean(r, lines[i]);
    }
    NoneToStrip(r, cleaned);
    assert CleanedAll(r, cleaned) == cleaned;
  }

  lemma {:induction false} NoneToStrip<E>(r: Rules<E>, lines: seq<string>)
    requires forall i :: 0 <= i < |lines| ==> !Strippable(r, lines[i])
    ensures CountStripped(r, lines) == 0
  {
    if lines != [] {
      NoneToStrip(r, lines[..|lines| - 1]);
    }
  }

  lemma PurgedLacksCR<E(!new)>(r: Rules<E>, text: string)
    requires Lawful(r)
    ensures '\r' !in Purged(r, text) && Universal(Purged(r, text)) == Purged(r, text)
  {
    var lines := LinesOf(text);
    UniversalLacksCR(text);
    SplitGivesLines(Universal(text));
    SplitLacksCR(Universal(text));
    forall i | 0 <= i < |lines| ensures '\r' !in CleanedAll(r, lines)[i] {
      CleanedIsLine(r, lines[i]);
    }
    JoinLacksCR(CleanedAll(r, lines));
    UniversalLacksCR(Purged(r, text));
  }

  // ----- carriage returns -----

  /** Carriage returns that do not stand before a newline. */
  function LoneCRs(text: string): nat
    decreases |text|
  {
    if text == "" then 0
    else (if text[0] == '\r' && (|text| == 1 || text[1] != '\n') then 1 else 0) + LoneCRs(text[1..])
  }

  lemma {:induction false} LinesCounted(text: string)
    ensures |SplitLines(text)| == Newlines(text) + if text != "" && !Ended(text) then 1 else 0
    decreases |text|
  {
    if text != "" {
      var n := LineLen(text);
      LinesCounted(text[n..]);
      NewlinesOfLine(text);
      assert text[n..] != "" ==> text[n..][|text| - n - 1] == text[|text| - 1];
    }
  }

  lemma {:induction false} UniversalCounts(text: string)
    ensures Newlines(Universal(text)) == Newlines(text) + LoneCRs(text)
    ensures Universal(text) == "" <==> text == ""
    ensures text != "" ==> (Ended(Universal(text)) <==> Ended(text) || text[|text| - 1] == '\r')
    decreases |text|
  {
    if text != "" {
      UniversalCounts(text[1..]);
      if text[0] == '\r' && |text| > 1 && text[1] == '\n' {
        UniversalCounts(text[2..]);
        assert text[1..][1..] == text[2..];
        NewlineFirst(Universal(text[2..]));
      } else if text[0] == '\r' {
        NewlineFirst(Universal(text[1..]));
      } else {
        assert ([text[0]] + Universal(text[1..]))[1..] == Universal(text[1..]);
      }
    }
  }

  lemma NewlineFirst(s: string)
    ensures Newlines("\n" + s) == 1 + Newlines(s)
    ensures s != "" ==> (Ended("\n" + s) <==> Ended(s))
  {
  }

  /** A purge keeps the number of lines exactly when every carriage return ends a line: it stands before a newline, or at the end. */
  lemma LineCountKeptIff<E(!new)>(r: Rules<E>, text: string)
    requires Lawful(r)
    ensures |SplitLines(Purged(r, text))| == |SplitLines(text)| <==>
            forall i :: 0 <= i < |text| - 1 && text[i] == '\r' ==> text[i + 1] == '\n'
  {
    PurgedLacksCR(r, text);
    LinesOfPurged(r, text);
    LinesCounted(text);
    LinesCounted(Universal(text));
    UniversalCounts(text);
    LoneCRsInside(text);
  }

  lemma {:induction false} LoneCRsInside(text: string)
    ensures LoneCRs(text) >= if text != "" && text[|text| - 1] == '\r' then 1 else 0
    ensures LoneCRs(text) == (if text != "" && text[|text| - 1] == '\r' then 1 else 0) <==>
            forall i :: 0 <= i < |text| - 1 && text[i] == '\r' ==> text[i + 1] == '\n'
    decreases |text|
  {
    if |text| > 1 {
      LoneCRsInside(text[1..]);
      assert forall i :: 0 <= i < |text| - 1 ==> text[1..][i] == text[i + 1];
    }
  }

  // ----- line by line -----

  lemma CleanedConcat<E>(r: Rules<E>, a: seq<string>, b: seq<string>)
    ensures CleanedAll(r, a + b) == CleanedAll(r, a) + CleanedAll(r, b)
  {
  }

  /** Each line is purged by itself. */
  lemma PurgedConcat<E>(r: Rules<E>, a: string, b: string)
    requires IsCut(a, b)
    ensures Purged(r, a + b) == Purged(r, a) + Purged(r, b)
  {
    LinesConcat(a, b);
    CleanedConcat(r, LinesOf(a), LinesOf(b));
    JoinConcat(CleanedAll(r, LinesOf(a)), CleanedAll(r, LinesOf(b)));
  }

  /** The parser is not asked about the line, or refuses it. */
  predicate Refused<E>(r: Rules<E>, line: string) {
    IsBlank(Body(line)) || r.loads(Body(line)).Malformed?
  }

  lemma RefusedStays<E>(r: Rules<E>, line: string)
    requires forall i :: 0 <= i < |LinesOf(line)| ==> Refused(r, LinesOf(line)[i])
    ensures Purged(r, line) == Universal(line)
  {
    assert CleanedAll(r, LinesOf(line)) == LinesOf(line);
    SplitIsLossless(Universal(line));
  }

  /**
   A line the parser refuses, wherever it stands in a file, goes through with its carriage returns made
   newlines; so it goes through byte for byte exactly when it has none.
   */
  lemma MalformedStaysIff<E>(r: Rules<E>, before: string, line: string, after: string)
    requires line != "" && IsCut(before, line) && IsCut(line, after)
    requires forall i :: 0 <= i < |LinesOf(line)| ==> Refused(r, LinesOf(line)[i])
    ensures Purged(r, before + line + after) == Purged(r, before) + Universal(line) + Purged(r, after)
    ensures Universal(line) == line <==> '\r' !in line
  {
    RefusedStays(r, line);
    PurgedConcat(r, before, line);
    CutBehind(before, line, after);
    PurgedConcat(r, before + line, after);
    UniversalLacksCR(line);
  }

  lemma CutBehind(before: string, line: string, after: string)
    requires line != "" && IsCut(line, after)
    ensures IsCut(before + line, after)
  {
    assert (before + line)[|before + line| - 1] == line[|line| - 1];
  }
}
