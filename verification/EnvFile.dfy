/**
 The `.env` file as a whole (src/arail/env_writer.py): `set_env_var` and `read_env_var`, what an edit
 leaves alone, when a second identical edit does nothing, and when a read gives the value back.
 */
module EnvFile {
  import opened Basics
  import opened EnvQuoting
  import opened TextLines
  import opened EnvLines
  import opened EnvEdits

  predicate Matches(line: Line, key: string) {
    line.Assign? && line.key == key
  }

  function FirstMatch(lines: seq<Line>, key: string): (at: Option<nat>)
    ensures at.Some? ==>
              && at.value < |lines| && Matches(lines[at.value], key)
              && forall j :: 0 <= j < at.value ==> !Matches(lines[j], key)
    ensures at.None? ==> forall j :: 0 <= j < |lines| ==> !Matches(lines[j], key)
  {
    if lines == [] then None
    else if Matches(lines[0], key) then Some(0)
    else
      var at := FirstMatch(lines[1..], key);
      if at.None? then None else Some(at.value + 1)
  }

  /** The value of the last line that sets `key`. */
  function LastValue(lines: seq<Line>, key: string): Option<string> {
    if lines == [] then None
    else
      var last := lines[|lines| - 1];
      if Matches(last, key) then Some(UnquotedValue(last)) else LastValue(lines[..|lines| - 1], key)
  }

  lemma LastValueStep(lines: seq<Line>, i: nat, key: string)
    requires i < |lines|
    ensures LastValue(lines[..i + 1], key)
            == if Matches(lines[i], key) then Some(UnquotedValue(lines[i])) else LastValue(lines[..i], key)
  {
    assert lines[..i + 1][..i] == lines[..i];
  }

  function CountCRLF(text: string): nat {
    if |text| < 2 then 0 else (if text[0] == '\r' && text[1] == '\n' then 1 else 0) + CountCRLF(text[1..])
  }

  function NewlineOf(text: string): (nl: string)
    ensures nl in {"\n", "\r\n"}
  {
    if CountCRLF(text) > Newlines(text) - CountCRLF(text) then "\r\n" else "\n"
  }

  function CommentText(stamp: string): string {
    "# set by arail portal toggle (" + stamp + ")"
  }

  predicate NeedsBlank(lines: seq<Line>) {
    lines != [] && !lines[|lines| - 1].Blank?
  }

  /** The lines the append path adds. */
  function Appended(lines: seq<Line>, key: string, value: string, stamp: string, nl: string): seq<Line> {
    (if NeedsBlank(lines) then [Blank(nl)] else [])
    + [Comment(CommentText(stamp) + nl), NewAssignment(key, value, nl)]
  }

  function EndWithNewline(text: string, nl: string): string {
    if text != "" && text[|text| - 1] == '\n' then text else text + nl
  }

  /** Whether the edit has anything to write. */
  predicate Changes(text: string, key: string, value: string) {
    var lines := ParseAll(SplitLines(text));
    var at := FirstMatch(lines, key);
    at.None? || WithValue(lines[at.value], value).raw != lines[at.value].raw
  }

  /** The text of the file after `set_env_var`. */
  function Edit(text: string, key: string, value: string, stamp: string): string {
    var lines := ParseAll(SplitLines(text));
    var nl := NewlineOf(text);
    var at := FirstMatch(lines, key);
    if at.None? then EndWithNewline(Join(Raws(lines + Appended(lines, key, value, stamp, nl))), nl)
    else if !Changes(text, key, value) then text
    else EndWithNewline(Join(Raws(lines[at.value := WithValue(lines[at.value], value)])), nl)
  }

  function ReadValue(text: string, key: string): Option<string> {
    LastValue(ParseAll(SplitLines(Universal(text))), key)
  }

  // ----- the operations -----

  predicate Forbidden(value: string) {
    '\n' in value || '\0' in value
  }

  datatype Contents = Contents(bom: bool, text: string)

  datatype SetResult =
    | InvalidKey
    | ForbiddenValue
    | WriteFailed
    | Done(oldValue: Option<string>, changed: bool, appended: bool)

  /** How many lines set `key`. */
  function CountMatches(lines: seq<Line>, key: string): nat {
    if lines == [] then 0
    else CountMatches(lines[..|lines| - 1], key) + if Matches(lines[|lines| - 1], key) then 1 else 0
  }

  /** The search loop: the first line that sets `key`, its value, and how many lines after it set it too. */
  method FindKey(lines: seq<Line>, key: string) returns (first: Option<nat>, value: Option<string>, duplicates: nat)
    ensures first == FirstMatch(lines, key)
    ensures value == if first.None? then None else Some(UnquotedValue(lines[first.value]))
    ensures duplicates + (if first.Some? then 1 else 0) == CountMatches(lines, key)
  {
    first, value, duplicates := None, None, 0;
    for i := 0 to |lines|
      invariant first.None? ==> value == None && forall j :: 0 <= j < i ==> !Matches(lines[j], key)
      invariant first.Some? ==>
                  && first.value < i && Matches(lines[first.value], key)
                  && value == Some(UnquotedValue(lines[first.value]))
                  && forall j :: 0 <= j < first.value ==> !Matches(lines[j], key)
      invariant duplicates + (if first.Some? then 1 else 0) == CountMatches(lines[..i], key)
    {
      assert lines[..i + 1][..i] == lines[..i];
      if Matches(lines[i], key) {
        if first.None? {
          first, value := Some(i), Some(UnquotedValue(lines[i]));
        } else {
          duplicates := duplicates + 1;
        }
      }
    }
    assert lines[..|lines|] == lines;
  }

  class EnvironmentFile {
    var contents: Option<Contents>

    constructor ()
      ensures contents == None
    {
      contents := None;
    }

    function Text(): string
      reads this
    {
      if contents.None? then "" else contents.value.text
    }

    method SetEnvVar(key: string, value: string, stamp: string, writeWorks: bool) returns (result: SetResult)
      modifies this
      ensures result == InvalidKey <==> !IsIdent(key)
      ensures result == ForbiddenValue <==> IsIdent(key) && Forbidden(value)
      ensures result == WriteFailed <==>
              IsIdent(key) && !Forbidden(value) && !writeWorks && Changes(old(Text()), key, value)
      ensures !result.Done? ==> contents == old(contents)
      ensures result.Done? ==> Text() == Edit(old(Text()), key, value, stamp)
      ensures result.Done? && result.changed ==>
                contents.Some? && contents.value.bom == (old(contents).Some? && old(contents).value.bom)
      ensures result.Done? && !result.changed ==> contents == old(contents)
      ensures result.Done? ==>
                var lines := ParseAll(SplitLines(old(Text())));
                var at := FirstMatch(lines, key);
                && result.changed == Changes(old(Text()), key, value)
                && result.appended == at.None?
                && result.oldValue == if at.None? then None else Some(UnquotedValue(lines[at.value]))
    {
      if !IsIdent(key) {
        return InvalidKey;
      }
      if Forbidden(value) {
        return ForbiddenValue;
      }
      var bom, text := contents.Some? && contents.value.bom, Text();
      var nl := NewlineOf(text);
      var lines := ParseLines(text);
      var firstMatch, oldValue, duplicates := FindKey(lines, key);
      if firstMatch.Some? {
        var newLine := WithValue(lines[firstMatch.value], value);
        if newLine.raw == lines[firstMatch.value].raw {
          return Done(oldValue, false, false);
        }
        lines := lines[firstMatch.value := newLine];
      } else {
        lines := lines + Appended(lines, key, value, stamp, nl);
      }
      if !writeWorks {
        return WriteFailed;
      }
      contents := Some(Contents(bom, EndWithNewline(Join(Raws(lines)), nl)));
      result := Done(oldValue, true, firstMatch.None?);
    }

    method ReadEnvVar(key: string) returns (result: Option<string>)
      ensures result == if contents.None? then None else ReadValue(Text(), key)
    {
      if contents.None? {
        return None;
      }
      var lines := ParseLines(Universal(contents.value.text));
      result := None;
      for i := 0 to |lines|
        invariant result == LastValue(lines[..i], key)
      {
        LastValueStep(lines, i, key);
        if Matches(lines[i], key) {
          result := Some(UnquotedValue(lines[i]));
        }
      }
      assert lines[..|lines|] == lines;
    }
  }

  // ----- the lines of the edited text -----

  /** Text written after the lines: on a line of its own, or on the last one if that has not ended. */
  function Glue(raws: seq<string>, s: string): seq<string> {
    if raws != [] && !Ended(raws[|raws| - 1]) then raws[|raws| - 1 := raws[|raws| - 1] + s] else raws + [s]
  }

  lemma JoinGlue(raws: seq<string>, s: string)
    ensures Join(Glue(raws, s)) == Join(raws) + s
  {
    if raws != [] && !Ended(raws[|raws| - 1]) {
      var n := |raws| - 1;
      assert raws == raws[..n] + [raws[n]] && Glue(raws, s) == raws[..n] + [raws[n] + s];
      JoinSnoc(raws[..n], raws[n]);
      JoinSnoc(raws[..n], raws[n] + s);
      ConcatAssociates(Join(raws[..n]), raws[n], s);
    } else {
      JoinSnoc(raws, s);
    }
  }

  lemma GluedChunk(raw: string, s: string)
    requires IsChunk(raw) && !Ended(raw) && IsChunk(s)
    ensures IsChunk(raw + s)
  {
  }

  lemma GlueLines(raws: seq<string>, s: string)
    requires AreLines(raws) && IsChunk(s)
    ensures AreLines(Glue(raws, s)) && Join(Glue(raws, s)) == Join(raws) + s
  {
    JoinGlue(raws, s);
    if raws != [] && !Ended(raws[|raws| - 1]) {
      GluedChunk(raws[|raws| - 1], s);
      LastReplaced(raws, raws[|raws| - 1] + s);
    } else {
      LineAdded(raws, s);
    }
  }

  lemma LastReplaced(raws: seq<string>, raw: string)
    requires AreLines(raws) && raws != [] && IsChunk(raw)
    ensures AreLines(raws[|raws| - 1 := raw])
  {
  }

  lemma LineAdded(raws: seq<string>, raw: string)
    requires AreLines(raws) && (raws == [] || Ended(raws[|raws| - 1])) && IsChunk(raw)
    ensures AreLines(raws + [raw])
  {
  }

  /** The lines, the last one ended. */
  function Terminated(raws: seq<string>, nl: string): seq<string> {
    if raws == [] || Ended(raws[|raws| - 1]) then raws else Glue(raws, nl)
  }

  lemma TerminatedLines(raws: seq<string>, nl: string)
    requires AreLines(raws) && raws != [] && nl in {"\n", "\r\n"}
    ensures AreLines(Terminated(raws, nl)) && Join(Terminated(raws, nl)) == EndWithNewline(Join(raws), nl)
  {
    LastOfJoin(raws);
    if !Ended(raws[|raws| - 1]) {
      GlueLines(raws, nl);
    }
  }

  // ----- written lines are lines -----

  lemma SliceLacks(s: string, c: char, i: nat, j: nat)
    requires i <= j <= |s| && c !in s
    ensures c !in s[i..j]
  {
  }

  lemma RestLacks(rest: string, c: char)
    requires c !in rest
    ensures ParseRest(rest).2.Some? ==> c !in ParseRest(rest).2.value
  {
  }

  lemma PartsLack(raw: string, c: char)
    requires c !in raw[..Stripped(raw)]
    ensures var line := ParseLine(raw);
            line.Assign? ==>
              && line.term == raw[Stripped(raw)..]
              && c !in line.prefix && c !in line.key && (line.inline.Some? ==> c !in line.inline.value)
  {
    var text := raw[..Stripped(raw)];
    SliceLacks(text, c, 0, Spaces(text));
    SliceLacks(text, c, Spaces(text), |text|);
    BodyFrame(raw, text[..Spaces(text)], text[Spaces(text)..], raw[Stripped(raw)..]);
    BodyLacks(raw, text[..Spaces(text)], text[Spaces(text)..], raw[Stripped(raw)..], c);
  }

  lemma BodyLacks(raw: string, prefix: string, body: string, term: string, c: char)
    requires c !in body
    ensures var line := ParseBody(raw, prefix, body, term);
            line.Assign? ==> c !in line.key && (line.inline.Some? ==> c !in line.inline.value)
  {
    SliceLacks(body, c, 0, IdentChars(body));
    var after := body[IdentChars(body)..];
    if Spaces(after) < |after| {
      RestLacks(after[Spaces(after) + 1..], c);
    }
  }

  lemma {:induction false} EscapeLacks(v: string, c: char)
    requires c !in v && !Special(c)
    ensures c !in Escape(v)
  {
    if v != "" {
      EscapeLacks(v[1..], c);
      assert c !in EscapeChar(v[0]);
    }
  }

  lemma RightHandSideLacks(oldQuote: string, v: string, c: char)
    requires oldQuote in {"", "\"", "'"} && c !in v && c in {'\n', '\r'}
    ensures c !in RightHandSide(oldQuote, v).0
  {
    FourReplacesEscape(v);
    EscapeLacks(v, c);
  }

  /** The text of a rewritten line, its newline left off. */
  function WrittenText(line: Line, v: string): (text: string)
    requires line.Assign?
    ensures text != ""
  {
    line.prefix + (line.key + ("=" + (RightHandSide(line.quote, v).0 + InlinePart(line.inline))))
  }

  lemma WrittenLacks(line: Line, v: string, c: char)
    requires line.Assign? && line.quote in {"", "\"", "'"} && c !in v && c in {'\n', '\r'}
    requires c !in line.prefix && c !in line.key && (line.inline.Some? ==> c !in line.inline.value)
    ensures c !in WrittenText(line, v)
  {
    RightHandSideLacks(line.quote, v, c);
  }

  lemma WrittenEnds(line: Line, v: string)
    requires line.Assign? && WellParsed(line)
    ensures !IsNewlineChar(WrittenText(line, v)[|WrittenText(line, v)| - 1])
  {
    RightHandSideEnds(line.quote, v);
    InlineEnds(line.inline);
    PartsEnd(line.prefix, line.key, RightHandSide(line.quote, v).0, InlinePart(line.inline));
  }

  lemma InlineEnds(inline: Option<string>)
    requires inline.Some? ==> EndsWhole(inline.value)
    ensures EndsWhole(InlinePart(inline))
  {
  }

  lemma PartsEnd(prefix: string, key: string, rhs: string, inline: string)
    requires EndsWhole(rhs) && EndsWhole(inline)
    ensures EndsWhole(prefix + (key + ("=" + (rhs + inline))))
  {
    EndsWithin(rhs, inline);
    EndsWithin("=", rhs + inline);
    EndsWithin(key, "=" + (rhs + inline));
    EndsWithin(prefix, key + ("=" + (rhs + inline)));
  }

  predicate EndsWhole(s: string) {
    s != "" ==> !IsNewlineChar(s[|s| - 1])
  }

  lemma EndsWithin(a: string, b: string)
    requires EndsWhole(b) && (b == "" ==> EndsWhole(a))
    ensures EndsWhole(a + b)
  {
  }

  lemma RightHandSideEnds(oldQuote: string, v: string)
    requires oldQuote in {"", "\"", "'"}
    ensures EndsWhole(RightHandSide(oldQuote, v).0)
  {
    if v != "" && SafeUnquoted(v) {
      assert SafeChar(v[|v| - 1]);
    }
  }

  lemma ChunkText(raw: string)
    requires IsChunk(raw)
    ensures '\n' !in raw[..Stripped(raw)]
    ensures Ended(raw) <==> Ended(raw[Stripped(raw)..])
  {
  }

  lemma ChunkOf(text: string, term: string)
    requires text != "" && '\n' !in text
    requires forall i :: 0 <= i < |term| - 1 ==> term[i] != '\n'
    ensures IsChunk(text + term) && (Ended(text + term) <==> Ended(term))
  {
  }

  lemma TermOfChunk(raw: string)
    requires IsChunk(raw)
    ensures var term := raw[Stripped(raw)..]; forall i :: 0 <= i < |term| - 1 ==> term[i] != '\n'
  {
  }

  /** A rewritten line is one line again, and ends as the old one did. */
  lemma WrittenIsChunk(raw: string, v: string)
    requires IsChunk(raw) && ParseLine(raw).Assign? && '\n' !in v
    ensures IsChunk(WithValue(ParseLine(raw), v).raw)
    ensures Ended(WithValue(ParseLine(raw), v).raw) <==> Ended(raw)
  {
    var line := ParseLine(raw);
    ParseIsWellFormed(raw);
    ChunkText(raw);
    TermOfChunk(raw);
    PartsLack(raw, '\n');
    WrittenLacks(line, v, '\n');
    RewrittenText(line, v);
    ChunkOf(WrittenText(line, v), line.term);
  }

  // ----- lines that differ in their newline only -----

  predicate SameButNewline(x: Line, y: Line) {
    && (x.Blank? <==> y.Blank?)
    && (x.Comment? <==> y.Comment?)
    && (x.Malformed? <==> y.Malformed?)
    && (x.Assign? ==>
      y.prefix == x.prefix && y.key == x.key && y.valueRaw == x.valueRaw && y.quote == x.quote && y.inline == x.inline)
  }

  lemma SameTextParses(a: string, b: string)
    requires a[..Stripped(a)] == b[..Stripped(b)]
    ensures SameButNewline(ParseLine(a), ParseLine(b))
    ensures ParseLine(a).Assign? ==> ParseLine(a).term == a[Stripped(a)..]
  {
  }

  lemma MoreStripped(raw: string, nl: string)
    requires nl in {"\n", "\r\n"}
    ensures Stripped(raw + nl) == Stripped(raw)
    ensures (raw + nl)[..Stripped(raw)] == raw[..Stripped(raw)]
    ensures (raw + nl)[Stripped(raw)..] == raw[Stripped(raw)..] + nl
  {
    var n := Stripped(raw);
    forall i | n <= i < |raw + nl| ensures IsNewlineChar((raw + nl)[i]) {
      assert (raw + nl)[i] == if i < |raw| then raw[i] else nl[i - |raw|];
    }
    assert n > 0 ==> (raw + nl)[n - 1] == raw[n - 1];
  }

  lemma MoreNewline(raw: string, nl: string)
    requires nl in {"\n", "\r\n"}
    ensures SameButNewline(ParseLine(raw), ParseLine(raw + nl))
    ensures ParseLine(raw).Assign? ==> ParseLine(raw + nl).term == ParseLine(raw).term + nl
  {
    MoreStripped(raw, nl);
    SameTextParses(raw, raw + nl);
    SameTextParses(raw + nl, raw);
  }

  /** Whether a line's rewrite leaves it as it is does not depend on its newline. */
  lemma SameRewrite(raw: string, nl: string, v: string)
    requires nl in {"\n", "\r\n"} && ParseLine(raw).Assign?
    ensures ParseLine(raw + nl).Assign?
    ensures WithValue(ParseLine(raw + nl), v).raw == raw + nl <==> WithValue(ParseLine(raw), v).raw == raw
  {
    MoreNewline(raw, nl);
    var x, y := ParseLine(raw), ParseLine(raw + nl);
    RewrittenText(x, v);
    RewrittenText(y, v);
    ConcatAssociates(WrittenText(x, v), x.term, nl);
    assert WithValue(y, v).raw == WithValue(x, v).raw + nl;
    SameFront(WithValue(x, v).raw, raw, nl);
  }

  lemma SameFront(a: string, b: string, c: string)
    ensures a + c == b + c <==> a == b
  {
    if a + c == b + c {
      assert |a| == |b|;
      assert (a + c)[..|a|] == a && (b + c)[..|b|] == b;
    }
  }

  // ----- what the edit leaves -----

  /** The lines of the file after the edit of the line at `at`. */
  function RewrittenRaws(raws: seq<string>, at: nat, value: string): seq<string>
    requires at < |raws| && ParseLine(raws[at]).Assign?
  {
    raws[at := WithValue(ParseLine(raws[at]), value).raw]
  }

  lemma RewrittenRawsAreLines(raws: seq<string>, at: nat, value: string)
    requires AreLines(raws) && at < |raws| && ParseLine(raws[at]).Assign? && '\n' !in value
    ensures AreLines(RewrittenRaws(raws, at, value))
  {
    WrittenIsChunk(raws[at], value);
    LinesReplaced(raws, at, WithValue(ParseLine(raws[at]), value).raw);
  }

  lemma LinesReplaced(raws: seq<string>, at: nat, raw: string)
    requires AreLines(raws) && at < |raws| && IsChunk(raw) && (Ended(raw) <==> Ended(raws[at]))
    ensures AreLines(raws[at := raw])
  {
  }

  /** An edit of a key that is there replaces the first line that sets it and no other, but ends the last line. */
  lemma EditReplacesFirstMatch(text: string, key: string, value: string, stamp: string)
    requires '\n' !in value && Changes(text, key, value)
    requires FirstMatch(ParseAll(SplitLines(text)), key).Some?
    ensures var at := FirstMatch(ParseAll(SplitLines(text)), key).value;
            && AreLines(RewrittenRaws(SplitLines(text), at, value))
            && SplitLines(Edit(text, key, value, stamp))
               == Terminated(RewrittenRaws(SplitLines(text), at, value), NewlineOf(text))
  {
    var raws, nl := SplitLines(text), NewlineOf(text);
    var lines := ParseAll(raws);
    var at := FirstMatch(lines, key).value;
    SplitGivesLines(text);
    RewrittenRawsAreLines(raws, at, value);
    var now := RewrittenRaws(raws, at, value);
    assert Raws(lines[at := WithValue(lines[at], value)]) == now;
    TerminatedLines(now, nl);
    SplitOfJoin(Terminated(now, nl));
  }

  lemma NewAssignmentText(key: string, value: string, nl: string)
    ensures var line := NewAssignment(key, value, nl); var (rhs, quote) := RightHandSide("", value);
            && line.valueRaw == rhs && line.quote == quote
            && line.raw == "" + (key + ("=" + rhs)) + nl
  {
  }

  lemma NewAssignmentParses(key: string, value: string, nl: string)
    requires IsIdent(key) && nl in {"\n", "\r\n"}
    ensures ParseLine(NewAssignment(key, value, nl).raw) == NewAssignment(key, value, nl)
    ensures WithValue(NewAssignment(key, value, nl), value).raw == NewAssignment(key, value, nl).raw
  {
    var line := NewAssignment(key, value, nl);
    var rhs := RightHandSide("", value).0;
    NewAssignmentText(key, value, nl);
    ParseOfRightHandSide("", value);
    ParseOfAssignment("", key, rhs, nl);
    RewrittenText(line, value);
    assert rhs + "" == rhs;
  }

  lemma NewAssignmentIsChunk(key: string, value: string, nl: string)
    requires IsIdent(key) && '\n' !in value && nl in {"\n", "\r\n"}
    ensures IsChunk(NewAssignment(key, value, nl).raw) && Ended(NewAssignment(key, value, nl).raw)
  {
    var rhs := RightHandSide("", value).0;
    RightHandSideLacks("", value, '\n');
    IdentLacks(key, '\n');
    var front := key + "=" + rhs;
    assert '\n' !in front;
    assert NewAssignment(key, value, nl).raw == front + nl;
  }

  lemma IdentLacks(key: string, c: char)
    requires IsIdent(key) && IsNewlineChar(c)
    ensures c !in key
  {
  }

  lemma CommentIsChunk(stamp: string, nl: string)
    requires '\n' !in stamp && nl in {"\n", "\r\n"}
    ensures IsChunk(CommentText(stamp) + nl) && Ended(CommentText(stamp) + nl)
  {
  }

  function Spaced(raws: seq<string>, nl: string): seq<string> {
    if NeedsBlank(ParseAll(raws)) then Glue(raws, nl) else raws
  }

  /** The lines of the file after an append, the assignment left off. */
  function AppendedRaws(raws: seq<string>, stamp: string, nl: string): seq<string> {
    Glue(Spaced(raws, nl), CommentText(stamp) + nl)
  }

  lemma SpacedLines(raws: seq<string>, nl: string)
    requires AreLines(raws) && nl in {"\n", "\r\n"}
    ensures AreLines(Spaced(raws, nl))
    ensures Join(Spaced(raws, nl)) == Join(raws) + (if NeedsBlank(ParseAll(raws)) then nl else "")
  {
    if NeedsBlank(ParseAll(raws)) {
      assert IsChunk(nl);
      GlueLines(raws, nl);
    }
  }

  lemma GlueEnds(raws: seq<string>, s: string)
    requires Ended(s)
    ensures var glued := Glue(raws, s); glued != [] && Ended(glued[|glued| - 1])
  {
  }

  lemma AppendedRawsAreLines(raws: seq<string>, stamp: string, nl: string)
    requires AreLines(raws) && '\n' !in stamp && nl in {"\n", "\r\n"}
    ensures var before := AppendedRaws(raws, stamp, nl);
            && AreLines(before) && before != [] && Ended(before[|before| - 1])
            && Join(before) == Join(raws) + (if NeedsBlank(ParseAll(raws)) then nl else "") + (CommentText(stamp) + nl)
  {
    CommentIsChunk(stamp, nl);
    SpacedLines(raws, nl);
    GlueLines(Spaced(raws, nl), CommentText(stamp) + nl);
    GlueEnds(Spaced(raws, nl), CommentText(stamp) + nl);
  }

  /** The text after an append. */
  function AppendedText(text: string, key: string, value: string, stamp: string): string {
    var nl := NewlineOf(text);
    text + (if NeedsBlank(ParseAll(SplitLines(text))) then nl else "") + (CommentText(stamp) + nl)
    + NewAssignment(key, value, nl).raw
  }

  lemma AppendedTextLines(text: string, key: string, value: string, stamp: string)
    requires IsIdent(key) && '\n' !in value && '\n' !in stamp
    ensures SplitLines(AppendedText(text, key, value, stamp))
            == AppendedRaws(SplitLines(text), stamp, NewlineOf(text)) + [NewAssignment(key, value, NewlineOf(text)).raw]
  {
    var raws, nl := SplitLines(text), NewlineOf(text);
    var line := NewAssignment(key, value, nl).raw;
    SplitGivesLines(text);
    SplitIsLossless(text);
    AppendedRawsAreLines(raws, stamp, nl);
    NewAssignmentIsChunk(key, value, nl);
    var before := AppendedRaws(raws, stamp, nl);
    GlueLines(before, line);
    SplitOfJoin(before + [line]);
  }

  lemma EndWithNewlineIsNoOp(text: string, line: string, nl: string)
    requires Ended(line)
    ensures EndWithNewline(text + line, nl) == text + line
  {
  }

  /** An edit of a key that is not there keeps the whole text and adds to its end. */
  lemma EditAppends(text: string, key: string, value: string, stamp: string)
    requires IsIdent(key) && '\n' !in value && '\n' !in stamp
    requires FirstMatch(ParseAll(SplitLines(text)), key).None?
    ensures Edit(text, key, value, stamp) == AppendedText(text, key, value, stamp)
    ensures SplitLines(Edit(text, key, value, stamp))
            == AppendedRaws(SplitLines(text), stamp, NewlineOf(text)) + [NewAssignment(key, value, NewlineOf(text)).raw]
  {
    var raws, nl := SplitLines(text), NewlineOf(text);
    SplitIsLossless(text);
    NewAssignmentIsChunk(key, value, nl);
    JoinOfAppended(raws, key, value, stamp, nl);
    var front := text + (if NeedsBlank(ParseAll(raws)) then nl else "") + (CommentText(stamp) + nl);
    EndWithNewlineIsNoOp(front, NewAssignment(key, value, nl).raw, nl);
    AppendedTextLines(text, key, value, stamp);
  }

  lemma JoinOfAppended(raws: seq<string>, key: string, value: string, stamp: string, nl: string)
    ensures var lines := ParseAll(raws);
            Join(Raws(lines + Appended(lines, key, value, stamp, nl)))
            == Join(raws) + (if NeedsBlank(lines) then nl else "") + (CommentText(stamp) + nl)
               + NewAssignment(key, value, nl).raw
  {
    JoinOfMore(ParseAll(raws), Comment(CommentText(stamp) + nl), NewAssignment(key, value, nl), nl);
    assert Raws(ParseAll(raws)) == raws;
  }

  lemma JoinOfMore(lines: seq<Line>, comment: Line, line: Line, nl: string)
    ensures Join(Raws(lines + ((if NeedsBlank(lines) then [Blank(nl)] else []) + [comment, line])))
            == Join(Raws(lines)) + (if NeedsBlank(lines) then nl else "") + comment.raw + line.raw
  {
    var raws := Raws(lines);
    if NeedsBlank(lines) {
      assert lines + ([Blank(nl)] + [comment, line]) == lines + [Blank(nl), comment, line];
      RawsOf3(lines, Blank(nl), comment, line);
      JoinSnoc(raws, nl);
      JoinOf2(raws + [nl], comment.raw, line.raw);
    } else {
      assert lines + ([] + [comment, line]) == lines + [comment, line];
      RawsOf2(lines, comment, line);
      JoinOf2(raws, comment.raw, line.raw);
      assert Join(raws) + "" == Join(raws);
    }
  }

  lemma JoinOf2(raws: seq<string>, a: string, b: string)
    ensures Join(raws + [a] + [b]) == Join(raws) + a + b
  {
    JoinSnoc(raws, a);
    JoinSnoc(raws + [a], b);
  }

  lemma RawsOf2(lines: seq<Line>, a: Line, b: Line)
    ensures Raws(lines + [a, b]) == Raws(lines) + [a.raw] + [b.raw]
  {
  }

  lemma RawsOf3(lines: seq<Line>, a: Line, b: Line, c: Line)
    ensures Raws(lines + [a, b, c]) == Raws(lines) + [a.raw] + [b.raw] + [c.raw]
  {
  }
}
