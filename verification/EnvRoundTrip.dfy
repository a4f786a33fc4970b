/**
 What a second identical edit and a later read find in a `.env` file (src/arail/env_writer.py).
 */
module EnvRoundTrip {
  import opened Basics
  import opened EnvQuoting
  import opened TextLines
  import opened EnvLines
  import opened EnvEdits
  import opened EnvFile

  // ----- the second identical edit -----

  lemma FirstMatchAt(lines: seq<Line>, key: string, at: nat)
    requires at < |lines| && Matches(lines[at], key)
    requires forall j :: 0 <= j < at ==> !Matches(lines[j], key)
    ensures FirstMatch(lines, key) == Some(at)
  {
  }

  lemma FirstMatchIs(raws: seq<string>, key: string, at: nat)
    requires at < |raws| && Matches(ParseLine(raws[at]), key)
    requires forall j :: 0 <= j < at ==> !Matches(ParseLine(raws[j]), key)
    ensures FirstMatch(ParseAll(raws), key) == Some(at)
    ensures ParseAll(raws)[at] == ParseLine(raws[at])
  {
    var lines := ParseAll(raws);
    forall j | 0 <= j <= at ensures lines[j] == ParseLine(raws[j]) {
    }
    FirstMatchAt(lines, key, at);
  }

  lemma TerminatedAt(raws: seq<string>, nl: string, j: nat)
    requires j < |raws|
    ensures |Terminated(raws, nl)| == |raws|
    ensures Terminated(raws, nl)[j] == raws[j] || (!Ended(raws[j]) && Terminated(raws, nl)[j] == raws[j] + nl)
    ensures j < |raws| - 1 ==> Terminated(raws, nl)[j] == raws[j]
  {
  }

  ghost predicate NoneMatch(raws: seq<string>, key: string) {
    forall j :: 0 <= j < |raws| ==> !Matches(ParseLine(raws[j]), key)
  }

  lemma NoneMatchOfFirst(raws: seq<string>, key: string)
    ensures FirstMatch(ParseAll(raws), key).None? <==> NoneMatch(raws, key)
  {
    var lines := ParseAll(raws);
    assert forall j :: 0 <= j < |raws| ==> lines[j] == ParseLine(raws[j]);
  }

  lemma GlueMatchesNone(raws: seq<string>, s: string, key: string)
    requires NoneMatch(raws, key) && !Matches(ParseLine(s), key)
    requires raws != [] && !Ended(raws[|raws| - 1]) ==> !Matches(ParseLine(raws[|raws| - 1] + s), key)
    ensures NoneMatch(Glue(raws, s), key)
  {
  }

  lemma NewlineIsBlank(nl: string)
    requires nl in {"\n", "\r\n"}
    ensures ParseLine(nl) == Blank(nl)
  {
  }

  /** A comment written where only whitespace stands is a comment. */
  lemma CommentParses(blank: string, stamp: string, nl: string)
    requires forall i :: 0 <= i < |blank| ==> IsSpace(blank[i])
    requires nl in {"\n", "\r\n"}
    ensures ParseLine(blank + (CommentText(stamp) + nl)).Comment?
  {
    var text := blank + CommentText(stamp);
    ConcatAssociates(blank, CommentText(stamp), nl);
    assert text[|text| - 1] == ')';
    StrippedIs(text, nl);
    assert (text + nl)[..|text|] == text;
    SpacesIs(blank, CommentText(stamp));
    assert text[|blank|..] == CommentText(stamp);
  }

  lemma BlankIsSpaces(raw: string)
    requires ParseLine(raw).Blank?
    ensures forall i :: 0 <= i < |raw| ==> IsSpace(raw[i])
  {
  }

  lemma SpacedEnds(raws: seq<string>, nl: string)
    requires nl in {"\n", "\r\n"}
    ensures var spaced := Spaced(raws, nl);
            spaced == [] || Ended(spaced[|spaced| - 1]) || ParseLine(spaced[|spaced| - 1]).Blank?
  {
    if NeedsBlank(ParseAll(raws)) {
      GlueEnds(raws, nl);
    } else if raws != [] {
      assert ParseAll(raws)[|raws| - 1] == ParseLine(raws[|raws| - 1]);
    }
  }

  lemma SpacedMatchesNone(raws: seq<string>, nl: string, key: string)
    requires NoneMatch(raws, key) && nl in {"\n", "\r\n"}
    ensures NoneMatch(Spaced(raws, nl), key)
  {
    if NeedsBlank(ParseAll(raws)) {
      NewlineIsBlank(nl);
      MoreNewline(raws[|raws| - 1], nl);
      GlueMatchesNone(raws, nl, key);
    }
  }

  /** The comment of an append sets no key, and makes no line do so. */
  lemma CommentGlued(spaced: seq<string>, stamp: string, nl: string, key: string)
    requires nl in {"\n", "\r\n"}
    requires spaced != [] && !Ended(spaced[|spaced| - 1]) ==> ParseLine(spaced[|spaced| - 1]).Blank?
    ensures !Matches(ParseLine(CommentText(stamp) + nl), key)
    ensures spaced != [] && !Ended(spaced[|spaced| - 1]) ==>
              !Matches(ParseLine(spaced[|spaced| - 1] + (CommentText(stamp) + nl)), key)
  {
    CommentParses("", stamp, nl);
    assert "" + (CommentText(stamp) + nl) == CommentText(stamp) + nl;
    if spaced != [] && !Ended(spaced[|spaced| - 1]) {
      BlankIsSpaces(spaced[|spaced| - 1]);
      CommentParses(spaced[|spaced| - 1], stamp, nl);
    }
  }

  lemma AppendedMatchesNone(raws: seq<string>, stamp: string, nl: string, key: string)
    requires NoneMatch(raws, key) && nl in {"\n", "\r\n"}
    ensures NoneMatch(AppendedRaws(raws, stamp, nl), key)
  {
    var spaced := Spaced(raws, nl);
    SpacedMatchesNone(raws, nl, key);
    SpacedEnds(raws, nl);
    CommentGlued(spaced, stamp, nl, key);
    GlueMatchesNone(spaced, CommentText(stamp) + nl, key);
  }

  /** What the parser makes of the line an edit of `key` writes. */
  function Reparsed(raw: string, value: string): Line
    requires ParseLine(raw).Assign?
  {
    ParseLine(WithValue(ParseLine(raw), value).raw)
  }

  /** Whether the line's rewrite survives being read and rewritten with the same value. */
  predicate RewriteIsStable(line: Line, value: string)
    requires line.Assign?
  {
    line.inline.Some? ==> CommentSurvives(value, LStrip(line.inline.value))
  }

  lemma ReparsedKeepsKey(raw: string, value: string)
    requires ParseLine(raw).Assign?
    ensures Reparsed(raw, value).Assign? && Reparsed(raw, value).key == ParseLine(raw).key
    ensures WithValue(Reparsed(raw, value), value).raw == Reparsed(raw, value).raw <==>
            RewriteIsStable(ParseLine(raw), value)
  {
    var line := ParseLine(raw);
    ParseIsWellFormed(raw);
    if line.inline.None? {
      RewrittenLineParsesBack(line, value);
    } else {
      SecondWriteIff(line, value);
    }
  }

  lemma ChangesByLines(text: string, key: string, value: string, raws: seq<string>, at: nat)
    requires SplitLines(text) == raws && at < |raws| && Matches(ParseLine(raws[at]), key)
    requires forall j :: 0 <= j < at ==> !Matches(ParseLine(raws[j]), key)
    ensures Changes(text, key, value) <==> WithValue(ParseLine(raws[at]), value).raw != raws[at]
  {
    FirstMatchIs(raws, key, at);
    assert ParseAll(raws)[at] == ParseLine(raws[at]);
  }

  lemma TerminatedStays(raws: seq<string>, nl: string, key: string, value: string, at: nat)
    requires at < |raws| && nl in {"\n", "\r\n"} && Matches(ParseLine(raws[at]), key)
    ensures |Terminated(raws, nl)| == |raws|
    ensures Matches(ParseLine(Terminated(raws, nl)[at]), key)
    ensures WithValue(ParseLine(Terminated(raws, nl)[at]), value).raw == Terminated(raws, nl)[at] <==>
            WithValue(ParseLine(raws[at]), value).raw == raws[at]
  {
    var raw := raws[at];
    TerminatedAt(raws, nl, at);
    MoreNewline(raw, nl);
    SameRewrite(raw, nl, value);
  }

  lemma TerminatedBefore(raws: seq<string>, nl: string, at: nat)
    requires at < |raws|
    ensures |Terminated(raws, nl)| == |raws|
    ensures forall j :: 0 <= j < at ==> Terminated(raws, nl)[j] == raws[j]
  {
  }

  lemma ChangesAtEnd(text: string, key: string, value: string, before: seq<string>, raw: string)
    requires SplitLines(text) == before + [raw]
    requires NoneMatch(before, key) && Matches(ParseLine(raw), key)
    ensures Changes(text, key, value) <==> WithValue(ParseLine(raw), value).raw != raw
  {
    var raws := before + [raw];
    forall j | 0 <= j < |before| ensures !Matches(ParseLine(raws[j]), key) {
      assert raws[j] == before[j];
    }
    ChangesByLines(text, key, value, raws, |before|);
  }

  lemma SecondAfterAppend(text: string, key: string, value: string, stamp: string)
    requires IsIdent(key) && '\n' !in value && '\n' !in stamp
    requires FirstMatch(ParseAll(SplitLines(text)), key).None?
    ensures !Changes(Edit(text, key, value, stamp), key, value)
  {
    var raws, nl := SplitLines(text), NewlineOf(text);
    var line := NewAssignment(key, value, nl);
    NoneMatchOfFirst(raws, key);
    AppendedMatchesNone(raws, stamp, nl, key);
    EditAppends(text, key, value, stamp);
    NewAssignmentParses(key, value, nl);
    assert Matches(line, key);
    ChangesAtEnd(Edit(text, key, value, stamp), key, value, AppendedRaws(raws, stamp, nl), line.raw);
  }

  lemma SecondAfterRewrite(text: string, key: string, value: string, stamp: string, at: nat)
    requires IsIdent(key) && '\n' !in value && '\n' !in stamp
    requires FirstMatch(ParseAll(SplitLines(text)), key) == Some(at) && Changes(text, key, value)
    ensures Changes(Edit(text, key, value, stamp), key, value) <==>
            !RewriteIsStable(ParseLine(SplitLines(text)[at]), value)
  {
    var raws, nl := SplitLines(text), NewlineOf(text);
    FirstMatchInRaws(raws, key);
    ReparsedKeepsKey(raws[at], value);
    var now := RewrittenRaws(raws, at, value);
    EditReplacesFirstMatch(text, key, value, stamp);
    TerminatedStays(now, nl, key, value, at);
    TerminatedBefore(now, nl, at);
    ChangesByLines(Edit(text, key, value, stamp), key, value, Terminated(now, nl), at);
  }

  /**
   A second identical edit writes nothing exactly when the first one appended the key, or the line it
   rewrote has no inline comment, or has one that survives being read back.
   */
  lemma SecondEditIff(text: string, key: string, value: string, stamp: string)
    requires IsIdent(key) && '\n' !in value && '\n' !in stamp
    ensures var raws := SplitLines(text);
            var at := FirstMatch(ParseAll(raws), key);
            Changes(Edit(text, key, value, stamp), key, value) <==>
            at.Some? && !RewriteIsStable(ParseAll(raws)[at.value], value)
  {
    var raws := SplitLines(text);
    var at := FirstMatch(ParseAll(raws), key);
    if at.None? {
      SecondAfterAppend(text, key, value, stamp);
    } else {
      assert ParseAll(raws)[at.value] == ParseLine(raws[at.value]);
      if Changes(text, key, value) {
        SecondAfterRewrite(text, key, value, stamp, at.value);
      } else {
        ReparsedKeepsKey(raws[at.value], value);
      }
    }
  }

  lemma FirstMatchInRaws(raws: seq<string>, key: string)
    requires FirstMatch(ParseAll(raws), key).Some?
    ensures var at := FirstMatch(ParseAll(raws), key).value;
            && Matches(ParseLine(raws[at]), key)
            && forall j :: 0 <= j < at ==> !Matches(ParseLine(raws[j]), key)
  {
    var lines := ParseAll(raws);
    assert forall j :: 0 <= j < |raws| ==> lines[j] == ParseLine(raws[j]);
  }

  /** The change an edit reports is a change of the text. */
  lemma ReportedChangeIsReal(text: string, key: string, value: string, stamp: string)
    requires IsIdent(key) && '\n' !in value && '\n' !in stamp
    ensures Edit(text, key, value, stamp) == text <==> !Changes(text, key, value)
  {
    var raws, nl := SplitLines(text), NewlineOf(text);
    var at := FirstMatch(ParseAll(raws), key);
    if at.None? {
      EditAppends(text, key, value, stamp);
    } else if Changes(text, key, value) {
      EditReplacesFirstMatch(text, key, value, stamp);
      FirstMatchInRaws(raws, key);
      SplitGivesLines(text);
      WrittenIsChunk(raws[at.value], value);
      var now := RewrittenRaws(raws, at.value, value);
      TerminatedAt(now, nl, at.value);
      ChangesByLines(text, key, value, raws, at.value);
      assert now[at.value] + nl != raws[at.value] || Ended(raws[at.value]);
    }
  }
}
