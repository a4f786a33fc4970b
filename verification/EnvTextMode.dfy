/**
 What a read finds in a `.env` file after an edit (src/arail/env_writer.py). The editor cuts a file at `\n`;
 the reader sees it in text mode, where a carriage return ends a line too.
 */
module EnvTextMode {
  import opened Basics
  import opened EnvQuoting
  import opened TextLines
  import opened EnvLines
  import opened EnvEdits
  import opened EnvFile
  import opened EnvRoundTrip

  // ----- the pieces of a file -----

  lemma {:induction false} LastValueConcat(xs: seq<Line>, ys: seq<Line>, key: string)
    ensures LastValue(xs + ys, key) == if LastValue(ys, key).Some? then LastValue(ys, key) else LastValue(xs, key)
  {
    if ys == [] {
      assert xs + ys == xs;
    } else {
      assert (xs + ys)[..|xs + ys| - 1] == xs + ys[..|ys| - 1];
      LastValueConcat(xs, ys[..|ys| - 1], key);
    }
  }

  /** The line that stands last decides. */
  function Later(second: Option<string>, first: Option<string>): Option<string> {
    if second.Some? then second else first
  }

  /** Cut where a line ends, a file is read piece by piece. */
  lemma ReadConcat(a: string, b: string, key: string)
    requires IsCut(a, b)
    ensures ReadValue(a + b, key) == Later(ReadValue(b, key), ReadValue(a, key))
  {
    LinesConcat(a, b);
    LinesRead(LinesOf(a), LinesOf(b), key);
  }

  lemma LinesRead(a: seq<string>, b: seq<string>, key: string)
    ensures LastValue(ParseAll(a + b), key) == Later(LastValue(ParseAll(b), key), LastValue(ParseAll(a), key))
  {
    ParseAllConcat(a, b);
    LastValueConcat(ParseAll(a), ParseAll(b), key);
  }

  lemma ParseAllConcat(a: seq<string>, b: seq<string>)
    ensures ParseAll(a + b) == ParseAll(a) + ParseAll(b)
  {
    forall i | 0 <= i < |a + b| ensures ParseAll(a + b)[i] == (ParseAll(a) + ParseAll(b))[i] {
      assert (a + b)[i] == if i < |a| then a[i] else b[i - |a|];
    }
  }

  lemma OneLine(raw: string)
    requires IsChunk(raw)
    ensures SplitLines(raw) == [raw]
  {
    assert Join([raw]) == raw + Join([]) && raw + Join([]) == raw;
    SplitOfJoin([raw]);
  }

  predicate CleanLine(raw: string) {
    '\r' !in raw[..Stripped(raw)] && raw[Stripped(raw)..] in {"", "\n", "\r\n"}
  }

  /** A clean line as text mode reads it. */
  function Normal(raw: string): string
    requires CleanLine(raw)
  {
    raw[..Stripped(raw)] + if Stripped(raw) == |raw| then "" else "\n"
  }

  lemma UniversalOfParts(text: string, term: string, rest: string)
    requires '\r' !in text && term in {"", "\n", "\r\n"} && (rest != "" ==> term != "")
    ensures Universal(text + term + rest) == text + (if term == "" then "" else "\n") + Universal(rest)
  {
    ConcatAssociates(text, term, rest);
    UniversalOfPlain(text, term + rest);
    if term == "" {
      assert term + rest == "";
    } else {
      UniversalOfTerm(term, rest);
      ConcatAssociates(text, "\n", Universal(rest));
    }
  }

  lemma UniversalOfLine(raw: string, rest: string)
    requires CleanLine(raw) && (rest != "" ==> Ended(raw))
    ensures Universal(raw + rest) == Normal(raw) + Universal(rest)
  {
    var n := Stripped(raw);
    assert raw == raw[..n] + raw[n..];
    UniversalOfParts(raw[..n], raw[n..], rest);
  }

  lemma NormalIsLine(raw: string)
    requires CleanLine(raw) && IsChunk(raw)
    ensures IsChunk(Normal(raw)) && (Ended(Normal(raw)) <==> Ended(raw))
    ensures SameButNewline(ParseLine(raw), ParseLine(Normal(raw)))
  {
    ChunkText(raw);
    var text := raw[..Stripped(raw)];
    var term := if Stripped(raw) == |raw| then "" else "\n";
    StrippedIs(text, term);
    assert (text + term)[..|text|] == text;
    SameTextParses(raw, text + term);
    if text != "" {
      ChunkOf(text, term);
    }
  }

  /** Text mode changes nothing but the newline of a clean line, so it is read as it was written. */
  lemma ReadOfLine(raw: string, key: string)
    requires IsChunk(raw) && CleanLine(raw)
    ensures ReadValue(raw, key) == if Matches(ParseLine(raw), key) then Some(UnquotedValue(ParseLine(raw))) else None
  {
    UniversalOfClean(raw);
    NormalIsLine(raw);
    ValueOfLine(Normal(raw), key);
    SameReads(ParseLine(raw), ParseLine(Normal(raw)), key);
  }

  lemma UniversalOfClean(raw: string)
    requires CleanLine(raw)
    ensures Universal(raw) == Normal(raw)
  {
    UniversalOfLine(raw, "");
    assert raw + "" == raw && Normal(raw) + Universal("") == Normal(raw);
  }

  lemma ValueOfLine(raw: string, key: string)
    requires IsChunk(raw)
    ensures LastValue(ParseAll(SplitLines(raw)), key)
            == if Matches(ParseLine(raw), key) then Some(UnquotedValue(ParseLine(raw))) else None
  {
    OneLine(raw);
    assert ParseAll([raw]) == [] + [ParseLine(raw)];
    LastOfMore([], ParseLine(raw), key);
  }

  // ----- written lines are clean -----

  lemma CleanOf(text: string, term: string)
    requires '\r' !in text && (text != "" ==> text[|text| - 1] != '\n') && term in {"", "\n", "\r\n"}
    ensures CleanLine(text + term)
  {
    StrippedIs(text, term);
    assert (text + term)[..|text|] == text && (text + term)[|text|..] == term;
  }

  lemma WrittenIsClean(raw: string, value: string)
    requires IsChunk(raw) && CleanLine(raw) && ParseLine(raw).Assign? && '\r' !in value && '\n' !in value
    ensures CleanLine(WithValue(ParseLine(raw), value).raw)
  {
    var line := ParseLine(raw);
    ParseIsWellFormed(raw);
    PartsLack(raw, '\r');
    WrittenLacks(line, value, '\r');
    WrittenEnds(line, value);
    RewrittenText(line, value);
    CleanOf(WrittenText(line, value), line.term);
  }

  lemma NewAssignmentIsClean(key: string, value: string, nl: string)
    requires IsIdent(key) && '\r' !in value && '\n' !in value && nl in {"\n", "\r\n"}
    ensures CleanLine(NewAssignment(key, value, nl).raw)
  {
    var rhs := RightHandSide("", value).0;
    NewAssignmentText(key, value, nl);
    RightHandSideLacks("", value, '\r');
    RightHandSideLacks("", value, '\n');
    IdentLacks(key, '\r');
    var text := "" + (key + ("=" + rhs));
    assert '\r' !in text;
    assert text[|text| - 1] == if rhs == "" then '=' else rhs[|rhs| - 1];
    CleanOf(text, nl);
  }

  // ----- a last line that gets its newline -----

  lemma ParseAllSnoc(before: seq<string>, raw: string)
    ensures ParseAll(before + [raw]) == ParseAll(before) + [ParseLine(raw)]
  {
  }

  lemma LastOfMore(lines: seq<Line>, line: Line, name: string)
    ensures LastValue(lines + [line], name)
            == if Matches(line, name) then Some(UnquotedValue(line)) else LastValue(lines, name)
  {
  }

  lemma LastValueSnoc(before: seq<string>, raw: string, name: string)
    ensures LastValue(ParseAll(before + [raw]), name)
            == if Matches(ParseLine(raw), name) then Some(UnquotedValue(ParseLine(raw))) else LastValue(ParseAll(before), name)
  {
    ParseAllSnoc(before, raw);
    LastOfMore(ParseAll(before), ParseLine(raw), name);
  }

  predicate ReadsAlike(x: Line, y: Line, key: string) {
    (Matches(x, key) <==> Matches(y, key)) && (Matches(x, key) ==> UnquotedValue(x) == UnquotedValue(y))
  }

  lemma GlueUnended(raws: seq<string>, s: string)
    requires raws != [] && !Ended(raws[|raws| - 1])
    ensures var n := |raws| - 1; raws == raws[..n] + [raws[n]] && Glue(raws, s) == raws[..n] + [raws[n] + s]
  {
  }

  /** Gluing a line that sets another key, or none, leaves every read of `key` as it was. */
  lemma GlueReads(raws: seq<string>, s: string, key: string)
    requires !Matches(ParseLine(s), key)
    requires raws != [] && !Ended(raws[|raws| - 1]) ==>
               ReadsAlike(ParseLine(raws[|raws| - 1]), ParseLine(raws[|raws| - 1] + s), key)
    ensures LastValue(ParseAll(Glue(raws, s)), key) == LastValue(ParseAll(raws), key)
  {
    if raws != [] && !Ended(raws[|raws| - 1]) {
      var n := |raws| - 1;
      GlueUnended(raws, s);
      LastValueSnoc(raws[..n], raws[n], key);
      LastValueSnoc(raws[..n], raws[n] + s, key);
    } else {
      LastValueSnoc(raws, s, key);
    }
  }

  lemma SameReads(x: Line, y: Line, key: string)
    requires SameButNewline(x, y)
    ensures ReadsAlike(x, y, key)
  {
  }

  lemma GlueNewlineReads(raws: seq<string>, nl: string, key: string)
    requires raws != [] && nl in {"\n", "\r\n"}
    ensures LastValue(ParseAll(Glue(raws, nl)), key) == LastValue(ParseAll(raws), key)
  {
    var last := raws[|raws| - 1];
    NewlineIsBlank(nl);
    MoreNewline(last, nl);
    SameReads(ParseLine(last), ParseLine(last + nl), key);
    GlueReads(raws, nl, key);
  }

  lemma UnendedGlue(text: string, key: string)
    requires text != "" && !Ended(text)
    ensures LastValue(ParseAll(SplitLines(text + "\n")), key) == LastValue(ParseAll(SplitLines(text)), key)
  {
    var raws := SplitLines(text);
    SplitGivesLines(text);
    SplitIsLossless(text);
    LastOfJoin(raws);
    GlueLines(raws, "\n");
    SplitOfJoin(Glue(raws, "\n"));
    GlueNewlineReads(raws, "\n", key);
  }

  lemma UniversalNewline(nl: string)
    requires nl in {"\n", "\r\n"}
    ensures Universal(nl) == "\n"
  {
    UniversalFirst(nl);
    assert nl[First(nl)..] == "";
  }

  lemma NewlineReadsNothing(nl: string, key: string)
    requires nl in {"\n", "\r\n"}
    ensures ReadValue(nl, key).None?
  {
    UniversalNewline(nl);
    NewlineIsBlank("\n");
    ValueOfLine("\n", key);
  }

  /** Ending a last line changes no read, whatever it ended in. */
  lemma EndedReads(text: string, nl: string, key: string)
    requires !Ended(text) && nl in {"\n", "\r\n"}
    ensures ReadValue(text + nl, key) == ReadValue(text, key)
  {
    if text == "" {
      assert text + nl == nl;
      NewlineReadsNothing(nl, key);
    } else if text[|text| - 1] != '\r' {
      PlainEndReads(text, nl, key);
    } else {
      CREndReads(text, nl, key);
    }
  }

  lemma PlainEndReads(text: string, nl: string, key: string)
    requires text != "" && !Ended(text) && text[|text| - 1] != '\r' && nl in {"\n", "\r\n"}
    ensures ReadValue(text + nl, key) == ReadValue(text, key)
  {
    UniversalConcat(text, nl);
    UniversalNewline(nl);
    UniversalEnds(text);
    UnendedGlue(Universal(text), key);
  }

  lemma CREndReads(text: string, nl: string, key: string)
    requires text != "" && text[|text| - 1] == '\r' && nl in {"\n", "\r\n"}
    ensures ReadValue(text + nl, key) == ReadValue(text, key)
  {
    if nl == "\r\n" {
      NewlineReadsNothing(nl, key);
      ReadConcat(text, nl, key);
    } else {
      CRThenNewline(text);
      LastCRReads(text[..|text| - 1], key);
    }
  }

  lemma CRThenNewline(text: string)
    requires text != "" && text[|text| - 1] == '\r'
    ensures text == text[..|text| - 1] + "\r" && text + "\n" == text[..|text| - 1] + "\r\n"
  {
  }

  lemma LastCRReads(front: string, key: string)
    ensures ReadValue(front + "\r\n", key) == ReadValue(front + "\r", key)
  {
    UniversalConcat(front, "\r");
    UniversalConcat(front, "\r\n");
    UniversalNewline("\r\n");
    LoneCR();
  }

  lemma LoneCR()
    ensures Universal("\r") == "\n"
  {
    UniversalFirst("\r");
  }

  lemma NewlineAdded(text: string, nl: string, key: string)
    requires nl in {"\n", "\r\n"}
    ensures ReadValue(text + nl, key) == ReadValue(text, key)
  {
    if Ended(text) {
      NewlineReadsNothing(nl, key);
      ReadConcat(text, nl, key);
    } else {
      EndedReads(text, nl, key);
    }
  }

  // ----- a key that was there -----

  /** A line in the middle: the reads see what is before it, it, and what is after it. */
  lemma ReadAround(raws: seq<string>, at: nat, raw: string, key: string)
    requires AreLines(raws) && at < |raws| && IsChunk(raw) && (Ended(raw) <==> Ended(raws[at]))
    ensures ReadValue(Join(raws[at := raw]), key)
            == Later(ReadValue(Join(raws[at + 1..]), key), Later(ReadValue(raw, key), ReadValue(Join(raws[..at]), key)))
  {
    var front, back := Join(raws[..at]), Join(raws[at + 1..]);
    JoinAround(raws, at, raw);
    FrontEnds(raws, at);
    ReadConcat(front, raw + back, key);
    ReadConcat(raw, back, key);
  }

  lemma JoinAround(raws: seq<string>, at: nat, raw: string)
    requires at < |raws|
    ensures Join(raws[at := raw]) == Join(raws[..at]) + (raw + Join(raws[at + 1..]))
  {
    assert raws[at := raw] == raws[..at] + ([raw] + raws[at + 1..]);
    JoinConcat(raws[..at], [raw] + raws[at + 1..]);
    JoinConcat([raw], raws[at + 1..]);
    assert Join([raw]) == raw + Join([]) && raw + Join([]) == raw;
  }

  /** The text after an edit of a key that was there, but for the newline it may add. */
  lemma RewriteIsJoin(text: string, key: string, value: string, stamp: string, at: nat)
    requires FirstMatch(ParseAll(SplitLines(text)), key) == Some(at)
    ensures ParseLine(SplitLines(text)[at]).Assign?
    ensures var now := Join(RewrittenRaws(SplitLines(text), at, value));
            Edit(text, key, value, stamp) == now || (!Ended(now) && Edit(text, key, value, stamp) == now + NewlineOf(text))
  {
    var raws := SplitLines(text);
    FirstMatchInRaws(raws, key);
    RewrittenIsUpdate(raws, at, value);
    if !Changes(text, key, value) {
      SplitIsLossless(text);
      assert raws[at := raws[at]] == raws;
    }
  }

  lemma RewrittenIsUpdate(raws: seq<string>, at: nat, value: string)
    requires at < |raws| && ParseLine(raws[at]).Assign?
    ensures Raws(ParseAll(raws)[at := WithValue(ParseLine(raws[at]), value)]) == RewrittenRaws(raws, at, value)
  {
  }

  /**
   After an edit of a key that was there, for every text and every value that can be set: a read of any name
   sees what comes after the line, then the line as it was written, then what comes before it.
   */
  lemma ReadAfterRewrite(text: string, key: string, value: string, stamp: string, raws: seq<string>, at: nat, name: string)
    requires '\n' !in value && raws == SplitLines(text) && FirstMatch(ParseAll(raws), key) == Some(at)
    ensures ParseLine(raws[at]).Assign?
    ensures ReadValue(Edit(text, key, value, stamp), name)
            == Later(ReadValue(Join(raws[at + 1..]), name),
                     Later(ReadValue(WithValue(ParseLine(raws[at]), value).raw, name), ReadValue(Join(raws[..at]), name)))
  {
    FirstMatchInRaws(raws, key);
    SplitGivesLines(text);
    WrittenIsChunk(raws[at], value);
    ReadAround(raws, at, WithValue(ParseLine(raws[at]), value).raw, name);
    RewriteIsJoin(text, key, value, stamp, at);
    var now := Join(RewrittenRaws(raws, at, value));
    if !Ended(now) {
      EndedReads(now, NewlineOf(text), name);
    }
  }

  // ----- a key that was not there -----

  lemma {:induction false} UniversalOfSpaces(w: string)
    requires forall i :: 0 <= i < |w| ==> IsSpace(w[i])
    ensures forall i :: 0 <= i < |Universal(w)| ==> IsSpace(Universal(w)[i])
    decreases |w|
  {
    if w != "" {
      UniversalFirst(w);
      UniversalOfSpaces(w[First(w)..]);
    }
  }

  /** Blank text sets no key. */
  lemma {:induction false} BlankReads(w: string, key: string)
    requires forall i :: 0 <= i < |w| ==> IsSpace(w[i])
    ensures LastValue(ParseAll(SplitLines(w)), key).None?
    decreases |w|
  {
    if w != "" {
      var n := LineLen(w);
      assert w == w[..n] + w[n..];
      BlankLine(w[..n], key);
      BlankReads(w[n..], key);
      PiecesRead(w[..n], w[n..], key);
    }
  }

  lemma BlankLine(w: string, key: string)
    requires IsChunk(w) && forall i :: 0 <= i < |w| ==> IsSpace(w[i])
    ensures LastValue(ParseAll(SplitLines(w)), key).None?
  {
    SpacesAreBlank(w);
    ValueOfLine(w, key);
  }

  lemma PiecesRead(a: string, b: string, key: string)
    requires a == "" || b == "" || Ended(a)
    ensures LastValue(ParseAll(SplitLines(a + b)), key)
            == Later(LastValue(ParseAll(SplitLines(b)), key), LastValue(ParseAll(SplitLines(a)), key))
  {
    SplitConcat(a, b);
    LinesRead(SplitLines(a), SplitLines(b), key);
  }

  /** A comment without its newline. */
  predicate IsCommentText(c: string) {
    c != "" && c[0] == '#' && '\n' !in c && '\r' !in c
  }

  /** Nor does a comment behind blank text. */
  lemma {:induction false} SpacesThenComment(w: string, c: string, key: string)
    requires IsCommentText(c) && forall i :: 0 <= i < |w| ==> IsSpace(w[i])
    ensures LastValue(ParseAll(SplitLines(w + (c + "\n"))), key).None?
    decreases |w|
  {
    if '\n' in w {
      var n := LineLen(w);
      SpacesThenComment(w[n..], c, key);
      BlankReads(w[..n], key);
      FirstLineEnds(w, n);
      PiecesRead(w[..n], w[n..] + (c + "\n"), key);
      Regrouped(w, n, c + "\n");
    } else {
      CommentLine(w, c, key);
    }
  }

  lemma Regrouped(w: string, n: nat, c: string)
    requires n <= |w|
    ensures w + c == w[..n] + (w[n..] + c)
  {
  }

  lemma FirstLineEnds(w: string, n: nat)
    requires '\n' in w && n == LineLen(w)
    ensures Ended(w[..n])
  {
  }

  lemma CommentLine(w: string, c: string, key: string)
    requires IsCommentText(c) && '\n' !in w && forall i :: 0 <= i < |w| ==> IsSpace(w[i])
    ensures LastValue(ParseAll(SplitLines(w + (c + "\n"))), key).None?
  {
    CommentBehind(w, c);
    ValueOfLine(w + (c + "\n"), key);
  }

  lemma CommentBehind(w: string, c: string)
    requires IsCommentText(c) && '\n' !in w && forall i :: 0 <= i < |w| ==> IsSpace(w[i])
    ensures IsChunk(w + (c + "\n")) && ParseLine(w + (c + "\n")).Comment?
  {
    var text := w + c;
    ConcatAssociates(w, c, "\n");
    StrippedIs(text, "\n");
    assert (text + "\n")[..|text|] == text;
    SpacesIs(w, c);
    assert text[|w|..] == c;
  }

  lemma SpacesAreBlank(w: string)
    requires forall i :: 0 <= i < |w| ==> IsSpace(w[i])
    ensures ParseLine(w).Blank?
  {
    var text := w[..Stripped(w)];
    assert Spaces(text) == |text|;
  }

  lemma UniversalOfComment(w: string, c: string, nl: string)
    requires IsCommentText(c) && nl in {"\n", "\r\n"}
    ensures Universal(w + (c + nl)) == Universal(w) + (c + "\n")
  {
    UniversalConcat(w, c + nl);
    UniversalOfParts(c, nl, "");
    assert c + nl + "" == c + nl && c + "\n" + Universal("") == c + "\n";
  }

  /** Blank text, and a comment written behind it on the same line, are read as nothing. */
  lemma CommentBehindBlank(w: string, c: string, nl: string, key: string)
    requires IsCommentText(c) && nl in {"\n", "\r\n"} && forall i :: 0 <= i < |w| ==> IsSpace(w[i])
    ensures ReadValue(w + (c + nl), key).None? && ReadValue(w, key).None?
  {
    UniversalOfComment(w, c, nl);
    UniversalOfSpaces(w);
    BlankReads(Universal(w), key);
    SpacesThenComment(Universal(w), c, key);
  }

  lemma CommentAfter(front: string, last: string, c: string, nl: string, key: string)
    requires IsCommentText(c) && nl in {"\n", "\r\n"}
    requires (front == "" || Ended(front)) && forall i :: 0 <= i < |last| ==> IsSpace(last[i])
    ensures ReadValue(front + last + (c + nl), key) == ReadValue(front + last, key)
  {
    CommentBehindBlank(last, c, nl, key);
    ReadConcat(front, last, key);
    ReadConcat(front, last + (c + nl), key);
    ConcatAssociates(front, last, c + nl);
  }

  /** A comment written at the end of a file, or behind blank text there, changes no read. */
  lemma CommentReads(raws: seq<string>, text: string, c: string, nl: string, key: string)
    requires IsCommentText(c) && nl in {"\n", "\r\n"}
    requires raws == SplitLines(text) && (raws == [] || Ended(text) || ParseLine(raws[|raws| - 1]).Blank?)
    ensures ReadValue(text + (c + nl), key) == ReadValue(text, key)
  {
    SplitIsLossless(text);
    if text == "" || Ended(text) {
      assert text + "" == text;
      CommentAfter(text, "", c, nl, key);
    } else {
      SplitGivesLines(text);
      LastJoined(raws);
      BlankIsSpaces(raws[|raws| - 1]);
      CommentAfter(Join(raws[..|raws| - 1]), raws[|raws| - 1], c, nl, key);
    }
  }

  lemma LastJoined(raws: seq<string>)
    requires AreLines(raws) && raws != []
    ensures var front := Join(raws[..|raws| - 1]);
            Join(raws) == front + raws[|raws| - 1] && (front == "" || Ended(front))
  {
    JoinLast(raws);
    FrontEnds(raws, |raws| - 1);
  }

  lemma JoinLast(raws: seq<string>)
    requires raws != []
    ensures Join(raws) == Join(raws[..|raws| - 1]) + raws[|raws| - 1]
  {
    var n := |raws| - 1;
    assert raws == raws[..n] + [raws[n]];
    JoinSnoc(raws[..n], raws[n]);
  }

  lemma FrontEnds(raws: seq<string>, n: nat)
    requires AreLines(raws) && n < |raws|
    ensures Join(raws[..n]) == "" || Ended(Join(raws[..n]))
  {
    if n > 0 {
      assert AreLines(raws[..n]);
      LastOfJoin(raws[..n]);
    }
  }

  /** The text with the blank line of an append, where it makes one. */
  function SpacedOut(text: string, nl: string): string {
    text + if NeedsBlank(ParseAll(SplitLines(text))) then nl else ""
  }

  /** That changes no read. */
  lemma SpacedText(text: string, nl: string, key: string)
    requires nl in {"\n", "\r\n"}
    ensures var spaced := SpacedOut(text, nl);
            var raws := SplitLines(spaced);
            && ReadValue(spaced, key) == ReadValue(text, key)
            && (raws == [] || Ended(spaced) || ParseLine(raws[|raws| - 1]).Blank?)
  {
    if NeedsBlank(ParseAll(SplitLines(text))) {
      NewlineAdded(text, nl, key);
    } else {
      assert text + "" == text;
      LastIsBlank(SplitLines(text));
    }
  }

  lemma LastIsBlank(raws: seq<string>)
    requires !NeedsBlank(ParseAll(raws))
    ensures raws == [] || ParseLine(raws[|raws| - 1]).Blank?
  {
    assert raws != [] ==> ParseAll(raws)[|raws| - 1] == ParseLine(raws[|raws| - 1]);
  }

  lemma CommentTextIs(stamp: string)
    requires '\n' !in stamp && '\r' !in stamp
    ensures IsCommentText(CommentText(stamp))
  {
  }

  /**
   After an edit of a key that was not there, for every text and every value that can be set: a read of any
   name sees the line as it was written, then what was there.
   */
  lemma ReadAfterAppend(text: string, key: string, value: string, stamp: string, name: string)
    requires IsIdent(key) && '\n' !in value && '\n' !in stamp && '\r' !in stamp
    requires FirstMatch(ParseAll(SplitLines(text)), key).None?
    ensures ReadValue(Edit(text, key, value, stamp), name)
            == Later(ReadValue(NewAssignment(key, value, NewlineOf(text)).raw, name), ReadValue(text, name))
  {
    EditAppends(text, key, value, stamp);
    CommentTextIs(stamp);
    var nl := NewlineOf(text);
    ReadBehindComment(text, SpacedOut(text, nl), CommentText(stamp), nl, NewAssignment(key, value, nl).raw, name);
  }

  lemma ReadBehindComment(text: string, spaced: string, c: string, nl: string, line: string, name: string)
    requires IsCommentText(c) && nl in {"\n", "\r\n"} && spaced == SpacedOut(text, nl)
    ensures ReadValue(spaced + (c + nl) + line, name) == Later(ReadValue(line, name), ReadValue(text, name))
  {
    SpacedText(text, nl, name);
    CommentReads(SplitLines(spaced), spaced, c, nl, name);
    ReadBehindEnded(spaced, c + nl, line, name);
  }

  lemma ReadBehindEnded(text: string, added: string, line: string, name: string)
    requires Ended(added)
    ensures ReadValue(text + added + line, name) == Later(ReadValue(line, name), ReadValue(text + added, name))
  {
    ReadConcat(text + added, line, name);
  }

  // ----- carriage returns in the value -----

  /** What is read holds no carriage return: text mode leaves none. */
  lemma ReadLacksCR(text: string, key: string)
    ensures ReadValue(text, key).Some? ==> '\r' !in ReadValue(text, key).value
  {
    UniversalLacksCR(text);
    SplitLacksCR(Universal(text));
    LastValueLacksCR(LinesOf(text), key);
  }

  lemma {:induction false} LastValueLacksCR(raws: seq<string>, key: string)
    requires forall i :: 0 <= i < |raws| ==> '\r' !in raws[i]
    ensures LastValue(ParseAll(raws), key).Some? ==> '\r' !in LastValue(ParseAll(raws), key).value
  {
    if raws != [] {
      var n := |raws| - 1;
      assert raws == raws[..n] + [raws[n]];
      LastValueSnoc(raws[..n], raws[n], key);
      LastValueLacksCR(raws[..n], key);
      ValueLacksCR(raws[n]);
    }
  }

  lemma ValueLacksCR(raw: string)
    requires '\r' !in raw
    ensures ParseLine(raw).Assign? ==> '\r' !in UnquotedValue(ParseLine(raw))
  {
    BodyValueLacks(raw, raw[..Stripped(raw)]);
  }

  lemma BodyValueLacks(raw: string, text: string)
    requires '\r' !in text && text == raw[..Stripped(raw)]
    ensures ParseLine(raw).Assign? ==> '\r' !in ParseLine(raw).valueRaw
  {
    SliceLacks(text, '\r', Spaces(text), |text|);
    ParsedValueLacks(raw, text[..Spaces(text)], text[Spaces(text)..], raw[Stripped(raw)..]);
  }

  lemma ParsedValueLacks(raw: string, prefix: string, body: string, term: string)
    requires '\r' !in body
    ensures var line := ParseBody(raw, prefix, body, term); line.Assign? ==> '\r' !in line.valueRaw
  {
    var after := body[IdentChars(body)..];
    if Spaces(after) < |after| {
      SliceLacks(body, '\r', IdentChars(body), |body|);
      RestValueLacks(after[Spaces(after) + 1..]);
    }
  }

  lemma RestValueLacks(rest: string)
    requires '\r' !in rest
    ensures '\r' !in ParseRest(rest).1
  {
  }

  // ----- when the value comes back -----

  /** Nothing in the value had to be escaped, or nothing was. */
  predicate Unescaped(oldQuote: string, value: string) {
    RightHandSide(oldQuote, value).1 != "\"" || forall i :: 0 <= i < |value| ==> !Special(value[i])
  }

  /** Where a comment starts, no earlier text holds one. */
  lemma NoInlineBefore(s: string)
    requires InlineAt(s).Some?
    ensures InlineAt(s[..InlineAt(s).value]).None?
  {
    var at := InlineAt(s).value;
    assert s[..at] + s[at..] == s;
    if InlineAt(s[..at]).Some? {
      InlineWithin(s[..at], s[at..]);
    }
  }

  /** The value a reader takes from what follows the equals sign. */
  function ValueRead(rest: string): string {
    var (quote, valueRaw, _) := ParseRest(rest);
    if quote != "" && |valueRaw| >= 2 && quote <= valueRaw && quote == valueRaw[|valueRaw| - 1..]
    then valueRaw[1..|valueRaw| - 1] else valueRaw
  }

  lemma EnclosedIsLonger(rest: string, value: string)
    requires Enclosed(rest, '"') && |rest| > |value| + 2
    ensures ValueRead(rest) != value
  {
  }

  lemma FoundIsLonger(rhs: string, comment: string, value: string)
    requires InlineAt(rhs).None? && rhs != "" && !IsSpace(rhs[|rhs| - 1]) && Spaces(comment) == 0
    requires !Enclosed(Commented(rhs, comment), '"') && !Enclosed(Commented(rhs, comment), '\'')
    requires |rhs| > |value|
    ensures ValueRead(Commented(rhs, comment)) != value
  {
    CommentFound(rhs, comment);
  }

  lemma CutIsOther(rhs: string, comment: string, value: string)
    requires InlineAt(rhs).Some? && !IsSpace(rhs[|rhs| - 1]) && Spaces(comment) == 0
    requires !Enclosed(Commented(rhs, comment), '"') && !Enclosed(Commented(rhs, comment), '\'')
    requires InlineAt(value).Some?
    ensures ValueRead(Commented(rhs, comment)) != value
  {
    TailInline(comment);
    CommentGrows(rhs, " # " + comment);
    NoInlineBefore(rhs);
    var at := InlineAt(rhs).value;
    assert Commented(rhs, comment)[..at] == rhs[..at];
  }

  /** A quoted value in front of a kept comment is never read back. */
  lemma CommentedQuotedIsNotReadBack(value: string, comment: string)
    requires !SafeUnquoted(value) && Spaces(comment) == 0
    ensures ValueRead(Commented(RightHandSide("", value).0, comment)) != value
  {
    var rhs := RightHandSide("", value).0;
    var rest := Commented(rhs, comment);
    WrittenInline(value);
    FourReplacesEscape(value);
    EscapeIsIdentityIffPlain(value);
    assert |rhs| >= |value| + 2;
    if Enclosed(rest, '"') {
      EnclosedIsLonger(rest, value);
    } else if InlineAt(rhs).None? {
      FoundIsLonger(rhs, comment, value);
    } else {
      CutIsOther(rhs, comment, value);
    }
  }

  /** Whether the quoting of this line leaves the value as it is: beside a comment, only if nothing needs quotes. */
  predicate LeftAsIs(raw: string, value: string) {
    var line := ParseLine(raw);
    line.Assign? && if line.inline.Some? then SafeUnquoted(value) else Unescaped(line.quote, value)
  }

  /** The line written gives its value back exactly when it was not escaped, and not quoted beside a comment. */
  lemma WrittenLineReadsBackIff(raw: string, value: string)
    requires ParseLine(raw).Assign?
    ensures Reparsed(raw, value).Assign?
    ensures UnquotedValue(Reparsed(raw, value)) == value <==> LeftAsIs(raw, value)
  {
    var line := ParseLine(raw);
    ParseIsWellFormed(raw);
    if line.inline.None? {
      RewrittenLineParsesBack(line, value);
      ReadsBackIffUnescaped(line, value);
    } else {
      CommentedReadsBackIff(line, value);
    }
  }

  lemma UnquotedIsRead(line: Line, rest: string)
    requires line.Assign? && line.quote == ParseRest(rest).0 && line.valueRaw == ParseRest(rest).1
    ensures UnquotedValue(line) == ValueRead(rest)
  {
  }

  lemma CommentedReadsBackIff(line: Line, value: string)
    requires line.Assign? && WellParsed(line) && line.inline.Some?
    ensures ParseLine(WithValue(line, value).raw).Assign?
    ensures UnquotedValue(ParseLine(WithValue(line, value).raw)) == value <==> SafeUnquoted(value)
  {
    var comment := LStrip(line.inline.value);
    LStripTwice(line.inline.value);
    CommentedLineParsesBack(line, value);
    UnquotedIsRead(ParseLine(WithValue(line, value).raw), Commented(RightHandSide("", value).0, comment));
    if SafeUnquoted(value) {
      SafeIsReadBack(value, comment);
    } else {
      CommentedQuotedIsNotReadBack(value, comment);
    }
  }

  lemma SafeIsNotEnclosed(value: string, tail: string)
    requires SafeUnquoted(value) && tail != "" && tail[0] == ' '
    ensures !Enclosed(value + tail, '"') && !Enclosed(value + tail, '\'')
  {
    SafeIsUnspaced(value);
  }

  lemma SafeIsReadBack(value: string, comment: string)
    requires SafeUnquoted(value) && Spaces(comment) == 0
    ensures ValueRead(Commented(RightHandSide("", value).0, comment)) == value
  {
    WrittenShape(value);
    SafeIsUnspaced(value);
    SafeIsNotEnclosed(value, " # " + comment);
    CommentFound(value, comment);
  }

  lemma NewAssignmentReadsBackIff(key: string, value: string, nl: string)
    ensures UnquotedValue(NewAssignment(key, value, nl)) == value <==> Unescaped("", value)
  {
    var (rhs, quote) := RightHandSide("", value);
    NewAssignmentText(key, value, nl);
    FourReplacesEscape(value);
    EscapeIsIdentityIffPlain(value);
    if quote != "" {
      assert quote <= rhs && rhs[|rhs| - 1..] == quote;
      assert rhs[1..|rhs| - 1] == Escape(value);
    }
  }

  /**
   Set, then get, for a key that was not there, in any text: the value comes back exactly when it holds no
   carriage return and needed no escape.
   */
  lemma AppendThenRead(text: string, key: string, value: string, stamp: string)
    requires IsIdent(key) && '\n' !in value && '\n' !in stamp && '\r' !in stamp
    requires FirstMatch(ParseAll(SplitLines(text)), key).None?
    ensures ReadValue(Edit(text, key, value, stamp), key) == Some(value) <==> '\r' !in value && Unescaped("", value)
  {
    ReadLacksCR(Edit(text, key, value, stamp), key);
    if '\r' !in value {
      var nl := NewlineOf(text);
      ReadAfterAppend(text, key, value, stamp, key);
      NewAssignmentIsChunk(key, value, nl);
      NewAssignmentIsClean(key, value, nl);
      NewAssignmentParses(key, value, nl);
      ReadOfLine(NewAssignment(key, value, nl).raw, key);
      NewAssignmentReadsBackIff(key, value, nl);
    }
  }

  /**
   Set, then get, for a key that was there, on a line with no carriage return but in its newline: what is read
   after that line wins; where it sets the key no more, the value comes back exactly when it holds no carriage
   return and the line's quoting left it as it is.
   */
  lemma RewriteThenRead(text: string, key: string, value: string, stamp: string, raws: seq<string>, at: nat)
    requires '\n' !in value && raws == SplitLines(text) && FirstMatch(ParseAll(raws), key) == Some(at)
    requires CleanLine(raws[at])
    ensures var later := ReadValue(Join(raws[at + 1..]), key);
            var read := ReadValue(Edit(text, key, value, stamp), key);
            if later.Some? then read == later else read == Some(value) <==> '\r' !in value && LeftAsIs(raws[at], value)
  {
    ReadAfterRewrite(text, key, value, stamp, raws, at, key);
    ReadLacksCR(Edit(text, key, value, stamp), key);
    if '\r' !in value {
      FirstMatchInRaws(raws, key);
      SplitGivesLines(text);
      WrittenIsChunk(raws[at], value);
      WrittenIsClean(raws[at], value);
      ReadOfLine(WithValue(ParseLine(raws[at]), value).raw, key);
      ReparsedKeepsKey(raws[at], value);
      WrittenLineReadsBackIff(raws[at], value);
    }
  }

  /** The line an edit writes sets no other name, unless the value or the line it replaces holds a carriage return. */
  lemma OtherNamesStay(text: string, key: string, value: string, stamp: string, name: string)
    requires IsIdent(key) && '\n' !in value && '\r' !in value && '\n' !in stamp && '\r' !in stamp && name != key
    requires var at := FirstMatch(ParseAll(SplitLines(text)), key); at.Some? ==> CleanLine(SplitLines(text)[at.value])
    ensures ReadValue(Edit(text, key, value, stamp), name) == ReadValue(text, name)
  {
    var raws := SplitLines(text);
    var at := FirstMatch(ParseAll(raws), key);
    if at.None? {
      var nl := NewlineOf(text);
      ReadAfterAppend(text, key, value, stamp, name);
      NewAssignmentIsChunk(key, value, nl);
      NewAssignmentIsClean(key, value, nl);
      NewAssignmentParses(key, value, nl);
      ReadOfLine(NewAssignment(key, value, nl).raw, name);
    } else {
      RewriteLeavesOthers(text, key, value, stamp, raws, at.value, name);
    }
  }

  lemma RewriteLeavesOthers(text: string, key: string, value: string, stamp: string, raws: seq<string>, at: nat, name: string)
    requires '\n' !in value && '\r' !in value && name != key
    requires raws == SplitLines(text) && FirstMatch(ParseAll(raws), key) == Some(at) && CleanLine(raws[at])
    ensures ReadValue(Edit(text, key, value, stamp), name) == ReadValue(text, name)
  {
    FirstMatchInRaws(raws, key);
    ReadAfterRewrite(text, key, value, stamp, raws, at, name);
    ReadAt(text, raws, at, name);
    LineSetsItsKey(raws[at], value, key, name);
  }

  lemma ReadAt(text: string, raws: seq<string>, at: nat, name: string)
    requires raws == SplitLines(text) && at < |raws|
    ensures IsChunk(raws[at])
    ensures ReadValue(text, name)
            == Later(ReadValue(Join(raws[at + 1..]), name), Later(ReadValue(raws[at], name), ReadValue(Join(raws[..at]), name)))
  {
    SplitGivesLines(text);
    SplitIsLossless(text);
    ReadAround(raws, at, raws[at], name);
    assert raws[at := raws[at]] == raws;
  }

  lemma LineSetsItsKey(raw: string, value: string, key: string, name: string)
    requires '\n' !in value && '\r' !in value && name != key
    requires IsChunk(raw) && CleanLine(raw) && Matches(ParseLine(raw), key)
    ensures ReadValue(raw, name) == None && ReadValue(WithValue(ParseLine(raw), value).raw, name) == None
  {
    ReadOfLine(raw, name);
    WrittenIsChunk(raw, value);
    WrittenIsClean(raw, value);
    ReadOfLine(WithValue(ParseLine(raw), value).raw, name);
    ReparsedKeepsKey(raw, value);
  }
}
