/**
 Editing a `.env` file (src/arail/env_writer.py): `set_env_var` and `read_env_var` on the text of the
 file, and what a second identical call or a read finds after the first.
 */
module EnvEdits {
  import opened Basics
  import opened EnvQuoting
  import opened TextLines
  import opened EnvLines

  // ----- one line, written and parsed again -----

  lemma ParseIsWellFormed(raw: string)
    ensures WellParsed(ParseLine(raw))
  {
    var n := Stripped(raw);
    var lead := Spaces(raw[..n]);
    BodyIsWellFormed(raw, raw[..n][..lead], raw[..n][lead..], raw[n..]);
  }

  lemma BodyIsWellFormed(raw: string, prefix: string, body: string, term: string)
    requires forall i :: 0 <= i < |prefix| ==> IsSpace(prefix[i])
    requires body != "" ==> !IsNewlineChar(body[|body| - 1])
    requires forall i :: 0 <= i < |term| ==> IsNewlineChar(term[i])
    ensures WellParsed(ParseBody(raw, prefix, body, term))
  {
    BodyFrame(raw, prefix, body, term);
    BodyKey(raw, prefix, body, term);
    if body != "" {
      BodyInline(raw, prefix, body, term);
    }
  }

  lemma BodyFrame(raw: string, prefix: string, body: string, term: string)
    ensures var line := ParseBody(raw, prefix, body, term); line.Assign? ==> line.prefix == prefix && line.term == term
  {
  }

  lemma BodyKey(raw: string, prefix: string, body: string, term: string)
    ensures var line := ParseBody(raw, prefix, body, term); line.Assign? ==> IsIdent(line.key)
  {
    if body != "" && IdentChars(body) > 0 && IsIdentStart(body[0]) {
      LeadingIdent(body);
    }
  }

  lemma BodyInline(raw: string, prefix: string, body: string, term: string)
    requires body != "" && !IsNewlineChar(body[|body| - 1])
    ensures var line := ParseBody(raw, prefix, body, term);
            line.Assign? ==> RestFits((line.quote, line.valueRaw, line.inline))
  {
    var k := IdentChars(body);
    var gap := Spaces(body[k..]);
    if gap < |body[k..]| {
      SuffixInline(body, k, gap + 1);
    }
  }

  ghost predicate RestFits(rest: (string, string, Option<string>)) {
    && rest.0 in {"", "\"", "'"} && (rest.2.Some? ==> rest.0 == "")
    && (rest.2.Some? && rest.2.value != "" ==> !IsNewlineChar(rest.2.value[|rest.2.value| - 1]))
  }

  lemma LeadingIdent(body: string)
    requires body != "" && IdentChars(body) > 0 && IsIdentStart(body[0])
    ensures IsIdent(body[..IdentChars(body)])
  {
    var key := body[..IdentChars(body)];
    assert IdentChars(key) == |key|;
  }

  lemma SuffixInline(body: string, i: nat, j: nat)
    requires body != "" && !IsNewlineChar(body[|body| - 1]) && i <= |body| && j <= |body[i..]|
    ensures RestFits(ParseRest(body[i..][j..]))
  {
    SuffixEnds(body, i, j);
    InlineIsSuffix(body[i..][j..]);
  }

  lemma SuffixEnds(body: string, i: nat, j: nat)
    requires i <= |body| && j <= |body[i..]|
    ensures var rest := body[i..][j..]; rest != "" ==> rest[|rest| - 1] == body[|body| - 1]
  {
  }

  lemma InlineIsSuffix(rest: string)
    ensures var inline := ParseRest(rest).2;
            inline.Some? && inline.value != "" ==> rest != "" && inline.value[|inline.value| - 1] == rest[|rest| - 1]
  {
  }

  lemma StrippedIs(text: string, term: string)
    requires text != "" ==> !IsNewlineChar(text[|text| - 1])
    requires forall i :: 0 <= i < |term| ==> IsNewlineChar(term[i])
    ensures Stripped(text + term) == |text|
  {
    assert forall i :: 0 <= i < |text| ==> (text + term)[i] == text[i];
    assert forall i :: |text| <= i < |text + term| ==> (text + term)[i] == term[i - |text|];
  }

  lemma SpacesIs(prefix: string, body: string)
    requires forall i :: 0 <= i < |prefix| ==> IsSpace(prefix[i])
    requires body != "" ==> !IsSpace(body[0])
    ensures Spaces(prefix + body) == |prefix|
  {
    assert forall i :: 0 <= i < |prefix| ==> (prefix + body)[i] == prefix[i];
    assert body != "" ==> (prefix + body)[|prefix|] == body[0];
  }

  lemma IdentIs(key: string, after: string)
    requires IdentChars(key) == |key|
    requires after != "" ==> !IsIdentChar(after[0])
    ensures IdentChars(key + after) == |key|
  {
    assert forall i :: 0 <= i < |key| ==> (key + after)[i] == key[i];
    assert after != "" ==> (key + after)[|key|] == after[0];
  }

  lemma ParseOfBody(raw: string, prefix: string, key: string, rest: string, term: string)
    requires IsIdent(key)
    ensures var (quote, valueRaw, inline) := ParseRest(rest);
            ParseBody(raw, prefix, key + ("=" + rest), term) == Assign(raw, prefix, key, valueRaw, quote, inline, term)
  {
    var body := key + ("=" + rest);
    IdentIs(key, "=" + rest);
    assert body[0] == key[0];
    assert body[..|key|] == key && body[|key|..] == "=" + rest;
    assert Spaces("=" + rest) == 0 && ("=" + rest)[1..] == rest;
  }

  /** The text of an assignment parses back into its parts. */
  lemma ParseOfAssignment(prefix: string, key: string, rest: string, term: string)
    requires forall i :: 0 <= i < |prefix| ==> IsSpace(prefix[i])
    requires IsIdent(key)
    requires rest != "" ==> !IsNewlineChar(rest[|rest| - 1])
    requires forall i :: 0 <= i < |term| ==> IsNewlineChar(term[i])
    ensures var (quote, valueRaw, inline) := ParseRest(rest);
            ParseLine(prefix + (key + ("=" + rest)) + term)
            == Assign(prefix + (key + ("=" + rest)) + term, prefix, key, valueRaw, quote, inline, term)
  {
    var body := key + ("=" + rest);
    var text := prefix + body;
    var raw := text + term;
    assert text[|text| - 1] == if rest == "" then '=' else rest[|rest| - 1];
    StrippedIs(text, term);
    assert raw[..|text|] == text && raw[|text|..] == term;
    SpacesIs(prefix, body);
    assert text[..|prefix|] == prefix && text[|prefix|..] == body;
    ParseOfBody(raw, prefix, key, rest, term);
  }

  lemma {:induction false} NoSpaceNoInline(s: string)
    requires forall i :: 0 <= i < |s| ==> !IsSpace(s[i])
    ensures InlineAt(s).None?
  {
    if s != "" {
      NoSpaceNoInline(s[1..]);
    }
  }

  /** A right-hand side on its own parses back with its quote style. */
  lemma ParseOfRightHandSide(oldQuote: string, v: string)
    requires oldQuote in {"", "\"", "'"}
    ensures var (rhs, quote) := RightHandSide(oldQuote, v);
            && ParseRest(rhs) == (quote, rhs, None)
            && (rhs != "" ==> !IsNewlineChar(rhs[|rhs| - 1]))
            && quote in {"", "\"", "'"}
            && RightHandSide(quote, v) == (rhs, quote)
  {
    var (rhs, quote) := RightHandSide(oldQuote, v);
    if quote == "" {
      assert rhs == v;
      forall i | 0 <= i < |v| ensures !IsSpace(v[i]) && v[i] != '"' && v[i] != '\'' {
        assert SafeChar(v[i]);
      }
      NoSpaceNoInline(v);
    } else {
      assert rhs[0] == quote[0] && rhs[|rhs| - 1] == quote[0];
    }
  }

  lemma RewrittenText(line: Line, v: string)
    requires line.Assign?
    ensures WithValue(line, v).raw
            == line.prefix + (line.key + ("=" + (RightHandSide(line.quote, v).0 + InlinePart(line.inline)))) + line.term
  {
    FiveParts(line.prefix, line.key, "=", RightHandSide(line.quote, v).0, InlinePart(line.inline));
  }

  lemma FiveParts(a: string, b: string, c: string, d: string, e: string)
    ensures a + b + c + d + e == a + (b + (c + (d + e)))
  {
  }

  /** Without an inline comment, a rewritten line parses back into exactly itself. */
  lemma RewrittenLineParsesBack(line: Line, v: string)
    requires line.Assign? && WellParsed(line) && line.inline.None?
    ensures ParseLine(WithValue(line, v).raw) == WithValue(line, v)
    ensures WithValue(WithValue(line, v), v) == WithValue(line, v)
  {
    var (rhs, quote) := RightHandSide(line.quote, v);
    ParseOfRightHandSide(line.quote, v);
    assert rhs + "" == rhs;
    RewrittenText(line, v);
    ParseOfAssignment(line.prefix, line.key, rhs, line.term);
  }

  lemma Unquote(quote: string, inner: string)
    requires |quote| == 1
    ensures var rhs := quote + inner + quote;
            && quote <= rhs && rhs[|rhs| - 1..] == quote && |rhs| >= 2
            && rhs[1..|rhs| - 1] == inner
  {
  }

  /** The three forms a right-hand side takes. */
  lemma RightHandSideForms(oldQuote: string, v: string)
    requires oldQuote in {"", "\"", "'"}
    ensures var (rhs, quote) := RightHandSide(oldQuote, v);
            || (quote == "" && rhs == v)
            || (quote == "\"" && rhs == "\"" + Escape(v) + "\"")
            || (quote == "'" && rhs == "'" + v + "'")
  {
    FourReplacesEscape(v);
  }

  /** The reader takes the quotes off but leaves the escapes: it returns the value unless a special was escaped. */
  lemma ReadsBackIffUnescaped(line: Line, v: string)
    requires line.Assign? && WellParsed(line) && line.inline.None?
    ensures UnquotedValue(WithValue(line, v)) == v <==>
            RightHandSide(line.quote, v).1 != "\"" || forall i :: 0 <= i < |v| ==> !Special(v[i])
  {
    RightHandSideForms(line.quote, v);
    EscapeIsIdentityIffPlain(v);
    Unquote("\"", Escape(v));
    Unquote("'", v);
  }

  // ----- with an inline comment -----

  lemma {:induction false} SpacesConcat(a: string, b: string)
    requires Spaces(a) < |a|
    ensures Spaces(a + b) == Spaces(a)
  {
    assert forall i :: 0 <= i < |a| ==> (a + b)[i] == a[i];
  }

  lemma SpacesTail(v: string)
    ensures v != "" && IsSpace(v[0]) ==> Spaces(v) == 1 + Spaces(v[1..])
    ensures v != "" && !IsSpace(v[0]) ==> Spaces(v) == 0
  {
  }

  /** Escaping puts a backslash in front of characters that are neither whitespace nor `#`. */
  lemma {:induction false} EscapeKeepsSpaces(v: string)
    ensures Spaces(Escape(v)) == Spaces(v)
    ensures Spaces(v) < |v| ==> Spaces(v) < |Escape(v)| && (Escape(v)[Spaces(v)] == '#' <==> v[Spaces(v)] == '#')
    ensures Spaces(v) == |v| ==> Escape(v) == v
  {
    SpacesTail(v);
    SpacesTail(Escape(v));
    if v != "" && IsSpace(v[0]) {
      EscapeKeepsSpaces(v[1..]);
      assert Escape(v) == [v[0]] + Escape(v[1..]);
      assert Escape(v)[1..] == Escape(v[1..]);
      assert v == [v[0]] + v[1..];
    }
  }

  /** A comment starts at the first character, or where it starts in the rest. */
  predicate StartsComment(s: string) {
    s != "" && IsSpace(s[0]) && Spaces(s) < |s| && s[Spaces(s)] == '#'
  }

  lemma InlineStep(s: string)
    requires s != ""
    ensures InlineAt(s).None? <==> !StartsComment(s) && InlineAt(s[1..]).None?
  {
  }

  lemma EscapeKeepsStart(v: string)
    requires v != ""
    ensures StartsComment(Escape(v)) <==> StartsComment(v)
  {
    EscapeKeepsSpaces(v);
  }

  lemma EscapedFirst(v: string)
    requires v != ""
    ensures Escape(v) != "" && (Special(v[0]) ==> |Escape(v)| >= 2 && Escape(v)[1] == v[0] && Escape(v)[1..][1..] == Escape(v[1..]))
    ensures !Special(v[0]) ==> Escape(v)[1..] == Escape(v[1..])
  {
  }

  lemma {:induction false} EscapeKeepsInline(v: string)
    ensures InlineAt(Escape(v)).None? <==> InlineAt(v).None?
  {
    if v != "" {
      EscapeKeepsInline(v[1..]);
      EscapeKeepsStart(v);
      EscapedFirst(v);
      InlineStep(v);
      InlineStep(Escape(v));
      if Special(v[0]) {
        InlineStep(Escape(v)[1..]);
      }
    }
  }

  lemma SpacesWithQuote(s: string)
    ensures Spaces(s + "\"") == Spaces(s)
    ensures s != "" ==> (s + "\"")[Spaces(s)] == (if Spaces(s) < |s| then s[Spaces(s)] else '"')
  {
  }

  lemma {:induction false} InlineWithQuote(s: string)
    ensures InlineAt(s + "\"").None? <==> InlineAt(s).None?
  {
    var t := s + "\"";
    if s == "" {
      assert t[1..] == "";
    } else {
      InlineWithQuote(s[1..]);
      SpacesWithQuote(s);
      assert t[1..] == s[1..] + "\"" && t[0] == s[0];
    }
  }

  /** Text that ends in no whitespace and holds no comment only moves the place of the first one. */
  lemma {:induction false} InlineAfter(a: string, b: string)
    requires InlineAt(a).None? && (a != "" ==> !IsSpace(a[|a| - 1]))
    ensures InlineAt(a + b) == if InlineAt(b).None? then None else Some(|a| + InlineAt(b).value)
  {
    if a == "" {
      assert a + b == b;
    } else {
      assert (a + b)[1..] == a[1..] + b;
      InlineAfter(a[1..], b);
      SpacesConcat(a, b);
    }
  }

  lemma {:induction false} InlineWithin(a: string, b: string)
    requires InlineAt(a).Some?
    ensures InlineAt(a + b) == InlineAt(a)
  {
    assert (a + b)[1..] == a[1..] + b;
    if IsSpace(a[0]) && Spaces(a) < |a| && a[Spaces(a)] == '#' {
      SpacesConcat(a, b);
    } else {
      InlineWithin(a[1..], b);
      if Spaces(a) < |a| {
        SpacesConcat(a, b);
      } else {
        NoInlineInSpaces(a);
      }
    }
  }

  lemma InlineTextWithin(a: string, b: string, at: nat)
    requires at <= |a| && at + Spaces(a[at..]) < |a|
    ensures at + Spaces((a + b)[at..]) < |a|
    ensures InlineText(a + b, at) == InlineText(a, at) + b
  {
    assert (a + b)[at..] == a[at..] + b;
    SpacesConcat(a[at..], b);
  }

  lemma InlineTextAfter(a: string, b: string, at: nat)
    requires at <= |b| && at + Spaces(b[at..]) < |b|
    ensures (a + b)[|a| + at..] == b[at..]
    ensures InlineText(a + b, |a| + at) == InlineText(b, at)
  {
  }

  lemma {:induction false} NoInlineInSpaces(a: string)
    requires Spaces(a) == |a|
    ensures InlineAt(a).None?
  {
  }

  /** Where the comment begins in a written right-hand side, if the reader takes part of it for one. */
  lemma WrittenInline(v: string)
    ensures var rhs := RightHandSide("", v).0;
            && (rhs != "" ==> !IsSpace(rhs[|rhs| - 1]))
            && (InlineAt(rhs).None? <==> SafeUnquoted(v) || InlineAt(v).None?)
            && (rhs != "" && rhs[0] == '"' <==> !SafeUnquoted(v))
            && (rhs != "" ==> rhs[0] != '\'')
  {
    WrittenShape(v);
    if SafeUnquoted(v) {
      SafeIsUnspaced(v);
    } else {
      QuotedInline(v);
    }
  }

  lemma WrittenShape(v: string)
    ensures RightHandSide("", v).0 == if SafeUnquoted(v) then v else "\"" + (Escape(v) + "\"")
  {
    RightHandSideIs("", v);
    assert "\"" + Escape(v) + "\"" == "\"" + (Escape(v) + "\"");
  }

  lemma SafeIsUnspaced(v: string)
    requires SafeUnquoted(v)
    ensures InlineAt(v).None? && forall i :: 0 <= i < |v| ==> !IsSpace(v[i]) && v[i] != '"' && v[i] != '\''
  {
    forall i | 0 <= i < |v| ensures !IsSpace(v[i]) && v[i] != '"' && v[i] != '\'' {
      assert SafeChar(v[i]);
    }
    NoSpaceNoInline(v);
  }

  lemma QuotedInline(v: string)
    ensures InlineAt("\"" + (Escape(v) + "\"")).None? <==> InlineAt(v).None?
  {
    var rhs := "\"" + (Escape(v) + "\"");
    InlineStep(rhs);
    assert rhs[1..] == Escape(v) + "\"";
    EscapeKeepsInline(v);
    InlineWithQuote(Escape(v));
  }

  lemma SpacesWithin(a: string, b: string)
    requires a != "" && !IsSpace(a[|a| - 1])
    ensures Spaces(a + b) < |a|
  {
    assert (a + b)[|a| - 1] == a[|a| - 1];
  }

  /** Taken for a comment, the rest of a quoted value makes the comment longer. */
  lemma CommentGrows(rhs: string, tail: string)
    requires InlineAt(rhs).Some? && !IsSpace(rhs[|rhs| - 1])
    requires |tail| >= 2 && Spaces(tail) <= 1
    ensures InlineAt(rhs + tail) == InlineAt(rhs)
    ensures |LStrip(InlineText(rhs + tail, InlineAt(rhs).value))| >= |tail| - 1
  {
    InlineWithin(rhs, tail);
    var at := InlineAt(rhs).value;
    InlineTextWithin(rhs, tail, at);
    LStripGrows(InlineText(rhs, at), tail);
  }

  lemma LStripGrows(a: string, tail: string)
    requires a != "" ==> !IsSpace(a[|a| - 1])
    requires |tail| >= 2 && Spaces(tail) <= 1
    ensures |LStrip(a + tail)| >= |tail| - 1
  {
    if a == "" {
      assert a + tail == tail;
    } else {
      SpacesWithin(a, tail);
    }
  }

  lemma TailInline(comment: string)
    requires Spaces(comment) == 0
    ensures Spaces(" # " + comment) == 1
    ensures InlineAt(" # " + comment) == Some(0)
    ensures InlineText(" # " + comment, 0) == " " + comment
    ensures LStrip(" " + comment) == comment
  {
    var tail := " # " + comment;
    assert tail[0] == ' ' && tail[1] == '#';
    assert tail[0..] == tail;
    SpacesIs(" ", tail[1..]);
    assert tail == " " + tail[1..];
    SpacesIs(" ", comment);
  }

  lemma UnquotedRest(rest: string, at: nat)
    requires !Enclosed(rest, '"') && !Enclosed(rest, '\'') && InlineAt(rest) == Some(at)
    ensures ParseRest(rest) == ("", rest[..at], Some(InlineText(rest, at)))
  {
  }

  /** A kept comment, found again where it was written. */
  lemma CommentFound(rhs: string, comment: string)
    requires InlineAt(rhs).None? && (rhs != "" ==> !IsSpace(rhs[|rhs| - 1]))
    requires Spaces(comment) == 0
    requires !Enclosed(rhs + (" # " + comment), '"') && !Enclosed(rhs + (" # " + comment), '\'')
    ensures ParseRest(rhs + (" # " + comment)) == ("", rhs, Some(" " + comment))
    ensures LStrip(" " + comment) == comment
  {
    var tail := " # " + comment;
    TailInline(comment);
    InlineAfter(rhs, tail);
    InlineTextAfter(rhs, tail, 0);
    UnquotedRest(rhs + tail, |rhs|);
    assert (rhs + tail)[..|rhs|] == rhs;
  }

  /** The text that keeps `comment` after `rhs`. */
  function Commented(rhs: string, comment: string): (rest: string)
    ensures rest != "" && rest[0] == (if rhs == "" then ' ' else rhs[0])
    ensures rest[|rest| - 1] == (if comment == "" then ' ' else comment[|comment| - 1])
    ensures |rest| == |rhs| + 3 + |comment|
  {
    rhs + (" # " + comment)
  }

  /** When a second identical write finds the comment it left and puts it back. */
  predicate CommentSurvives(v: string, comment: string) {
    SafeUnquoted(v) || (InlineAt(v).None? && !(comment != "" && comment[|comment| - 1] == '"'))
  }

  /** What a second write of `v` makes of the right-hand side and comment it finds. */
  function Rewritten(rest: string, v: string): string {
    var (quote, _, inline) := ParseRest(rest);
    RightHandSide(quote, v).0 + InlinePart(inline)
  }

  lemma CommentReadBack(v: string, comment: string)
    requires Spaces(comment) == 0
    ensures var rest := Commented(RightHandSide("", v).0, comment);
            Rewritten(rest, v) == rest <==> CommentSurvives(v, comment)
  {
    var rhs := RightHandSide("", v).0;
    var rest := Commented(rhs, comment);
    WrittenInline(v);
    if Enclosed(rest, '"') {
      QuotedAgainIsShorter(v, rest);
    } else if InlineAt(rhs).None? {
      CommentFound(rhs, comment);
    } else {
      TailInline(comment);
      CommentGrows(rhs, " # " + comment);
      GrownIsLonger(v, rest, comment);
    }
  }

  lemma QuotedAgainIsShorter(v: string, rest: string)
    requires Enclosed(rest, '"') && !SafeUnquoted(v) && |rest| > |RightHandSide("", v).0|
    ensures Rewritten(rest, v) != rest
  {
  }

  lemma GrownIsLonger(v: string, rest: string, comment: string)
    requires !Enclosed(rest, '"') && !Enclosed(rest, '\'') && InlineAt(rest).Some?
    requires |LStrip(InlineText(rest, InlineAt(rest).value))| > |comment|
    requires |rest| == |RightHandSide("", v).0| + 3 + |comment|
    ensures Rewritten(rest, v) != rest
  {
  }

  /** A line with an inline comment, written and parsed again. */
  lemma CommentedLineParsesBack(line: Line, v: string)
    requires line.Assign? && WellParsed(line) && line.inline.Some?
    ensures var rest := Commented(RightHandSide("", v).0, LStrip(line.inline.value));
            var (quote, valueRaw, inline) := ParseRest(rest);
            var raw := WithValue(line, v).raw;
            && raw == line.prefix + (line.key + ("=" + rest)) + line.term
            && ParseLine(raw) == Assign(raw, line.prefix, line.key, valueRaw, quote, inline, line.term)
  {
    var rest := Commented(RightHandSide("", v).0, LStrip(line.inline.value));
    RewrittenText(line, v);
    LStripTwice(line.inline.value);
    ParseOfAssignment(line.prefix, line.key, rest, line.term);
  }

  /**
   Rewriting a line that carries an inline comment, twice with the same value: the second write changes
   nothing exactly when the value went in unquoted, or holds no comment of its own and the kept comment
   does not end in a double quote.
   */
  lemma SecondWriteIff(line: Line, v: string)
    requires line.Assign? && WellParsed(line) && line.inline.Some?
    ensures var again := ParseLine(WithValue(line, v).raw);
            && again.Assign? && again.key == line.key
            && (WithValue(again, v).raw == again.raw <==> CommentSurvives(v, LStrip(line.inline.value)))
  {
    var comment := LStrip(line.inline.value);
    var rest := Commented(RightHandSide("", v).0, comment);
    LStripTwice(line.inline.value);
    CommentedLineParsesBack(line, v);
    CommentReadBack(v, comment);
    var again := ParseLine(WithValue(line, v).raw);
    RewrittenText(again, v);
    SameMiddle(line.prefix, line.key, rest, Rewritten(rest, v), line.term);
  }

  lemma LStripTwice(s: string)
    ensures Spaces(LStrip(s)) == 0
    ensures LStrip(s) != "" ==> LStrip(s)[|LStrip(s)| - 1] == s[|s| - 1]
  {
  }

  lemma SameMiddle(prefix: string, key: string, a: string, b: string, term: string)
    ensures prefix + (key + ("=" + a)) + term == prefix + (key + ("=" + b)) + term <==> a == b
  {
    var x, y := prefix + (key + ("=" + a)) + term, prefix + (key + ("=" + b)) + term;
    var n := |prefix| + |key| + 1;
    assert x[n..n + |a|] == a;
    if x == y {
      assert |a| == |b|;
      assert y[n..n + |b|] == b;
    }
  }

  // ----- sourcing a written line -----

  /**
   `source` reads the text after the equals sign of a rewritten line, whatever newline the line ends in, as the
   value and, unless a comment stands between, the carriage returns in front of that newline.
   */
  lemma WrittenLineSources(raw: string, v: string, after: string)
    requires IsChunk(raw) && ParseLine(raw).Assign? && (Ended(raw) || EndsBehindCRs(after))
    ensures var line := ParseLine(raw);
            var word := Word(RightHandSide(line.quote, v).0 + (InlinePart(line.inline) + (line.term + after)));
            && word.Some?
            && word.value.0 == v + if line.inline.Some? then "" else CRs(LeadingCRs(line.term + after))
  {
    var line := ParseLine(raw);
    ParseIsWellFormed(raw);
    TermIs(raw);
    TermThen(line.term, after);
    TailEndsHere(line.inline, line.term + after);
    SourcedValueIsExactUnlessCR(line.quote, v, InlinePart(line.inline) + (line.term + after));
  }

  lemma TermIs(raw: string)
    requires IsChunk(raw) && ParseLine(raw).Assign?
    ensures var term := ParseLine(raw).term;
            && (Ended(raw) ==> Ended(term))
            && (forall i :: 0 <= i < |term| ==> IsNewlineChar(term[i])) && forall i :: 0 <= i < |term| - 1 ==> term[i] != '\n'
  {
    assert ParseLine(raw).term == raw[Stripped(raw)..];
  }

  lemma {:induction false} TermThen(term: string, after: string)
    requires forall i :: 0 <= i < |term| ==> IsNewlineChar(term[i])
    requires forall i :: 0 <= i < |term| - 1 ==> term[i] != '\n'
    requires Ended(term) || EndsBehindCRs(after)
    ensures EndsBehindCRs(term + after)
  {
    if term == "" {
      assert term + after == after;
    } else if term[0] == '\r' {
      var tail := term + after;
      assert tail[1..] == term[1..] + after;
      TermThen(term[1..], after);
      assert tail[1..][LeadingCRs(tail[1..])..] == tail[LeadingCRs(tail)..];
    } else {
      assert (term + after)[0] == '\n';
    }
  }

  lemma TailEndsHere(inline: Option<string>, tail: string)
    requires EndsBehindCRs(tail)
    ensures EndsBehindCRs(InlinePart(inline) + tail)
    ensures LeadingCRs(InlinePart(inline) + tail) == if inline.Some? then 0 else LeadingCRs(tail)
  {
    if inline.None? {
      assert InlinePart(inline) + tail == tail;
    }
  }
}
