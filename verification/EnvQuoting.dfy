/**
 How `.env` values are quoted (src/arail/env_writer.py), against a reader of shell words written from
 POSIX.1-2017, Shell Command Language, sections 2.2.1 to 2.2.3 and 2.3.
 */
module EnvQuoting {
  import opened Basics

  // ----- the writer -----

  predicate SafeChar(c: char) {
    'A' <= c <= 'Z' || 'a' <= c <= 'z' || '0' <= c <= '9' || c in {'_', '.', '/', ':', '@', '%', '+', ',', '=', '-'}
  }

  /** `_ENV_SAFE_UNQUOTED`. */
  predicate SafeUnquoted(v: string) {
    forall i :: 0 <= i < |v| ==> SafeChar(v[i])
  }

  /** `str.replace` of one character. */
  function Replace(s: string, c: char, text: string): string {
    if s == "" then "" else (if s[0] == c then text else [s[0]]) + Replace(s[1..], c, text)
  }

  /** The four successive replaces. */
  function EscapeByReplace(v: string): string {
    Replace(Replace(Replace(Replace(v, '\\', "\\\\"), '"', "\\\""), '$', "\\$"), '`', "\\`")
  }

  /** `_quote_for_env`: the text between the quotes, and the quote. */
  function QuoteForEnv(v: string): (string, string) {
    if SafeUnquoted(v) then (v, "") else (EscapeByReplace(v), "\"")
  }

  /** The right-hand side `Line.with_value` writes, given the line's old quote style. */
  function RightHandSide(oldQuote: string, v: string): (string, string) {
    var quote := if oldQuote == "'" && '\'' in v then "" else oldQuote;
    var (inner, q) :=
      if quote == "" then QuoteForEnv(v)
      else if quote == "\"" then (EscapeByReplace(v), quote)
      else (v, quote);
    (q + inner + q, q)
  }

  // ----- the shell -----

  predicate EndsWord(c: char) {
    c in {' ', '\t', '\n', ';', '&', '|', '<', '>', '(', ')'}
  }

  /** Characters whose meaning in a word is an expansion, not themselves. */
  predicate Expands(c: char) {
    c in {'$', '`', '~'}
  }

  /** The word at the start of `s`, after quote removal, and what follows it; None when it is not a plain word. */
  function Word(s: string): Option<(string, string)>
    decreases |s|
  {
    if s == "" || EndsWord(s[0]) then Some(("", s))
    else if s[0] == '\'' then SingleQuoted(s[1..])
    else if s[0] == '"' then DoubleQuoted(s[1..])
    else if s[0] == '\\' then
      if |s| == 1 then None
      else if s[1] == '\n' then Word(s[2..])
      else Prepend(s[1], Word(s[2..]))
    else if Expands(s[0]) then None
    else Prepend(s[0], Word(s[1..]))
  }

  /** Section 2.2.2: everything up to the next single quote is literal. */
  function SingleQuoted(s: string): Option<(string, string)>
    decreases |s|
  {
    if s == "" then None
    else if s[0] == '\'' then Word(s[1..])
    else Prepend(s[0], SingleQuoted(s[1..]))
  }

  /** Section 2.2.3: `$` and the backquote expand; a backslash escapes only `$`, backquote, `"`, itself and newline. */
  function DoubleQuoted(s: string): Option<(string, string)>
    decreases |s|
  {
    if s == "" then None
    else if s[0] == '"' then Word(s[1..])
    else if s[0] in {'$', '`'} then None
    else if s[0] == '\\' && |s| > 1 && Special(s[1]) then Prepend(s[1], DoubleQuoted(s[2..]))
    else if s[0] == '\\' && |s| > 1 && s[1] == '\n' then DoubleQuoted(s[2..])
    else Prepend(s[0], DoubleQuoted(s[1..]))
  }

  function Prepend(c: char, w: Option<(string, string)>): Option<(string, string)> {
    if w.None? then None else Some(([c] + w.value.0, w.value.1))
  }

  // ----- the four replaces are one escape -----

  predicate Special(c: char) {
    c in {'\\', '"', '$', '`'}
  }

  function EscapeChar(c: char): string {
    if Special(c) then ['\\', c] else [c]
  }

  /** A backslash before every special character. */
  function Escape(v: string): string {
    if v == "" then "" else EscapeChar(v[0]) + Escape(v[1..])
  }

  lemma {:induction false} ReplaceConcat(a: string, b: string, c: char, text: string)
    ensures Replace(a + b, c, text) == Replace(a, c, text) + Replace(b, c, text)
  {
    if a == "" {
      assert a + b == b;
    } else {
      assert (a + b)[1..] == a[1..] + b;
      ReplaceConcat(a[1..], b, c, text);
    }
  }

  lemma ReplaceShort(c: char, d: char, x: char, text: string)
    ensures Replace([c], x, text) == if c == x then text else [c]
    ensures Replace([c, d], x, text) == Replace([c], x, text) + Replace([d], x, text)
  {
  }

  /** What one character becomes, and that no later replace touches what an earlier one put in. */
  lemma EscapeOneChar(c: char)
    ensures EscapeByReplace([c]) == EscapeChar(c)
  {
    ReplaceShort(c, c, '\\', "\\\\");
    ReplaceShort(c, c, '"', "\\\"");
    ReplaceShort(c, c, '$', "\\$");
    ReplaceShort(c, c, '`', "\\`");
    if Special(c) {
      ReplaceShort('\\', c, '"', "\\\"");
      ReplaceShort('\\', c, '$', "\\$");
      ReplaceShort('\\', c, '`', "\\`");
    }
  }

  lemma {:induction false} FourReplacesEscape(v: string)
    ensures EscapeByReplace(v) == Escape(v)
  {
    if v != "" {
      var head, tail := [v[0]], v[1..];
      assert v == head + tail;
      EscapeConcat(head, tail);
      EscapeOneChar(v[0]);
      FourReplacesEscape(tail);
    }
  }

  lemma EscapeConcat(a: string, b: string)
    ensures EscapeByReplace(a + b) == EscapeByReplace(a) + EscapeByReplace(b)
  {
    ReplaceConcat(a, b, '\\', "\\\\");
    var a1, b1 := Replace(a, '\\', "\\\\"), Replace(b, '\\', "\\\\");
    ReplaceConcat(a1, b1, '"', "\\\"");
    var a2, b2 := Replace(a1, '"', "\\\""), Replace(b1, '"', "\\\"");
    ReplaceConcat(a2, b2, '$', "\\$");
    ReplaceConcat(Replace(a2, '$', "\\$"), Replace(b2, '$', "\\$"), '`', "\\`");
  }

  // ----- the shell undoes the quoting -----

  /** The text after a right-hand side that cannot be part of its word. */
  predicate EndsHere(tail: string) {
    tail == "" || EndsWord(tail[0])
  }

  predicate Plain(c: char) {
    !EndsWord(c) && !Expands(c) && c !in {'\'', '"', '\\'}
  }

  lemma WordStep(c: char, s: string)
    ensures Plain(c) ==> Word([c] + s) == Prepend(c, Word(s))
    ensures Word("'" + s) == SingleQuoted(s)
    ensures Word("\"" + s) == DoubleQuoted(s)
  {
  }

  lemma SingleStep(c: char, s: string)
    ensures SingleQuoted([c] + s) == if c == '\'' then Word(s) else Prepend(c, SingleQuoted(s))
  {
  }

  lemma DoubleStep(c: char, s: string)
    ensures DoubleQuoted(EscapeChar(c) + s) == Prepend(c, DoubleQuoted(s))
    ensures DoubleQuoted("\"" + s) == Word(s)
  {
  }

  /** `v` in front of whatever `w` has read. */
  function PrependAll(v: string, w: Option<(string, string)>): Option<(string, string)> {
    if w.None? then None else Some((v + w.value.0, w.value.1))
  }

  lemma PrependAllStep(v: string, w: Option<(string, string)>)
    ensures v != "" ==> PrependAll(v, w) == Prepend(v[0], PrependAll(v[1..], w))
    ensures PrependAll("", w) == w
  {
    if w.Some? {
      assert "" + w.value.0 == w.value.0;
      if v != "" {
        assert v + w.value.0 == [v[0]] + (v[1..] + w.value.0);
      }
    }
  }

  lemma {:induction false} SafeTextReadsItself(v: string, tail: string)
    requires SafeUnquoted(v)
    ensures Word(v + tail) == PrependAll(v, Word(tail))
  {
    PrependAllStep(v, Word(tail));
    if v == "" {
      assert v + tail == tail;
    } else {
      assert v + tail == [v[0]] + (v[1..] + tail);
      assert SafeChar(v[0]);
      WordStep(v[0], v[1..] + tail);
      SafeTextReadsItself(v[1..], tail);
    }
  }

  lemma {:induction false} SingleQuotedReadsItself(v: string, tail: string)
    requires '\'' !in v
    ensures SingleQuoted(v + "'" + tail) == PrependAll(v, Word(tail))
  {
    PrependAllStep(v, Word(tail));
    if v == "" {
      assert v + "'" + tail == "'" + tail;
      SingleStep('\'', tail);
    } else {
      assert v + "'" + tail == [v[0]] + (v[1..] + "'" + tail);
      SingleStep(v[0], v[1..] + "'" + tail);
      SingleQuotedReadsItself(v[1..], tail);
    }
  }

  lemma {:induction false} EscapedReadsItself(v: string, tail: string)
    ensures DoubleQuoted(Escape(v) + "\"" + tail) == PrependAll(v, Word(tail))
  {
    PrependAllStep(v, Word(tail));
    if v == "" {
      assert Escape(v) + "\"" + tail == "\"" + tail;
      DoubleStep('"', tail);
    } else {
      var rest := Escape(v[1..]) + "\"" + tail;
      assert Escape(v) + "\"" + tail == EscapeChar(v[0]) + rest;
      DoubleStep(v[0], rest);
      EscapedReadsItself(v[1..], tail);
    }
  }

  lemma RightHandSideIs(oldQuote: string, v: string)
    requires oldQuote in {"", "\"", "'"}
    ensures RightHandSide(oldQuote, v).0
            == if oldQuote == "'" && '\'' !in v then "'" + v + "'"
               else if oldQuote != "\"" && SafeUnquoted(v) then v
               else "\"" + Escape(v) + "\""
  {
    FourReplacesEscape(v);
    assert "" + v + "" == v;
  }

  lemma SingleQuotesRead(v: string, tail: string)
    requires '\'' !in v
    ensures Word("'" + v + "'" + tail) == PrependAll(v, Word(tail))
  {
    assert "'" + v + "'" + tail == "'" + (v + "'" + tail);
    WordStep('a', v + "'" + tail);
    SingleQuotedReadsItself(v, tail);
  }

  lemma DoubleQuotesRead(v: string, tail: string)
    ensures Word("\"" + Escape(v) + "\"" + tail) == PrependAll(v, Word(tail))
  {
    assert "\"" + Escape(v) + "\"" + tail == "\"" + (Escape(v) + "\"" + tail);
    WordStep('a', Escape(v) + "\"" + tail);
    EscapedReadsItself(v, tail);
  }

  /** For every value and every old quote style, the shell reads the right-hand side as the value. */
  lemma RightHandSideReads(oldQuote: string, v: string, tail: string)
    requires oldQuote in {"", "\"", "'"}
    ensures Word(RightHandSide(oldQuote, v).0 + tail) == PrependAll(v, Word(tail))
  {
    RightHandSideIs(oldQuote, v);
    if oldQuote == "'" && '\'' !in v {
      SingleQuotesRead(v, tail);
    } else if oldQuote != "\"" && SafeUnquoted(v) {
      SafeTextReadsItself(v, tail);
    } else {
      DoubleQuotesRead(v, tail);
    }
  }

  /** How many carriage returns a text begins with. */
  function LeadingCRs(s: string): (n: nat)
    ensures n <= |s| && (n < |s| ==> s[n] != '\r')
  {
    if s == "" || s[0] != '\r' then 0 else 1 + LeadingCRs(s[1..])
  }

  function CRs(n: nat): (s: string)
    ensures |s| == n
  {
    if n == 0 then "" else "\r" + CRs(n - 1)
  }

  /** Nothing but carriage returns stands before the end of the word. */
  predicate EndsBehindCRs(tail: string) {
    EndsHere(tail[LeadingCRs(tail)..])
  }

  lemma {:induction false} CRsReadThemselves(tail: string)
    requires EndsBehindCRs(tail)
    ensures Word(tail) == Some((CRs(LeadingCRs(tail)), tail[LeadingCRs(tail)..]))
  {
    if tail != "" && tail[0] == '\r' {
      assert tail[1..][LeadingCRs(tail[1..])..] == tail[LeadingCRs(tail)..];
      CRsReadThemselves(tail[1..]);
      WordStep('\r', tail[1..]);
      assert tail == ['\r'] + tail[1..];
    }
  }

  /**
   A sourced line assigns the value and the carriage returns that follow the right-hand side up to a blank, a
   newline or the end of the file, and nothing else gets into the word: so exactly the value when there are none.
   */
  lemma SourcedValueIsExactUnlessCR(oldQuote: string, v: string, tail: string)
    requires oldQuote in {"", "\"", "'"} && EndsBehindCRs(tail)
    ensures var word := Word(RightHandSide(oldQuote, v).0 + tail);
            && word.Some? && word.value.0 == v + CRs(LeadingCRs(tail))
            && (word.value.0 == v <==> EndsHere(tail))
  {
    RightHandSideReads(oldQuote, v, tail);
    CRsReadThemselves(tail);
    assert v + "" == v;
  }

  /** The escaped text is the value itself exactly when nothing in it is special. */
  lemma {:induction false} EscapeIsIdentityIffPlain(v: string)
    ensures |Escape(v)| >= |v|
    ensures Escape(v) == v <==> forall i :: 0 <= i < |v| ==> !Special(v[i])
  {
    if v != "" {
      EscapeIsIdentityIffPlain(v[1..]);
      if Special(v[0]) {
        assert |Escape(v)| > |v|;
      } else {
        assert Escape(v)[1..] == Escape(v[1..]);
        assert v == [v[0]] + v[1..];
        assert forall i :: 1 <= i < |v| ==> v[i] == v[1..][i - 1];
      }
    }
  }
}
