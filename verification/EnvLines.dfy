/**
 The lines of a `.env` file (src/arail/env_writer.py): lossless parsing, and the replacement of one
 line's value.
 */
module EnvLines {
  import opened Basics
  import opened EnvQuoting
  import opened TextLines

  predicate IsIdentStart(c: char) {
    'A' <= c <= 'Z' || 'a' <= c <= 'z' || c == '_'
  }

  predicate IsIdentChar(c: char) {
    IsIdentStart(c) || '0' <= c <= '9'
  }

  /** Leading characters that are whitespace. */
  function Spaces(s: string): (n: nat)
    ensures n <= |s| && (forall i :: 0 <= i < n ==> IsSpace(s[i])) && (n < |s| ==> !IsSpace(s[n]))
  {
    SpacesFrom(s, 0)
  }

  function SpacesFrom(s: string, from: nat): (n: nat)
    requires from <= |s|
    ensures from <= n <= |s| && (forall i :: from <= i < n ==> IsSpace(s[i])) && (n < |s| ==> !IsSpace(s[n]))
    decreases |s| - from
  {
    if from == |s| || !IsSpace(s[from]) then from else SpacesFrom(s, from + 1)
  }

  function IdentChars(s: string): (n: nat)
    ensures n <= |s| && (forall i :: 0 <= i < n ==> IsIdentChar(s[i])) && (n < |s| ==> !IsIdentChar(s[n]))
  {
    IdentCharsFrom(s, 0)
  }

  function IdentCharsFrom(s: string, from: nat): (n: nat)
    requires from <= |s|
    ensures from <= n <= |s| && (forall i :: from <= i < n ==> IsIdentChar(s[i])) && (n < |s| ==> !IsIdentChar(s[n]))
    decreases |s| - from
  {
    if from == |s| || !IsIdentChar(s[from]) then from else IdentCharsFrom(s, from + 1)
  }

  predicate IsIdent(key: string) {
    key != "" && IsIdentStart(key[0]) && IdentChars(key) == |key|
  }

  predicate IsNewlineChar(c: char) {
    c == '\r' || c == '\n'
  }

  /** `rstrip("\r\n")`: how much of the text stays. */
  function Stripped(s: string): (n: nat)
    ensures n <= |s| && (forall i :: n <= i < |s| ==> IsNewlineChar(s[i])) && (n > 0 ==> !IsNewlineChar(s[n - 1]))
  {
    StrippedTo(s, |s|)
  }

  function StrippedTo(s: string, to: nat): (n: nat)
    requires to <= |s|
    ensures n <= to && (forall i :: n <= i < to ==> IsNewlineChar(s[i])) && (n > 0 ==> !IsNewlineChar(s[n - 1]))
  {
    if to == 0 || !IsNewlineChar(s[to - 1]) then to else StrippedTo(s, to - 1)
  }

  // ----- parsing -----

  datatype Line =
    | Blank(raw: string)
    | Comment(raw: string)
    | Malformed(raw: string)
    | Assign(raw: string, prefix: string, key: string, valueRaw: string, quote: string,
             inline: Option<string>, term: string)

  predicate Enclosed(s: string, quote: char) {
    |s| >= 2 && s[0] == quote && s[|s| - 1] == quote
  }

  /** Where an inline comment starts: the first whitespace whose run ends at a `#`. */
  function InlineAt(rest: string): (at: Option<nat>)
    ensures at.Some? ==> at.value < |rest| && at.value + Spaces(rest[at.value..]) < |rest|
  {
    if rest == "" then None
    else if IsSpace(rest[0]) && Spaces(rest) < |rest| && rest[Spaces(rest)] == '#' then Some(0)
    else
      var at := InlineAt(rest[1..]);
      if at.None? then None
      else
        assert rest[1..][at.value..] == rest[at.value + 1..];
        Some(at.value + 1)
  }

  /** The comment that starts at `at`, without its `#`. */
  function InlineText(rest: string, at: nat): string
    requires at <= |rest| && at + Spaces(rest[at..]) < |rest|
  {
    rest[at + Spaces(rest[at..]) + 1..]
  }

  /** Quote style, stored value and inline comment of what follows the equals sign. */
  function ParseRest(rest: string): (string, string, Option<string>) {
    if Enclosed(rest, '"') then ("\"", rest, None)
    else if Enclosed(rest, '\'') then ("'", rest, None)
    else
      var at := InlineAt(rest);
      if at.None? then ("", rest, None)
      else ("", rest[..at.value], Some(InlineText(rest, at.value)))
  }

  /** A line whose text without its newline is `prefix + body`. */
  function ParseBody(raw: string, prefix: string, body: string, term: string): (line: Line)
    ensures line.raw == raw
  {
    if body == "" then Blank(raw)
    else if body[0] == '#' then Comment(raw)
    else
      var k := IdentChars(body);
      var after := body[k..];
      var gap := Spaces(after);
      if k > 0 && IsIdentStart(body[0]) && gap < |after| && after[gap] == '=' then
        var (quote, valueRaw, inline) := ParseRest(after[gap + 1..]);
        Assign(raw, prefix, body[..k], valueRaw, quote, inline, term)
      else Malformed(raw)
  }

  function ParseLine(raw: string): (line: Line)
    ensures line.raw == raw
  {
    var n := Stripped(raw);
    var lead := Spaces(raw[..n]);
    ParseBody(raw, raw[..n][..lead], raw[..n][lead..], raw[n..])
  }

  function ParseAll(raws: seq<string>): (lines: seq<Line>)
    ensures |lines| == |raws|
  {
    seq(|raws|, i requires 0 <= i < |raws| => ParseLine(raws[i]))
  }

  function Raws(lines: seq<Line>): (raws: seq<string>)
    ensures |raws| == |lines|
  {
    seq(|lines|, i requires 0 <= i < |lines| => lines[i].raw)
  }

  /** `_parse_lines`: split at newlines, then classify. */
  method ParseLines(text: string) returns (lines: seq<Line>)
    ensures lines == ParseAll(SplitLines(text))
  {
    var parts := SplitText(text);
    lines := [];
    for j := 0 to |parts|
      invariant lines == ParseAll(parts[..j])
    {
      lines := lines + [ParseLine(parts[j])];
    }
    assert parts[..|parts|] == parts;
  }

  /** Parsing keeps every character. */
  lemma ParseIsLossless(text: string)
    ensures Join(Raws(ParseAll(SplitLines(text)))) == text
  {
    SplitIsLossless(text);
    assert Raws(ParseAll(SplitLines(text))) == SplitLines(text);
  }

  // ----- editing one line -----

  function LStrip(s: string): string {
    s[Spaces(s)..]
  }

  function InlinePart(inline: Option<string>): string {
    if inline.Some? then " # " + LStrip(inline.value) else ""
  }

  /** `Line.with_value`. */
  function WithValue(line: Line, v: string): Line
    requires line.Assign?
  {
    var (rhs, quote) := RightHandSide(line.quote, v);
    line.(raw := line.prefix + line.key + "=" + rhs + InlinePart(line.inline) + line.term, valueRaw := rhs, quote := quote)
  }

  /** `Line.assign` with the quoting of the append path. */
  function NewAssignment(key: string, v: string, nl: string): Line {
    var (inner, quote) := QuoteForEnv(v);
    var valueRaw := quote + inner + quote;
    Assign(key + "=" + valueRaw + nl, "", key, valueRaw, quote, None, nl)
  }

  /** `Line.unquoted_value`. */
  function UnquotedValue(line: Line): string
    requires line.Assign?
  {
    if line.quote != "" && |line.valueRaw| >= 2 && line.quote <= line.valueRaw
       && line.quote == line.valueRaw[|line.valueRaw| - 1..]
    then line.valueRaw[1..|line.valueRaw| - 1] else line.valueRaw
  }

  /** What every parsed assignment looks like. */
  ghost predicate WellParsed(line: Line) {
    line.Assign? ==>
      && (forall i :: 0 <= i < |line.prefix| ==> IsSpace(line.prefix[i]))
      && IsIdent(line.key)
      && (forall i :: 0 <= i < |line.term| ==> IsNewlineChar(line.term[i]))
      && line.quote in {"", "\"", "'"}
      && (line.inline.Some? ==> line.quote == "" && (line.inline.value == "" || !IsNewlineChar(line.inline.value[|line.inline.value| - 1])))
  }
}
