/**
 The small parts of the `.env` editor (src/arail/env_writer.py), each said without its own code: letters and names,
 quotes, the newline a file is written with, and how often a key is set.
 */
module EnvShapes {
  import opened Basics
  import opened EnvQuoting
  import opened TextLines
  import opened EnvLines
  import opened EnvEdits
  import opened EnvFile

  // ----- letters and names -----

  predicate IsLetter(c: char) {
    65 <= c as int <= 90 || 97 <= c as int <= 122
  }

  predicate IsDigit(c: char) {
    48 <= c as int <= 57
  }

  lemma CodePoints()
    ensures 'A' as int == 65 && 'Z' as int == 90 && 'a' as int == 97 && 'z' as int == 122
    ensures '0' as int == 48 && '9' as int == 57
  {
  }

  /** By code point: a name is letters, digits and underscores, the first no digit. */
  lemma IdentIff(key: string)
    ensures IsIdent(key) <==>
            && key != "" && !IsDigit(key[0])
            && forall i :: 0 <= i < |key| ==> IsLetter(key[i]) || IsDigit(key[i]) || key[i] == '_'
  {
    CodePoints();
  }

  /** A value goes in without quotes exactly when all of it is letters, digits and ten signs that mean nothing to a shell. */
  lemma UnquotedIff(v: string)
    ensures QuoteForEnv(v).1 == "" <==>
            forall i :: 0 <= i < |v| ==> IsLetter(v[i]) || IsDigit(v[i]) || v[i] in "_./:@%+,=-"
    ensures QuoteForEnv(v).1 == "" ==> QuoteForEnv(v).0 == v
  {
    CodePoints();
    forall i | 0 <= i < |v| ensures SafeChar(v[i]) <==> IsLetter(v[i]) || IsDigit(v[i]) || v[i] in "_./:@%+,=-" {
      TenSigns(v[i]);
    }
  }

  lemma TenSigns(c: char)
    ensures c in "_./:@%+,=-" <==> c in {'_', '.', '/', ':', '@', '%', '+', ',', '=', '-'}
  {
    var signs := "_./:@%+,=-";
    assert signs[0] == '_' && signs[1] == '.' && signs[2] == '/' && signs[3] == ':' && signs[4] == '@';
    assert signs[5] == '%' && signs[6] == '+' && signs[7] == ',' && signs[8] == '=' && signs[9] == '-';
  }

  /** Refused are exactly the values with a newline or a NUL in them. */
  lemma ForbiddenIff(value: string)
    ensures Forbidden(value) <==> exists i :: 0 <= i < |value| && value[i] as int in {0, 10}
  {
    assert '\n' as int == 10 && '\0' as int == 0;
    if i :| 0 <= i < |value| && value[i] as int in {0, 10} {
      assert value[i] == '\n' || value[i] == '\0';
    }
  }

  // ----- quotes -----

  /** The quotes around a value come off exactly when both are there; nothing else of it changes. */
  lemma UnquotedValueIs(line: Line, inner: string)
    requires line.Assign? && |line.quote| <= 1
    ensures line.quote == "" ==> UnquotedValue(line) == line.valueRaw
    ensures line.valueRaw == line.quote + inner + line.quote ==> UnquotedValue(line) == inner
    ensures UnquotedValue(line) == line.valueRaw || line.valueRaw == line.quote + UnquotedValue(line) + line.quote
  {
    if line.quote != "" {
      var q, raw := line.quote, line.valueRaw;
      if raw == q + inner + q {
        assert raw[0] == q[0] && raw[|raw| - 1] == q[0] && raw[1..|raw| - 1] == inner;
        assert raw[|raw| - 1..] == q && q <= raw;
      }
      if |raw| >= 2 && q <= raw && q == raw[|raw| - 1..] {
        assert raw[..1] == q && raw == raw[..1] + raw[1..|raw| - 1] + raw[|raw| - 1..];
      }
    }
  }

  // ----- the newline of a file -----

  predicate EndsCRLF(raw: string) {
    |raw| >= 2 && raw[|raw| - 2] == '\r' && raw[|raw| - 1] == '\n'
  }

  /** Lines that end in a carriage return and a newline. */
  function CRLFLines(raws: seq<string>): nat {
    if raws == [] then 0 else (if EndsCRLF(raws[0]) then 1 else 0) + CRLFLines(raws[1..])
  }

  /** Lines that end in a newline alone. */
  function LFLines(raws: seq<string>): nat {
    if raws == [] then 0 else (if Ended(raws[0]) && !EndsCRLF(raws[0]) then 1 else 0) + LFLines(raws[1..])
  }

  lemma {:induction false} CountConcat(a: string, b: string)
    requires a == "" || a[|a| - 1] == '\n'
    ensures CountCRLF(a + b) == CountCRLF(a) + CountCRLF(b)
    decreases |a|
  {
    if a == "" {
      assert a + b == b;
    } else {
      CountConcat(a[1..], b);
      assert (a + b)[1..] == a[1..] + b;
    }
  }

  lemma {:induction false} CountOfChunk(raw: string)
    requires IsChunk(raw)
    ensures CountCRLF(raw) == if EndsCRLF(raw) then 1 else 0
    decreases |raw|
  {
    if |raw| > 2 {
      assert IsChunk(raw[1..]);
      CountOfChunk(raw[1..]);
    } else if |raw| == 2 {
      assert CountCRLF(raw[1..]) == 0;
    }
  }

  lemma {:induction false} NewlinesByLine(text: string)
    ensures CountCRLF(text) == CRLFLines(SplitLines(text))
    ensures Newlines(text) == CRLFLines(SplitLines(text)) + LFLines(SplitLines(text))
    decreases |text|
  {
    if text != "" {
      var first, rest := text[..LineLen(text)], text[LineLen(text)..];
      NewlinesByLine(rest);
      NewlinesOfLine(text);
      SplitGivesLines(text);
      assert SplitLines(text)[0] == first && SplitLines(text)[1..] == SplitLines(rest);
      CountOfChunk(first);
      if rest == "" {
        assert first == text;
      } else {
        CountConcat(first, rest);
        assert text == first + rest;
      }
    }
  }

  /** New lines end as most lines of the file do; in a newline alone, where no more end the other way. */
  lemma NewlineIs(text: string)
    ensures NewlineOf(text) == "\r\n" <==> CRLFLines(SplitLines(text)) > LFLines(SplitLines(text))
    ensures NewlineOf(text) == "\n" <==> CRLFLines(SplitLines(text)) <= LFLines(SplitLines(text))
  {
    NewlinesByLine(text);
  }

  // ----- how often a key is set -----

  function SettingLines(lines: seq<Line>, key: string): set<nat> {
    set i: nat | i < |lines| && lines[i].Assign? && lines[i].key == key
  }

  /** The count is of the lines that set the key; less the one that is edited, it is how many duplicates a caller is told of. */
  lemma {:induction false} MatchesAreLines(lines: seq<Line>, key: string)
    ensures CountMatches(lines, key) == |SettingLines(lines, key)|
  {
    if lines == [] {
      assert SettingLines(lines, key) == {};
    } else {
      var n := |lines| - 1;
      MatchesAreLines(lines[..n], key);
      if Matches(lines[n], key) {
        assert SettingLines(lines, key) == SettingLines(lines[..n], key) + {n};
      } else {
        assert SettingLines(lines, key) == SettingLines(lines[..n], key);
      }
    }
  }
}
