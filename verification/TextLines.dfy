/**
 Text as lines: splitting at `\n` without loss, and what reading in text mode makes of the other
 newlines. The `.env` editor (src/arail/env_writer.py) splits this way itself; a Python file object read
 line by line (src/arail/jsonl_purge.py) does too.
 */
module TextLines {
  /** The length of the first line, its newline included. */
  function LineLen(text: string): (n: nat)
    ensures n <= |text| && (text != "" ==> n > 0)
    ensures forall i :: 0 <= i < n - 1 ==> text[i] != '\n'
    ensures n < |text| ==> n > 0 && text[n - 1] == '\n'
  {
    LineLenFrom(text, 0)
  }

  function LineLenFrom(text: string, from: nat): (n: nat)
    requires from <= |text|
    ensures from <= n <= |text| && (from < |text| ==> n > from)
    ensures forall i :: from <= i < n - 1 ==> text[i] != '\n'
    ensures n < |text| ==> n > from && text[n - 1] == '\n'
    decreases |text| - from
  {
    if from == |text| then from else if text[from] == '\n' then from + 1 else LineLenFrom(text, from + 1)
  }

  function SplitLines(text: string): seq<string>
    decreases |text|
  {
    if text == "" then [] else [text[..LineLen(text)]] + SplitLines(text[LineLen(text)..])
  }

  function Join(raws: seq<string>): string {
    if raws == [] then "" else raws[0] + Join(raws[1..])
  }

  /** A line: something, with a newline nowhere but at its end. */
  ghost predicate IsChunk(raw: string) {
    raw != "" && forall i :: 0 <= i < |raw| - 1 ==> raw[i] != '\n'
  }

  /** Lines, all but perhaps the last ending in a newline. */
  ghost predicate AreLines(raws: seq<string>) {
    && (forall i :: 0 <= i < |raws| ==> IsChunk(raws[i]))
    && (forall i :: 0 <= i < |raws| - 1 ==> raws[i][|raws[i]| - 1] == '\n')
  }

  lemma {:induction false} SplitIsLossless(text: string)
    ensures Join(SplitLines(text)) == text
    decreases |text|
  {
    if text != "" {
      var first, rest := text[..LineLen(text)], text[LineLen(text)..];
      SplitIsLossless(rest);
      assert SplitLines(text)[1..] == SplitLines(rest);
      assert first + rest == text;
    }
  }

  lemma {:induction false} SplitGivesLines(text: string)
    ensures AreLines(SplitLines(text))
    decreases |text|
  {
    if text != "" {
      var first, rest := text[..LineLen(text)], text[LineLen(text)..];
      SplitGivesLines(rest);
      LinesCons(first, SplitLines(rest));
    }
  }

  lemma LinesCons(first: string, rest: seq<string>)
    requires IsChunk(first) && AreLines(rest) && (rest != [] ==> first[|first| - 1] == '\n')
    ensures AreLines([first] + rest)
  {
  }

  lemma LineLenIs(raw: string, rest: string)
    requires IsChunk(raw) && (rest != "" ==> raw[|raw| - 1] == '\n')
    ensures LineLen(raw + rest) == |raw|
  {
    assert forall i :: 0 <= i < |raw| ==> (raw + rest)[i] == raw[i];
  }

  /** Splitting undoes joining, so the lines of a text are the only ones it has. */
  lemma {:induction false} SplitOfJoin(raws: seq<string>)
    requires AreLines(raws)
    ensures SplitLines(Join(raws)) == raws
  {
    if raws != [] {
      var rest := raws[1..];
      assert forall i :: 0 <= i < |rest| ==> rest[i] == raws[i + 1];
      SplitOfJoin(rest);
      assert rest == [] ==> Join(rest) == "";
      LineLenIs(raws[0], Join(rest));
      assert Join(raws)[..|raws[0]|] == raws[0] && Join(raws)[|raws[0]|..] == Join(rest);
    }
  }

  predicate Ended(raw: string) {
    raw != "" && raw[|raw| - 1] == '\n'
  }

  lemma {:induction false} JoinConcat(a: seq<string>, b: seq<string>)
    ensures Join(a + b) == Join(a) + Join(b)
  {
    if a == [] {
      assert a + b == b;
    } else {
      assert (a + b)[1..] == a[1..] + b;
      JoinConcat(a[1..], b);
    }
  }

  lemma JoinSnoc(a: seq<string>, s: string)
    ensures Join(a + [s]) == Join(a) + s
  {
    JoinConcat(a, [s]);
    assert [s][1..] == [];
  }

  lemma LastOfJoin(raws: seq<string>)
    requires AreLines(raws) && raws != []
    ensures Join(raws) != "" && Join(raws)[|Join(raws)| - 1] == raws[|raws| - 1][|raws[|raws| - 1]| - 1]
  {
  }

  /** The first loop of `_parse_lines`: cut after each newline found. */
  method SplitText(text: string) returns (parts: seq<string>)
    ensures parts == SplitLines(text)
  {
    parts := [];
    var i := 0;
    assert text[0..] == text;
    ghost var rest := SplitLines(text);
    assert [] + rest == rest;
    while i < |text|
      invariant 0 <= i <= |text|
      invariant rest == SplitLines(text[i..])
      invariant parts + rest == SplitLines(text)
    {
      var n := LineLen(text[i..]);
      SplitAt(text, i);
      ConcatAssociates(parts, [text[i..i + n]], SplitLines(text[i + n..]));
      parts, i, rest := parts + [text[i..i + n]], i + n, SplitLines(text[i + n..]);
    }
    assert rest == [];
  }

  lemma ConcatAssociates<T>(a: seq<T>, b: seq<T>, c: seq<T>)
    ensures a + (b + c) == a + b + c
  {
  }

  lemma SplitAt(text: string, i: nat)
    requires i < |text|
    ensures var n := LineLen(text[i..]); SplitLines(text[i..]) == [text[i..i + n]] + SplitLines(text[i + n..])
  {
    var n := LineLen(text[i..]);
    assert text[i..][..n] == text[i..i + n] && text[i..][n..] == text[i + n..];
  }

  function Newlines(text: string): nat {
    if text == "" then 0 else (if text[0] == '\n' then 1 else 0) + Newlines(text[1..])
  }

  lemma {:induction false} NewlinesConcat(a: string, b: string)
    ensures Newlines(a + b) == Newlines(a) + Newlines(b)
  {
    if a == "" {
      assert a + b == b;
    } else {
      assert (a + b)[1..] == a[1..] + b;
      NewlinesConcat(a[1..], b);
    }
  }

  lemma {:induction false} NewlinesNone(s: string)
    requires '\n' !in s
    ensures Newlines(s) == 0
  {
    if s != "" {
      NewlinesNone(s[1..]);
    }
  }

  lemma NewlinesOfParts(front: string, c: char, rest: string)
    requires '\n' !in front
    ensures Newlines(front + ([c] + rest)) == Newlines(rest) + if c == '\n' then 1 else 0
  {
    NewlinesConcat(front, [c] + rest);
    NewlinesNone(front);
    assert ([c] + rest)[1..] == rest;
  }

  lemma NewlinesOfLine(text: string)
    requires text != ""
    ensures Newlines(text) == Newlines(text[LineLen(text)..]) + if Ended(text[..LineLen(text)]) then 1 else 0
  {
    var n := LineLen(text);
    NewlinesOfParts(text[..n - 1], text[n - 1], text[n..]);
    assert text == text[..n - 1] + ([text[n - 1]] + text[n..]);
  }

  // ----- text mode -----

  /** Reading a file in text mode: `\r\n` and `\r` become `\n`. */
  function Universal(text: string): string
    decreases |text|
  {
    if text == "" then ""
    else if text[0] != '\r' then [text[0]] + Universal(text[1..])
    else if |text| > 1 && text[1] == '\n' then "\n" + Universal(text[2..])
    else "\n" + Universal(text[1..])
  }

  lemma {:induction false} UniversalOfPlain(a: string, b: string)
    requires '\r' !in a
    ensures Universal(a + b) == a + Universal(b)
  {
    if a == "" {
      assert a + b == b;
    } else {
      assert (a + b)[1..] == a[1..] + b;
      UniversalOfPlain(a[1..], b);
    }
  }

  lemma UniversalOfTerm(term: string, rest: string)
    requires term in {"\n", "\r\n"}
    ensures Universal(term + rest) == "\n" + Universal(rest)
  {
  }

  lemma {:induction false} UniversalLacksCR(text: string)
    ensures '\r' !in Universal(text)
    ensures '\r' !in text ==> Universal(text) == text
    decreases |text|
  {
    if text != "" {
      UniversalLacksCR(text[1..]);
      if text[0] == '\r' && |text| > 1 && text[1] == '\n' {
        UniversalLacksCR(text[2..]);
      }
      if text[0] != '\r' {
        assert text == [text[0]] + text[1..];
      }
    }
  }

  lemma {:induction false} SplitLacksCR(text: string)
    requires '\r' !in text
    ensures forall i :: 0 <= i < |SplitLines(text)| ==> '\r' !in SplitLines(text)[i]
    decreases |text|
  {
    if text != "" {
      SplitLacksCR(text[LineLen(text)..]);
    }
  }

  /** A line ends between `a` and `b`, as text mode sees it: not inside a `\r\n`. */
  predicate IsCut(a: string, b: string) {
    a == "" || b == "" || Ended(a) || (a[|a| - 1] == '\r' && b[0] != '\n')
  }

  /** What text mode turns into the first character of its result. */
  function First(text: string): (n: nat)
    requires text != ""
    ensures 1 <= n <= |text|
  {
    if text[0] == '\r' && |text| > 1 && text[1] == '\n' then 2 else 1
  }

  lemma UniversalFirst(text: string)
    requires text != ""
    ensures Universal(text) == [if text[0] == '\r' then '\n' else text[0]] + Universal(text[First(text)..])
  {
  }

  lemma {:induction false} UniversalConcat(a: string, b: string)
    requires a == "" || b == "" || a[|a| - 1] != '\r' || b[0] != '\n'
    ensures Universal(a + b) == Universal(a) + Universal(b)
    decreases |a|
  {
    if a == "" {
      assert a + b == b;
    } else if b == "" {
      assert a + b == a;
    } else {
      var n := First(a);
      UniversalFirst(a);
      UniversalFirst(a + b);
      assert First(a + b) == n && (a + b)[n..] == a[n..] + b;
      UniversalConcat(a[n..], b);
    }
  }

  lemma LinesJoin(a: seq<string>, b: seq<string>)
    requires AreLines(a) && AreLines(b) && (a == [] || b == [] || Ended(a[|a| - 1]))
    ensures AreLines(a + b)
  {
  }

  lemma LastLineEnds(text: string)
    requires Ended(text)
    ensures SplitLines(text) != [] && Ended(SplitLines(text)[|SplitLines(text)| - 1])
  {
    SplitGivesLines(text);
    SplitIsLossless(text);
    LastOfJoin(SplitLines(text));
  }

  lemma SplitConcat(a: string, b: string)
    requires a == "" || b == "" || Ended(a)
    ensures SplitLines(a + b) == SplitLines(a) + SplitLines(b)
  {
    SplitGivesLines(a);
    SplitGivesLines(b);
    if Ended(a) {
      LastLineEnds(a);
    }
    LinesJoin(SplitLines(a), SplitLines(b));
    SplitOfJoin(SplitLines(a) + SplitLines(b));
    JoinedSplits(a, b);
  }

  lemma JoinedSplits(a: string, b: string)
    ensures Join(SplitLines(a) + SplitLines(b)) == a + b
  {
    JoinConcat(SplitLines(a), SplitLines(b));
    SplitIsLossless(a);
    SplitIsLossless(b);
  }

  lemma {:induction false} UniversalEnds(text: string)
    ensures Universal(text) == "" <==> text == ""
    ensures text != "" ==> (Ended(Universal(text)) <==> Ended(text) || text[|text| - 1] == '\r')
    decreases |text|
  {
    if text != "" {
      var rest := text[First(text)..];
      UniversalFirst(text);
      UniversalEnds(rest);
      if rest != "" {
        assert rest[|rest| - 1] == text[|text| - 1];
      }
    }
  }

  /** The lines a text file object yields. */
  function LinesOf(text: string): seq<string> {
    SplitLines(Universal(text))
  }

  lemma LinesConcat(a: string, b: string)
    requires IsCut(a, b)
    ensures LinesOf(a + b) == LinesOf(a) + LinesOf(b)
  {
    UniversalConcat(a, b);
    UniversalEnds(a);
    UniversalEnds(b);
    SplitConcat(Universal(a), Universal(b));
  }
}
