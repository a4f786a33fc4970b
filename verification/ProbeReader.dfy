/**
 Splitting a byte stream into lines as it arrives (src/arail/deep_probe.py): the stderr reader that
 never holds more than the start of a line, against splitting the whole stream.
 */
module ProbeReader {
  newtype byte = x: int | 0 <= x < 256

  const NEWLINE: byte := 10
  const STDERR_TAIL_LINES := 20
  const STDERR_LINE_BYTES := 8192

  type Bytes = seq<byte>

  // ----- splitting a whole stream -----

  /** Bytes before the first newline. */
  function UpToNewline(s: Bytes, from: nat): (n: nat)
    requires from <= |s|
    ensures from <= n <= |s| && NEWLINE !in s[from..n] && (n < |s| ==> s[n] == NEWLINE)
    decreases |s| - from
  {
    if from == |s| || s[from] == NEWLINE then from
    else
      var n := UpToNewline(s, from + 1);
      assert s[from..n] == [s[from]] + s[from + 1..n];
      n
  }

  /** `split(b"\n")`: one piece more than there are newlines. */
  function Split(s: Bytes): (pieces: seq<Bytes>)
    ensures pieces != []
    decreases |s|
  {
    var n := UpToNewline(s, 0);
    if n == |s| then [s] else [s[..n]] + Split(s[n + 1..])
  }

  function Rejoin(pieces: seq<Bytes>): Bytes
    requires pieces != []
  {
    if |pieces| == 1 then pieces[0] else pieces[0] + [NEWLINE] + Rejoin(pieces[1..])
  }

  lemma ConsPiece(first: Bytes, rest: seq<Bytes>)
    requires rest != [] && NEWLINE !in first && forall i :: 0 <= i < |rest| ==> NEWLINE !in rest[i]
    ensures Rejoin([first] + rest) == first + [NEWLINE] + Rejoin(rest)
    ensures forall i :: 0 <= i < |[first] + rest| ==> NEWLINE !in ([first] + rest)[i]
  {
    assert ([first] + rest)[1..] == rest;
  }

  /** What splitting is: pieces without newlines that give the stream back. */
  lemma {:induction false} SplitIsSplitting(s: Bytes)
    ensures Rejoin(Split(s)) == s
    ensures forall i :: 0 <= i < |Split(s)| ==> NEWLINE !in Split(s)[i]
    decreases |s|
  {
    var n := UpToNewline(s, 0);
    if n == |s| {
      assert s[0..n] == s;
    } else {
      SplitIsSplitting(s[n + 1..]);
      assert s[0..n] == s[..n];
      ConsPiece(s[..n], Split(s[n + 1..]));
      assert s == s[..n] + [NEWLINE] + s[n + 1..];
    }
  }

  /** The lines a newline ends. */
  function Ended(s: Bytes): (lines: seq<Bytes>)
    decreases |s|
  {
    if s == [] then []
    else if s[|s| - 1] == NEWLINE then Ended(s[..|s| - 1]) + [Open(s[..|s| - 1])]
    else Ended(s[..|s| - 1])
  }

  /** The line still being read. */
  function Open(s: Bytes): (line: Bytes)
    ensures NEWLINE !in line && |line| <= |s|
    decreases |s|
  {
    if s == [] || s[|s| - 1] == NEWLINE then [] else Open(s[..|s| - 1]) + [s[|s| - 1]]
  }

  lemma OpenStep(s: Bytes, b: byte)
    ensures b == NEWLINE ==> Ended(s + [b]) == Ended(s) + [Open(s)] && Open(s + [b]) == []
    ensures b != NEWLINE ==> Ended(s + [b]) == Ended(s) && Open(s + [b]) == Open(s) + [b]
  {
  }

  lemma ConcatSnoc(s: Bytes, t: Bytes, b: byte)
    ensures s + (t + [b]) == s + t + [b]
  {
  }

  lemma {:induction false} OpenMore(s: Bytes, piece: Bytes)
    requires NEWLINE !in piece
    ensures Ended(s + piece) == Ended(s) && Open(s + piece) == Open(s) + piece
    decreases |piece|
  {
    if piece == [] {
      assert s + piece == s && Open(s) + piece == Open(s);
    } else {
      var front, b := piece[..|piece| - 1], piece[|piece| - 1];
      OpenMore(s, front);
      assert piece == front + [b];
      OneMore(s, front, b);
    }
  }

  lemma OneMore(s: Bytes, front: Bytes, b: byte)
    requires b != NEWLINE && Ended(s + front) == Ended(s) && Open(s + front) == Open(s) + front
    ensures Ended(s + (front + [b])) == Ended(s) && Open(s + (front + [b])) == Open(s) + (front + [b])
  {
    OpenStep(s + front, b);
    ConcatSnoc(s, front, b);
    ConcatSnoc(Open(s), front, b);
  }

  lemma EndLine(s: Bytes, piece: Bytes)
    requires NEWLINE !in piece
    ensures Ended(s + piece + [NEWLINE]) == Ended(s) + [Open(s) + piece] && Open(s + piece + [NEWLINE]) == []
  {
    OpenMore(s, piece);
    OpenStep(s + piece, NEWLINE);
  }

  /** The lines seen so far are the first of those seen later. */
  lemma {:induction false} EndedGrows(s: Bytes, more: Bytes)
    ensures Ended(s) <= Ended(s + more)
    decreases |more|
  {
    if more == [] {
      assert s + more == s;
    } else {
      var n := |more| - 1;
      EndedGrows(s, more[..n]);
      OpenStep(s + more[..n], more[n]);
      assert s + more == s + more[..n] + [more[n]];
    }
  }

  lemma {:induction false} SplitConcat(s: Bytes, t: Bytes)
    requires Open(s) == []
    ensures Ended(s + t) == Ended(s) + Ended(t) && Open(s + t) == Open(t)
    decreases |t|
  {
    if t == [] {
      assert s + t == s;
    } else {
      var front, b := t[..|t| - 1], t[|t| - 1];
      SplitConcat(s, front);
      OpenStep(s + front, b);
      OpenStep(front, b);
      assert t == front + [b];
      ConcatSnoc(s, front, b);
    }
  }

  /** The ended lines and the open one are the pieces of the split. */
  lemma {:induction false} SplitIsEndedAndOpen(s: Bytes)
    ensures Split(s) == Ended(s) + [Open(s)]
    decreases |s|
  {
    var n := UpToNewline(s, 0);
    assert s[0..n] == s[..n];
    if n == |s| {
      OpenLine(s);
    } else {
      SplitIsEndedAndOpen(s[n + 1..]);
      FirstLine(s[..n], s[n + 1..]);
      assert s == s[..n] + [NEWLINE] + s[n + 1..];
    }
  }

  lemma OpenLine(s: Bytes)
    requires NEWLINE !in s
    ensures Ended(s) == [] && Open(s) == s
  {
    OpenMore([], s);
    assert [] + s == s;
  }

  lemma LineAlone(line: Bytes)
    requires NEWLINE !in line
    ensures Ended(line + [NEWLINE]) == [line] && Open(line + [NEWLINE]) == []
  {
    EndLine([], line);
    assert [] + line == line;
  }

  lemma FirstLine(line: Bytes, rest: Bytes)
    requires NEWLINE !in line
    ensures Ended(line + [NEWLINE] + rest) == [line] + Ended(rest) && Open(line + [NEWLINE] + rest) == Open(rest)
  {
    LineAlone(line);
    SplitConcat(line + [NEWLINE], rest);
  }

  // ----- the last lines of a log -----

  function Least(a: nat, b: nat): nat {
    if a <= b then a else b
  }

  function Clip(line: Bytes): (head: Bytes)
    ensures |head| <= STDERR_LINE_BYTES
  {
    line[..Least(|line|, STDERR_LINE_BYTES)]
  }

  function ClipAll(lines: seq<Bytes>): (clipped: seq<Bytes>)
    ensures |clipped| == |lines|
  {
    seq(|lines|, i requires 0 <= i < |lines| => Clip(lines[i]))
  }

  function LastOf(lines: seq<Bytes>): (tail: seq<Bytes>)
    ensures |tail| <= STDERR_TAIL_LINES
  {
    lines[|lines| - Least(|lines|, STDERR_TAIL_LINES)..]
  }

  /** The reference: split the whole stream, drop an empty last piece, clip each line, keep the last 20. */
  function TailOf(s: Bytes): seq<Bytes> {
    var pieces := Split(s);
    var lines := if pieces[|pieces| - 1] == [] then pieces[..|pieces| - 1] else pieces;
    LastOf(ClipAll(lines))
  }

  /** The lines of a log: those a newline ends, and what follows the last newline if it is not empty. */
  function LogLines(s: Bytes): seq<Bytes> {
    if Open(s) == [] then Ended(s) else Ended(s) + [Open(s)]
  }

  lemma TailIsOfLines(s: Bytes)
    ensures TailOf(s) == LastOf(ClipAll(LogLines(s)))
  {
    SplitIsEndedAndOpen(s);
    assert (Ended(s) + [Open(s)])[..|Ended(s)|] == Ended(s);
  }

  /** As many of the last lines as there are, at most 20, each no more than its first 8192 bytes. */
  ghost predicate IsTailOf(tail: seq<Bytes>, lines: seq<Bytes>) {
    && |tail| == (if |lines| < 20 then |lines| else 20)
    && forall k :: 0 <= k < |tail| ==> IsHeadOf(tail[k], lines[|lines| - |tail| + k])
  }

  predicate IsHeadOf(kept: Bytes, line: Bytes) {
    kept <= line && |kept| == if |line| < 8192 then |line| else 8192
  }

  lemma LastIsTail(lines: seq<Bytes>)
    ensures IsTailOf(LastOf(ClipAll(lines)), lines)
  {
    var tail := LastOf(ClipAll(lines));
    forall k | 0 <= k < |tail| ensures IsHeadOf(tail[k], lines[|lines| - |tail| + k]) {
      assert tail[k] == Clip(lines[|lines| - |tail| + k]);
    }
  }

  lemma TailSays(s: Bytes)
    ensures IsTailOf(TailOf(s), LogLines(s))
  {
    TailIsOfLines(s);
    LastIsTail(LogLines(s));
  }

  /** `deque.append` with `maxlen`. */
  function Push(tail: seq<Bytes>, line: Bytes): (longer: seq<Bytes>)
    requires |tail| <= STDERR_TAIL_LINES
    ensures |longer| <= STDERR_TAIL_LINES
  {
    if |tail| == STDERR_TAIL_LINES then tail[1..] + [line] else tail + [line]
  }

  lemma PushIsLast(lines: seq<Bytes>, line: Bytes)
    ensures Push(LastOf(ClipAll(lines)), Clip(line)) == LastOf(ClipAll(lines + [line]))
  {
    ClipSnoc(lines, line);
    LastSnoc(ClipAll(lines), Clip(line));
  }

  lemma ClipSnoc(lines: seq<Bytes>, line: Bytes)
    ensures ClipAll(lines + [line]) == ClipAll(lines) + [Clip(line)]
  {
  }

  lemma LastSnoc(lines: seq<Bytes>, line: Bytes)
    ensures Push(LastOf(lines), line) == LastOf(lines + [line])
  {
  }

  lemma SliceMore(was: Bytes, chunk: Bytes, i: nat, j: nat)
    requires i <= j <= |chunk|
    ensures was + chunk[..i] + chunk[i..j] == was + chunk[..j]
    ensures j == i + 1 ==> chunk[i..j] == [chunk[i]]
    ensures j == |chunk| ==> chunk[..j] == chunk
  {
  }

  /** The state of the reader after a newline, from the state before it. */
  lemma TailStep(stream: Bytes, tail: seq<Bytes>)
    requires tail == LastOf(ClipAll(Ended(stream)))
    ensures Push(tail, Clip(Open(stream))) == LastOf(ClipAll(Ended(stream + [NEWLINE])))
    ensures Open(stream + [NEWLINE]) == []
  {
  }

  // ----- the reader -----

  class StderrPump {
    var head: Bytes
    var dropping: bool
    var tail: seq<Bytes>
    ghost var stream: Bytes

    /** The state says exactly what was read, whatever the chunks were. */
    ghost predicate Valid()
      reads this
    {
      && head == Clip(Open(stream))
      && (dropping <==> |Open(stream)| > STDERR_LINE_BYTES)
      && tail == LastOf(ClipAll(Ended(stream)))
    }

    constructor ()
      ensures Valid() && stream == []
    {
      head, dropping, tail, stream := [], false, [], [];
    }

    /** Part of a line: kept up to the cap, then dropped. */
    method Take(piece: Bytes)
      requires Valid() && NEWLINE !in piece
      modifies this
      ensures Valid() && stream == old(stream) + piece
      ensures |head| <= STDERR_LINE_BYTES
    {
      OpenMore(stream, piece);
      if !dropping {
        var room := STDERR_LINE_BYTES - |head|;
        head := head + piece[..Least(|piece|, room)];
        dropping := |piece| > room;
      }
      stream := stream + piece;
      assert head == Clip(Open(stream));
    }

    /** A newline: the line goes to the tail. */
    method EndTheLine()
      requires Valid()
      modifies this
      ensures Valid() && stream == old(stream) + [NEWLINE]
    {
      TailStep(stream, tail);
      tail := Push(tail, head);
      head, dropping := [], false;
      stream := stream + [NEWLINE];
    }

    method Feed(chunk: Bytes)
      requires Valid()
      modifies this
      ensures Valid() && stream == old(stream) + chunk
    {
      ghost var was := stream;
      var start := 0;
      while true
        invariant 0 <= start <= |chunk|
        invariant Valid() && stream == was + chunk[..start]
        decreases |chunk| - start
      {
        var nl := UpToNewline(chunk, start);
        SliceMore(was, chunk, start, nl);
        Take(chunk[start..nl]);
        if nl == |chunk| {
          break;
        }
        SliceMore(was, chunk, nl, nl + 1);
        EndTheLine();
        start := nl + 1;
      }
      SliceMore(was, chunk, start, |chunk|);
    }

    /** End of the stream: a last line without a newline counts too. */
    method Finish()
      requires Valid()
      modifies this
      ensures tail == TailOf(stream) && stream == old(stream)
    {
      SplitIsEndedAndOpen(stream);
      var lines := Ended(stream);
      assert (lines + [Open(stream)])[..|lines|] == lines;
      if head != [] {
        PushIsLast(Ended(stream), Open(stream));
        tail := Push(tail, head);
      }
    }
  }

  function Concat(chunks: seq<Bytes>): Bytes {
    if chunks == [] then [] else Concat(chunks[..|chunks| - 1]) + chunks[|chunks| - 1]
  }

  /** The whole reader: for every way of chunking a stream, the tail is that of the stream. */
  method ReadAll(chunks: seq<Bytes>) returns (tail: seq<Bytes>)
    ensures tail == TailOf(Concat(chunks))
  {
    var pump := new StderrPump();
    for i := 0 to |chunks|
      invariant pump.Valid() && pump.stream == Concat(chunks[..i]) && fresh(pump)
    {
      assert chunks[..i + 1][..i] == chunks[..i];
      pump.Feed(chunks[i]);
    }
    assert chunks[..|chunks|] == chunks;
    pump.Finish();
    tail := pump.tail;
  }
}
