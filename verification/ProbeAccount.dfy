/**
 What a probe run comes to (src/arail/deep_probe.py): the five rows, their totals, and the exit code,
 which rests on the deciding read of the verdict store.
 */
module ProbeAccount {
  import opened Basics
  import opened ProbeProtocol
  import Record = VerdictRecord
  import Store = VerdictStore
  import Cache = StoreCache
  import Unsaved = UnsavedFailures

  // ----- the rows -----

  /** A row: whether its call answered, and how it ended. */
  datatype Row = Row(ok: bool, end: string)

  const NOT_REACHED := "not_reached"

  /** The last call event with a number: later ones replace earlier ones. */
  function LastCall(calls: seq<Call>, i: int): (call: Option<Call>)
    ensures call.Some? ==> call.value in calls && call.value.i == i
    ensures call.None? ==> forall c :: c in calls ==> c.i != i
  {
    if calls == [] then None
    else if calls[|calls| - 1].i == i then Some(calls[|calls| - 1])
    else LastCall(calls[..|calls| - 1], i)
  }

  function RowOfCall(call: Option<Call>): Row {
    if call.None? then Row(false, NOT_REACHED)
    else Row(call.value.ok, if call.value.end != "" then call.value.end else if call.value.ok then "answered" else "error")
  }

  /** The row of call `i` of a run that loaded and ended this way. */
  function RowAt(calls: seq<Call>, i: int, loaded: bool, end: EndKind, died: Option<Where>): Row {
    var row := RowOfCall(LastCall(calls, i));
    if loaded && died == Some(InCall(i)) && !end.Finished?
    then row.(end := if end.TimedOut? then "timeout" else "crashed") else row
  }

  /**
   How a row says its call ended: the call the child died in, by how it died; one it reported, in the child's
   words, or else by whether it answered; one it never reported, as not reached.
   */
  lemma RowSays(calls: seq<Call>, i: int, loaded: bool, end: EndKind, died: Option<Where>)
    ensures var row, call := RowAt(calls, i, loaded, end, died), LastCall(calls, i);
            var diedHere := loaded && died == Some(InCall(i)) && end != Finished;
            && (diedHere && end == TimedOut ==> row.end == "timeout")
            && (diedHere && end == Died ==> row.end == "crashed")
            && (!diedHere && call.None? ==> row.end == "not_reached")
            && (!diedHere && call.Some? && call.value.end != "" ==> row.end == call.value.end)
            && (!diedHere && call.Some? && call.value.end == "" && call.value.ok ==> row.end == "answered")
            && (!diedHere && call.Some? && call.value.end == "" && !call.value.ok ==> row.end == "error")
            && (row.ok ==> call.Some?)
  {
  }

  /** `_rows_from_result`: the rows of the calls that reported, then the row of the call the child died in. */
  method RowsFromResult(calls: seq<Call>, loaded: bool, end: EndKind, died: Option<Where>) returns (rows: seq<Row>)
    ensures |rows| == TOTAL_CALLS
    ensures forall i :: 1 <= i <= TOTAL_CALLS ==> rows[i - 1] == RowAt(calls, i, loaded, end, died)
  {
    var byIndex: map<int, Call> := map[];
    for k := 0 to |calls|
      invariant forall i :: i in byIndex <==> LastCall(calls[..k], i).Some?
      invariant forall i :: i in byIndex ==> LastCall(calls[..k], i) == Some(byIndex[i])
    {
      forall i ensures LastCall(calls[..k + 1], i) == if calls[k].i == i then Some(calls[k]) else LastCall(calls[..k], i) {
        LastCallStep(calls, k, i);
      }
      byIndex := byIndex[calls[k].i := calls[k]];
    }
    assert calls[..|calls|] == calls;
    rows := [];
    for i := 1 to TOTAL_CALLS + 1
      invariant |rows| == i - 1
      invariant forall j :: 1 <= j < i ==> rows[j - 1] == RowOfCall(LastCall(calls, j))
    {
      rows := rows + [RowOfCall(if i in byIndex then Some(byIndex[i]) else None)];
    }
    if loaded && died.Some? && died.value.InCall? && 1 <= died.value.n <= TOTAL_CALLS && !end.Finished? {
      var at := died.value.n - 1;
      rows := rows[at := rows[at].(end := if end.TimedOut? then "timeout" else "crashed")];
    }
  }

  lemma LastCallStep(calls: seq<Call>, k: nat, i: int)
    requires k < |calls|
    ensures LastCall(calls[..k + 1], i) == if calls[k].i == i then Some(calls[k]) else LastCall(calls[..k], i)
  {
    assert calls[..k + 1][..k] == calls[..k];
  }

  function Rows(calls: seq<Call>, loaded: bool, end: EndKind, died: Option<Where>): (rows: seq<Row>)
    ensures |rows| == TOTAL_CALLS
  {
    seq(TOTAL_CALLS, k requires 0 <= k < TOTAL_CALLS => RowAt(calls, k + 1, loaded, end, died))
  }

  // ----- the totals -----

  function CountOk(rows: seq<Row>): (n: nat)
    ensures n <= |rows|
  {
    if rows == [] then 0 else CountOk(rows[..|rows| - 1]) + if rows[|rows| - 1].ok then 1 else 0
  }

  function CountAttempted(rows: seq<Row>): (n: nat)
    ensures n <= |rows|
  {
    if rows == [] then 0
    else CountAttempted(rows[..|rows| - 1]) + if rows[|rows| - 1].end != NOT_REACHED then 1 else 0
  }

  function Total(rows: seq<Row>, loaded: bool): nat {
    if loaded then CountAttempted(rows) else 0
  }

  /** A full pass: loaded, and all five rows answered. */
  predicate Full(rows: seq<Row>, loaded: bool) {
    loaded && CountOk(rows) == TOTAL_CALLS
  }

  /** Every answered row is one the run reached. */
  ghost predicate AnsweredWereReached(rows: seq<Row>) {
    forall k :: 0 <= k < |rows| && rows[k].ok ==> rows[k].end != NOT_REACHED
  }

  lemma {:induction false} AnsweredWithinAttempted(rows: seq<Row>)
    requires AnsweredWereReached(rows)
    ensures CountOk(rows) <= CountAttempted(rows)
  {
    if rows != [] {
      AnsweredWithinAttempted(rows[..|rows| - 1]);
    }
  }

  lemma {:induction false} AllOkIffCount(rows: seq<Row>)
    ensures CountOk(rows) == |rows| <==> forall k :: 0 <= k < |rows| ==> rows[k].ok
  {
    if rows != [] {
      AllOkIffCount(rows[..|rows| - 1]);
      assert forall k :: 0 <= k < |rows| - 1 ==> rows[..|rows| - 1][k] == rows[k];
    }
  }

  /** The last report of call `i` is an answer. */
  predicate Answered(calls: seq<Call>, i: int) {
    LastCall(calls, i).Some? && LastCall(calls, i).value.ok
  }

  /** A full pass is exactly: the model loaded, and the last report of each of the five calls is an answer. */
  lemma FullIffAllAnswered(calls: seq<Call>, loaded: bool, end: EndKind, died: Option<Where>)
    ensures Full(Rows(calls, loaded, end, died), loaded) <==>
            loaded && forall i :: 1 <= i <= TOTAL_CALLS ==> Answered(calls, i)
  {
    var rows := Rows(calls, loaded, end, died);
    AllOkIffCount(rows);
    forall k | 0 <= k < TOTAL_CALLS ensures rows[k].ok <==> Answered(calls, k + 1) {
      OkIffAnswered(calls, k + 1, loaded, end, died);
    }
    if forall k :: 0 <= k < |rows| ==> rows[k].ok {
      forall i | 1 <= i <= TOTAL_CALLS ensures Answered(calls, i) {
        assert rows[i - 1].ok;
      }
    }
  }

  lemma OkIffAnswered(calls: seq<Call>, i: int, loaded: bool, end: EndKind, died: Option<Where>)
    ensures RowAt(calls, i, loaded, end, died).ok <==> Answered(calls, i)
  {
  }

  /** The child answered call `i`, says it did not reach it, and did not die in it. */
  predicate DeniedAnswer(calls: seq<Call>, i: int, loaded: bool, end: EndKind, died: Option<Where>) {
    Answered(calls, i) && LastCall(calls, i).value.end == NOT_REACHED && !(loaded && died == Some(InCall(i)) && !end.Finished?)
  }

  /** Answered rows are reached rows exactly when the child denies no answer of its own. */
  lemma AnsweredWereReachedIff(calls: seq<Call>, loaded: bool, end: EndKind, died: Option<Where>)
    ensures AnsweredWereReached(Rows(calls, loaded, end, died)) <==>
            forall i :: 1 <= i <= TOTAL_CALLS ==> !DeniedAnswer(calls, i, loaded, end, died)
  {
    var rows := Rows(calls, loaded, end, died);
    if i :| 1 <= i <= TOTAL_CALLS && DeniedAnswer(calls, i, loaded, end, died) {
      assert rows[i - 1].ok && rows[i - 1].end == NOT_REACHED;
    } else {
      forall k | 0 <= k < |rows| && rows[k].ok ensures rows[k].end != NOT_REACHED {
        assert !DeniedAnswer(calls, k + 1, loaded, end, died);
      }
    }
  }

  /** Call `i` was reached and is not answered. */
  predicate Missed(calls: seq<Call>, i: int, loaded: bool, end: EndKind, died: Option<Where>) {
    var row := RowAt(calls, i, loaded, end, died);
    row.end != NOT_REACHED && !row.ok
  }

  /** How many of the first `n` calls are denied answers. */
  function CountDenied(calls: seq<Call>, n: nat, loaded: bool, end: EndKind, died: Option<Where>): nat {
    if n == 0 then 0
    else CountDenied(calls, n - 1, loaded, end, died) + if DeniedAnswer(calls, n, loaded, end, died) then 1 else 0
  }

  function CountMissed(calls: seq<Call>, n: nat, loaded: bool, end: EndKind, died: Option<Where>): nat {
    if n == 0 then 0
    else CountMissed(calls, n - 1, loaded, end, died) + if Missed(calls, n, loaded, end, died) then 1 else 0
  }

  lemma CountsAt(rows: seq<Row>, n: nat)
    requires 0 < n <= |rows|
    ensures CountOk(rows[..n]) == CountOk(rows[..n - 1]) + if rows[n - 1].ok then 1 else 0
    ensures CountAttempted(rows[..n]) == CountAttempted(rows[..n - 1]) + if rows[n - 1].end != NOT_REACHED then 1 else 0
  {
    assert rows[..n] == rows[..n - 1] + [rows[n - 1]];
    CountSnoc(rows[..n - 1], rows[n - 1]);
  }

  lemma RowTally(calls: seq<Call>, i: int, loaded: bool, end: EndKind, died: Option<Where>)
    ensures var row := RowAt(calls, i, loaded, end, died);
            (if row.ok then 1 else 0) + (if Missed(calls, i, loaded, end, died) then 1 else 0)
            == (if row.end != NOT_REACHED then 1 else 0) + if DeniedAnswer(calls, i, loaded, end, died) then 1 else 0
  {
  }

  /** Passed exceeds attempted by the denied answers, less the calls reached and missed. */
  lemma {:induction false} PassedAgainstAttempted(calls: seq<Call>, n: nat, loaded: bool, end: EndKind, died: Option<Where>)
    requires n <= TOTAL_CALLS
    ensures var rows := Rows(calls, loaded, end, died)[..n];
            CountOk(rows) + CountMissed(calls, n, loaded, end, died)
            == CountAttempted(rows) + CountDenied(calls, n, loaded, end, died)
  {
    var rows := Rows(calls, loaded, end, died);
    if n > 0 {
      PassedAgainstAttempted(calls, n - 1, loaded, end, died);
      CountsAt(rows, n);
      RowTally(calls, n, loaded, end, died);
    }
  }

  lemma {:induction false} NoneOkIffCountZero(rows: seq<Row>)
    ensures CountOk(rows) == 0 <==> forall k :: 0 <= k < |rows| ==> !rows[k].ok
  {
    if rows != [] {
      NoneOkIffCountZero(rows[..|rows| - 1]);
      assert forall k :: 0 <= k < |rows| - 1 ==> rows[..|rows| - 1][k] == rows[k];
    }
  }

  /**
   `passed` is at most `total` exactly when, loaded, the answers the child denies are no more than the calls
   reached and missed, and, not loaded, no call was answered.
   */
  lemma PassedWithinTotalIff(calls: seq<Call>, loaded: bool, end: EndKind, died: Option<Where>)
    ensures var rows := Rows(calls, loaded, end, died);
            CountOk(rows) <= Total(rows, loaded) <==>
            if loaded then CountDenied(calls, TOTAL_CALLS, loaded, end, died) <= CountMissed(calls, TOTAL_CALLS, loaded, end, died)
            else forall i :: 1 <= i <= TOTAL_CALLS ==> !Answered(calls, i)
  {
    var rows := Rows(calls, loaded, end, died);
    PassedAgainstAttempted(calls, TOTAL_CALLS, loaded, end, died);
    assert rows[..TOTAL_CALLS] == rows;
    NoneOkIffNoneAnswered(calls, loaded, end, died);
  }

  lemma NoneOkIffNoneAnswered(calls: seq<Call>, loaded: bool, end: EndKind, died: Option<Where>)
    ensures CountOk(Rows(calls, loaded, end, died)) == 0 <==> forall i :: 1 <= i <= TOTAL_CALLS ==> !Answered(calls, i)
  {
    var rows := Rows(calls, loaded, end, died);
    NoneOkIffCountZero(rows);
    forall k | 0 <= k < TOTAL_CALLS ensures rows[k].ok <==> Answered(calls, k + 1) {
      OkIffAnswered(calls, k + 1, loaded, end, died);
    }
    if forall k :: 0 <= k < |rows| ==> !rows[k].ok {
      forall i | 1 <= i <= TOTAL_CALLS ensures !Answered(calls, i) {
        assert !rows[i - 1].ok;
      }
    }
  }

  /** A child that says it answered a call it says it did not reach makes more passed than attempted. */
  lemma PassedCanExceedTotal()
    ensures var rows := Rows([Call(1, true, NOT_REACHED)], true, Finished, None);
            CountOk(rows) > Total(rows, true)
  {
    var calls := [Call(1, true, NOT_REACHED)];
    var rows := Rows(calls, true, Finished, None);
    assert calls[..0] == [];
    var none := Row(false, NOT_REACHED);
    assert rows == [Row(true, NOT_REACHED), none, none, none, none];
    OneOk(none);
  }

  /** So does one that answers without ever having loaded. */
  lemma PassedWithoutLoading()
    ensures var rows := Rows([Call(1, true, "answered")], false, Finished, None);
            AnsweredWereReached(rows) && CountOk(rows) > Total(rows, false)
  {
    var calls := [Call(1, true, "answered")];
    assert calls[..0] == [] && calls[|calls| - 1].i == 1;
    assert Answered(calls, 1);
    PassedWithinTotalIff(calls, false, Finished, None);
  }

  lemma OneOk(none: Row)
    requires none == Row(false, NOT_REACHED)
    ensures CountOk([Row(true, NOT_REACHED), none, none, none, none]) == 1
    ensures CountAttempted([Row(true, NOT_REACHED), none, none, none, none]) == 0
  {
    var first := Row(true, NOT_REACHED);
    CountSnoc([first, none, none, none], none);
    CountSnoc([first, none, none], none);
    CountSnoc([first, none], none);
    CountSnoc([first], none);
    CountSnoc([], first);
    assert [first, none, none, none] + [none] == [first, none, none, none, none];
    assert [first, none, none] + [none] == [first, none, none, none];
    assert [first, none] + [none] == [first, none, none];
    assert [first] + [none] == [first, none];
    assert [] + [first] == [first];
  }

  lemma CountSnoc(rows: seq<Row>, row: Row)
    ensures CountOk(rows + [row]) == CountOk(rows) + if row.ok then 1 else 0
    ensures CountAttempted(rows + [row]) == CountAttempted(rows) + if row.end != NOT_REACHED then 1 else 0
  {
  }

  // ----- the child as it is written -----

  /** What the child emits: five calls at most, in order, an answer exactly when it says so. */
  ghost predicate ChildEmits(evs: seq<Event>) {
    || evs == [] || evs == [LoadFailed] || evs == [Identity] || evs == [Identity, LoadFailed]
    || (&& 2 <= |evs| && evs[0] == Identity && evs[1] == Loaded && |evs| <= 8
        && (forall k :: 2 <= k < |evs| && k < 7 ==> HonestCall(evs[k], k - 1))
        && (|evs| == 8 ==> evs[7] == Done))
  }

  predicate HonestCall(ev: Event, i: int) {
    ev.Called? && ev.call.i == i && ev.call.end in {"answered", "empty", "error"} && (ev.call.ok <==> ev.call.end == "answered")
  }

  /** The calls of a child that loaded: numbered from one, without gaps. */
  ghost predicate HonestCalls(calls: seq<Call>) {
    |calls| <= TOTAL_CALLS && forall k :: 0 <= k < |calls| ==> HonestCall(Called(calls[k]), k + 1)
  }

  lemma {:induction false} CallsOfCalls(front: seq<Event>, calls: seq<Call>)
    requires CallsOf(front) == []
    ensures CallsOf(front + Reports(calls)) == calls
    decreases |calls|
  {
    if calls == [] {
      assert front + Reports(calls) == front;
    } else {
      var before, last := calls[..|calls| - 1], calls[|calls| - 1];
      CallsOfCalls(front, before);
      assert Reports(calls) == Reports(before) + [Called(last)];
      assert front + Reports(calls) == front + Reports(before) + [Called(last)];
      CallsStep(front + Reports(before), Called(last));
      assert calls == before + [last];
    }
  }

  function Reports(calls: seq<Call>): (evs: seq<Event>)
    ensures |evs| == |calls|
  {
    seq(|calls|, k requires 0 <= k < |calls| => Called(calls[k]))
  }

  /** Wherever the child's output is cut, what comes before is something the child emits too. */
  lemma ChildEmitsPrefix(evs: seq<Event>, front: seq<Event>)
    requires ChildEmits(evs) && front <= evs
    ensures ChildEmits(front)
  {
    assert forall k :: 0 <= k < |front| ==> front[k] == evs[k];
    if |front| == 1 {
      assert front == [evs[0]];
    }
  }

  /** Whatever part of an honest child's output was acted on, its calls are honest, and it loaded if there are any. */
  lemma ChildCallsAreHonest(evs: seq<Event>, acted: seq<Event>)
    requires ChildEmits(evs) && acted <= evs
    ensures HonestCalls(CallsOf(acted))
    ensures CallsOf(acted) != [] ==> Loaded in acted
  {
    ChildEmitsPrefix(evs, acted);
    EmittedCallsAreHonest(acted);
  }

  lemma EmittedCallsAreHonest(evs: seq<Event>)
    requires ChildEmits(evs)
    ensures HonestCalls(CallsOf(evs))
    ensures CallsOf(evs) != [] ==> Loaded in evs
  {
    if 2 <= |evs| && evs[1] == Loaded {
      var n := if |evs| == 8 then 5 else |evs| - 2;
      var calls := seq(n, k requires 0 <= k < n => evs[k + 2].call);
      LoadedCalls(evs, calls);
    } else {
      FewEvents(evs);
    }
  }

  lemma LoadedCalls(evs: seq<Event>, calls: seq<Call>)
    requires |evs| == |calls| + 2 || (|evs| == |calls| + 3 && evs[|evs| - 1] == Done)
    requires evs[0] == Identity && evs[1] == Loaded
    requires forall k :: 0 <= k < |calls| ==> evs[k + 2] == Called(calls[k])
    ensures CallsOf(evs) == calls
  {
    var front := [Identity, Loaded];
    FewEvents(front);
    CallsOfCalls(front, calls);
    ReportsThenDone(evs, calls);
    CallsStep(front + Reports(calls), Done);
    assert front + Reports(calls) + [] == front + Reports(calls);
  }

  lemma ReportsThenDone(evs: seq<Event>, calls: seq<Call>)
    requires |evs| == |calls| + 2 || (|evs| == |calls| + 3 && evs[|evs| - 1] == Done)
    requires evs[0] == Identity && evs[1] == Loaded
    requires forall k :: 0 <= k < |calls| ==> evs[k + 2] == Called(calls[k])
    ensures evs == [Identity, Loaded] + Reports(calls) + if |evs| == |calls| + 3 then [Done] else []
  {
    assert evs[..|calls| + 2] == [Identity, Loaded] + Reports(calls);
    assert evs == evs[..|calls| + 2] + evs[|calls| + 2..];
  }

  lemma FewEvents(evs: seq<Event>)
    requires |evs| <= 2 && forall k :: 0 <= k < |evs| ==> !evs[k].Called?
    ensures CallsOf(evs) == []
  {
  }

  /**
   For the child as it is written, wherever it stops: the rows it reported are reached, the row it stopped
   in is reached too, nothing after is, and the totals are in order.
   */
  lemma HonestTotals(calls: seq<Call>, end: EndKind)
    requires HonestCalls(calls)
    ensures var died := if end.Finished? then None else Some(InCall(|calls| + 1));
            var rows := Rows(calls, true, end, died);
            && CountOk(rows) <= Total(rows, true) <= TOTAL_CALLS
            && (forall k :: 0 <= k < TOTAL_CALLS ==>
                  (rows[k].end != NOT_REACHED <==> k < |calls| || (k == |calls| && !end.Finished?)))
            && Total(rows, true) == if |calls| < TOTAL_CALLS && !end.Finished? then |calls| + 1 else |calls|
  {
    var died := if end.Finished? then None else Some(InCall(|calls| + 1));
    var rows := Rows(calls, true, end, died);
    var reached := if |calls| < TOTAL_CALLS && !end.Finished? then |calls| + 1 else |calls|;
    forall k | 0 <= k < TOTAL_CALLS
      ensures rows[k].end != NOT_REACHED <==> k < reached
      ensures rows[k].ok ==> k < reached
    {
      HonestRow(calls, end, died, k + 1);
    }
    CountPrefix(rows, reached);
    AnsweredWithinAttempted(rows);
  }

  lemma HonestRow(calls: seq<Call>, end: EndKind, died: Option<Where>, i: int)
    requires HonestCalls(calls) && 1 <= i <= TOTAL_CALLS
    requires died == if end.Finished? then None else Some(InCall(|calls| + 1))
    ensures var row := RowAt(calls, i, true, end, died);
            && (row.end != NOT_REACHED <==> i <= |calls| || (i == |calls| + 1 && !end.Finished?))
            && (row.ok <==> i <= |calls| && calls[i - 1].ok)
  {
  }

  lemma {:induction false} CountPrefix(rows: seq<Row>, n: nat)
    requires n <= |rows|
    requires forall k :: 0 <= k < |rows| ==> (rows[k].end != NOT_REACHED <==> k < n)
    ensures CountAttempted(rows) == n
  {
    if rows != [] {
      CountPrefix(rows[..|rows| - 1], if n == |rows| then n - 1 else n);
    }
  }

  // ----- the exit code -----

  /** What the deciding read takes for cleared: no failure on record, or nothing it can read. */
  predicate ReadsAsCleared(file: Option<Cache.File>, sha: Store.Sha) {
    Cache.IsReadable(file) ==> Store.EntryOf(Cache.BinsOf(file), sha).failure.None?
  }

  /** The record a probe run writes. */
  function ProbeOf(rows: seq<Row>, loaded: bool, startedTs: real, at: string): Record.Probe {
    Record.Probe(startedTs, at, if Full(rows, loaded) then Record.Passed else Record.Failed, CountOk(rows), Total(rows, loaded))
  }

  /**
   The deciding read of a full pass; `others` is what happens to the file meanwhile. The exit code is
   zero only for a full pass that was written, and then exactly as that read finds the record: a read that
   fails finds none, and is taken for cleared.
   */
  method DecidingRead(p: Cache.Process, sha: Store.Sha, full: bool, written: bool, reading: Cache.Reading,
                      others: seq<Option<Cache.File>>)
    returns (exitZero: bool)
    requires p.Valid() && p.ReadCoherent() && Cache.NewSignatures(others, p.disk.used)
    modifies p`readCache, p.disk
    ensures p.Valid() && (others == [] ==> p.disk.file == old(p.disk.file))
    ensures exitZero ==>
      full && written && (!reading.Works? || ReadsAsCleared(old(p.disk.file), sha) || ReadsAsCleared(p.disk.file, sha))
    ensures full && written && ReadsAsCleared(old(p.disk.file), sha) && ReadsAsCleared(p.disk.file, sha) ==> exitZero
    ensures reading.StatFails? ==> (exitZero <==> full && written)
    ensures reading.OpenFails? && old(p.disk.file).Some? && !old(p.Hit()) ==> (exitZero <==> full && written)
    ensures !reading.StatFails? && old(p.Hit()) ==> (exitZero <==> full && written && ReadsAsCleared(old(p.disk.file), sha))
  {
    exitZero := false;
    if written && full {
      var doc, err := p.ReadStore(true, reading, others);
      exitZero := doc == null || Store.EntryOf(doc.bins, sha).failure.None?;
    }
  }

  /** The deciding read finds nothing: its stat fails, or the stat behind the write did and its open fails. */
  predicate Blind(fate: Cache.Fate, reading: Cache.Reading) {
    reading.StatFails? || (reading.OpenFails? && !fate.statWorks)
  }

  /** The record of a probe says when it ran, how many calls answered of how many reached, and whether that is a pass. */
  predicate Stored(probe: Option<Record.Probe>, rows: seq<Row>, loaded: bool, startedTs: real, at: string) {
    && probe.Some? && probe.value.startedTs == startedTs && probe.value.at == at
    && probe.value.passed == CountOk(rows) && probe.value.total == Total(rows, loaded)
    && (probe.value.outcome.Passed? <==> Full(rows, loaded))
  }

  /**
   The end of a run nobody else writes behind: exit zero exactly when all five answered, the result was
   written, and no failure the write found on record landed while the probe ran, or the deciding read was
   blind. Once it is written, deep is passing for a reader exactly when all five answered, no such failure
   landed, and the reader remembers none of its own since the probe began, and otherwise failing.
   */
  method Conclude(p: Cache.Process, sha: Store.Sha, rows: seq<Row>, loaded: bool, startedTs: real, at: string,
                  now: Record.Stamp, lockedAt: real, fate: Cache.Fate, reading: Cache.Reading, sig: Cache.Sig)
    returns (exitZero: bool, written: bool)
    requires p.Valid() && sig !in p.disk.used
    modifies p, p.disk
    ensures written <==> Cache.Saves(old(p.disk.file), fate)
    ensures exitZero <==>
      && Full(rows, loaded) && written
      && (Blind(fate, reading) || !LandedWhileProbing(Cache.Loaded(old(p.disk.file), fate.reading), sha, startedTs, lockedAt))
    ensures written ==>
      var landed := LandedWhileProbing(Cache.Loaded(old(p.disk.file), fate.reading), sha, startedTs, lockedAt);
      forall mem :: Cache.View(p.disk.file, mem, sha).state == PassingIf(Full(rows, loaded) && !landed && !Remembers(mem, sha, startedTs))
    ensures written ==> Stored(Store.EntryOf(Cache.BinsOf(p.disk.file), sha).lastProbe, rows, loaded, startedTs, at)
  {
    var lp := ProbeOf(rows, loaded, startedTs, at);
    ghost var found := Cache.Loaded(p.disk.file, fate.reading);
    Store.ApplyUpdateAt(found, Store.Update(sha, Record.Probed(lp, now, lockedAt)), sha);
    written := p.RecordProbe(sha, lp, now, lockedAt, fate, sig);
    exitZero := false;
    if written {
      ghost var e := Store.EntryOf(Cache.BinsOf(p.disk.file), sha);
      assert e == Record.Apply(Store.EntryOf(found, sha), Record.Probed(lp, now, lockedAt));
      exitZero := DecidingRead(p, sha, Full(rows, loaded), true, reading, []);
      ViewsOf(p.disk.file, sha, e, lp);
    }
  }

  function PassingIf(passing: bool): Unsaved.State {
    if passing then Unsaved.Passing else Unsaved.Failing
  }

  /** This reader's own memory holds a failure of the binary stamped since then. */
  predicate Remembers(mem: map<Store.Sha, Record.Failure>, sha: Store.Sha, since: real) {
    sha in mem && since <= mem[sha].last.ts
  }

  /** What readers make of an entry whose last probe is `lp`, whatever they remember. */
  lemma ViewsOf(file: Option<Cache.File>, sha: Store.Sha, e: Record.Entry, lp: Record.Probe)
    requires Cache.IsReadable(file) && Store.EntryOf(Cache.BinsOf(file), sha) == e && e.lastProbe == Some(lp)
    ensures e.failure.Some? ==> forall mem :: Cache.View(file, mem, sha).state == Unsaved.Failing
    ensures e.failure.None? && lp.outcome.Passed? ==> forall mem ::
      Cache.View(file, mem, sha).state == PassingIf(!Remembers(mem, sha, lp.startedTs))
  {
  }

  /** The store holds a failure of the binary that could have happened while the probe ran. */
  predicate LandedWhileProbing(bins: Store.Bins, sha: Store.Sha, startedTs: real, lockedAt: real) {
    var e := Store.EntryOf(bins, sha);
    e.failure.Some? && Record.LandedDuringProbe(e.failure.value.last.ts, startedTs, lockedAt)
  }
}
