/**
 What the turns of a probe run say (src/arail/deep_probe.py): what came down the pipe, which events end the run
 or put its deadline off, why it stopped, and what a call that answered everything comes to.
 */
module ProbeRuns {
  import opened Basics
  import opened ProbeProtocol
  import Account = ProbeAccount
  import Reader = ProbeReader

  // ----- events -----

  /** Two events end the protocol: that it is done, and that the model could not be loaded. */
  lemma HasEndIff(evs: seq<Event>)
    ensures HasEnd(evs) <==> Done in evs || LoadFailed in evs
  {
  }

  /** Two put the deadline off: that the model has loaded, and that a call has reported. */
  lemma {:induction false} ProgressIff(evs: seq<Event>)
    ensures Progress(evs) <==> exists i :: 0 <= i < |evs| && (evs[i] == Loaded || evs[i].Called?)
  {
    if evs != [] {
      var n := |evs| - 1;
      ProgressIff(evs[..n]);
      if i :| 0 <= i < n && (evs[i] == Loaded || evs[i].Called?) {
        assert evs[..n][i] == evs[i];
      }
      if i :| 0 <= i < n && (evs[..n][i] == Loaded || evs[..n][i].Called?) {
        assert evs[i] == evs[..n][i];
      }
    }
  }

  // ----- the pipe -----

  /**
   What some turns give is what their reads gave, one behind the other: the read of a turn stands behind those of
   the turns before it, and a turn without one adds nothing.
   */
  lemma ReadStandsAt(ticks: seq<Tick>, i: nat)
    requires i < |ticks|
    ensures var at, chunk := |Given(ticks[..i])|, ticks[i].chunk;
            && at <= |Given(ticks)|
            && (chunk.None? ==> |Given(ticks[..i + 1])| == at)
            && (chunk.Some? ==> |Given(ticks[..i + 1])| == at + |chunk.value| <= |Given(ticks)|
                                && Given(ticks)[at..at + |chunk.value|] == chunk.value)
    ensures Given(ticks[..0]) == [] && Given(ticks[..|ticks|]) == Given(ticks)
  {
    GivenStep(ticks, i);
    GivenPrefix(ticks, i);
    GivenPrefix(ticks, i + 1);
    assert ticks[..|ticks|] == ticks;
  }

  // ----- the deadline -----

  /** Turn `i` acted on an event that puts the deadline off. */
  ghost predicate PutsOff(parse: Parser, ticks: seq<Tick>, i: nat)
    requires i < |ticks|
  {
    var before, after := ActedOn(parse, Given(ticks[..i])), ActedOn(parse, Given(ticks[..i + 1]));
    |before| <= |after| && Progress(after[|before|..])
  }

  lemma DeadlineStep(s: Supervisor, ticks: seq<Tick>, i: nat)
    requires i < |ticks|
    ensures s.Deadline(ticks[..i + 1])
            == if PutsOff(s.parse, ticks, i) then ticks[i].later + s.callTimeout else s.Deadline(ticks[..i])
  {
    s.AtTurn(ticks, i);
    ActedOnIsPrefix(s.parse, Given(ticks[..i]), ticks[i].Given());
  }

  /** Of the first `n` turns, which put it off. */
  ghost function PutOffs(parse: Parser, ticks: seq<Tick>, n: nat): (flags: seq<bool>)
    requires n <= |ticks|
    ensures |flags| == n
  {
    if n == 0 then [] else PutOffs(parse, ticks, n - 1) + [PutsOff(parse, ticks, n - 1)]
  }

  /** The last that is set. */
  function LastSet(flags: seq<bool>): (last: Option<nat>)
    ensures last.Some? ==> last.value < |flags| && flags[last.value]
    ensures forall i :: (if last.Some? then last.value + 1 else 0) <= i < |flags| ==> !flags[i]
  {
    if flags == [] then None
    else if flags[|flags| - 1] then Some(|flags| - 1)
    else LastSet(flags[..|flags| - 1])
  }

  lemma LastSetSnoc(flags: seq<bool>, flag: bool)
    ensures LastSet(flags + [flag]) == if flag then Some(|flags|) else LastSet(flags)
  {
    assert (flags + [flag])[..|flags|] == flags;
  }

  /** A deadline is a call's time after a turn, or a load's time after the start. */
  predicate IsDeadline(s: Supervisor, ticks: seq<Tick>, last: Option<nat>, deadline: real) {
    if last.None? then deadline == s.begun + s.loadTimeout
    else last.value < |ticks| && deadline == ticks[last.value].later + s.callTimeout
  }

  lemma DeadlineMore(s: Supervisor, ticks: seq<Tick>, flags: seq<bool>, flag: bool, was: real, deadline: real)
    requires |flags| < |ticks| && IsDeadline(s, ticks, LastSet(flags), was)
    requires deadline == if flag then ticks[|flags|].later + s.callTimeout else was
    ensures IsDeadline(s, ticks, LastSet(flags + [flag]), deadline)
  {
    LastSetSnoc(flags, flag);
  }

  /** It is that of the last turn that put it off, or that of the load before any does. */
  lemma {:induction false} DeadlineIs(s: Supervisor, ticks: seq<Tick>, n: nat)
    requires n <= |ticks|
    ensures IsDeadline(s, ticks, LastSet(PutOffs(s.parse, ticks, n)), s.Deadline(ticks[..n]))
  {
    if n > 0 {
      DeadlineIs(s, ticks, n - 1);
      DeadlineStep(s, ticks, n - 1);
      DeadlineMore(s, ticks, PutOffs(s.parse, ticks, n - 1), PutsOff(s.parse, ticks, n - 1),
                   s.Deadline(ticks[..n - 1]), s.Deadline(ticks[..n]));
    }
  }

  // ----- why a run stopped -----

  ghost predicate EndRead(s: Supervisor, ticks: seq<Tick>, i: nat)
    requires i < |ticks|
  {
    var evs := ActedOn(s.parse, Given(ticks[..i + 1]));
    Done in evs || LoadFailed in evs
  }

  /** Nothing stops turn `i`: no interrupt, time left, no event that ends the run, and a child that lives. */
  ghost predicate NothingStops(s: Supervisor, ticks: seq<Tick>, i: nat)
    requires i < |ticks|
  {
    && !ticks[i].interrupted && ticks[i].now < s.Deadline(ticks[..i]) && !EndRead(s, ticks, i)
    && !ticks[i].exited && ticks[i].chunk != Some([])
  }

  /** Turns that went on did not find the pipe closed. */
  lemma OpenWhileGoing(s: Supervisor, ticks: seq<Tick>, n: nat)
    requires n <= |ticks| && s.GoOn(ticks, n)
    ensures !Eof(ticks[..n])
  {
    if n > 0 {
      s.AtTurn(ticks, n - 1);
    }
  }

  /** A turn behind others that went on goes on if nothing stops it. */
  lemma GoesOnStep(s: Supervisor, ticks: seq<Tick>, i: nat)
    requires i < |ticks| && s.GoOn(ticks, i)
    ensures s.EndingOf(ticks[..i + 1]).GoesOn? <==> NothingStops(s, ticks, i)
  {
    OpenWhileGoing(s, ticks, i);
    s.AtTurn(ticks, i);
    HasEndIff(ActedOn(s.parse, Given(ticks[..i + 1])));
  }

  lemma GoOnUnfolds(s: Supervisor, ticks: seq<Tick>, n: nat)
    requires 0 < n <= |ticks|
    ensures s.GoOn(ticks, n) <==> s.GoOn(ticks, n - 1) && s.EndingOf(ticks[..n]).GoesOn?
  {
  }

  lemma GoOnNext(s: Supervisor, ticks: seq<Tick>, i: nat)
    requires i < |ticks|
    ensures s.GoOn(ticks, i + 1) <==> s.GoOn(ticks, i) && NothingStops(s, ticks, i)
  {
    GoOnUnfolds(s, ticks, i + 1);
    if s.GoOn(ticks, i) {
      GoesOnStep(s, ticks, i);
    }
  }

  /** What goes on step by step has gone on as far as every step let it. */
  lemma {:induction false} EveryStep(go: nat -> bool, step: nat -> bool, n: nat)
    requires go(0) && forall i: nat :: i < n ==> (go(i + 1) <==> go(i) && step(i))
    ensures go(n) <==> forall i: nat :: i < n ==> step(i)
  {
    if n > 0 {
      EveryStep(go, step, n - 1);
      assert go(n - 1 + 1) <==> go(n - 1) && step(n - 1);
    }
  }

  /** A run goes on for as long as nothing stops it. */
  lemma GoesOnIff(s: Supervisor, ticks: seq<Tick>, n: nat)
    requires n <= |ticks|
    ensures s.GoOn(ticks, n) <==> forall i: nat :: i < n ==> NothingStops(s, ticks, i)
  {
    var go := (i: nat) => i <= n && s.GoOn(ticks, i);
    var step := (i: nat) => i < n && NothingStops(s, ticks, i);
    forall i: nat | i < n ensures go(i + 1) <==> go(i) && step(i) {
      GoOnNext(s, ticks, i);
    }
    EveryStep(go, step, n);
    assert forall i: nat :: i < n ==> (step(i) <==> NothingStops(s, ticks, i));
  }

  /**
   Why it stopped at turn `i`: an interrupt, before all else; the deadline, before anything is read; an event that
   ends the run, before the child's death; and the child's death.
   */
  lemma StoppedBecause(s: Supervisor, ticks: seq<Tick>, i: nat, outcome: Outcome)
    requires i < |ticks| && s.StoppedAt(ticks, i, outcome)
    ensures outcome == Interrupted <==> ticks[i].interrupted
    ensures outcome == (if s.end.None? then Interrupted else Over)
    ensures s.end == Some(TimedOut) <==> !ticks[i].interrupted && ticks[i].now >= s.Deadline(ticks[..i])
    ensures s.end == Some(Finished) <==> !ticks[i].interrupted && ticks[i].now < s.Deadline(ticks[..i]) && EndRead(s, ticks, i)
    ensures s.end == Some(Died) <==>
      && !ticks[i].interrupted && ticks[i].now < s.Deadline(ticks[..i]) && !EndRead(s, ticks, i)
      && (ticks[i].exited || ticks[i].chunk == Some([]))
    ensures !NothingStops(s, ticks, i)
  {
    OpenWhileGoing(s, ticks, i);
    s.AtTurn(ticks, i);
    HasEndIff(ActedOn(s.parse, Given(ticks[..i + 1])));
  }

  // ----- the child that answers everything -----

  function AnsweredCalls(n: nat): (calls: seq<Call>)
    ensures |calls| == n
  {
    seq(n, k requires 0 <= k < n => Call(k + 1, true, "answered"))
  }

  lemma HonestAnswer(calls: seq<Call>, i: int)
    requires Account.HonestCalls(calls) && 1 <= i <= TOTAL_CALLS
    ensures Account.Answered(calls, i) <==> i <= |calls| && calls[i - 1].end == "answered"
  {
    Account.HonestRow(calls, Finished, None, i);
    Account.OkIffAnswered(calls, i, true, Finished, None);
    if i <= |calls| {
      assert Account.HonestCall(Called(calls[i - 1]), i);
    }
  }

  /** Of the child as it is written, a pass is five calls reported as answered. */
  lemma PassIsFiveAnswers(calls: seq<Call>, end: EndKind, died: Option<Where>)
    requires Account.HonestCalls(calls)
    ensures Account.Full(Account.Rows(calls, true, end, died), true) <==>
            |calls| == TOTAL_CALLS && forall k :: 0 <= k < |calls| ==> calls[k].end == "answered"
  {
    Account.FullIffAllAnswered(calls, true, end, died);
    forall i | 1 <= i <= TOTAL_CALLS
      ensures Account.Answered(calls, i) <==> i <= |calls| && calls[i - 1].end == "answered"
    {
      HonestAnswer(calls, i);
    }
    if forall i :: 1 <= i <= TOTAL_CALLS ==> Account.Answered(calls, i) {
      assert Account.Answered(calls, TOTAL_CALLS);
      forall k | 0 <= k < |calls| ensures calls[k].end == "answered" {
        assert Account.Answered(calls, k + 1);
      }
    }
  }

  lemma FiveAnswersAreEmitted(calls: seq<Call>, evs: seq<Event>)
    requires calls == AnsweredCalls(TOTAL_CALLS) && evs == [Identity, Loaded] + Account.Reports(calls) + [Done]
    ensures Account.ChildEmits(evs)
  {
    forall k | 2 <= k < |evs| && k < 7 ensures Account.HonestCall(evs[k], k - 1) {
      assert evs[k] == Account.Reports(calls)[k - 2] == Called(calls[k - 2]);
    }
  }

  /** A child that loads, answers the five calls and is done is a full pass, and 5/5. */
  lemma FiveAnswersPass()
    ensures var calls := AnsweredCalls(TOTAL_CALLS);
            && Account.ChildEmits([Identity, Loaded] + Account.Reports(calls) + [Done])
            && CallsOf([Identity, Loaded] + Account.Reports(calls) + [Done]) == calls
            && Account.Full(Account.Rows(calls, true, Finished, None), true)
            && Account.Total(Account.Rows(calls, true, Finished, None), true) == 5
  {
    var calls := AnsweredCalls(TOTAL_CALLS);
    Account.LoadedCalls([Identity, Loaded] + Account.Reports(calls) + [Done], calls);
    PassIsFiveAnswers(calls, Finished, None);
    Account.HonestTotals(calls, Finished);
    FiveAnswersAreEmitted(calls, [Identity, Loaded] + Account.Reports(calls) + [Done]);
  }
}
