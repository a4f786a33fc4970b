/**
 The compact record the deep-verdict store keeps for one binary (src/arail/deep_verdict.py), and
 what it means in terms of the full log of events that produced it.

 The log holds the events of one binary in lock order, from any number of processes. A stamp is a
 wall-clock reading; the clock is a parameter of every event.
 */
module VerdictRecord {
  import opened Basics

  /** How far ahead of "now" a failure's stamp may be and still belong to this moment. */
  const CLOCK_SLACK := 5.0

  /** A clock reading together with the ISO text the store keeps for it. */
  datatype Stamp = Stamp(ts: real, iso: string)

  datatype Source = FromProbe | FromCall | FromLoad
  datatype Failure = Failure(since: Stamp, last: Stamp, source: Source, count: int)
  datatype Outcome = Passed | Failed
  datatype Probe = Probe(startedTs: real, at: string, outcome: Outcome, passed: int, total: int)
  datatype Entry = Entry(lastProbe: Option<Probe>, failure: Option<Failure>, lastPassAt: Option<string>)

  /** One update of a binary's record. `now` is read before the lock is taken, `lockedAt` under it. */
  datatype Event =
    | CallFailed(now: Stamp, source: Source)
    | Probed(probe: Probe, now: Stamp, lockedAt: real)

  const BLANK := Entry(None, None, None)

  function NewFailure(source: Source, now: Stamp): Failure {
    Failure(now, now, source, 1)
  }

  function BumpFailure(f: Failure, now: Stamp): Failure {
    f.(last := now, count := f.count + 1)
  }

  function NewOrBumped(f: Option<Failure>, source: Source, now: Stamp): Failure {
    match f
    case None => NewFailure(source, now)
    case Some(g) => BumpFailure(g, now)
  }

  /** Could a failure last seen at `last` have been recorded while a probe begun at `startedTs` ran? */
  predicate LandedDuringProbe(last: real, startedTs: real, now: real) {
    startedTs <= last <= now + CLOCK_SLACK
  }

  /** What the mutate closures of `_note_failure` and `record_probe` do to one entry. */
  function Apply(e: Entry, ev: Event): Entry {
    match ev
    case CallFailed(now, source) => e.(failure := Some(NewOrBumped(e.failure, source, now)))
    case Probed(lp, now, lockedAt) =>
      if lp.outcome.Failed? then
        e.(lastProbe := Some(lp), failure := Some(NewOrBumped(e.failure, FromProbe, now)))
      else if e.failure.Some? && LandedDuringProbe(e.failure.value.last.ts, lp.startedTs, lockedAt) then
        e.(lastProbe := Some(lp))
      else
        Entry(Some(lp), None, Some(lp.at))
  }

  /** The record after a whole log, starting from none. */
  function Run(log: seq<Event>): Entry {
    if log == [] then BLANK else Apply(Run(log[..|log| - 1]), log[|log| - 1])
  }

  // ----- the vocabulary of the event log -----

  predicate IsPass(ev: Event) {
    ev.Probed? && ev.probe.outcome.Passed?
  }

  /** A failed call, a failed load or a failed probe. */
  predicate IsFailure(ev: Event) {
    !IsPass(ev)
  }

  /** Failure `i` has no later-recorded pass whose probe started after it. */
  ghost predicate Standing(log: seq<Event>, i: int) {
    && 0 <= i < |log|
    && IsFailure(log[i])
    && forall j :: i < j < |log| && IsPass(log[j]) ==> log[j].probe.startedTs <= log[i].now.ts
  }

  /** No later pass finds that failure `i` landed outside its probe. */
  ghost predicate Protected(log: seq<Event>, i: int)
    requires 0 <= i < |log|
  {
    forall j :: i < j < |log| && IsPass(log[j]) ==>
      LandedDuringProbe(log[i].now.ts, log[j].probe.startedTs, log[j].lockedAt)
  }

  ghost predicate IsLastFailure(log: seq<Event>, i: int) {
    && 0 <= i < |log|
    && IsFailure(log[i])
    && forall j :: i < j < |log| ==> IsPass(log[j])
  }

  /** Lock order is stamp order: a failure recorded later carries a stamp at least as late. */
  ghost predicate StampsInLockOrder(log: seq<Event>) {
    forall i, j :: 0 <= i < j < |log| && IsFailure(log[i]) && IsFailure(log[j]) ==>
      log[i].now.ts <= log[j].now.ts
  }

  /** No failure is stamped later than the clock (plus the slack) a later pass reads under the lock. */
  ghost predicate StampsNotInFuture(log: seq<Event>) {
    forall i, j :: 0 <= i < j < |log| && IsFailure(log[i]) && IsPass(log[j]) ==>
      log[i].now.ts <= log[j].lockedAt + CLOCK_SLACK
  }

  ghost predicate WellTimed(log: seq<Event>) {
    StampsInLockOrder(log) && StampsNotInFuture(log)
  }

  function CountFailures(log: seq<Event>): nat {
    if log == [] then 0 else CountFailures(log[..|log| - 1]) + (if IsFailure(log[|log| - 1]) then 1 else 0)
  }

  /** What the record is documented to mean: failing exactly while some logged failure stands. */
  ghost predicate MeansStanding(log: seq<Event>) {
    Run(log).failure.Some? <==> exists i :: Standing(log, i)
  }

  // ----- the record against the log, for every log -----

  /**
   With no assumption about the clock, the record remembers exactly the failure recorded last:
   it is non-null when that failure is protected from every later pass, and then carries its stamp.
   */
  lemma {:induction false} RecordFollowsLastFailure(log: seq<Event>)
    ensures Run(log).failure.Some? <==> exists i :: IsLastFailure(log, i) && Protected(log, i)
    ensures forall i :: Run(log).failure.Some? && IsLastFailure(log, i) ==> Run(log).failure.value.last == log[i].now
  {
    if log != [] {
      var n := |log| - 1;
      RecordFollowsLastFailure(log[..n]);
      if IsFailure(log[n]) {
        assert IsLastFailure(log, n) && Protected(log, n);
      } else {
        forall i
          ensures IsLastFailure(log, i) <==> IsLastFailure(log[..n], i)
          ensures IsLastFailure(log, i) ==>
                    (Protected(log, i) <==> Protected(log[..n], i)
                                            && LandedDuringProbe(log[i].now.ts, log[n].probe.startedTs, log[n].lockedAt))
        {
          LaterPass(log, i);
        }
      }
    }
  }

  /** A pass recorded last leaves the last failure the last, and is one more pass to protect it from. */
  lemma LaterPass(log: seq<Event>, i: int)
    requires log != [] && IsPass(log[|log| - 1])
    ensures var prev, p := log[..|log| - 1], log[|log| - 1];
            && (IsLastFailure(log, i) <==> IsLastFailure(prev, i))
            && (IsLastFailure(log, i) ==>
                  (Protected(log, i) <==> Protected(prev, i) && LandedDuringProbe(log[i].now.ts, p.probe.startedTs, p.lockedAt)))
  {
  }

  /** The record was null just before event `c` and has not been null since. */
  ghost predicate NullUntil(log: seq<Event>, c: int) {
    && 0 <= c < |log|
    && Run(log[..c]).failure.None?
    && forall k :: c < k <= |log| ==> Run(log[..k]).failure.Some?
  }

  lemma NullUntilExtends(log: seq<Event>, c: int)
    requires log != [] && NullUntil(log[..|log| - 1], c) && Run(log).failure.Some?
    ensures NullUntil(log, c)
  {
    var prev := log[..|log| - 1];
    forall k | c < k <= |log| ensures Run(log[..k]).failure.Some? {
      if k < |log| { assert log[..k] == prev[..k]; } else { assert log[..k] == log; }
    }
    assert log[..c] == prev[..c];
  }

  lemma CountFailuresExtends(log: seq<Event>, c: int)
    requires 0 <= c < |log|
    ensures CountFailures(log[c..]) == CountFailures(log[..|log| - 1][c..]) + if IsFailure(log[|log| - 1]) then 1 else 0
  {
    assert log[c..][..|log[c..]| - 1] == log[..|log| - 1][c..];
  }

  /** What a failure is put down to. */
  function SourceOf(ev: Event): Source {
    if ev.CallFailed? then ev.source else FromProbe
  }

  /** `count` is the number of failures logged since the record was last null; `since` and `source` are the first one's. */
  lemma {:induction false} CountSinceNull(log: seq<Event>) returns (c: int)
    requires Run(log).failure.Some?
    ensures NullUntil(log, c) && IsFailure(log[c])
    ensures Run(log).failure.value.since == log[c].now
    ensures Run(log).failure.value.count == CountFailures(log[c..])
    ensures Run(log).failure.value.source == SourceOf(log[c])
  {
    var n := |log| - 1;
    var prev := log[..n];
    if Run(prev).failure.None? {
      c := n;
      assert log[..|log|] == log;
      assert prev[n..] == [];
    } else {
      c := CountSinceNull(prev);
      NullUntilExtends(log, c);
    }
    CountFailuresExtends(log, c);
  }

  /**
   The documented meaning: when stamps follow lock order and none lies in the future, the record is
   non-null exactly when some failure stands, and then `last` is the newest stamp ever logged.
   */
  lemma RecordMeansStanding(log: seq<Event>)
    requires WellTimed(log)
    ensures MeansStanding(log)
    ensures Run(log).failure.Some? ==>
      (exists i :: 0 <= i < |log| && IsFailure(log[i]) && log[i].now == Run(log).failure.value.last)
      && forall i :: 0 <= i < |log| && IsFailure(log[i]) ==> log[i].now.ts <= Run(log).failure.value.last.ts
  {
    RecordFollowsLastFailure(log);
    if Run(log).failure.Some? {
      var i :| IsLastFailure(log, i) && Protected(log, i);
      assert Standing(log, i);
    }
    if s :| Standing(log, s) {
      LastFailureExists(log, s);
      var i :| IsLastFailure(log, i) && s <= i;
      assert Protected(log, i);
    }
  }

  lemma {:induction false} LastFailureExists(log: seq<Event>, s: nat)
    requires s < |log| && IsFailure(log[s])
    ensures exists i :: IsLastFailure(log, i) && s <= i
    decreases |log| - s
  {
    if j :| s < j < |log| && IsFailure(log[j]) {
      LastFailureExists(log, j);
    } else {
      assert IsLastFailure(log, s);
    }
  }

  // ----- the probes on record -----

  /** The probe recorded last, whatever its outcome. */
  ghost predicate IsLastProbe(log: seq<Event>, i: int) {
    && 0 <= i < |log|
    && log[i].Probed?
    && forall j :: i < j < |log| ==> log[j].CallFailed?
  }

  /** For every log the last probe on record is the one recorded last, passed or failed; there is none only where none was recorded. */
  lemma {:induction false} LastProbeIsNewest(log: seq<Event>)
    ensures forall i :: IsLastProbe(log, i) ==> Run(log).lastProbe == Some(log[i].probe)
    ensures Run(log).lastProbe.None? <==> forall i :: 0 <= i < |log| ==> log[i].CallFailed?
  {
    if log != [] {
      var n := |log| - 1;
      LastProbeIsNewest(log[..n]);
      if log[n].CallFailed? {
        forall i ensures IsLastProbe(log, i) <==> IsLastProbe(log[..n], i) {
        }
      }
    }
  }

  /** A pass that leaves no failure on record. */
  ghost predicate Clears(log: seq<Event>, i: int) {
    0 <= i < |log| && IsPass(log[i]) && Run(log[..i + 1]).failure.None?
  }

  ghost predicate IsLastClearing(log: seq<Event>, i: int) {
    Clears(log, i) && forall j :: i < j < |log| ==> !Clears(log, j)
  }

  lemma ClearsPrefix(log: seq<Event>, i: int)
    requires log != []
    ensures Clears(log[..|log| - 1], i) <==> Clears(log, i) && i < |log| - 1
    ensures Clears(log, |log| - 1) <==> IsPass(log[|log| - 1]) && Run(log).failure.None?
  {
    assert log[..|log|] == log;
    if 0 <= i < |log| - 1 {
      assert log[..|log| - 1][..i + 1] == log[..i + 1];
    }
  }

  lemma ClearingStep(log: seq<Event>)
    requires log != []
    ensures var n := |log| - 1;
            && ((exists i :: Clears(log, i)) <==> Clears(log, n) || exists i :: Clears(log[..n], i))
            && forall i :: IsLastClearing(log, i) <==> if Clears(log, n) then i == n else IsLastClearing(log[..n], i)
  {
    var front, n := log[..|log| - 1], |log| - 1;
    forall i {:trigger Clears(log, i)} {:trigger Clears(front, i)}
      ensures Clears(log, i) <==> Clears(front, i) || (i == n && Clears(log, n))
    {
      ClearsPrefix(log, i);
    }
    forall i ensures IsLastClearing(log, i) <==> if Clears(log, n) then i == n else IsLastClearing(front, i) {
    }
  }

  lemma PassStep(log: seq<Event>)
    requires log != []
    ensures var n := |log| - 1;
            Run(log).lastPassAt == if Clears(log, n) then Some(log[n].probe.at) else Run(log[..n]).lastPassAt
  {
    ClearsPrefix(log, |log| - 1);
  }

  lemma {:induction false} LastPassIs(log: seq<Event>, i: int)
    requires IsLastClearing(log, i)
    ensures Run(log).lastPassAt == Some(log[i].probe.at)
    decreases |log|
  {
    PassStep(log);
    ClearingStep(log);
    if i < |log| - 1 {
      LastPassIs(log[..|log| - 1], i);
    }
  }

  lemma {:induction false} SomePassIff(log: seq<Event>)
    ensures Run(log).lastPassAt.Some? <==> exists i :: Clears(log, i)
  {
    if log != [] {
      SomePassIff(log[..|log| - 1]);
      PassStep(log);
      ClearingStep(log);
    }
  }

  /**
   For every log `last_pass_at` names the last pass that left no failure on record, and is missing only where there
   was none.
   */
  lemma LastPassIsLastClearing(log: seq<Event>)
    ensures forall i :: IsLastClearing(log, i) ==> Run(log).lastPassAt == Some(log[i].probe.at)
    ensures Run(log).lastPassAt.Some? <==> exists i :: Clears(log, i)
  {
    forall i | IsLastClearing(log, i) ensures Run(log).lastPassAt == Some(log[i].probe.at) {
      LastPassIs(log, i);
    }
    SomePassIff(log);
  }

  // ----- lock order is needed, and exactly where -----

  /** Every standing failure is at least as old as the record's `last_ts`. */
  ghost predicate NewestOnRecord(log: seq<Event>)
    requires Run(log).failure.Some?
  {
    forall i :: Standing(log, i) ==> log[i].now.ts <= Run(log).failure.value.last.ts
  }

  /** A pass that could be recorded next: no logged failure lies in its future. */
  ghost predicate PossibleNextPass(log: seq<Event>, p: Event) {
    IsPass(p) && forall i :: 0 <= i < |log| && IsFailure(log[i]) ==> log[i].now.ts <= p.lockedAt + CLOCK_SLACK
  }

  /**
   A record that means the right thing now goes on doing so after every possible next pass exactly
   when no standing failure is stamped later than the record's `last_ts`.
   */
  lemma NextPassIsRightIffNewest(log: seq<Event>)
    requires MeansStanding(log) && Run(log).failure.Some? && StampsNotInFuture(log)
    ensures NewestOnRecord(log) <==> (forall p :: PossibleNextPass(log, p) ==> MeansStanding(log + [p]))
  {
    if NewestOnRecord(log) {
      forall p | PossibleNextPass(log, p) ensures MeansStanding(log + [p]) {
        PassKeepsMeaning(log, p);
      }
    } else {
      var i :| Standing(log, i) && Run(log).failure.value.last.ts < log[i].now.ts;
      var far := LatestStamp(log);
      var p := Probed(Probe(log[i].now.ts, "", Passed, 5, 5), Stamp(far, ""), far);
      AfterPass(log, p);
      assert Standing(log + [p], i);
      assert PossibleNextPass(log, p);
    }
  }

  lemma PassKeepsMeaning(log: seq<Event>, p: Event)
    requires Run(log).failure.Some? && StampsNotInFuture(log) && NewestOnRecord(log)
    requires PossibleNextPass(log, p)
    ensures MeansStanding(log + [p])
  {
    AfterPass(log, p);
    RecordFollowsLastFailure(log);
    var l :| IsLastFailure(log, l) && Protected(log, l);
    assert Standing(log, l);
    if p.probe.startedTs <= log[l].now.ts {
      assert Standing(log + [p], l);
    }
  }

  lemma AfterPass(log: seq<Event>, p: Event)
    requires IsPass(p)
    ensures Run(log + [p]) == Apply(Run(log), p)
    ensures forall i :: Standing(log + [p], i) <==> Standing(log, i) && p.probe.startedTs <= log[i].now.ts
  {
  }

  /** A clock reading no failure of the log is ahead of. */
  ghost function LatestStamp(log: seq<Event>): (t: real)
    ensures forall i :: 0 <= i < |log| ==> log[i].now.ts <= t
  {
    if log == [] then 0.0
    else
      var t := LatestStamp(log[..|log| - 1]);
      if t < log[|log| - 1].now.ts then log[|log| - 1].now.ts else t
  }

  /**
   The out-of-order trace: two processes stamp failures at 10 and 5 and take the lock the other way
   round, then a probe started at 7 passes. The failure at 10 stands, yet the record is cleared.
   */
  lemma OutOfOrderStampsLoseAFailure()
    ensures var log := [CallFailed(Stamp(10.0, "t10"), FromCall), CallFailed(Stamp(5.0, "t5"), FromCall),
                        Probed(Probe(7.0, "t20", Passed, 5, 5), Stamp(20.0, "t20"), 20.0)];
      StampsNotInFuture(log) && !StampsInLockOrder(log) && Standing(log, 0) && Run(log).failure.None?
  {
    var a, b := CallFailed(Stamp(10.0, "t10"), FromCall), CallFailed(Stamp(5.0, "t5"), FromCall);
    var p := Probed(Probe(7.0, "t20", Passed, 5, 5), Stamp(20.0, "t20"), 20.0);
    var log := [a, b, p];
    assert log[..2] == [a, b] && [a, b][..1] == [a] && [a][..0] == [];
    assert Run([a]).failure == Some(NewFailure(FromCall, a.now));
    assert Run([a, b]).failure == Some(BumpFailure(NewFailure(FromCall, a.now), b.now));
    assert log[1].now.ts < log[0].now.ts;
  }

  // ----- what every update keeps -----

  /** A failed last probe keeps the record failing; a clean record after a probe names that probe's pass. */
  predicate EntryInvariant(e: Entry) {
    && (e.lastProbe.Some? && e.lastProbe.value.outcome.Failed? ==> e.failure.Some?)
    && (e.lastProbe.Some? && e.failure.None? ==>
          e.lastProbe.value.outcome.Passed? && e.lastPassAt == Some(e.lastProbe.value.at))
    && (e.failure.Some? ==> e.failure.value.count >= 1)
  }

  /** Every entry the writers can build satisfies the invariant, and none is left with nothing on record. */
  lemma {:induction false} RunKeepsInvariant(log: seq<Event>)
    ensures EntryInvariant(Run(log))
    ensures log != [] ==> Run(log).failure.Some? || Run(log).lastProbe.Some?
  {
    if log != [] {
      RunKeepsInvariant(log[..|log| - 1]);
    }
  }
}
