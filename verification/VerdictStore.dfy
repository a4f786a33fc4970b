/**
 The document of the deep-verdict store: one record per binary, at most 32 of them
 (src/arail/deep_verdict.py). `Document` is the dictionary object the writers mutate in place; the
 functions are what its methods compute.
 */
module VerdictStore {
  import opened Basics
  import opened VerdictRecord

  const MAX_BINARIES := 32

  type Sha = string
  type Bins = map<Sha, Entry>

  datatype Update = Update(sha: Sha, ev: Event)

  function EntryOf(bins: Bins, sha: Sha): Entry {
    if sha in bins then bins[sha] else BLANK
  }

  // ----- eviction -----

  /** The latest time anything was recorded for the binary, as text. */
  function ActivityKey(e: Entry): string {
    StrMax(StrMax(if e.lastProbe.Some? then e.lastProbe.value.at else "",
                  if e.failure.Some? then e.failure.value.last.iso else ""),
           if e.lastPassAt.Some? then e.lastPassAt.value else "")
  }

  /** Eviction order: by activity, and among equals by key, the order the file stores them in. */
  predicate Older(bins: Bins, a: Sha, b: Sha)
    requires a in bins && b in bins
  {
    var ka, kb := ActivityKey(bins[a]), ActivityKey(bins[b]);
    if ka == kb then StrLe(a, b) else StrLe(ka, kb)
  }

  /** The first of some keys in eviction order. */
  ghost predicate IsOldest(bins: Bins, keys: set<Sha>, v: Sha)
    requires keys <= bins.Keys
  {
    v in keys && forall k :: k in keys ==> Older(bins, v, k)
  }

  lemma OlderIsTotalOrder(bins: Bins, a: Sha, b: Sha, c: Sha)
    requires a in bins && b in bins && c in bins
    ensures Older(bins, a, b) || Older(bins, b, a)
    ensures Older(bins, a, b) && Older(bins, b, a) ==> a == b
    ensures Older(bins, a, b) && Older(bins, b, c) ==> Older(bins, a, c)
  {
    var ka, kb, kc := ActivityKey(bins[a]), ActivityKey(bins[b]), ActivityKey(bins[c]);
    StrLeTotal(ka, kb);
    StrLeTotal(a, b);
    StrLeTotal(kb, kc);
    if StrLe(ka, kb) && StrLe(kb, kc) {
      StrLeTransitive(ka, kb, kc);
    }
    if StrLe(a, b) && StrLe(b, c) {
      StrLeTransitive(a, b, c);
    }
  }

  method Oldest(bins: Bins, keys: set<Sha>) returns (v: Sha)
    requires keys != {} && keys <= bins.Keys
    ensures IsOldest(bins, keys, v)
  {
    v :| v in keys;
    var rest := keys - {v};
    OlderIsTotalOrder(bins, v, v, v);
    while rest != {}
      invariant v in keys && rest <= keys
      invariant forall k :: k in keys - rest ==> Older(bins, v, k)
      decreases |rest|
    {
      var k :| k in rest;
      ghost var was := v;
      OlderIsTotalOrder(bins, k, v, v);
      OlderIsTotalOrder(bins, k, k, k);
      if !Older(bins, v, k) {
        v := k;
        forall j | j in keys - rest ensures Older(bins, k, j) {
          OlderIsTotalOrder(bins, k, was, j);
        }
      }
      rest := rest - {k};
    }
  }

  lemma {:induction false} OldestExists(bins: Bins, keys: set<Sha>)
    requires keys != {} && keys <= bins.Keys
    ensures exists v :: IsOldest(bins, keys, v)
    decreases |keys|
  {
    var v :| v in keys;
    OlderIsTotalOrder(bins, v, v, v);
    if keys == {v} {
      assert IsOldest(bins, keys, v);
    } else {
      OldestExists(bins, keys - {v});
      var w :| IsOldest(bins, keys - {v}, w);
      OlderIsTotalOrder(bins, v, w, w);
      var o := if Older(bins, v, w) then v else w;
      forall k | k in keys ensures Older(bins, o, k) {
        if k != v {
          OlderIsTotalOrder(bins, v, w, k);
        }
      }
      assert IsOldest(bins, keys, o);
    }
  }

  /** The key `_evict` deletes next: the oldest one that is not `keep`. */
  ghost function Victim(bins: Bins, keep: Sha): (v: Sha)
    requires bins.Keys - {keep} != {}
    ensures IsOldest(bins, bins.Keys - {keep}, v)
  {
    OldestExists(bins, bins.Keys - {keep});
    var v :| IsOldest(bins, bins.Keys - {keep}, v);
    v
  }

  lemma VictimIsUnique(bins: Bins, keep: Sha, v: Sha)
    requires IsOldest(bins, bins.Keys - {keep}, v)
    ensures bins.Keys - {keep} != {} && v == Victim(bins, keep)
  {
    assert v in bins.Keys - {keep};
    OlderIsTotalOrder(bins, v, Victim(bins, keep), v);
  }

  ghost function Evict(bins: Bins, keep: Sha): Bins
    decreases |bins|
  {
    if |bins| <= MAX_BINARIES || bins.Keys - {keep} == {} then bins
    else
      var v := Victim(bins, keep);
      Shrinks(bins, v);
      Evict(bins - {v}, keep)
  }

  lemma Shrinks(bins: Bins, v: Sha)
    requires v in bins
    ensures |bins - {v}| == |bins| - 1
  {
  }

  /** Eviction keeps `keep`, leaves the survivors alone, keeps exactly 32, and drops only the oldest. */
  lemma {:induction false} EvictDropsOnlyOldest(bins: Bins, keep: Sha)
    ensures var kept := Evict(bins, keep);
            && |kept| == (if |bins| <= MAX_BINARIES then |bins| else MAX_BINARIES)
            && kept.Keys <= bins.Keys
            && (forall k :: k in kept ==> kept[k] == bins[k])
            && (keep in bins ==> keep in kept)
            && (forall d, k :: d in bins && d !in kept && k in kept && k != keep ==> Older(bins, d, k))
    decreases |bins|
  {
    assert |bins| == |bins.Keys|;
    if |bins| > MAX_BINARIES {
      if bins.Keys <= {keep} {
        SubsetSize(bins.Keys, {keep});
      }
      var v := Victim(bins, keep);
      Shrinks(bins, v);
      EvictDropsOnlyOldest(bins - {v}, keep);
      var kept := Evict(bins - {v}, keep);
      forall d, k | d in bins && d !in kept && k in kept && k != keep ensures Older(bins, d, k) {
        if d != v {
          assert Older(bins - {v}, d, k);
        }
      }
    }
  }

  lemma {:induction false} SubsetSize<T>(a: set<T>, b: set<T>)
    requires a <= b
    ensures |a| <= |b|
  {
    if a != {} {
      var x :| x in a;
      SubsetSize(a - {x}, b - {x});
    }
  }

  // ----- one update, and runs of them -----

  /** The whole mutate closure of `_note_failure` or `record_probe`. */
  ghost function ApplyUpdate(bins: Bins, u: Update): Bins {
    Evict(bins[u.sha := Apply(EntryOf(bins, u.sha), u.ev)], u.sha)
  }

  ghost function RunStore(bins: Bins, log: seq<Update>): Bins {
    if log == [] then bins else ApplyUpdate(RunStore(bins, log[..|log| - 1]), log[|log| - 1])
  }

  /** The events of one binary, in order. */
  function Project(log: seq<Update>, sha: Sha): seq<Event> {
    if log == [] then []
    else
      var u := log[|log| - 1];
      Project(log[..|log| - 1], sha) + if u.sha == sha then [u.ev] else []
  }

  function Binaries(log: seq<Update>): set<Sha> {
    set u | u in log :: u.sha
  }

  lemma ApplyUpdateAt(bins: Bins, u: Update, sha: Sha)
    ensures u.sha in ApplyUpdate(bins, u)
    ensures ApplyUpdate(bins, u)[u.sha] == Apply(EntryOf(bins, u.sha), u.ev)
    ensures sha != u.sha && sha in ApplyUpdate(bins, u) ==> sha in bins && ApplyUpdate(bins, u)[sha] == bins[sha]
    ensures |ApplyUpdate(bins, u)| <= MAX_BINARIES
  {
    EvictDropsOnlyOldest(bins[u.sha := Apply(EntryOf(bins, u.sha), u.ev)], u.sha);
  }

  lemma ProjectSuffix(log: seq<Update>, c: int, sha: Sha)
    requires 0 <= c < |log|
    ensures Project(log[c..], sha) ==
            Project(log[..|log| - 1][c..], sha) + if log[|log| - 1].sha == sha then [log[|log| - 1].ev] else []
  {
    assert log[c..][..|log[c..]| - 1] == log[..|log| - 1][c..];
  }

  lemma ProjectStep(log: seq<Update>, sha: Sha)
    requires log != []
    ensures var u, before := log[|log| - 1], Project(log[..|log| - 1], sha);
            Run(Project(log, sha)) == if u.sha == sha then Apply(Run(before), u.ev) else Run(before)
  {
    var u, before := log[|log| - 1], Project(log[..|log| - 1], sha);
    if u.sha == sha {
      assert (before + [u.ev])[..|before|] == before;
    } else {
      assert before + [] == before;
    }
  }

  lemma ProjectSuffixStep(log: seq<Update>, c: int, sha: Sha)
    requires 0 <= c < |log|
    ensures var u, before := log[|log| - 1], Project(log[..|log| - 1][c..], sha);
            Run(Project(log[c..], sha)) == if u.sha == sha then Apply(Run(before), u.ev) else Run(before)
  {
    assert log[c..][..|log[c..]| - 1] == log[..|log| - 1][c..];
    ProjectStep(log[c..], sha);
  }

  /** The last point of the log at which the store did not hold the binary. */
  ghost function AbsentUntil(log: seq<Update>, sha: Sha): (c: nat)
    requires sha in RunStore(map[], log)
    ensures c < |log|
  {
    if sha in RunStore(map[], log[..|log| - 1]) then AbsentUntil(log[..|log| - 1], sha) else |log| - 1
  }

  lemma {:induction false} AbsentAtThatPoint(log: seq<Update>, sha: Sha)
    requires sha in RunStore(map[], log)
    ensures sha !in RunStore(map[], log[..AbsentUntil(log, sha)])
  {
    var prev := log[..|log| - 1];
    if sha in RunStore(map[], prev) {
      AbsentAtThatPoint(prev, sha);
      assert log[..AbsentUntil(prev, sha)] == prev[..AbsentUntil(prev, sha)];
    }
  }

  /**
   Eviction included: whatever the store holds for a binary is the record of exactly the events logged
   for it since it was last absent, and the store never holds more than 32 binaries.
   */
  lemma {:induction false} StoredEntryIsSuffixRun(log: seq<Update>, sha: Sha)
    requires sha in RunStore(map[], log)
    ensures |RunStore(map[], log)| <= MAX_BINARIES
    ensures RunStore(map[], log)[sha] == Run(Project(log[AbsentUntil(log, sha)..], sha))
  {
    AbsentAtThatPoint(log, sha);
    var n := |log| - 1;
    var prev := log[..n];
    var c := AbsentUntil(log, sha);
    ApplyUpdateAt(RunStore(map[], prev), log[n], sha);
    ProjectSuffixStep(log, c, sha);
    if sha in RunStore(map[], prev) {
      StoredEntryIsSuffixRun(prev, sha);
    } else {
      assert prev[c..] == [];
    }
  }

  /** The events that an entry of the store is the record of. */
  ghost function Recorded(log: seq<Update>, sha: Sha): seq<Event>
    requires sha in RunStore(map[], log)
  {
    Project(log[AbsentUntil(log, sha)..], sha)
  }

  /**
   Evictions included: the last probe the store keeps for a binary is the one recorded last for it since it
   was last absent, passed or failed, and `last_pass_at` names the last pass since then that left no failure.
   */
  lemma StoredProbesAreNewest(log: seq<Update>, sha: Sha)
    requires sha in RunStore(map[], log)
    ensures var e, own := RunStore(map[], log)[sha], Recorded(log, sha);
            && (forall i :: IsLastProbe(own, i) ==> e.lastProbe == Some(own[i].probe))
            && (e.lastProbe.None? <==> forall i :: 0 <= i < |own| ==> own[i].CallFailed?)
            && (forall i :: IsLastClearing(own, i) ==> e.lastPassAt == Some(own[i].probe.at))
            && (e.lastPassAt.Some? <==> exists i :: Clears(own, i))
  {
    StoredEntryIsSuffixRun(log, sha);
    LastProbeIsNewest(Recorded(log, sha));
    LastPassIsLastClearing(Recorded(log, sha));
  }

  lemma {:induction false} NothingEvicted(log: seq<Update>)
    requires |Binaries(log)| <= MAX_BINARIES
    ensures RunStore(map[], log).Keys == Binaries(log)
  {
    if log != [] {
      var prev, u := log[..|log| - 1], log[|log| - 1];
      assert Binaries(log) == Binaries(prev) + {u.sha};
      SubsetSize(Binaries(prev), Binaries(log));
      NothingEvicted(prev);
      var bins := RunStore(map[], prev);
      var next := bins[u.sha := Apply(EntryOf(bins, u.sha), u.ev)];
      assert next.Keys == Binaries(log) && |next| == |next.Keys|;
    }
  }

  /** With at most 32 binaries in the log nothing is evicted: every record is that of the binary's own log. */
  lemma {:induction false} StoreRunsEachBinary(log: seq<Update>, sha: Sha)
    requires |Binaries(log)| <= MAX_BINARIES
    ensures EntryOf(RunStore(map[], log), sha) == Run(Project(log, sha))
  {
    if log != [] {
      var prev, u := log[..|log| - 1], log[|log| - 1];
      assert Binaries(log) == Binaries(prev) + {u.sha};
      SubsetSize(Binaries(prev), Binaries(log));
      StoreRunsEachBinary(prev, sha);
      NothingEvicted(log);
      NothingEvicted(prev);
      ApplyUpdateAt(RunStore(map[], prev), u, sha);
      ProjectStep(log, sha);
    }
  }

  /**
   The compact store refines the event log of any number of processes: a binary reads as failing
   exactly when one of its logged failures stands.
   */
  lemma StoreMeansStanding(log: seq<Update>, sha: Sha)
    requires |Binaries(log)| <= MAX_BINARIES && WellTimed(Project(log, sha))
    ensures EntryOf(RunStore(map[], log), sha).failure.Some? <==> exists i :: Standing(Project(log, sha), i)
  {
    StoreRunsEachBinary(log, sha);
    RecordMeansStanding(Project(log, sha));
    assert EntryOf(RunStore(map[], log), sha) == Run(Project(log, sha));
  }

  /** Every record in every store the writers can build satisfies the entry invariant, evictions included. */
  lemma StoreKeepsInvariant(log: seq<Update>)
    ensures forall sha :: sha in RunStore(map[], log) ==>
      EntryInvariant(RunStore(map[], log)[sha])
      && (RunStore(map[], log)[sha].failure.Some? || RunStore(map[], log)[sha].lastProbe.Some?)
  {
    forall sha | sha in RunStore(map[], log)
      ensures EntryInvariant(RunStore(map[], log)[sha])
      ensures RunStore(map[], log)[sha].failure.Some? || RunStore(map[], log)[sha].lastProbe.Some?
    {
      StoredEntryIsSuffixRun(log, sha);
      AbsentAtThatPoint(log, sha);
      var c := AbsentUntil(log, sha);
      RunKeepsInvariant(Project(log[c..], sha));
      if Project(log[c..], sha) == [] {
        SuffixIsNotEmpty(log, c, sha);
      }
    }
  }

  /** A binary absent at `c` and present at the end was updated in between. */
  lemma StaysAbsent(log: seq<Update>, sha: Sha)
    requires log != [] && sha !in RunStore(map[], log[..|log| - 1]) && log[|log| - 1].sha != sha
    ensures sha !in RunStore(map[], log)
  {
    ApplyUpdateAt(RunStore(map[], log[..|log| - 1]), log[|log| - 1], sha);
  }

  lemma {:induction false} SuffixIsNotEmpty(log: seq<Update>, c: int, sha: Sha)
    requires 0 <= c <= |log| && sha !in RunStore(map[], log[..c]) && Project(log[c..], sha) == []
    ensures sha !in RunStore(map[], log)
    decreases |log|
  {
    if c < |log| {
      var n := |log| - 1;
      ProjectSuffix(log, c, sha);
      assert log[..c] == log[..n][..c];
      SuffixIsNotEmpty(log[..n], c, sha);
      StaysAbsent(log, sha);
    } else {
      assert log[..c] == log;
    }
  }

  // ----- the document object -----

  class Document {
    var bins: Bins

    constructor (bins: Bins)
      ensures this.bins == bins
    {
      this.bins := bins;
    }

    /** The record for one binary, created if absent. */
    method EntryFor(sha: Sha) returns (e: Entry)
      modifies this
      ensures bins == old(bins)[sha := EntryOf(old(bins), sha)] && e == bins[sha]
    {
      if sha !in bins {
        bins := bins[sha := BLANK];
      }
      e := bins[sha];
    }

    method EvictOldest(keep: Sha)
      modifies this
      ensures bins == Evict(old(bins), keep)
    {
      while |bins| > MAX_BINARIES
        invariant Evict(bins, keep) == Evict(old(bins), keep)
        decreases |bins|
      {
        var victims := bins.Keys - {keep};
        if victims == {} {
          return;
        }
        var v := Oldest(bins, victims);
        VictimIsUnique(bins, keep, v);
        Shrinks(bins, v);
        bins := bins - {v};
      }
    }

    /** The update of `_note_failure`; `transition` is true when no failure was on record. */
    method NoteFailure(sha: Sha, source: Source, now: Stamp) returns (transition: bool)
      modifies this
      ensures bins == ApplyUpdate(old(bins), Update(sha, CallFailed(now, source)))
      ensures transition <==> EntryOf(old(bins), sha).failure.None?
    {
      var e := EntryFor(sha);
      transition := e.failure.None?;
      if transition {
        bins := bins[sha := e.(failure := Some(NewFailure(source, now)))];
      } else {
        bins := bins[sha := e.(failure := Some(BumpFailure(e.failure.value, now)))];
      }
      assert bins == old(bins)[sha := Apply(EntryOf(old(bins), sha), CallFailed(now, source))];
      EvictOldest(sha);
    }

    /** The update of `record_probe`. */
    method RecordProbe(sha: Sha, lp: Probe, now: Stamp, lockedAt: real)
      modifies this
      ensures bins == ApplyUpdate(old(bins), Update(sha, Probed(lp, now, lockedAt)))
    {
      var e := EntryFor(sha);
      e := e.(lastProbe := Some(lp));
      var f := e.failure;
      if lp.outcome.Passed? {
        if f.None? {
          e := e.(lastPassAt := Some(lp.at));
        } else if !LandedDuringProbe(f.value.last.ts, lp.startedTs, lockedAt) {
          e := e.(failure := None, lastPassAt := Some(lp.at));
        }
      } else if f.None? {
        e := e.(failure := Some(NewFailure(FromProbe, now)));
      } else {
        e := e.(failure := Some(BumpFailure(f.value, now)));
      }
      bins := bins[sha := e];
      assert bins == old(bins)[sha := Apply(EntryOf(old(bins), sha), Probed(lp, now, lockedAt))];
      EvictOldest(sha);
    }
  }
}
