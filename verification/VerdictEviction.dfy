/**
 Which binary the deep-verdict store forgets (`_evict` in src/arail/deep_verdict.py): where the times recorded
 follow lock order, the one updated longest ago.
 */
module VerdictEviction {
  import opened Basics
  import opened VerdictRecord
  import opened VerdictStore

  /** The times on record for a binary. */
  function Times(e: Entry): set<string> {
    (if e.lastProbe.Some? then {e.lastProbe.value.at} else {})
    + (if e.failure.Some? then {e.failure.value.last.iso} else {})
    + (if e.lastPassAt.Some? then {e.lastPassAt.value} else {})
  }

  ghost predicate NoneAfter(e: Entry, time: string) {
    forall t :: t in Times(e) ==> StrLe(t, time)
  }

  lemma StrMaxIsLeast(a: string, b: string, time: string)
    ensures StrLe(a, StrMax(a, b)) && StrLe(b, StrMax(a, b)) && StrMax(a, b) in {a, b}
    ensures StrLe(a, time) && StrLe(b, time) ==> StrLe(StrMax(a, b), time)
  {
    StrLeTotal(a, b);
    StrLeTotal(a, a);
    StrLeTotal(b, b);
  }

  /** The activity of a binary is the latest time on record for it. */
  lemma ActivityIsLatest(e: Entry)
    ensures NoneAfter(e, ActivityKey(e))
    ensures if Times(e) == {} then ActivityKey(e) == "" else ActivityKey(e) == "" || ActivityKey(e) in Times(e)
  {
    var a := if e.lastProbe.Some? then e.lastProbe.value.at else "";
    var b := if e.failure.Some? then e.failure.value.last.iso else "";
    var c := if e.lastPassAt.Some? then e.lastPassAt.value else "";
    StrMaxIsLeast(a, b, "");
    StrMaxIsLeast(StrMax(a, b), c, "");
    StrLeTransitive(a, StrMax(a, b), ActivityKey(e));
    StrLeTransitive(b, StrMax(a, b), ActivityKey(e));
  }

  lemma EmptyIsLeast(s: string)
    ensures StrLe("", s) && (StrLe(s, "") ==> s == "")
  {
  }

  /** And so no other time bounds them more tightly. */
  lemma ActivityIs(e: Entry, time: string)
    requires time in Times(e) && NoneAfter(e, time)
    ensures ActivityKey(e) == time
  {
    ActivityIsLatest(e);
    EmptyIsLeast(time);
    StrLeTotal(ActivityKey(e), time);
  }

  /** The time an event is recorded under. */
  function TimeOf(ev: Event): string {
    match ev
    case CallFailed(now, _) => now.iso
    case Probed(lp, now, _) => if lp.outcome.Passed? then lp.at else StrMax(lp.at, now.iso)
  }

  lemma ApplyRecordsTime(e: Entry, ev: Event)
    requires NoneAfter(e, TimeOf(ev))
    ensures NoneAfter(Apply(e, ev), TimeOf(ev)) && TimeOf(ev) in Times(Apply(e, ev))
  {
    if ev.Probed? {
      StrMaxIsLeast(ev.probe.at, ev.now.iso, "");
    }
    StrLeTotal(TimeOf(ev), TimeOf(ev));
  }

  /** Just updated, a binary is as active as its update is late. */
  lemma JustUpdated(e: Entry, ev: Event)
    requires NoneAfter(e, TimeOf(ev))
    ensures ActivityKey(Apply(e, ev)) == TimeOf(ev)
  {
    ApplyRecordsTime(e, ev);
    ActivityIs(Apply(e, ev), TimeOf(ev));
  }

  // ----- over whole logs -----

  ghost predicate TimesInOrder(log: seq<Update>) {
    forall i, j :: 0 <= i < j < |log| ==> StrLe(TimeOf(log[i].ev), TimeOf(log[j].ev))
  }

  lemma NoneAfterLater(e: Entry, time: string, later: string)
    requires NoneAfter(e, time) && StrLe(time, later)
    ensures NoneAfter(e, later)
  {
    forall t | t in Times(e) ensures StrLe(t, later) {
      StrLeTransitive(t, time, later);
    }
  }

  /** When the binary was last updated. */
  function LastTime(log: seq<Update>, sha: Sha): string {
    if log == [] then ""
    else if log[|log| - 1].sha == sha then TimeOf(log[|log| - 1].ev) else LastTime(log[..|log| - 1], sha)
  }

  lemma {:induction false} NothingIsLater(log: seq<Update>, sha: Sha, time: string)
    requires TimesInOrder(log) && (log != [] ==> StrLe(TimeOf(log[|log| - 1].ev), time))
    ensures NoneAfter(EntryOf(RunStore(map[], log), sha), time)
  {
    if log != [] {
      var n := |log| - 1;
      var bins, u := RunStore(map[], log[..n]), log[n];
      NothingIsLater(log[..n], sha, TimeOf(u.ev));
      ApplyUpdateAt(bins, u, sha);
      if u.sha == sha {
        ApplyRecordsTime(EntryOf(bins, sha), u.ev);
      }
      NoneAfterLater(EntryOf(RunStore(map[], log), sha), TimeOf(u.ev), time);
    }
  }

  /** Where times follow lock order, a binary the store holds is as active as its last update. */
  lemma {:induction false} ActivityIsLastUpdate(log: seq<Update>, sha: Sha)
    requires TimesInOrder(log) && sha in RunStore(map[], log)
    ensures ActivityKey(RunStore(map[], log)[sha]) == LastTime(log, sha)
  {
    var n := |log| - 1;
    var bins, u := RunStore(map[], log[..n]), log[n];
    ApplyUpdateAt(bins, u, sha);
    if u.sha == sha {
      NothingIsLater(log[..n], sha, TimeOf(u.ev));
      JustUpdated(EntryOf(bins, sha), u.ev);
    } else {
      ActivityIsLastUpdate(log[..n], sha);
    }
  }

  lemma EvictedIsOlder(bins: Bins, u: Update, gone: Sha, kept: Sha)
    requires gone in bins && gone !in ApplyUpdate(bins, u) && kept in ApplyUpdate(bins, u) && kept != u.sha
    ensures gone != u.sha && kept in bins && Older(bins, gone, kept)
  {
    var next := bins[u.sha := Apply(EntryOf(bins, u.sha), u.ev)];
    ApplyUpdateAt(bins, u, kept);
    EvictDropsOnlyOldest(next, u.sha);
    assert Older(next, gone, kept) && next[gone] == bins[gone] && next[kept] == bins[kept];
  }

  /**
   Where times follow lock order, what an update makes the store forget was updated no later than anything it
   keeps: eviction takes the least recently updated, of several the first by key, and never the binary just updated.
   */
  lemma EvictsLeastRecent(log: seq<Update>, u: Update, gone: Sha, kept: Sha)
    requires TimesInOrder(log) && gone in RunStore(map[], log) && gone !in RunStore(map[], log + [u])
    requires kept in RunStore(map[], log + [u]) && kept != u.sha
    ensures gone != u.sha && StrLe(LastTime(log, gone), LastTime(log, kept))
    ensures LastTime(log, gone) == LastTime(log, kept) ==> StrLe(gone, kept)
  {
    assert (log + [u])[..|log|] == log;
    EvictedIsOlder(RunStore(map[], log), u, gone, kept);
    ActivityIsLastUpdate(log, gone);
    ActivityIsLastUpdate(log, kept);
    StrLeTotal(LastTime(log, kept), LastTime(log, kept));
  }
}
