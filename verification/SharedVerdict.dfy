/**
 The record logic and the locked-update protocol together: what the shared file says about a binary
 in every reachable state of any number of writers, any of which may fail or die at any step, from
 whatever an earlier run left on disk.
 */
module SharedVerdict {
  import opened Basics
  import opened VerdictRecord
  import opened VerdictStore
  import L = LockedUpdate

  /** The store document as the protocol sees it. */
  ghost const VERDICTS: L.Store<Bins, Update> := L.Store(map[], (bins: Bins, u: Update) => ApplyUpdate(bins, u))

  type Run = seq<(L.Pid, L.Action<Update>)>

  /** What the run finds on disk: nothing, something unreadable, or what an earlier log of updates wrote. */
  datatype Found = Missing | Corrupt(content: L.Content<Bins>) | Written(earlier: seq<Update>)

  ghost function InitialFile(found: Found): Option<L.Content<Bins>> {
    match found
    case Missing => None
    case Corrupt(content) => Some(if content.Doc? then L.Garbage else content)
    case Written(earlier) => Some(L.Doc(RunStore(map[], earlier)))
  }

  ghost function After(found: Found, run: Run): L.System<Bins, Update> {
    L.Exec(VERDICTS, L.Start(InitialFile(found)), run)
  }

  function Updates(ts: seq<L.Ticket<Update>>): seq<Update> {
    if ts == [] then [] else Updates(ts[..|ts| - 1]) + [ts[|ts| - 1].update]
  }

  /** The updates made before the run. */
  function Earlier(found: Found): seq<Update> {
    if found.Written? then found.earlier else []
  }

  /** The log of the file: all updates since it was last moved aside, those before the run included if it never was. */
  function FileLog(found: Found, s: L.System<Bins, Update>): seq<Update> {
    (if s.moved.Some? then [] else Earlier(found)) + Updates(L.Since(s))
  }

  lemma LastApplied(base: Bins, ts: seq<L.Ticket<Update>>)
    requires ts != []
    ensures L.Fold(VERDICTS, base, ts) == ApplyUpdate(L.Fold(VERDICTS, base, ts[..|ts| - 1]), ts[|ts| - 1].update)
  {
  }

  lemma RunOfMore(log: seq<Update>, u: Update)
    ensures RunStore(map[], log + [u]) == ApplyUpdate(RunStore(map[], log), u)
  {
    assert (log + [u])[..|log|] == log;
  }

  lemma {:induction false} FoldIsRunStore(earlier: seq<Update>, ts: seq<L.Ticket<Update>>)
    ensures L.Fold(VERDICTS, RunStore(map[], earlier), ts) == RunStore(map[], earlier + Updates(ts))
  {
    if ts == [] {
      assert earlier + Updates(ts) == earlier;
    } else {
      FoldIsRunStore(earlier, ts[..|ts| - 1]);
      LastApplied(RunStore(map[], earlier), ts);
      RunOfMore(earlier + Updates(ts[..|ts| - 1]), ts[|ts| - 1].update);
      assert earlier + Updates(ts) == earlier + Updates(ts[..|ts| - 1]) + [ts[|ts| - 1].update];
    }
  }

  /** In every reachable state a file that can be read holds exactly the updates of its log. */
  lemma FileIsItsLog(found: Found, run: Run)
    ensures var s := After(found, run);
            && (L.IsUnreadable(s.file) <==> found.Corrupt? && s.moved.None?)
            && (s.file.Some? && s.file.value.Doc? ==> s.file.value.doc == RunStore(map[], FileLog(found, s)))
            && (s.file.None? ==> FileLog(found, s) == [])
  {
    var s := After(found, run);
    L.FileIsAlwaysWhole(VERDICTS, InitialFile(found), run);
    L.EveryRunKeepsInv(VERDICTS, InitialFile(found), run);
    FoldIsRunStore(if s.moved.Some? then [] else Earlier(found), L.Since(s));
  }

  /** What a reader without the lock finds for a binary. */
  predicate FailingOnDisk(file: Option<L.Content<Bins>>, sha: Sha) {
    file.Some? && file.value.Doc? && EntryOf(file.value.doc, sha).failure.Some?
  }

  /**
   In every reachable state the file says a binary is failing exactly when one of the failures of its log
   stands. Where no step moved a whole document aside, that is the log of all updates ever applied.
   */
  lemma SharedFileMeansStanding(found: Found, run: Run, sha: Sha)
    requires |Binaries(FileLog(found, After(found, run)))| <= MAX_BINARIES
    requires WellTimed(Project(FileLog(found, After(found, run)), sha))
    ensures var s := After(found, run);
            && (FailingOnDisk(s.file, sha) <==>
                !L.IsUnreadable(s.file) && exists i :: Standing(Project(FileLog(found, s), sha), i))
            && ((forall i :: !L.LosesAt(VERDICTS, InitialFile(found), run, i)) ==>
                  FileLog(found, s) == Earlier(found) + Updates(s.applied))
  {
    var s := After(found, run);
    FileIsItsLog(found, run);
    StoreMeansStanding(FileLog(found, s), sha);
    L.NothingLostIff(VERDICTS, InitialFile(found), run);
  }

  ghost predicate Legal(bins: Bins) {
    |bins| <= MAX_BINARIES && forall sha :: sha in bins ==> EntryInvariant(bins[sha])
  }

  lemma WrittenStoresAreLegal(log: seq<Update>)
    ensures Legal(RunStore(map[], log))
  {
    StoreKeepsInvariant(log);
    if log != [] {
      ApplyUpdateAt(RunStore(map[], log[..|log| - 1]), log[|log| - 1], "");
    }
  }

  /** Whatever was evicted or moved aside, the file never holds more than 32 binaries, each in a legal state. */
  lemma SharedFileKeepsInvariant(found: Found, run: Run)
    ensures var s := After(found, run);
      s.file.Some? && s.file.value.Doc? ==> Legal(s.file.value.doc)
  {
    FileIsItsLog(found, run);
    WrittenStoresAreLegal(FileLog(found, After(found, run)));
  }

  /** A lone writer's whole update, but for the read that fails. */
  function LosingRun(u: Update): Run {
    [(1, L.Begin(u)), (1, L.Acquire), (1, L.ReadFails), (1, L.MoveAside)]
    + [(1, L.MutateAndStage), (1, L.Sync)] + [(1, L.Replace), (1, L.Return)]
  }

  lemma OneUpdateOfNothing(u: Update, sha: Sha)
    requires u.sha != sha
    ensures EntryOf(ApplyUpdate(map[], u), sha) == BLANK
  {
    ApplyUpdateAt(map[], u, sha);
  }

  /**
   One failed read is enough to forget a standing failure: another binary's update succeeds, and the file,
   readable and whole, says nothing of `sha` any more.
   */
  lemma FailedReadForgetsAFailure(earlier: seq<Update>, sha: Sha, u: Update)
    requires u.sha != sha && FailingOnDisk(InitialFile(Written(earlier)), sha)
    ensures var s := After(Written(earlier), LosingRun(u));
            s.returned == map[0 := true] && s.file.Some? && s.file.value.Doc? && EntryOf(s.file.value.doc, sha) == BLANK
  {
    L.FailedReadLosesTheStore(VERDICTS, RunStore(map[], earlier), u);
    OneUpdateOfNothing(u, sha);
  }
}
