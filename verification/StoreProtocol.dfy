/**
 The locked update as one process makes it (StoreCache) against the protocol of many (LockedUpdate): whichever of its
 system calls fail, the call of the one is a run of the other, with the same outcome and the same file
 (`_locked_update` in src/arail/deep_verdict.py).
 */
module StoreProtocol {
  import opened Basics
  import opened VerdictStore
  import opened SharedVerdict
  import opened LockedProgress
  import L = LockedUpdate
  import C = StoreCache

  type Sys = L.System<Bins, Update>
  type Act = L.Action<Update>

  /** The file as the protocol sees it. */
  function FileOf(file: Option<C.File>): Option<L.Content<Bins>> {
    match file
    case None => None
    case Some(f) => Some(if f.content.Readable? then L.Doc(f.content.bins) else L.Garbage)
  }

  /** Opening a missing file is not come to: its `lstat` has said that it is missing. */
  function ReadStep(file: Option<C.File>, reading: C.Reading): Act {
    match reading
    case Works => L.Read
    case StatFails => L.ReadFails
    case OpenFails => if file.Some? then L.ReadFails else L.Read
  }

  /** The steps from the read on: a file that is missing cannot be moved aside. */
  function AfterRead(file: Option<C.File>, fate: C.Fate): seq<Act> {
    var writing := if fate.writeWorks then [L.MutateAndStage, L.Sync, L.Replace, L.Return] else [L.MutateAndStage, L.Fail, L.Return];
    match ReadStep(file, fate.reading)
    case Read =>
      if file.Some? && file.value.content.Unreadable? then
        if fate.moveWorks then [L.MoveAside] + writing else [L.Fail, L.Return]
      else writing
    case _ => if fate.moveWorks && file.Some? then [L.MoveAside] + writing else [L.Fail, L.Return]
  }

  /** The steps of a call whose system calls go like this. */
  function Script(file: Option<C.File>, fate: C.Fate): seq<Act> {
    if !fate.lockWorks then [L.OpenFails]
    else [L.Acquire, ReadStep(file, fate.reading)] + AfterRead(file, fate)
  }

  ghost predicate Ends(s: Sys, after: Sys, id: nat, file: Option<L.Content<Bins>>, saved: bool) {
    after.file == file && after.lock.None? && after.returned == s.returned[id := saved]
  }

  lemma GivesUp(s: Sys, p: L.Pid, t: L.Ticket<Update>, at: L.Stage<Bins>)
    requires L.CanFail(at)
    ensures Ends(s, Does(VERDICTS, Holding(s, p, t, at), p, [L.Fail, L.Return]), t.id, s.file, false)
  {
    var s0 := Holding(s, p, t, at);
    var s1 := L.Next(VERDICTS, s0, p, L.Fail);
    assert L.PhaseOf(s1, p) == L.Busy(t, L.GivingUp);
    var steps: seq<Act> := [L.Fail, L.Return];
    assert steps + [] == steps;
    DoesTwo(VERDICTS, s0, p, L.Fail, L.Return, []);
  }

  lemma WriteFails(s: Sys, p: L.Pid, t: L.Ticket<Update>, d: Bins)
    ensures Ends(s, Does(VERDICTS, Holding(s, p, t, L.Loaded(d)), p, [L.MutateAndStage, L.Fail, L.Return]), t.id, s.file, false)
  {
    var s0 := Holding(s, p, t, L.Loaded(d));
    var made := VERDICTS.apply(d, t.update);
    var s1 := L.Next(VERDICTS, s0, p, L.MutateAndStage);
    var torn := s.(temps := s.temps[p := L.Torn]);
    GotoTwice(torn.(lock := Some(p), acquired := s.acquired + [t]), p, L.Busy(t, L.Loaded(d)), L.Busy(t, L.Staged(made)));
    assert s1 == Holding(torn, p, t, L.Staged(made));
    GivesUp(torn, p, t, L.Staged(made));
    var steps: seq<Act> := [L.MutateAndStage, L.Fail, L.Return];
    assert steps[1..] == [L.Fail, L.Return];
  }

  lemma Writes(s: Sys, p: L.Pid, t: L.Ticket<Update>, d: Bins, works: bool)
    ensures var steps := if works then [L.MutateAndStage, L.Sync, L.Replace, L.Return] else [L.MutateAndStage, L.Fail, L.Return];
            var after := Does(VERDICTS, Holding(s, p, t, L.Loaded(d)), p, steps);
            Ends(s, after, t.id, if works then Some(L.Doc(ApplyUpdate(d, t.update))) else s.file, works)
  {
    if works {
      LastFour(VERDICTS, s, p, t, d);
    } else {
      WriteFails(s, p, t, d);
    }
  }

  lemma FailedRead(s: Sys, p: L.Pid, t: L.Ticket<Update>)
    requires s.lock.None? && L.PhaseOf(s, p) == L.Busy(t, L.Opening)
    ensures L.Next(VERDICTS, L.Next(VERDICTS, s, p, L.Acquire), p, L.ReadFails) == Holding(s, p, t, L.Unreadable)
  {
    var held := s.(lock := Some(p), acquired := s.acquired + [t]);
    assert L.Next(VERDICTS, s, p, L.Acquire) == L.Goto(held, p, L.Busy(t, L.Locked));
    GotoTwice(held, p, L.Busy(t, L.Locked), L.Busy(t, L.Unreadable));
  }

  function Aside(s: Sys): Sys {
    s.(file := None, moved := Some(|s.applied|))
  }

  lemma MovesAside(s: Sys, p: L.Pid, t: L.Ticket<Update>)
    requires s.file.Some?
    ensures L.Next(VERDICTS, Holding(s, p, t, L.Unreadable), p, L.MoveAside) == Holding(Aside(s), p, t, L.Loaded(map[]))
  {
    GotoTwice(Aside(s).(lock := Some(p), acquired := s.acquired + [t]), p, L.Busy(t, L.Unreadable), L.Busy(t, L.Loaded(map[])));
  }

  /** From a bad read on: moved aside, and written over nothing; or given up. */
  lemma BadReadEnds(s: Sys, p: L.Pid, t: L.Ticket<Update>, moves: bool, works: bool)
    requires moves ==> s.file.Some?
    ensures var writing := if works then [L.MutateAndStage, L.Sync, L.Replace, L.Return] else [L.MutateAndStage, L.Fail, L.Return];
            var steps := if moves then [L.MoveAside] + writing else [L.Fail, L.Return];
            var after := Does(VERDICTS, Holding(s, p, t, L.Unreadable), p, steps);
            Ends(s, after, t.id,
                 if !moves then s.file else if works then Some(L.Doc(ApplyUpdate(map[], t.update))) else None, moves && works)
  {
    if moves {
      MovesAside(s, p, t);
      Writes(Aside(s), p, t, map[], works);
      var writing: seq<Act> := if works then [L.MutateAndStage, L.Sync, L.Replace, L.Return] else [L.MutateAndStage, L.Fail, L.Return];
      assert ([L.MoveAside] + writing)[1..] == writing;
    } else {
      GivesUp(s, p, t, L.Unreadable);
    }
  }

  lemma ReadOf(s: Sys, p: L.Pid, t: L.Ticket<Update>, file: Option<C.File>, reading: C.Reading)
    requires s.lock.None? && L.PhaseOf(s, p) == L.Busy(t, L.Opening) && s.file == FileOf(file)
    ensures L.Next(VERDICTS, L.Next(VERDICTS, s, p, L.Acquire), p, ReadStep(file, reading))
            == Holding(s, p, t, if C.BadRead(file, reading) then L.Unreadable else L.Loaded(C.BinsOf(file)))
  {
    if ReadStep(file, reading).Read? {
      FirstTwo(VERDICTS, s, p, t);
    } else {
      FailedRead(s, p, t);
    }
  }

  /**
   Whatever the file and whichever system calls fail: taken step by step from a state with the lock free, the call
   leaves the file and reports the outcome that the one-process account of it says.
   */
  lemma FateIsRun(s: Sys, p: L.Pid, t: L.Ticket<Update>, file: Option<C.File>, fate: C.Fate)
    requires s.lock.None? && L.PhaseOf(s, p) == L.Busy(t, L.Opening) && s.file == FileOf(file)
    ensures Ends(s, L.Exec(VERDICTS, s, By(p, Script(file, fate))), t.id,
                 if C.Saves(file, fate) then Some(L.Doc(ApplyUpdate(C.Loaded(file, fate.reading), t.update)))
                 else FileOf(C.Left(file, fate)),
                 C.Saves(file, fate))
  {
    DoesIsExec(VERDICTS, s, p, Script(file, fate));
    if !fate.lockWorks {
      var steps: seq<Act> := [L.OpenFails];
      assert steps[1..] == [];
    } else {
      DoesTwo(VERDICTS, s, p, L.Acquire, ReadStep(file, fate.reading), AfterRead(file, fate));
      ReadOf(s, p, t, file, fate.reading);
      if C.BadRead(file, fate.reading) {
        BadReadEnds(s, p, t, fate.moveWorks && file.Some?, fate.writeWorks);
      } else {
        Writes(s, p, t, C.BinsOf(file), fate.writeWorks);
      }
    }
  }
}
