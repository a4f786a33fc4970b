/**
 What a call of the locked update comes to (`_locked_update` in src/arail/deep_verdict.py): it reports an
 error exactly when one of its own steps failed, and run through without a failure it lands, from every state
 in which the lock is free.
 */
module LockedProgress {
  import opened Basics
  import opened LockedUpdate

  // ----- what an error means -----

  /** The step is one at which call `id` meets an error. A read that goes wrong is none: the file is moved aside. */
  predicate Errs<D, U>(s: System<D, U>, p: Pid, a: Action<U>, id: nat) {
    && PhaseOf(s, p).Busy? && PhaseOf(s, p).t.id == id
    && ((a.OpenFails? && PhaseOf(s, p).at.Opening?) || (a.Fail? && CanFail(PhaseOf(s, p).at)))
  }

  ghost predicate ErrsAt<D, U>(st: Store<D, U>, initial: Option<Content<D>>, run: seq<(Pid, Action<U>)>, i: int, id: nat) {
    0 <= i < |run| && Errs(Exec(st, Start(initial), run[..i]), run[i].0, run[i].1, id)
  }

  ghost predicate Erred<D, U>(st: Store<D, U>, initial: Option<Content<D>>, run: seq<(Pid, Action<U>)>, id: nat) {
    exists i :: ErrsAt(st, initial, run, i, id)
  }

  lemma ErrsAtPrefix<D, U>(st: Store<D, U>, initial: Option<Content<D>>, run: seq<(Pid, Action<U>)>, i: int, id: nat)
    requires run != []
    ensures ErrsAt(st, initial, run[..|run| - 1], i, id) <==> ErrsAt(st, initial, run, i, id) && i < |run| - 1
  {
    if 0 <= i < |run| - 1 {
      assert run[..|run| - 1][..i] == run[..i];
    }
  }

  lemma ErredStep<D, U>(st: Store<D, U>, initial: Option<Content<D>>, run: seq<(Pid, Action<U>)>, id: nat)
    requires run != []
    ensures var n := |run| - 1;
            Erred(st, initial, run, id) <==>
            Erred(st, initial, run[..n], id) || Errs(Exec(st, Start(initial), run[..n]), run[n].0, run[n].1, id)
  {
    var n := |run| - 1;
    forall i ensures ErrsAt(st, initial, run[..n], i, id) <==> ErrsAt(st, initial, run, i, id) && i < n {
      ErrsAtPrefix(st, initial, run, i, id);
    }
    assert ErrsAt(st, initial, run, n, id) <==> Errs(Exec(st, Start(initial), run[..n]), run[n].0, run[n].1, id);
  }

  /** A call under way has met an error exactly when it is giving up. */
  ghost predicate PhaseErrs<D, U>(s: System<D, U>, erred: iset<nat>, p: Pid) {
    PhaseOf(s, p).Busy? ==> (PhaseOf(s, p).t.id in erred <==> PhaseOf(s, p).at.GivingUp?)
  }

  ghost predicate ErrInv<D, U>(s: System<D, U>, erred: iset<nat>) {
    && (forall id :: id in s.returned ==> (s.returned[id] <==> id !in erred))
    && (forall p: Pid :: PhaseErrs(s, erred, p))
    && (forall id :: id in erred ==> id < s.issued)
  }

  ghost function ErredIn<D, U>(st: Store<D, U>, initial: Option<Content<D>>, run: seq<(Pid, Action<U>)>): iset<nat> {
    iset id: nat | Erred(st, initial, run, id)
  }

  ghost function MoreErred<D, U>(s: System<D, U>, erred: iset<nat>, p: Pid, a: Action<U>): iset<nat> {
    iset id: nat | id in erred || Errs(s, p, a, id)
  }

  /** What a step does to the call of its writer. */
  lemma OwnCall<D, U>(st: Store<D, U>, s: System<D, U>, p: Pid, a: Action<U>)
    ensures var next, ph, now := Next(st, s, p, a), PhaseOf(s, p), PhaseOf(Next(st, s, p, a), p);
            && s.issued <= next.issued
            && (now.Busy? && !ph.Busy? ==> now.t.id == s.issued < next.issued && now.at.Opening?)
            && (now.Busy? && ph.Busy? ==>
                  now.t == ph.t && (now.at.GivingUp? <==> ph.at.GivingUp? || Errs(s, p, a, ph.t.id)))
            && (next.returned != s.returned ==>
                  ph.Busy? && (ph.at.Replaced? || ph.at.GivingUp? || Errs(s, p, a, ph.t.id))
                  && next.returned == s.returned[ph.t.id := ph.at.Replaced?])
  {
  }

  lemma OtherPhases<D, U>(st: Store<D, U>, s: System<D, U>, p: Pid, a: Action<U>, q: Pid)
    requires q != p
    ensures PhaseOf(Next(st, s, p, a), q) == PhaseOf(s, q)
  {
  }

  lemma NextKeepsPhaseErrs<D, U>(st: Store<D, U>, s: System<D, U>, erred: iset<nat>, p: Pid, a: Action<U>, q: Pid)
    requires ErrInv(s, erred) && OwnTickets(s)
    ensures PhaseErrs(Next(st, s, p, a), MoreErred(s, erred, p, a), q)
  {
    assert PhaseErrs(s, erred, q) && PhaseErrs(s, erred, p);
    if q == p {
      OwnCall(st, s, p, a);
    } else {
      OtherPhases(st, s, p, a, q);
    }
  }

  lemma NextKeepsReturned<D, U>(st: Store<D, U>, s: System<D, U>, erred: iset<nat>, p: Pid, a: Action<U>, id: nat)
    requires ErrInv(s, erred) && PhaseInv(s, p) && id in Next(st, s, p, a).returned
    ensures Next(st, s, p, a).returned[id] <==> id !in MoreErred(s, erred, p, a)
  {
    assert PhaseErrs(s, erred, p);
    OwnCall(st, s, p, a);
  }

  lemma NextKeepsErrInv<D, U>(st: Store<D, U>, s: System<D, U>, erred: iset<nat>, p: Pid, a: Action<U>)
    requires ErrInv(s, erred) && CallInv(s)
    ensures ErrInv(Next(st, s, p, a), MoreErred(s, erred, p, a))
  {
    var next, more := Next(st, s, p, a), MoreErred(s, erred, p, a);
    assert PhaseInv(s, p);
    OwnCall(st, s, p, a);
    forall q: Pid ensures PhaseErrs(next, more, q) {
      NextKeepsPhaseErrs(st, s, erred, p, a, q);
    }
    forall id | id in next.returned ensures next.returned[id] <==> id !in more {
      NextKeepsReturned(st, s, erred, p, a, id);
    }
  }

  lemma {:induction false} ErrInvAlways<D, U>(st: Store<D, U>, initial: Option<Content<D>>, run: seq<(Pid, Action<U>)>)
    ensures ErrInv(Exec(st, Start(initial), run), ErredIn(st, initial, run))
  {
    if run != [] {
      var n := |run| - 1;
      var s := Exec(st, Start(initial), run[..n]);
      ErrInvAlways(st, initial, run[..n]);
      EveryRunKeepsInv(st, initial, run[..n]);
      NextKeepsErrInv(st, s, ErredIn(st, initial, run[..n]), run[n].0, run[n].1);
      forall id: nat ensures id in ErredIn(st, initial, run) <==> id in MoreErred(s, ErredIn(st, initial, run[..n]), run[n].0, run[n].1) {
        ErredStep(st, initial, run, id);
      }
      assert ErredIn(st, initial, run) == MoreErred(s, ErredIn(st, initial, run[..n]), run[n].0, run[n].1);
    }
  }

  /**
   Over every run of any number of writers: a call that has returned reports an error exactly when one of its
   own steps failed. In particular it returns None, and was applied, if none did, whatever the others did and
   whatever it found.
   */
  lemma ErrorIffStepFailed<D, U>(st: Store<D, U>, initial: Option<Content<D>>, run: seq<(Pid, Action<U>)>, id: nat)
    requires id in Exec(st, Start(initial), run).returned
    ensures !Exec(st, Start(initial), run).returned[id] <==> Erred(st, initial, run, id)
    ensures Erred(st, initial, run, id) <==> id !in Ids(Exec(st, Start(initial), run).applied)
  {
    ErrInvAlways(st, initial, run);
    EveryRunKeepsInv(st, initial, run);
    assert id in ErredIn(st, initial, run) <==> Erred(st, initial, run, id);
  }

  // ----- a call that meets no error lands -----

  /** The steps of a call from its opening on, when none fails; an unreadable file has to be moved aside first. */
  function Unfailing<D, U>(file: Option<Content<D>>): seq<Action<U>> {
    (if IsUnreadable(file) then [Acquire, Read, MoveAside] else [Acquire, Read]) + [MutateAndStage, Sync, Replace, Return]
  }

  function By<U>(p: Pid, steps: seq<Action<U>>): (run: seq<(Pid, Action<U>)>)
    ensures |run| == |steps|
  {
    if steps == [] then [] else [(p, steps[0])] + By(p, steps[1..])
  }

  /** The steps of one writer, one after the other. */
  function Does<D, U>(st: Store<D, U>, s: System<D, U>, p: Pid, steps: seq<Action<U>>): System<D, U>
    decreases |steps|
  {
    if steps == [] then s else Does(st, Next(st, s, p, steps[0]), p, steps[1..])
  }

  lemma {:induction false} ExecConcat<D, U>(st: Store<D, U>, s: System<D, U>, a: seq<(Pid, Action<U>)>, b: seq<(Pid, Action<U>)>)
    ensures Exec(st, s, a + b) == Exec(st, Exec(st, s, a), b)
    decreases |b|
  {
    if b == [] {
      assert a + b == a;
    } else {
      var n := |b| - 1;
      ExecConcat(st, s, a, b[..n]);
      assert (a + b)[..|a + b| - 1] == a + b[..n];
    }
  }

  lemma {:induction false} DoesIsExec<D, U>(st: Store<D, U>, s: System<D, U>, p: Pid, steps: seq<Action<U>>)
    ensures Does(st, s, p, steps) == Exec(st, s, By(p, steps))
    decreases |steps|
  {
    if steps != [] {
      DoesIsExec(st, Next(st, s, p, steps[0]), p, steps[1..]);
      ExecConcat(st, s, [(p, steps[0])], By(p, steps[1..]));
      assert [(p, steps[0])][..0] == [];
    }
  }

  /** The system with writer `p` in this phase, holding the lock, its ticket the last to get it. */
  function Holding<D, U>(s: System<D, U>, p: Pid, t: Ticket<U>, at: Stage<D>): System<D, U> {
    Goto(s.(lock := Some(p), acquired := s.acquired + [t]), p, Busy(t, at))
  }

  lemma DoesTwo<D, U>(st: Store<D, U>, s: System<D, U>, p: Pid, a: Action<U>, b: Action<U>, rest: seq<Action<U>>)
    ensures Does(st, s, p, [a, b] + rest) == Does(st, Next(st, Next(st, s, p, a), p, b), p, rest)
  {
    assert ([a, b] + rest)[1..] == [b] + rest && ([b] + rest)[1..] == rest;
  }

  lemma GotoTwice<D, U>(s: System<D, U>, p: Pid, before: Phase<D, U>, after: Phase<D, U>)
    ensures Goto(Goto(s, p, before), p, after) == Goto(s, p, after)
  {
    assert s.phases[p := before][p := after] == s.phases[p := after];
  }

  lemma FirstTwo<D, U>(st: Store<D, U>, s: System<D, U>, p: Pid, t: Ticket<U>)
    requires s.lock.None? && PhaseOf(s, p) == Busy(t, Opening)
    ensures Next(st, Next(st, s, p, Acquire), p, Read)
            == Holding(s, p, t, if IsUnreadable(s.file) then Unreadable else Loaded(Base(st, s.file)))
  {
    var held := s.(lock := Some(p), acquired := s.acquired + [t]);
    assert Next(st, s, p, Acquire) == Goto(held, p, Busy(t, Locked));
    GotoTwice(held, p, Busy(t, Locked), if IsUnreadable(s.file) then Busy(t, Unreadable) else Busy(t, Loaded(Base(st, s.file))));
  }

  /** What a landed call leaves. */
  function Landed<D, U>(s: System<D, U>, p: Pid, t: Ticket<U>, doc: D): System<D, U> {
    Goto(s.(lock := None, file := Some(Doc(doc)), temps := s.temps - {p}, acquired := s.acquired + [t],
            applied := s.applied + [t], returned := s.returned[t.id := true]), p, Idle)
  }

  lemma LastFour<D, U>(st: Store<D, U>, s: System<D, U>, p: Pid, t: Ticket<U>, d: D)
    ensures Does(st, Holding(s, p, t, Loaded(d)), p, [MutateAndStage, Sync, Replace, Return]) == Landed(s, p, t, st.apply(d, t.update))
  {
    var made := st.apply(d, t.update);
    var held := s.(lock := Some(p), acquired := s.acquired + [t]);
    var s0 := Holding(s, p, t, Loaded(d));
    GotoTwice(held, p, Busy(t, Loaded(d)), Busy(t, Staged(made)));
    var s1 := Next(st, s0, p, MutateAndStage);
    assert s1 == Goto(held.(temps := s.temps[p := Torn]), p, Busy(t, Staged(made)));
    var s2 := Next(st, s1, p, Sync);
    assert s.temps[p := Torn][p := Doc(made)] == s.temps[p := Doc(made)];
    assert s2 == Goto(held.(temps := s.temps[p := Doc(made)]), p, Busy(t, Synced(made)));
    ReplaceAndReturnWhole(st, s, p, t, made);
    var last: seq<Action<U>> := [Replace, Return];
    assert [MutateAndStage, Sync] + last == [MutateAndStage, Sync, Replace, Return] && last + [] == last;
    DoesTwo(st, s0, p, MutateAndStage, Sync, last);
    DoesTwo(st, s2, p, Replace, Return, []);
  }

  lemma ReplaceAndReturnWhole<D, U>(st: Store<D, U>, s: System<D, U>, p: Pid, t: Ticket<U>, made: D)
    ensures var s2 := Goto(s.(lock := Some(p), acquired := s.acquired + [t], temps := s.temps[p := Doc(made)]), p, Busy(t, Synced(made)));
            Next(st, Next(st, s2, p, Replace), p, Return) == Landed(s, p, t, made)
  {
    var held := s.(lock := Some(p), acquired := s.acquired + [t], temps := s.temps[p := Doc(made)]);
    var s2 := Goto(held, p, Busy(t, Synced(made)));
    assert s.temps[p := Doc(made)] - {p} == s.temps - {p};
    var done := held.(file := Some(Doc(made)), temps := s.temps - {p}, applied := s.applied + [t]);
    GotoTwice(held, p, Busy(t, Synced(made)), Busy(t, Replaced));
    assert Next(st, s2, p, Replace) == Goto(done, p, Busy(t, Replaced));
    GotoTwice(done, p, Busy(t, Replaced), Idle);
  }

  /** Where the file has to be moved aside first, that is recorded. */
  function MovedFirst<D, U>(s: System<D, U>): System<D, U> {
    if IsUnreadable(s.file) then s.(file := None, moved := Some(|s.applied|)) else s
  }

  /**
   From every state in which the lock is free, a call about to open the lock that meets no error lands: it
   returns None, its ticket is the last applied, the lock is free again, nothing of anybody else has changed,
   and the file is the document that was there, or the empty one, with its update.
   */
  lemma UnfailingCallLands<D, U>(st: Store<D, U>, s: System<D, U>, p: Pid, t: Ticket<U>)
    requires s.lock.None? && PhaseOf(s, p) == Busy(t, Opening)
    ensures Exec(st, s, By(p, Unfailing(s.file))) == Landed(MovedFirst(s), p, t, st.apply(Base(st, s.file), t.update))
  {
    var four: seq<Action<U>> := [MutateAndStage, Sync, Replace, Return];
    DoesIsExec(st, s, p, Unfailing(s.file));
    FirstTwo(st, s, p, t);
    if IsUnreadable(s.file) {
      var three: seq<Action<U>> := [Acquire, Read] + ([MoveAside] + four);
      assert Unfailing(s.file) == three && ([MoveAside] + four)[1..] == four;
      DoesTwo(st, s, p, Acquire, Read, [MoveAside] + four);
      MoveAsideOf(st, s, p, t);
    } else {
      DoesTwo(st, s, p, Acquire, Read, four);
    }
    LastFour(st, MovedFirst(s), p, t, Base(st, s.file));
  }

  lemma MoveAsideOf<D, U>(st: Store<D, U>, s: System<D, U>, p: Pid, t: Ticket<U>)
    requires IsUnreadable(s.file)
    ensures Next(st, Holding(s, p, t, Unreadable), p, MoveAside) == Holding(MovedFirst(s), p, t, Loaded(st.empty))
  {
    GotoTwice(MovedFirst(s).(lock := Some(p), acquired := s.acquired + [t]), p, Busy(t, Unreadable), Busy(t, Loaded(st.empty)));
  }

  /** So the very first call lands, on a missing, a whole and an unreadable file alike. */
  lemma FirstCallLands<D, U>(st: Store<D, U>, initial: Option<Content<D>>, p: Pid, u: U)
    ensures var s := Exec(st, Start(initial), [(p, Begin(u))] + By(p, Unfailing(initial)));
            && s.returned == map[0 := true] && s.lock.None? && s.applied == [Ticket(0, u)]
            && s.file == Some(Doc(st.apply(Base(st, initial), u)))
  {
    var s0: System<D, U> := Start(initial);
    assert [(p, Begin(u))][..0] == [];
    var s1 := Next(st, s0, p, Begin(u));
    ExecConcat(st, s0, [(p, Begin(u))], By(p, Unfailing(initial)));
    UnfailingCallLands(st, s1, p, Ticket(0, u));
  }

  /**
   In every reachable state with the lock free: run through, the call adds its ticket to those applied, and the
   file is again the document of everything applied since it was last moved aside.
   */
  lemma CallLandsInEveryRun<D, U>(st: Store<D, U>, initial: Option<Content<D>>, run: seq<(Pid, Action<U>)>, p: Pid, t: Ticket<U>)
    requires var s := Exec(st, Start(initial), run); s.lock.None? && PhaseOf(s, p) == Busy(t, Opening)
    ensures var s := Exec(st, Start(initial), run);
            var after := Exec(st, Start(initial), run + By(p, Unfailing(s.file)));
            && after.returned == s.returned[t.id := true] && after.applied == s.applied + [t] && after.lock.None?
            && after.file == Some(Doc(st.apply(Base(st, s.file), t.update)))
            && after.file == Some(Doc(Fold(st, Origin(st, after, initial), Since(after))))
  {
    var s := Exec(st, Start(initial), run);
    ExecConcat(st, Start(initial), run, By(p, Unfailing(s.file)));
    UnfailingCallLands(st, s, p, t);
    var all := run + By(p, Unfailing(s.file));
    FileIsAlwaysWhole(st, initial, all);
    EveryRunKeepsInv(st, initial, run);
    EveryRunKeepsInv(st, initial, all);
  }
}
