/**
 The locked read-mutate-replace cycle of the deep-verdict store (`_locked_update`, `_write_atomic`,
 `_move_aside` in src/arail/deep_verdict.py) as a protocol over any number of writers. Opening the
 folder and the lock, locking, reading, moving aside, staging, syncing and replacing are steps, each of
 which may fail, and a writer may die between any two; a death releases its lock. A read that fails
 on a whole document counts, as in the code, as an unreadable one.
 Readers take no lock: they see `file` in whatever state it is reached.
 */
module LockedUpdate {
  import opened Basics

  type Pid = int

  /** The document type the protocol is about: what an absent file stands for, and how an update changes it. */
  datatype Store<!D, !U> = Store(empty: D, apply: (D, U) -> D)

  /** What a file can hold: a whole document, the start of one, or something else unreadable. */
  datatype Content<D> = Doc(doc: D) | Torn | Garbage

  /** One call of `_locked_update`. */
  datatype Ticket<U> = Ticket(id: nat, update: U)

  /** How far a call has got. */
  datatype Stage<D> =
    | Opening             // folder and lock file being opened, lock not held
    | Locked              // flock held, nothing read
    | Unreadable          // the read failed or found no document: the file must be moved aside
    | Loaded(doc: D)      // the document to mutate
    | Staged(doc: D)      // temp file created, not complete
    | Synced(doc: D)      // temp file complete and flushed
    | Replaced            // os.replace done, lock still held
    | GivingUp            // an error, lock still held

  datatype Phase<D, U> = Idle | Dead | Busy(t: Ticket<U>, at: Stage<D>)

  /** Between flock and unlock. */
  predicate HoldsLock<D, U>(ph: Phase<D, U>) {
    ph.Busy? && !ph.at.Opening?
  }

  datatype Action<U> =
    | Begin(u: U)
    | OpenFails          // the folder, the lock file or flock is refused
    | Acquire | Read
    | ReadFails          // an error reading, whatever the file holds
    | MoveAside | MutateAndStage | Sync | Replace
    | Fail               // move-aside, mutate, write, sync or replace raises
    | Return | Crash

  datatype System<D, U> = System(
    file: Option<Content<D>>,             // verdict.json; None when it is missing
    lock: Option<Pid>,
    temps: map<Pid, Content<D>>,
    phases: map<Pid, Phase<D, U>>,
    issued: nat,                       // tickets handed out
    acquired: seq<Ticket<U>>,             // tickets in the order they got the lock
    applied: seq<Ticket<U>>,              // tickets in the order their replace landed
    returned: map<nat, bool>,          // ticket id -> True for None, False for an error
    moved: Option<nat>)                // how many were applied when the file was last moved aside; None if it never was

  function PhaseOf<D, U>(s: System<D, U>, p: Pid): Phase<D, U> {
    if p in s.phases then s.phases[p] else Idle
  }

  function Goto<D, U>(s: System<D, U>, p: Pid, ph: Phase<D, U>): System<D, U> {
    s.(phases := s.phases[p := ph])
  }

  function Start<D, U>(file: Option<Content<D>>): System<D, U> {
    System(file, None, map[], map[], 0, [], [], map[], None)
  }

  predicate CanFail<D>(at: Stage<D>) {
    at.Unreadable? || at.Loaded? || at.Staged? || at.Synced?
  }

  /** One step of writer `p`; an action that is not possible there leaves the system as it is. */
  function Next<D, U>(st: Store<D, U>, s: System<D, U>, p: Pid, a: Action<U>): System<D, U> {
    match PhaseOf(s, p)
    case Dead => s
    case Idle =>
      if a.Begin? then Goto(s.(issued := s.issued + 1), p, Busy(Ticket(s.issued, a.u), Opening))
      else if a.Crash? then Goto(s, p, Dead)
      else s
    case Busy(t, at) =>
      match a
      case Begin(_) => s
      case OpenFails => if at.Opening? then Goto(s.(returned := s.returned[t.id := false]), p, Idle) else s
      case Acquire =>
        if at.Opening? && s.lock.None?
        then Goto(s.(lock := Some(p), acquired := s.acquired + [t]), p, Busy(t, Locked)) else s
      case Read =>
        if !at.Locked? then s
        else if s.file.None? then Goto(s, p, Busy(t, Loaded(st.empty)))
        else if s.file.value.Doc? then Goto(s, p, Busy(t, Loaded(s.file.value.doc)))
        else Goto(s, p, Busy(t, Unreadable))
      case ReadFails => if at.Locked? then Goto(s, p, Busy(t, Unreadable)) else s
      case MoveAside =>
        if at.Unreadable? && s.file.Some?
        then Goto(s.(file := None, moved := Some(|s.applied|)), p, Busy(t, Loaded(st.empty))) else s
      case MutateAndStage =>
        if at.Loaded? then Goto(s.(temps := s.temps[p := Torn]), p, Busy(t, Staged(st.apply(at.doc, t.update)))) else s
      case Sync => if at.Staged? then Goto(s.(temps := s.temps[p := Doc(at.doc)]), p, Busy(t, Synced(at.doc))) else s
      case Replace =>
        if at.Synced? && p in s.temps
        then Goto(s.(file := Some(s.temps[p]), temps := s.temps - {p}, applied := s.applied + [t]), p, Busy(t, Replaced))
        else s
      case Fail => if CanFail(at) then Goto(s.(temps := s.temps - {p}), p, Busy(t, GivingUp)) else s
      case Return =>
        if at.Replaced? || at.GivingUp?
        then Goto(s.(lock := None, returned := s.returned[t.id := at.Replaced?]), p, Idle) else s
      case Crash => Goto(s.(lock := if s.lock == Some(p) then None else s.lock), p, Dead)
  }

  function Exec<D, U>(st: Store<D, U>, s: System<D, U>, run: seq<(Pid, Action<U>)>): System<D, U> {
    if run == [] then s
    else Next(st, Exec(st, s, run[..|run| - 1]), run[|run| - 1].0, run[|run| - 1].1)
  }

  // ----- what every step keeps -----

  /** A document after some tickets' updates, in order. */
  function Fold<D, U>(st: Store<D, U>, base: D, ts: seq<Ticket<U>>): D {
    if ts == [] then base else st.apply(Fold(st, base, ts[..|ts| - 1]), ts[|ts| - 1].update)
  }

  lemma FoldAppends<D, U>(st: Store<D, U>, base: D, ts: seq<Ticket<U>>, t: Ticket<U>)
    ensures Fold(st, base, ts + [t]) == st.apply(Fold(st, base, ts), t.update)
  {
  }

  /** The document an initial file stands for: an unreadable one counts as empty once it is moved aside. */
  function Base<D, U>(st: Store<D, U>, initial: Option<Content<D>>): D {
    if initial.Some? && initial.value.Doc? then initial.value.doc else st.empty
  }

  predicate IsUnreadable<D>(file: Option<Content<D>>) {
    file.Some? && !file.value.Doc?
  }

  /** The tickets applied since the file was last moved aside, or ever. */
  function Since<D, U>(s: System<D, U>): seq<Ticket<U>> {
    if s.moved.Some? && s.moved.value <= |s.applied| then s.applied[s.moved.value..] else s.applied
  }

  /** What the tickets since then started from. */
  function Origin<D, U>(st: Store<D, U>, s: System<D, U>, initial: Option<Content<D>>): D {
    if s.moved.Some? then st.empty else Base(st, initial)
  }

  /** The document of the updates applied since the file was last moved aside, in lock order. */
  function Current<D, U>(st: Store<D, U>, s: System<D, U>, initial: Option<Content<D>>): D {
    Fold(st, Origin(st, s, initial), Since(s))
  }

  /** Exactly the writer named by the lock is between flock and unlock. */
  ghost predicate LockInv<D, U>(s: System<D, U>) {
    forall p: Pid :: HoldsLock(PhaseOf(s, p)) <==> s.lock == Some(p)
  }

  ghost predicate FileInv<D, U>(st: Store<D, U>, s: System<D, U>, initial: Option<Content<D>>) {
    && (s.moved.Some? ==> s.moved.value <= |s.applied|)
    && (s.moved.None? && IsUnreadable(initial) ==> s.applied == [])
    && s.file == if Since(s) != [] then Some(Doc(Current(st, s, initial))) else if s.moved.Some? then None else initial
  }

  /** What writer `p` relies on in its phase. */
  ghost predicate WriterInv<D, U>(st: Store<D, U>, s: System<D, U>, initial: Option<Content<D>>, p: Pid) {
    PhaseOf(s, p).Busy? ==>
      var t, at := PhaseOf(s, p).t, PhaseOf(s, p).at;
      && (at.Loaded? ==> at.doc == Current(st, s, initial))
      && (at.Staged? || at.Synced? ==> at.doc == st.apply(Current(st, s, initial), t.update))
      && (at.Loaded? || at.Staged? || at.Synced? ==> !IsUnreadable(s.file))
      && (at.Synced? ==> p in s.temps && s.temps[p] == Doc(at.doc))
  }

  ghost predicate StoreInv<D, U>(st: Store<D, U>, s: System<D, U>, initial: Option<Content<D>>) {
    LockInv(s) && FileInv(st, s, initial) && forall p: Pid :: WriterInv(st, s, initial, p)
  }

  lemma NextKeepsLockInv<D, U>(st: Store<D, U>, s: System<D, U>, p: Pid, a: Action<U>)
    requires LockInv(s)
    ensures LockInv(Next(st, s, p, a))
  {
    assert HoldsLock(PhaseOf(s, p)) <==> s.lock == Some(p);
    forall q: Pid ensures HoldsLock(PhaseOf(Next(st, s, p, a), q)) <==> Next(st, s, p, a).lock == Some(q) {
      assert HoldsLock(PhaseOf(s, q)) <==> s.lock == Some(q);
    }
  }

  /** Only these two steps change the file. */
  lemma FileChanges<D, U>(st: Store<D, U>, s: System<D, U>, p: Pid, a: Action<U>)
    requires !a.Replace? && !a.MoveAside?
    ensures var next := Next(st, s, p, a); next.file == s.file && next.applied == s.applied && next.moved == s.moved
  {
  }

  lemma SinceGrows<D, U>(s: System<D, U>, next: System<D, U>, t: Ticket<U>)
    requires next.applied == s.applied + [t] && next.moved == s.moved && (s.moved.Some? ==> s.moved.value <= |s.applied|)
    ensures Since(next) == Since(s) + [t]
  {
  }

  lemma ReplaceKeepsFileInv<D, U>(st: Store<D, U>, s: System<D, U>, p: Pid, initial: Option<Content<D>>)
    requires FileInv(st, s, initial) && WriterInv(st, s, initial, p)
    ensures FileInv(st, Next(st, s, p, Replace), initial)
  {
    var ph := PhaseOf(s, p);
    if ph.Busy? && ph.at.Synced? {
      FoldAppends(st, Origin(st, s, initial), Since(s), ph.t);
      SinceGrows(s, Next(st, s, p, Replace), ph.t);
    }
  }

  lemma NextKeepsFileInv<D, U>(st: Store<D, U>, s: System<D, U>, p: Pid, a: Action<U>, initial: Option<Content<D>>)
    requires StoreInv(st, s, initial)
    ensures FileInv(st, Next(st, s, p, a), initial)
  {
    assert WriterInv(st, s, initial, p);
    if a.Replace? {
      ReplaceKeepsFileInv(st, s, p, initial);
    } else if !a.MoveAside? {
      FileChanges(st, s, p, a);
    }
  }

  /** A step of `p` leaves the other writers where they are, and without the lock it leaves the file. */
  lemma OthersStay<D, U>(st: Store<D, U>, s: System<D, U>, p: Pid, a: Action<U>, q: Pid)
    requires p != q
    ensures var next := Next(st, s, p, a);
            && PhaseOf(next, q) == PhaseOf(s, q) && (q in next.temps <==> q in s.temps) && (q in s.temps ==> next.temps[q] == s.temps[q])
            && (!HoldsLock(PhaseOf(s, p)) ==> next.file == s.file && next.applied == s.applied && next.moved == s.moved)
  {
  }

  /** What a read finds is what has been applied since the file was last moved aside. */
  lemma FoundIsCurrent<D, U>(st: Store<D, U>, s: System<D, U>, initial: Option<Content<D>>)
    requires FileInv(st, s, initial)
    ensures s.file.None? ==> Current(st, s, initial) == st.empty
    ensures s.file.Some? && s.file.value.Doc? ==> Current(st, s, initial) == s.file.value.doc
  {
    assert Since(s) == [] ==> Current(st, s, initial) == Origin(st, s, initial);
  }

  lemma SameCurrent<D, U>(st: Store<D, U>, s: System<D, U>, next: System<D, U>, initial: Option<Content<D>>)
    requires next.applied == s.applied && next.moved == s.moved
    ensures Current(st, next, initial) == Current(st, s, initial)
  {
  }

  lemma ReadGoesTo<D, U>(st: Store<D, U>, s: System<D, U>, p: Pid)
    requires PhaseOf(s, p).Busy? && PhaseOf(s, p).at.Locked?
    ensures PhaseOf(Next(st, s, p, Read), p) == Busy(PhaseOf(s, p).t,
              if s.file.None? then Loaded(st.empty) else if s.file.value.Doc? then Loaded(s.file.value.doc) else Unreadable)
  {
  }

  lemma LoadedFits<D, U>(st: Store<D, U>, next: System<D, U>, initial: Option<Content<D>>, p: Pid)
    requires PhaseOf(next, p).Busy? && (PhaseOf(next, p).at.Loaded? || PhaseOf(next, p).at.Unreadable?)
    requires PhaseOf(next, p).at.Loaded? ==> PhaseOf(next, p).at.doc == Current(st, next, initial) && !IsUnreadable(next.file)
    ensures WriterInv(st, next, initial, p)
  {
  }

  lemma ReadKeepsWriterInv<D, U>(st: Store<D, U>, s: System<D, U>, p: Pid, initial: Option<Content<D>>)
    requires FileInv(st, s, initial) && WriterInv(st, s, initial, p)
    ensures WriterInv(st, Next(st, s, p, Read), initial, p)
  {
    var ph := PhaseOf(s, p);
    if ph.Busy? && ph.at.Locked? {
      FileChanges(st, s, p, Read);
      FoundIsCurrent(st, s, initial);
      SameCurrent(st, s, Next(st, s, p, Read), initial);
      ReadGoesTo(st, s, p);
      LoadedFits(st, Next(st, s, p, Read), initial, p);
    } else {
      assert Next(st, s, p, Read) == s;
    }
  }

  lemma StageKeepsWriterInv<D, U>(st: Store<D, U>, s: System<D, U>, p: Pid, a: Action<U>, initial: Option<Content<D>>)
    requires WriterInv(st, s, initial, p) && (a.MutateAndStage? || a.Sync?)
    ensures WriterInv(st, Next(st, s, p, a), initial, p)
  {
    FileChanges(st, s, p, a);
  }

  /** The other steps leave the writer where it was, or in no phase that relies on anything. */
  lemma OwnStepKeepsWriterInv<D, U>(st: Store<D, U>, s: System<D, U>, p: Pid, a: Action<U>, initial: Option<Content<D>>)
    requires FileInv(st, s, initial) && WriterInv(st, s, initial, p) && !a.Replace? && !a.MoveAside?
    ensures WriterInv(st, Next(st, s, p, a), initial, p)
  {
    if a.Read? {
      ReadKeepsWriterInv(st, s, p, initial);
    } else if a.MutateAndStage? || a.Sync? {
      StageKeepsWriterInv(st, s, p, a, initial);
    } else {
      FileChanges(st, s, p, a);
    }
  }

  lemma MoveKeepsWriterInv<D, U>(st: Store<D, U>, s: System<D, U>, p: Pid, a: Action<U>, initial: Option<Content<D>>)
    requires WriterInv(st, s, initial, p) && (a.Replace? || a.MoveAside?)
    ensures WriterInv(st, Next(st, s, p, a), initial, p)
  {
  }

  lemma OtherKeepsWriterInv<D, U>(
    st: Store<D, U>, s: System<D, U>, p: Pid, a: Action<U>, initial: Option<Content<D>>, q: Pid)
    requires p != q && WriterInv(st, s, initial, q)
    requires (HoldsLock(PhaseOf(s, p)) <==> s.lock == Some(p)) && (HoldsLock(PhaseOf(s, q)) <==> s.lock == Some(q))
    ensures WriterInv(st, Next(st, s, p, a), initial, q)
  {
    OthersStay(st, s, p, a, q);
    SamePhaseSameInv(st, s, Next(st, s, p, a), initial, q);
  }

  lemma SamePhaseSameInv<D, U>(st: Store<D, U>, s: System<D, U>, next: System<D, U>, initial: Option<Content<D>>, q: Pid)
    requires WriterInv(st, s, initial, q) && PhaseOf(next, q) == PhaseOf(s, q)
    requires (q in next.temps <==> q in s.temps) && (q in s.temps ==> next.temps[q] == s.temps[q])
    requires HoldsLock(PhaseOf(s, q)) ==> next.file == s.file && next.applied == s.applied && next.moved == s.moved
    ensures WriterInv(st, next, initial, q)
  {
  }

  lemma NextKeepsWriterInv<D, U>(st: Store<D, U>, s: System<D, U>, p: Pid, a: Action<U>, initial: Option<Content<D>>, q: Pid)
    requires StoreInv(st, s, initial)
    ensures WriterInv(st, Next(st, s, p, a), initial, q)
  {
    assert WriterInv(st, s, initial, q);
    if p != q {
      assert HoldsLock(PhaseOf(s, p)) <==> s.lock == Some(p);
      assert HoldsLock(PhaseOf(s, q)) <==> s.lock == Some(q);
      OtherKeepsWriterInv(st, s, p, a, initial, q);
    } else if a.Replace? || a.MoveAside? {
      MoveKeepsWriterInv(st, s, p, a, initial);
    } else {
      OwnStepKeepsWriterInv(st, s, p, a, initial);
    }
  }

  // ----- tickets: applied at most once, in lock order, and as returned -----

  function Ids<U>(ts: seq<Ticket<U>>): set<nat> {
    if ts == [] then {} else Ids(ts[..|ts| - 1]) + {ts[|ts| - 1].id}
  }

  /** No ticket id occurs twice. */
  predicate DistinctIds<U>(ts: seq<Ticket<U>>) {
    ts == [] || (DistinctIds(ts[..|ts| - 1]) && ts[|ts| - 1].id !in Ids(ts[..|ts| - 1]))
  }

  /** The tickets of a sequence whose id is in `keep`, in their order. */
  function Filter<U>(ts: seq<Ticket<U>>, keep: set<nat>): seq<Ticket<U>> {
    if ts == [] then []
    else
      var last := ts[|ts| - 1];
      Filter(ts[..|ts| - 1], keep) + if last.id in keep then [last] else []
  }

  ghost predicate Tickets<U>(acquired: seq<Ticket<U>>, applied: seq<Ticket<U>>, issued: nat, returned: map<nat, bool>) {
    && DistinctIds(acquired)
    && (forall id :: id in Ids(acquired) || id in returned ==> id < issued)
    && Ids(applied) <= Ids(acquired)
    && applied == Filter(acquired, Ids(applied))
    && (forall id :: id in returned ==> (returned[id] <==> id in Ids(applied)))
  }

  ghost predicate TicketInv<D, U>(s: System<D, U>) {
    Tickets(s.acquired, s.applied, s.issued, s.returned)
  }

  ghost predicate PhaseInv<D, U>(s: System<D, U>, p: Pid) {
    PhaseOf(s, p).Busy? ==>
      var t, at := PhaseOf(s, p).t, PhaseOf(s, p).at;
      && t.id < s.issued && t.id !in s.returned
      && (at.Opening? ==> t.id !in Ids(s.acquired))
      && (!at.Opening? ==> s.acquired != [] && s.acquired[|s.acquired| - 1] == t)
      && (!at.Opening? ==> (t.id in Ids(s.applied) <==> at.Replaced?))
  }

  /** No two writers work on the same ticket. */
  ghost predicate OwnTickets<D, U>(s: System<D, U>) {
    forall p: Pid, q: Pid :: p != q && PhaseOf(s, p).Busy? && PhaseOf(s, q).Busy? ==>
      PhaseOf(s, p).t.id != PhaseOf(s, q).t.id
  }

  ghost predicate CallInv<D, U>(s: System<D, U>) {
    LockInv(s) && TicketInv(s) && OwnTickets(s) && forall p: Pid :: PhaseInv(s, p)
  }

  lemma TicketAppended<U>(ts: seq<Ticket<U>>, t: Ticket<U>, keep: set<nat>)
    ensures Ids(ts + [t]) == Ids(ts) + {t.id}
    ensures DistinctIds(ts + [t]) <==> DistinctIds(ts) && t.id !in Ids(ts)
    ensures Filter(ts + [t], keep) == Filter(ts, keep) + if t.id in keep then [t] else []
  {
  }

  lemma {:induction false} FilterIgnores<U>(ts: seq<Ticket<U>>, id: nat, keep: set<nat>)
    requires id !in Ids(ts)
    ensures Filter(ts, keep + {id}) == Filter(ts, keep)
  {
    if ts != [] {
      FilterIgnores(ts[..|ts| - 1], id, keep);
    }
  }

  lemma TicketAcquired<U>(
    acquired: seq<Ticket<U>>, applied: seq<Ticket<U>>, issued: nat, returned: map<nat, bool>, t: Ticket<U>)
    requires Tickets(acquired, applied, issued, returned) && t.id < issued && t.id !in Ids(acquired)
    ensures Tickets(acquired + [t], applied, issued, returned)
  {
  }

  lemma TicketApplied<U>(
    before: seq<Ticket<U>>, applied: seq<Ticket<U>>, issued: nat, returned: map<nat, bool>, t: Ticket<U>)
    requires Tickets(before + [t], applied, issued, returned) && t.id !in Ids(applied) && t.id !in returned
    ensures Tickets(before + [t], applied + [t], issued, returned)
  {
    var ids := Ids(applied);
    TicketAppended(before, t, ids);
    TicketAppended(before, t, ids + {t.id});
    TicketAppended(applied, t, ids);
    FilterIgnores(before, t.id, ids);
    assert Filter(before, ids) + [] == Filter(before, ids);
  }

  lemma AcquireKeepsTicketInv<D, U>(st: Store<D, U>, s: System<D, U>, p: Pid)
    requires CallInv(s)
    ensures TicketInv(Next(st, s, p, Acquire))
  {
    var ph := PhaseOf(s, p);
    assert PhaseInv(s, p);
    if ph.Busy? && ph.at.Opening? && s.lock.None? {
      TicketAcquired(s.acquired, s.applied, s.issued, s.returned, ph.t);
    }
  }

  lemma ReplaceKeepsTicketInv<D, U>(st: Store<D, U>, s: System<D, U>, p: Pid)
    requires CallInv(s)
    ensures TicketInv(Next(st, s, p, Replace))
  {
    var ph := PhaseOf(s, p);
    assert PhaseInv(s, p);
    ReplaceStep(st, s, p);
    if ph.Busy? && ph.at.Synced? {
      LastApplied(s.acquired, s.applied, s.issued, s.returned, ph.t);
    }
  }

  lemma ReplaceStep<D, U>(st: Store<D, U>, s: System<D, U>, p: Pid)
    ensures var next, ph := Next(st, s, p, Replace), PhaseOf(s, p);
            && next.acquired == s.acquired && next.issued == s.issued && next.returned == s.returned
            && (next.applied == s.applied || (ph.Busy? && ph.at.Synced? && next.applied == s.applied + [ph.t]))
  {
  }

  lemma LastApplied<U>(
    acquired: seq<Ticket<U>>, applied: seq<Ticket<U>>, issued: nat, returned: map<nat, bool>, t: Ticket<U>)
    requires Tickets(acquired, applied, issued, returned) && t.id !in Ids(applied) && t.id !in returned
    requires acquired != [] && acquired[|acquired| - 1] == t
    ensures Tickets(acquired, applied + [t], issued, returned)
  {
    var before := acquired[..|acquired| - 1];
    assert acquired == before + [t];
    TicketApplied(before, applied, issued, returned, t);
  }

  /** Steps other than getting the lock and replacing the file. */
  predicate Quiet<U>(a: Action<U>) {
    !a.Acquire? && !a.Replace?
  }

  lemma QuietStep<D, U>(st: Store<D, U>, s: System<D, U>, p: Pid, a: Action<U>)
    requires Quiet(a)
    ensures var next, ph := Next(st, s, p, a), PhaseOf(s, p);
            && next.acquired == s.acquired && next.applied == s.applied && s.issued <= next.issued
            && (next.returned == s.returned
                || (ph.Busy? && next.returned == s.returned[ph.t.id := ph.at.Replaced?] && !PhaseOf(next, p).Busy?
                    && (ph.at.Opening? || ph.at.Replaced? || ph.at.GivingUp?)))
            && (PhaseOf(next, p).Busy? && ph.Busy? ==>
                  PhaseOf(next, p).t == ph.t && (PhaseOf(next, p).at.Opening? <==> ph.at.Opening?)
                  && (PhaseOf(next, p).at.Replaced? <==> ph.at.Replaced?))
            && (PhaseOf(next, p).Busy? && !ph.Busy? ==>
                  PhaseOf(next, p).at.Opening? && PhaseOf(next, p).t.id == s.issued < next.issued)
  {
  }

  lemma QuietKeepsTicketInv<D, U>(st: Store<D, U>, s: System<D, U>, p: Pid, a: Action<U>)
    requires CallInv(s) && Quiet(a)
    ensures TicketInv(Next(st, s, p, a))
  {
    assert PhaseInv(s, p);
    QuietStep(st, s, p, a);
  }

  lemma NextKeepsTicketInv<D, U>(st: Store<D, U>, s: System<D, U>, p: Pid, a: Action<U>)
    requires CallInv(s)
    ensures TicketInv(Next(st, s, p, a))
  {
    if a.Acquire? {
      AcquireKeepsTicketInv(st, s, p);
    } else if a.Replace? {
      ReplaceKeepsTicketInv(st, s, p);
    } else {
      QuietKeepsTicketInv(st, s, p, a);
    }
  }

  /** A writer works on the ticket it had, or on a new one. */
  lemma TicketOf<D, U>(st: Store<D, U>, s: System<D, U>, p: Pid, a: Action<U>, q: Pid)
    requires PhaseOf(Next(st, s, p, a), q).Busy?
    ensures if PhaseOf(s, q).Busy? then PhaseOf(Next(st, s, p, a), q).t == PhaseOf(s, q).t
            else q == p && PhaseOf(Next(st, s, p, a), q).t.id == s.issued
  {
  }

  lemma NextKeepsOwnTickets<D, U>(st: Store<D, U>, s: System<D, U>, p: Pid, a: Action<U>)
    requires CallInv(s)
    ensures OwnTickets(Next(st, s, p, a))
  {
    var next := Next(st, s, p, a);
    forall q: Pid, r: Pid | q != r && PhaseOf(next, q).Busy? && PhaseOf(next, r).Busy?
      ensures PhaseOf(next, q).t.id != PhaseOf(next, r).t.id
    {
      TicketOf(st, s, p, a, q);
      TicketOf(st, s, p, a, r);
      assert PhaseInv(s, q) && PhaseInv(s, r);
    }
  }

  lemma AcquireKeepsPhase<D, U>(st: Store<D, U>, s: System<D, U>, p: Pid, q: Pid)
    requires CallInv(s)
    ensures PhaseInv(Next(st, s, p, Acquire), q)
  {
    var ph := PhaseOf(s, p);
    assert PhaseInv(s, p) && PhaseInv(s, q);
    assert HoldsLock(PhaseOf(s, q)) <==> s.lock == Some(q);
    if ph.Busy? {
      TicketAppended(s.acquired, ph.t, {});
    }
  }

  lemma ReplaceKeepsPhase<D, U>(st: Store<D, U>, s: System<D, U>, p: Pid, q: Pid)
    requires CallInv(s)
    ensures PhaseInv(Next(st, s, p, Replace), q)
  {
    var ph := PhaseOf(s, p);
    assert PhaseInv(s, p) && PhaseInv(s, q);
    assert HoldsLock(ph) <==> s.lock == Some(p);
    assert HoldsLock(PhaseOf(s, q)) <==> s.lock == Some(q);
    if ph.Busy? {
      TicketAppended(s.applied, ph.t, {});
    }
  }

  lemma QuietKeepsPhase<D, U>(st: Store<D, U>, s: System<D, U>, p: Pid, a: Action<U>, q: Pid)
    requires CallInv(s) && Quiet(a)
    ensures PhaseInv(Next(st, s, p, a), q)
  {
    assert PhaseInv(s, p) && PhaseInv(s, q);
    QuietStep(st, s, p, a);
  }

  lemma NextKeepsPhase<D, U>(st: Store<D, U>, s: System<D, U>, p: Pid, a: Action<U>, q: Pid)
    requires CallInv(s)
    ensures PhaseInv(Next(st, s, p, a), q)
  {
    if a.Acquire? {
      AcquireKeepsPhase(st, s, p, q);
    } else if a.Replace? {
      ReplaceKeepsPhase(st, s, p, q);
    } else {
      QuietKeepsPhase(st, s, p, a, q);
    }
  }

  lemma {:induction false} EveryRunKeepsInv<D, U>(st: Store<D, U>, initial: Option<Content<D>>, run: seq<(Pid, Action<U>)>)
    ensures StoreInv(st, Exec(st, Start(initial), run), initial)
    ensures CallInv(Exec(st, Start(initial), run))
  {
    if run != [] {
      var (p, a) := run[|run| - 1];
      EveryRunKeepsInv(st, initial, run[..|run| - 1]);
      var s := Exec(st, Start(initial), run[..|run| - 1]);
      NextKeepsLockInv(st, s, p, a);
      NextKeepsFileInv(st, s, p, a, initial);
      NextKeepsTicketInv(st, s, p, a);
      NextKeepsOwnTickets(st, s, p, a);
      forall q: Pid
        ensures WriterInv(st, Next(st, s, p, a), initial, q)
        ensures PhaseInv(Next(st, s, p, a), q)
      {
        NextKeepsWriterInv(st, s, p, a, initial, q);
        NextKeepsPhase(st, s, p, a, q);
      }
    }
  }

  // ----- the protocol's promises, for every run of any number of writers -----

  function Occurrences<U>(ts: seq<Ticket<U>>, id: nat): nat {
    if ts == [] then 0
    else Occurrences(ts[..|ts| - 1], id) + if ts[|ts| - 1].id == id then 1 else 0
  }

  lemma {:induction false} DistinctOccurrences<U>(ts: seq<Ticket<U>>, id: nat)
    requires DistinctIds(ts)
    ensures Occurrences(ts, id) == if id in Ids(ts) then 1 else 0
  {
    if ts != [] {
      DistinctOccurrences(ts[..|ts| - 1], id);
    }
  }

  lemma {:induction false} FilterStaysDistinct<U>(ts: seq<Ticket<U>>, keep: set<nat>)
    requires DistinctIds(ts)
    ensures DistinctIds(Filter(ts, keep)) && Ids(Filter(ts, keep)) <= Ids(ts)
  {
    if ts != [] {
      var n := |ts| - 1;
      FilterStaysDistinct(ts[..n], keep);
      TicketAppended(Filter(ts[..n], keep), ts[n], {});
      assert Filter(ts[..n], keep) + [] == Filter(ts[..n], keep);
    }
  }

  /** At most one writer is between flock and unlock. */
  lemma MutualExclusion<D, U>(st: Store<D, U>, initial: Option<Content<D>>, run: seq<(Pid, Action<U>)>, p: Pid, q: Pid)
    requires HoldsLock(PhaseOf(Exec(st, Start(initial), run), p))
    requires HoldsLock(PhaseOf(Exec(st, Start(initial), run), q))
    ensures p == q
  {
    EveryRunKeepsInv(st, initial, run);
  }

  /**
   What a reader can find at any moment: exactly the document of the updates applied since the file was
   last moved aside, in lock order; before the first of them, the initial file if it was never moved, and
   else nothing. It is never a torn document the writers made.
   */
  lemma FileIsAlwaysWhole<D, U>(st: Store<D, U>, initial: Option<Content<D>>, run: seq<(Pid, Action<U>)>)
    ensures var s := Exec(st, Start(initial), run);
            && (Since(s) != [] ==> s.file == Some(Doc(Fold(st, Origin(st, s, initial), Since(s)))))
            && (Since(s) == [] ==> s.file == if s.moved.Some? then None else initial)
            && (IsUnreadable(s.file) <==> IsUnreadable(initial) && s.moved.None?)
  {
    EveryRunKeepsInv(st, initial, run);
  }

  /**
   A call that returned None was applied exactly once and one that returned an error not at all, and
   the applied updates are in the order in which their calls got the lock.
   */
  lemma AppliedExactlyAsReturned<D, U>(st: Store<D, U>, initial: Option<Content<D>>, run: seq<(Pid, Action<U>)>)
    ensures var s := Exec(st, Start(initial), run);
            && s.applied == Filter(s.acquired, Ids(s.applied))
            && (forall id :: id in s.returned ==> Occurrences(s.applied, id) == if s.returned[id] then 1 else 0)
  {
    EveryRunKeepsInv(st, initial, run);
    var s := Exec(st, Start(initial), run);
    FilterStaysDistinct(s.acquired, Ids(s.applied));
    forall id | id in s.returned ensures Occurrences(s.applied, id) == if s.returned[id] then 1 else 0 {
      DistinctOccurrences(s.applied, id);
    }
  }

  // ----- what a move-aside costs -----

  /** The step moves a whole document aside. */
  predicate Loses<D, U>(s: System<D, U>, p: Pid, a: Action<U>) {
    a.MoveAside? && PhaseOf(s, p).Busy? && PhaseOf(s, p).at.Unreadable? && s.file.Some? && s.file.value.Doc?
  }

  ghost predicate LosesAt<D, U>(st: Store<D, U>, initial: Option<Content<D>>, run: seq<(Pid, Action<U>)>, i: int) {
    0 <= i < |run| && Loses(Exec(st, Start(initial), run[..i]), run[i].0, run[i].1)
  }

  /** The file still carries every update ever applied, and the document they all started from. */
  predicate NothingLost<D, U>(s: System<D, U>, initial: Option<Content<D>>) {
    s.moved.None? || (s.moved == Some(0) && IsUnreadable(initial))
  }

  lemma NextLosesIff<D, U>(st: Store<D, U>, s: System<D, U>, p: Pid, a: Action<U>, initial: Option<Content<D>>)
    requires StoreInv(st, s, initial)
    ensures NothingLost(Next(st, s, p, a), initial) <==> NothingLost(s, initial) && !Loses(s, p, a)
  {
    if !a.MoveAside? {
      MovedStays(st, s, p, a);
    }
  }

  lemma MovedStays<D, U>(st: Store<D, U>, s: System<D, U>, p: Pid, a: Action<U>)
    requires !a.MoveAside?
    ensures Next(st, s, p, a).moved == s.moved
  {
  }

  lemma LosesAtPrefix<D, U>(st: Store<D, U>, initial: Option<Content<D>>, run: seq<(Pid, Action<U>)>, i: int)
    requires run != []
    ensures LosesAt(st, initial, run[..|run| - 1], i) <==> LosesAt(st, initial, run, i) && i < |run| - 1
  {
    if 0 <= i < |run| - 1 {
      assert run[..|run| - 1][..i] == run[..i];
    }
  }

  /** Something is lost exactly when some step of the run moved a whole document aside. */
  lemma {:induction false} NothingLostIff<D, U>(st: Store<D, U>, initial: Option<Content<D>>, run: seq<(Pid, Action<U>)>)
    ensures NothingLost(Exec(st, Start(initial), run), initial) <==> forall i :: !LosesAt(st, initial, run, i)
  {
    if run != [] {
      var n := |run| - 1;
      NothingLostIff(st, initial, run[..n]);
      EveryRunKeepsInv(st, initial, run[..n]);
      NextLosesIff(st, Exec(st, Start(initial), run[..n]), run[n].0, run[n].1, initial);
      forall i ensures LosesAt(st, initial, run[..n], i) <==> LosesAt(st, initial, run, i) && i < n {
        LosesAtPrefix(st, initial, run, i);
      }
      assert LosesAt(st, initial, run, n) <==> Loses(Exec(st, Start(initial), run[..n]), run[n].0, run[n].1);
    }
  }

  /** And then the file is the document of every update applied, in lock order. */
  lemma FileHoldsAllUpdates<D, U>(st: Store<D, U>, initial: Option<Content<D>>, run: seq<(Pid, Action<U>)>)
    requires forall i :: !LosesAt(st, initial, run, i)
    ensures var s := Exec(st, Start(initial), run);
            s.applied != [] ==> s.file == Some(Doc(Fold(st, Base(st, initial), s.applied)))
  {
    NothingLostIff(st, initial, run);
    EveryRunKeepsInv(st, initial, run);
  }

  /** Without a failed read, a writer moves the file aside only when it is unreadable. */
  ghost predicate MovesOnlyUnreadable<D, U>(s: System<D, U>) {
    forall p: Pid :: PhaseOf(s, p).Busy? && PhaseOf(s, p).at.Unreadable? ==> IsUnreadable(s.file)
  }

  lemma NextMovesOnlyUnreadable<D, U>(st: Store<D, U>, s: System<D, U>, p: Pid, a: Action<U>)
    requires LockInv(s) && MovesOnlyUnreadable(s) && !a.ReadFails?
    ensures MovesOnlyUnreadable(Next(st, s, p, a))
  {
    forall q: Pid | PhaseOf(Next(st, s, p, a), q).Busy? && PhaseOf(Next(st, s, p, a), q).at.Unreadable?
      ensures IsUnreadable(Next(st, s, p, a).file)
    {
      assert HoldsLock(PhaseOf(s, p)) <==> s.lock == Some(p);
      assert HoldsLock(PhaseOf(s, q)) <==> s.lock == Some(q);
      if q != p {
        assert PhaseOf(Next(st, s, p, a), q) == PhaseOf(s, q);
      }
    }
  }

  /** So a run in which no read fails loses nothing. */
  lemma {:induction false} NoFailedReadLosesNothing<D, U>(st: Store<D, U>, initial: Option<Content<D>>, run: seq<(Pid, Action<U>)>)
    requires forall i :: 0 <= i < |run| ==> !run[i].1.ReadFails?
    ensures MovesOnlyUnreadable(Exec(st, Start(initial), run)) && NothingLost(Exec(st, Start(initial), run), initial)
  {
    if run != [] {
      var n := |run| - 1;
      var s := Exec(st, Start(initial), run[..n]);
      NoFailedReadLosesNothing(st, initial, run[..n]);
      EveryRunKeepsInv(st, initial, run[..n]);
      NextLosesIff(st, s, run[n].0, run[n].1, initial);
      NextMovesOnlyUnreadable(st, s, run[n].0, run[n].1);
    }
  }

  /** The read goes wrong: it fails, or it finds no document. */
  predicate BadRead<D, U>(initial: Content<D>, read: Action<U>) {
    read.ReadFails? || (read.Read? && !initial.Doc?)
  }

  /** The first four steps of a lone writer whose read goes wrong: it has the lock and an empty store to fill. */
  lemma MovedAsideAfterFour<D, U>(st: Store<D, U>, initial: Content<D>, read: Action<U>, u: U)
    requires BadRead(initial, read)
    ensures var s := Exec(st, Start(Some(initial)), [(1, Begin(u)), (1, Acquire), (1, read), (1, MoveAside)]);
            s == System(None, Some(1), map[], map[1 := Busy(Ticket(0, u), Loaded(st.empty))], 1, [Ticket(0, u)], [], map[], Some(0))
  {
    var s0: System<D, U> := Start(Some(initial));
    var t: Ticket<U> := Ticket(0, u);
    ExecFour(st, s0, (1, Begin(u)), (1, Acquire), (1, read), (1, MoveAside));
    var s1 := Next(st, s0, 1, Begin(u));
    var s2 := Next(st, s1, 1, Acquire);
    var s3 := Next(st, s2, 1, read);
    assert PhaseOf(s1, 1) == Busy(t, Opening) && PhaseOf(s2, 1) == Busy(t, Locked);
    assert PhaseOf(s3, 1) == Busy(t, Unreadable);
    assert s3.phases[1 := Busy(t, Loaded(st.empty))] == map[1 := Busy(t, Loaded(st.empty))];
  }

  /**
   The gap can outlast the call: the file is unreadable or cannot be read, it is moved aside, the write then
   fails, the call reports an error, and the store is left missing.
   */
  lemma StoreCanVanish<D, U>(st: Store<D, U>, initial: Content<D>, read: Action<U>, u: U)
    requires BadRead(initial, read)
    ensures var run := [(1, Begin(u)), (1, Acquire), (1, read), (1, MoveAside)] + [(1, Fail), (1, Return)];
            var s := Exec(st, Start(Some(initial)), run);
            s.file.None? && s.lock.None? && s.returned == map[0 := false]
  {
    var head: seq<(Pid, Action<U>)> := [(1, Begin(u)), (1, Acquire), (1, read), (1, MoveAside)];
    MovedAsideAfterFour(st, initial, read, u);
    var s := Exec(st, Start(Some(initial)), head);
    ExecTwoMore(st, Start(Some(initial)), head, (1, Fail), (1, Return));
    assert PhaseOf(s, 1) == Busy(Ticket(0, u), Loaded(st.empty));
    assert PhaseOf(Next(st, s, 1, Fail), 1) == Busy(Ticket(0, u), GivingUp);
  }

  lemma SyncedAfterSix<D, U>(st: Store<D, U>, initial: Content<D>, u: U)
    ensures var s := Exec(st, Start(Some(initial)), [(1, Begin(u)), (1, Acquire), (1, ReadFails), (1, MoveAside)]
                                                    + [(1, MutateAndStage), (1, Sync)]);
            var made := st.apply(st.empty, u);
            && PhaseOf(s, 1) == Busy(Ticket(0, u), Synced(made)) && 1 in s.temps && s.temps[1] == Doc(made)
            && s.applied == [] && s.returned == map[] && s.moved == Some(0)
  {
    var head: seq<(Pid, Action<U>)> := [(1, Begin(u)), (1, Acquire), (1, ReadFails), (1, MoveAside)];
    MovedAsideAfterFour(st, initial, ReadFails, u);
    ExecTwoMore(st, Start(Some(initial)), head, (1, MutateAndStage), (1, Sync));
    var s5 := Next(st, Exec(st, Start(Some(initial)), head), 1, MutateAndStage);
    assert PhaseOf(s5, 1) == Busy(Ticket(0, u), Staged(st.apply(st.empty, u)));
  }

  lemma ReplaceAndReturn<D, U>(st: Store<D, U>, s: System<D, U>, p: Pid, t: Ticket<U>, d: D)
    requires PhaseOf(s, p) == Busy(t, Synced(d)) && p in s.temps
    ensures var done := Next(st, Next(st, s, p, Replace), p, Return);
            done.file == Some(s.temps[p]) && done.returned == s.returned[t.id := true] && done.applied == s.applied + [t]
            && done.moved == s.moved
  {
    assert PhaseOf(Next(st, s, p, Replace), p) == Busy(t, Replaced);
  }

  /**
   One failed read of a good store is enough to lose it: the update succeeds, the call returns None, and the
   file holds that update alone, whatever it held before.
   */
  lemma FailedReadLosesTheStore<D, U>(st: Store<D, U>, before: D, u: U)
    ensures var run := [(1, Begin(u)), (1, Acquire), (1, ReadFails), (1, MoveAside)]
                       + [(1, MutateAndStage), (1, Sync)] + [(1, Replace), (1, Return)];
            var s := Exec(st, Start(Some(Doc(before))), run);
            s.file == Some(Doc(st.apply(st.empty, u))) && s.returned == map[0 := true]
            && s.applied == [Ticket(0, u)] && s.moved == Some(0)
  {
    var six: seq<(Pid, Action<U>)> := [(1, Begin(u)), (1, Acquire), (1, ReadFails), (1, MoveAside)] + [(1, MutateAndStage), (1, Sync)];
    SyncedAfterSix(st, Doc(before), u);
    ExecTwoMore(st, Start(Some(Doc(before))), six, (1, Replace), (1, Return));
    ReplaceAndReturn(st, Exec(st, Start(Some(Doc(before))), six), 1, Ticket(0, u), st.apply(st.empty, u));
  }

  lemma ExecTwoMore<D, U>(st: Store<D, U>, s: System<D, U>, run: seq<(Pid, Action<U>)>, a: (Pid, Action<U>), b: (Pid, Action<U>))
    ensures Exec(st, s, run + [a, b]) == Next(st, Next(st, Exec(st, s, run), a.0, a.1), b.0, b.1)
  {
    assert (run + [a, b])[..|run| + 1] == run + [a] && (run + [a])[..|run|] == run;
  }

  lemma ExecFour<D, U>(st: Store<D, U>, s: System<D, U>, a: (Pid, Action<U>), b: (Pid, Action<U>), c: (Pid, Action<U>), d: (Pid, Action<U>))
    ensures Exec(st, s, [a, b, c, d]) ==
            Next(st, Next(st, Next(st, Next(st, s, a.0, a.1), b.0, b.1), c.0, c.1), d.0, d.1)
  {
    ExecTwoMore(st, s, [], a, b);
    ExecTwoMore(st, s, [a, b], c, d);
    assert [] + [a, b] == [a, b] && [a, b] + [c, d] == [a, b, c, d];
  }
}
