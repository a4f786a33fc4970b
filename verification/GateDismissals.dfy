/**
 What dismissing a page does (`reject` in src/arail/compiled_kb.py): it leaves the review queue and no mount
 admits it, for as long as the dismissals can be read and no approval names it.
 */
module GateDismissals {
  import opened Basics
  import opened CompiledKb
  import opened GateReads
  import opened ReviewQueue

  /** Some path of the call cleans to `p`. */
  predicate CleansTo(paths: set<string>, p: string) {
    exists raw :: raw in paths && CleanRel(raw) == Some(p)
  }

  /**
   After a reject whose save works a path is dismissed exactly when it was loaded as dismissed or the call names it;
   nothing else changes.
   */
  lemma RejectedIff(s: State, paths: set<string>, saves: nat, loads: Loads, p: string)
    requires saves >= 1
    ensures var after := RejectSeen(s, paths, saves, loads);
            && (p in after.rejected <==> p in Seen(s, loads).rejected || CleansTo(paths, p))
            && after == s.(rejected := after.rejected)
  {
    if p in Cleaned(paths) {
      var raw :| raw in paths && CleanRel(raw).Some? && Normal(raw) == p;
      assert CleanRel(raw) == Some(p);
    }
  }

  // ----- when a dismissal is lost -----

  /** An approval drops the dismissal of `p`: it admits it, or it could not read the dismissals, and it saves what is left. */
  predicate ApprovalDrops(tree: Tree, targets: set<string>, saves: nat, loads: Loads, p: string) {
    saves >= 2 && (p in Targets(tree, targets) || !loads.rejected)
  }

  predicate MountDrops(s: State, world: string, terms: Terms, saves: nat, first: Loads, loads: Loads, p: string) {
    var targets := AutoTargets(Seen(s, first), world, terms);
    targets != {} && ApprovalDrops(s.tree, targets, saves, loads, p)
  }

  /** The step loses the dismissal of `p`. */
  predicate Drops(s: State, f: SeenOp, p: string) {
    match f.op
    case Approve(paths, _, saves) => ApprovalDrops(s.tree, paths, saves, f.loads, p)
    case Reject(paths, saves) => saves >= 1 && !f.loads.rejected && !CleansTo(paths, p)
    case AutoApprove(world, terms, _, saves) => MountDrops(s, world, terms, saves, f.first, f.loads, p)
    case Bootstrap(staged, terms, _, dryRun, saves) =>
      s.tree.present && !dryRun
      && (if staged.Some? && staged.value != "" && terms != [] then
            MountDrops(s, staged.value, terms, saves, f.first, f.loads, p)
          else ApprovalDrops(s.tree, {}, saves, f.loads, p))
    case _ => false
  }

  lemma ApprovalKeepsIff(s: State, paths: set<string>, record: Record, saves: nat, loads: Loads, p: string)
    requires p in s.rejected
    ensures p in ApproveSeen(s, paths, record, saves, loads).rejected <==> !ApprovalDrops(s.tree, paths, saves, loads, p)
  {
  }

  lemma MountKeepsDismissalIff(
    s: State, world: string, terms: Terms, approver: string, saves: nat, first: Loads, loads: Loads, p: string)
    requires p in s.rejected
    ensures p in AutoApproveSeen(s, world, terms, approver, saves, first, loads).rejected <==>
            !MountDrops(s, world, terms, saves, first, loads, p)
  {
    ApprovalKeepsIff(s, AutoTargets(Seen(s, first), world, terms), Record(true, approver), saves, loads, p);
  }

  lemma BootstrapKeepsDismissalIff(s: State, f: SeenOp, p: string)
    requires p in s.rejected && f.op.Bootstrap?
    ensures p in StepSeen(s, f).rejected <==> !Drops(s, f, p)
  {
    var op := f.op;
    if op.staged.Some? {
      MountKeepsDismissalIff(s, op.staged.value, op.terms, op.approver, op.saves, f.first, f.loads, p);
    }
    ApprovalKeepsIff(s, {}, Record(false, "operator"), op.saves, f.loads, p);
  }

  /** A step keeps a dismissal exactly when it does not lose it in one of those ways. */
  lemma StepKeepsDismissalIff(s: State, f: SeenOp, p: string)
    requires p in s.rejected
    ensures p in StepSeen(s, f).rejected <==> !Drops(s, f, p)
  {
    match f.op
    case Approve(paths, approver, saves) => ApprovalKeepsIff(s, paths, Record(false, approver), saves, f.loads, p);
    case Reject(paths, saves) =>
      if saves >= 1 {
        RejectedIff(s, paths, saves, f.loads, p);
      }
    case AutoApprove(world, terms, approver, saves) =>
      MountKeepsDismissalIff(s, world, terms, approver, saves, f.first, f.loads, p);
    case Bootstrap(_, _, _, _, _) => BootstrapKeepsDismissalIff(s, f, p);
    case _ =>
  }

  /** The dismissal holds before every step of the run and at its end. */
  predicate AlwaysDismissed(s: State, ops: seq<SeenOp>, p: string)
    decreases |ops|
  {
    p in s.rejected && (ops == [] || AlwaysDismissed(StepSeen(s, ops[0]), ops[1..], p))
  }

  predicate NeverDrops(s: State, ops: seq<SeenOp>, p: string)
    decreases |ops|
  {
    ops == [] || (!Drops(s, ops[0], p) && NeverDrops(StepSeen(s, ops[0]), ops[1..], p))
  }

  /** Over every run, whatever loads and saves fail, a dismissal holds throughout exactly when no step loses it. */
  lemma {:induction false} DismissalHoldsIff(s: State, ops: seq<SeenOp>, p: string)
    requires p in s.rejected
    ensures AlwaysDismissed(s, ops, p) <==> NeverDrops(s, ops, p)
    decreases |ops|
  {
    if ops != [] {
      StepKeepsDismissalIff(s, ops[0], p);
      if !Drops(s, ops[0], p) {
        DismissalHoldsIff(StepSeen(s, ops[0]), ops[1..], p);
      }
    }
  }

  // ----- where the dismissals can be read -----

  /** The step can read the dismissals and is no approval that names `p`. */
  predicate LeavesAlone(f: SeenOp, p: string) {
    !OperatorNames(f.op, p) && f.first.rejected && f.loads.rejected
  }

  /** What is dismissed is neither pending nor taken up by a mount that can read the dismissals. */
  lemma DismissedIsOut(s: State, world: Option<string>, mount: string, terms: Terms, loads: Loads, p: string)
    requires p in s.rejected && loads.rejected
    ensures !Pending(s, world, p) && p !in AutoTargets(Seen(s, loads), mount, terms)
  {
    AutoTargetsAreTermPaths(Seen(s, loads), mount, terms);
  }

  lemma MountTakesOthers(s: State, f: SeenOp, mount: string, terms: Terms, p: string)
    requires p in s.rejected && f.first.rejected
    ensures p !in Targets(s.tree, AutoTargets(Seen(s, f.first), mount, terms))
  {
    AutoTargetsAreTermPaths(Seen(s, f.first), mount, terms);
  }

  lemma LeftAloneStays(s: State, f: SeenOp, p: string)
    requires p in s.rejected && LeavesAlone(f, p)
    ensures !Drops(s, f, p)
    ensures p in StepSeen(s, f).approved ==> p in s.approved
  {
    match f.op
    case Approve(_, _, _) => NotTargeted(s.tree, f.op, p);
    case AutoApprove(world, terms, _, _) => MountTakesOthers(s, f, world, terms, p);
    case Bootstrap(staged, terms, _, _, _) =>
      if staged.Some? {
        MountTakesOthers(s, f, staged.value, terms, p);
      }
      assert Targets(s.tree, {}) == {};
    case _ =>
  }

  lemma {:induction false} DismissedWhileReadable(s: State, ops: seq<SeenOp>, p: string)
    requires p in s.rejected && forall i :: 0 <= i < |ops| ==> LeavesAlone(ops[i], p)
    ensures p in RunSeen(s, ops).rejected
    ensures p in RunSeen(s, ops).approved ==> p in s.approved
    decreases |ops|
  {
    if ops != [] {
      LeftAloneStays(s, ops[0], p);
      StepKeepsDismissalIff(s, ops[0], p);
      DismissedWhileReadable(StepSeen(s, ops[0]), ops[1..], p);
    }
  }

  /**
   The promise over whole runs: a page dismissed by a reject whose save works is not pending, is no candidate of
   any mount and is not approved anew, at the end of every run that can read the dismissals and never approves
   it by name.
   */
  lemma DismissedStaysOut(
    s: State, paths: set<string>, saves: nat, loads: Loads, ops: seq<SeenOp>, p: string, world: Option<string>, mount: string,
    terms: Terms)
    requires CleansTo(paths, p) && saves >= 1 && forall i :: 0 <= i < |ops| ==> LeavesAlone(ops[i], p)
    ensures var after := RunSeen(RejectSeen(s, paths, saves, loads), ops);
            && p in after.rejected && !Pending(after, world, p) && p !in AutoTargets(after, mount, terms)
            && (p in after.approved ==> p in s.approved)
  {
    RejectedIff(s, paths, saves, loads, p);
    var rejected := RejectSeen(s, paths, saves, loads);
    DismissedWhileReadable(rejected, ops, p);
    var after := RunSeen(rejected, ops);
    DismissedIsOut(after, world, mount, terms, ALL, p);
    assert Seen(after, ALL) == after;
  }

  /** An approval of all three saves takes the pages it admits out of the dismissals, and no others. */
  lemma ApprovalReadmits(s: State, paths: set<string>, record: Record, loads: Loads, p: string)
    ensures var after := ApproveSeen(s, paths, record, 3, loads);
            p in after.rejected <==> p in Seen(s, loads).rejected && p !in Targets(s.tree, paths)
  {
  }
}
