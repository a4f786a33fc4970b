/**
 The gate when its files cannot be read (src/arail/compiled_kb.py): a load that fails, for whatever reason,
 gives an empty set, and what is saved afterwards is built on it.
 */
module GateReads {
  import opened Basics
  import opened CompiledKb

  /** Which of the three files a step's loads give; the others are taken for empty. */
  datatype Loads = Loads(approved: bool, rejected: bool, unapproved: bool)

  /** The gate as a step sees it. */
  function Seen(s: State, loads: Loads): State {
    s.(approved := if loads.approved then s.approved else map[],
       rejected := if loads.rejected then s.rejected else {},
       unapproved := if loads.unapproved then s.unapproved else {})
  }

  // ----- the steps, on what they see -----

  function ApproveSeen(s: State, paths: set<string>, record: Record, saves: nat, loads: Loads): State {
    var t := ApproveStep(Seen(s, loads), paths, record, saves);
    State(
      t.manifest,
      if saves >= 1 then t.approved else s.approved,
      if saves >= 2 then t.rejected else s.rejected,
      if saves >= 3 && Targets(s.tree, paths) != {} then t.unapproved else s.unapproved,
      s.tree)
  }

  function RejectSeen(s: State, paths: set<string>, saves: nat, loads: Loads): State {
    if saves == 0 then s else s.(rejected := RejectStep(Seen(s, loads), paths, saves).rejected)
  }

  /** The second save of a revocation is made. */
  predicate Remembers(s: State, named: set<string>, sticky: bool, saves: nat, loads: Loads) {
    saves >= 2 && sticky && named * Seen(s, loads).approved.Keys != {}
  }

  function RevokeSeenNamed(s: State, named: set<string>, sticky: bool, saves: nat, loads: Loads): State {
    var t := RevokeNamed(Seen(s, loads), named, sticky, saves);
    State(
      t.manifest,
      if saves >= 1 then t.approved else s.approved,
      s.rejected,
      if Remembers(s, named, sticky, saves, loads) then t.unapproved else s.unapproved,
      s.tree)
  }

  function RevokeSeen(s: State, paths: set<string>, sticky: bool, saves: nat, loads: Loads): State {
    RevokeSeenNamed(s, Named(paths), sticky, saves, loads)
  }

  /** The rollback lists the automatic approvals with one load and revokes them with others. */
  function RevokeAutoSeen(s: State, saves: nat, first: Loads, loads: Loads): State {
    RevokeSeen(s, AutoPaths(Seen(s, first).approved), false, saves, loads)
  }

  /** A prune that cannot read the approvals finds nothing to drop. */
  function PruneSeen(s: State, saves: nat, loads: Loads): State {
    if loads.approved then PruneStep(s, saves) else s
  }

  /** The mount filters with one pair of loads and approves with others. */
  function AutoApproveSeen(s: State, world: string, terms: Terms, approver: string, saves: nat, first: Loads, loads: Loads): State {
    var targets := AutoTargets(Seen(s, first), world, terms);
    if targets == {} then s else ApproveSeen(s, targets, Record(true, approver), saves, loads)
  }

  function BootstrapSeen(
    s: State, staged: Option<string>, terms: Terms, approver: string, dryRun: bool, saves: nat, first: Loads, loads: Loads): State
  {
    if !s.tree.present || dryRun then s
    else if staged.Some? && staged.value != "" && terms != [] then
      AutoApproveSeen(s, staged.value, terms, approver, saves, first, loads)
    else ApproveSeen(s, {}, Record(false, "operator"), saves, loads)
  }

  /** A step and how its loads go: those it begins with, where it makes two rounds of them, and its own. */
  datatype SeenOp = SeenOp(op: Op, first: Loads, loads: Loads)

  function StepSeen(s: State, f: SeenOp): State {
    match f.op
    case Approve(paths, approver, saves) => ApproveSeen(s, paths, Record(false, approver), saves, f.loads)
    case Reject(paths, saves) => RejectSeen(s, paths, saves, f.loads)
    case Revoke(paths, sticky, saves) => RevokeSeen(s, paths, sticky, saves, f.loads)
    case RevokeAuto(saves) => RevokeAutoSeen(s, saves, f.first, f.loads)
    case AutoApprove(world, terms, approver, saves) => AutoApproveSeen(s, world, terms, approver, saves, f.first, f.loads)
    case Bootstrap(staged, terms, approver, dryRun, saves) =>
      BootstrapSeen(s, staged, terms, approver, dryRun, saves, f.first, f.loads)
    case Prune(saves) => PruneSeen(s, saves, f.loads)
    case TreeChanges(tree) => s.(tree := tree)
  }

  function RunSeen(s: State, ops: seq<SeenOp>): State
    decreases |ops|
  {
    if ops == [] then s else RunSeen(StepSeen(s, ops[0]), ops[1..])
  }

  const ALL := Loads(true, true, true)

  lemma ApproveSeenAll(s: State, paths: set<string>, record: Record, saves: nat)
    ensures ApproveSeen(s, paths, record, saves, ALL) == ApproveStep(s, paths, record, saves)
  {
    assert Seen(s, ALL) == s;
    assert Targets(s.tree, paths) == {} ==> s.unapproved - Targets(s.tree, paths) == s.unapproved;
  }

  lemma RevokeSeenAll(s: State, named: set<string>, sticky: bool, saves: nat)
    ensures RevokeSeenNamed(s, named, sticky, saves, ALL) == RevokeNamed(s, named, sticky, saves)
  {
    assert Seen(s, ALL) == s;
  }

  /** Where every load works, nothing is new. */
  lemma SeenAllIsStep(s: State, op: Op)
    ensures StepSeen(s, SeenOp(op, ALL, ALL)) == Step(s, op)
  {
    assert Seen(s, ALL) == s;
    match op
    case Approve(paths, approver, saves) => ApproveSeenAll(s, paths, Record(false, approver), saves);
    case Revoke(paths, sticky, saves) => RevokeSeenAll(s, Named(paths), sticky, saves);
    case RevokeAuto(saves) => RevokeSeenAll(s, Named(AutoPaths(s.approved)), false, saves);
    case AutoApprove(world, terms, approver, saves) =>
      ApproveSeenAll(s, AutoTargets(s, world, terms), Record(true, approver), saves);
    case Bootstrap(staged, terms, approver, dryRun, saves) =>
      if staged.Some? {
        ApproveSeenAll(s, AutoTargets(s, staged.value, terms), Record(true, approver), saves);
      }
      ApproveSeenAll(s, {}, Record(false, "operator"), saves);
    case _ =>
  }

  // ----- when a remembered revocation is lost -----

  /**
   A mount loses the revocation of `p`: it could not read the revocations when it chose its pages, and `p` is
   one of them, or it could not when it approved, and it saved back what was left.
   */
  predicate MountForgets(s: State, world: string, terms: Terms, saves: nat, first: Loads, loads: Loads, p: string) {
    var targets := AutoTargets(Seen(s, first), world, terms);
    && targets != {}
    && ((saves >= 1 && p in targets) || (saves >= 3 && !loads.unapproved))
  }

  /** The step loses the revocation of `p`. */
  predicate Forgets(s: State, f: SeenOp, p: string) {
    match f.op
    case Approve(paths, _, saves) => saves >= 3 && Targets(s.tree, paths) != {} && !f.loads.unapproved
    case Revoke(paths, sticky, saves) =>
      Remembers(s, Named(paths), sticky, saves, f.loads) && !f.loads.unapproved && p !in Named(paths)
    case AutoApprove(world, terms, _, saves) => MountForgets(s, world, terms, saves, f.first, f.loads, p)
    case Bootstrap(staged, terms, _, dryRun, saves) =>
      s.tree.present && !dryRun && staged.Some? && staged.value != "" && terms != []
      && MountForgets(s, staged.value, terms, saves, f.first, f.loads, p)
    case _ => false
  }

  lemma ApproveSeenKeepsIff(s: State, paths: set<string>, record: Record, saves: nat, loads: Loads, p: string)
    requires Protected(s, p)
    ensures Protected(ApproveSeen(s, paths, record, saves, loads), p) <==>
            !((saves >= 1 && p in Targets(s.tree, paths))
              || (saves >= 3 && Targets(s.tree, paths) != {} && !loads.unapproved))
  {
  }

  lemma MountKeepsIff(s: State, world: string, terms: Terms, approver: string, saves: nat, first: Loads, loads: Loads, p: string)
    requires Protected(s, p)
    ensures Protected(AutoApproveSeen(s, world, terms, approver, saves, first, loads), p) <==>
            !MountForgets(s, world, terms, saves, first, loads, p)
  {
    AutoTargetsAreTermPaths(Seen(s, first), world, terms);
    ApproveSeenKeepsIff(s, AutoTargets(Seen(s, first), world, terms), Record(true, approver), saves, loads, p);
  }

  lemma NotTargeted(tree: Tree, op: Op, p: string)
    requires op.Approve? && !OperatorNames(op, p)
    ensures p !in Targets(tree, op.paths)
  {
  }

  lemma RevokeKeepsIff(s: State, named: set<string>, sticky: bool, saves: nat, loads: Loads, p: string)
    requires Protected(s, p)
    ensures Protected(RevokeSeenNamed(s, named, sticky, saves, loads), p) <==>
            !(Remembers(s, named, sticky, saves, loads) && !loads.unapproved && p !in named)
  {
  }

  lemma EmptyApprovalKeeps(s: State, saves: nat, loads: Loads, p: string)
    requires Protected(s, p)
    ensures Protected(ApproveSeen(s, {}, Record(false, "operator"), saves, loads), p)
  {
    assert Targets(s.tree, {}) == {};
    ApproveSeenKeepsIff(s, {}, Record(false, "operator"), saves, loads, p);
  }

  lemma BootstrapKeepsIff(s: State, f: SeenOp, p: string)
    requires Protected(s, p) && f.op.Bootstrap?
    ensures Protected(StepSeen(s, f), p) <==> !Forgets(s, f, p)
  {
    var op := f.op;
    if !s.tree.present || op.dryRun {
      assert StepSeen(s, f) == s;
    } else if op.staged.Some? && op.staged.value != "" && op.terms != [] {
      MountKeepsIff(s, op.staged.value, op.terms, op.approver, op.saves, f.first, f.loads, p);
    } else {
      EmptyApprovalKeeps(s, op.saves, f.loads, p);
    }
  }

  lemma OthersKeep(s: State, f: SeenOp, p: string)
    requires Protected(s, p) && (f.op.Reject? || f.op.Prune? || f.op.TreeChanges?)
    ensures Protected(StepSeen(s, f), p) && !Forgets(s, f, p)
  {
  }

  lemma ApproveOpKeepsIff(s: State, f: SeenOp, p: string)
    requires Protected(s, p) && f.op.Approve? && !OperatorNames(f.op, p)
    ensures Protected(StepSeen(s, f), p) <==> !Forgets(s, f, p)
  {
    NotTargeted(s.tree, f.op, p);
    ApproveSeenKeepsIff(s, f.op.paths, Record(false, f.op.approver), f.op.saves, f.loads, p);
  }

  lemma RevokeOpKeepsIff(s: State, f: SeenOp, p: string)
    requires Protected(s, p) && (f.op.Revoke? || f.op.RevokeAuto?)
    ensures Protected(StepSeen(s, f), p) <==> !Forgets(s, f, p)
  {
    if f.op.Revoke? {
      RevokeKeepsIff(s, Named(f.op.paths), f.op.sticky, f.op.saves, f.loads, p);
    } else {
      RevokeKeepsIff(s, Named(AutoPaths(Seen(s, f.first).approved)), false, f.op.saves, f.loads, p);
    }
  }

  lemma MountOpKeepsIff(s: State, f: SeenOp, p: string)
    requires Protected(s, p) && f.op.AutoApprove?
    ensures Protected(StepSeen(s, f), p) <==> !Forgets(s, f, p)
  {
    MountKeepsIff(s, f.op.world, f.op.terms, f.op.approver, f.op.saves, f.first, f.loads, p);
  }

  /** A step that does not name it keeps a remembered revocation exactly when it does not lose it in one of those ways. */
  lemma StepSeenKeepsIff(s: State, f: SeenOp, p: string)
    requires Protected(s, p) && !OperatorNames(f.op, p)
    ensures Protected(StepSeen(s, f), p) <==> !Forgets(s, f, p)
  {
    match f.op {
      case Approve(_, _, _) => ApproveOpKeepsIff(s, f, p);
      case Revoke(_, _, _) => RevokeOpKeepsIff(s, f, p);
      case RevokeAuto(_) => RevokeOpKeepsIff(s, f, p);
      case AutoApprove(_, _, _, _) => MountOpKeepsIff(s, f, p);
      case Bootstrap(_, _, _, _, _) => BootstrapKeepsIff(s, f, p);
      case Reject(_, _) => OthersKeep(s, f, p);
      case Prune(_) => OthersKeep(s, f, p);
      case TreeChanges(_) => OthersKeep(s, f, p);
    }
  }

  /** The revocation holds before every step of the run and at its end. */
  predicate AlwaysProtected(s: State, ops: seq<SeenOp>, p: string)
    decreases |ops|
  {
    Protected(s, p) && (ops == [] || AlwaysProtected(StepSeen(s, ops[0]), ops[1..], p))
  }

  predicate NeverForgets(s: State, ops: seq<SeenOp>, p: string)
    decreases |ops|
  {
    ops == [] || (!Forgets(s, ops[0], p) && NeverForgets(StepSeen(s, ops[0]), ops[1..], p))
  }

  /** Over any run that never names it, a remembered revocation holds throughout exactly when no step loses it. */
  lemma {:induction false} RevocationHoldsIff(s: State, ops: seq<SeenOp>, p: string)
    requires Protected(s, p)
    requires forall i :: 0 <= i < |ops| ==> !OperatorNames(ops[i].op, p)
    ensures AlwaysProtected(s, ops, p) <==> NeverForgets(s, ops, p)
    decreases |ops|
  {
    if ops != [] {
      StepSeenKeepsIff(s, ops[0], p);
      if !Forgets(s, ops[0], p) {
        RevocationHoldsIff(StepSeen(s, ops[0]), ops[1..], p);
      }
    }
  }

  /** In particular where every load of the revocation file works, whatever other loads and saves do. */
  lemma {:induction false} StickyWhileReadable(s: State, ops: seq<SeenOp>, p: string)
    requires Protected(s, p)
    requires forall i :: 0 <= i < |ops| ==> !OperatorNames(ops[i].op, p) && ops[i].first.unapproved && ops[i].loads.unapproved
    ensures NeverForgets(s, ops, p) && Protected(RunSeen(s, ops), p)
    decreases |ops|
  {
    if ops != [] {
      NothingForgotten(s, ops[0], p);
      StepSeenKeepsIff(s, ops[0], p);
      StickyWhileReadable(StepSeen(s, ops[0]), ops[1..], p);
    }
  }

  lemma NothingForgotten(s: State, f: SeenOp, p: string)
    requires Protected(s, p) && f.first.unapproved && f.loads.unapproved
    ensures !Forgets(s, f, p)
  {
    match f.op
    case AutoApprove(world, terms, _, _) => AutoTargetsAreTermPaths(Seen(s, f.first), world, terms);
    case Bootstrap(staged, terms, _, _, _) =>
      if staged.Some? {
        AutoTargetsAreTermPaths(Seen(s, f.first), staged.value, terms);
      }
    case _ =>
  }

  /**
   The promise over whole runs: a path revoked while the approvals could be read, with both saves working, is
   not approved again by any run that can read the revocations and never names it.
   */
  lemma RevokedStaysOut(s: State, paths: set<string>, saves: nat, loads: Loads, ops: seq<SeenOp>, p: string)
    requires p in s.approved && p in Named(paths) && saves >= 2 && loads.approved
    requires forall i :: 0 <= i < |ops| ==> !OperatorNames(ops[i].op, p) && ops[i].first.unapproved && ops[i].loads.unapproved
    ensures p !in RunSeen(RevokeSeen(s, paths, true, saves, loads), ops).approved
  {
    assert p in Named(paths) * Seen(s, loads).approved.Keys;
    StickyWhileReadable(RevokeSeen(s, paths, true, saves, loads), ops, p);
  }

  /** One failed load is enough: approving any other page then forgets every revocation, and the next mount undoes them. */
  lemma FailedLoadForgetsAll(s: State, paths: set<string>, approver: string, world: string, terms: Terms, mount: string, p: string)
    requires Targets(s.tree, paths) != {}
    ensures var after := ApproveSeen(s, paths, Record(false, approver), 3, Loads(true, true, false));
            && after.unapproved == {}
            && (p in AutoTargets(s.(rejected := after.rejected, unapproved := {}), world, terms) ==>
                  p in AutoApproveStep(after, world, terms, mount, 3).approved)
  {
    var after := ApproveSeen(s, paths, Record(false, approver), 3, Loads(true, true, false));
    SameAutoTargets(s.(rejected := after.rejected, unapproved := {}), after, world, terms);
    AutoApproves(after, world, terms, mount, p);
  }
}
