/**
 What becomes of an approval (src/arail/compiled_kb.py): which steps take it away, which put one there, and what the
 gate then reports.
 */
module GateApprovals {
  import opened Basics
  import opened CompiledKb
  import opened GateReads

  // ----- when an approval is lost -----

  /** An approval of other pages that could not read the approvals, and saves what it has. */
  predicate Overwrites(tree: Tree, targets: set<string>, saves: nat, loads: Loads, p: string) {
    saves >= 1 && !loads.approved && p !in Targets(tree, targets)
  }

  /** What a mount takes up. */
  function Mounted(s: State, f: SeenOp, world: string, terms: Terms): set<string> {
    AutoTargets(Seen(s, f.first), world, terms)
  }

  predicate Takes(named: set<string>, saves: nat, loads: Loads, p: string) {
    saves >= 1 && (p in named || !loads.approved)
  }

  /** The step takes the approval of `p` away. */
  predicate Loses(s: State, f: SeenOp, p: string) {
    match f.op
    case Approve(paths, _, saves) => Overwrites(s.tree, paths, saves, f.loads, p)
    case Revoke(paths, _, saves) => Takes(Named(paths), saves, f.loads, p)
    case RevokeAuto(saves) => Takes(Named(AutoPaths(Seen(s, f.first).approved)), saves, f.loads, p)
    case AutoApprove(world, terms, _, saves) =>
      Mounted(s, f, world, terms) != {} && Overwrites(s.tree, Mounted(s, f, world, terms), saves, f.loads, p)
    case Bootstrap(staged, terms, _, dryRun, saves) =>
      s.tree.present && !dryRun
      && (if staged.Some? && staged.value != "" && terms != [] then
            Mounted(s, f, staged.value, terms) != {} && Overwrites(s.tree, Mounted(s, f, staged.value, terms), saves, f.loads, p)
          else Overwrites(s.tree, {}, saves, f.loads, p))
    case Prune(saves) => f.loads.approved && s.tree.present && saves >= 1 && !s.tree.isFile(p)
    case _ => false
  }

  lemma ApproveSeenApproved(s: State, paths: set<string>, record: Record, saves: nat, loads: Loads, p: string)
    ensures var after := ApproveSeen(s, paths, record, saves, loads);
            && (p in s.approved ==> (p in after.approved <==> !Overwrites(s.tree, paths, saves, loads, p)))
            && (p !in s.approved ==> (p in after.approved <==> saves >= 1 && p in Targets(s.tree, paths)))
            && (p in after.approved ==>
                  after.approved[p] == if saves >= 1 && p in Targets(s.tree, paths) then record else s.approved[p])
            && (after.manifest <==> s.manifest || saves >= 1)
  {
  }

  lemma RevokeSeenApproved(s: State, named: set<string>, sticky: bool, saves: nat, loads: Loads, p: string)
    ensures var after := RevokeSeenNamed(s, named, sticky, saves, loads);
            && (p in after.approved <==> p in s.approved && !Takes(named, saves, loads, p))
            && (p in after.approved ==> after.approved[p] == s.approved[p])
            && (after.manifest <==> s.manifest || saves >= 1)
  {
  }

  lemma PruneSeenApproved(s: State, f: SeenOp, p: string)
    requires f.op.Prune?
    ensures var after := StepSeen(s, f);
            && (p in after.approved <==> p in s.approved && !Loses(s, f, p))
            && (p in after.approved ==> after.approved[p] == s.approved[p])
            && after.manifest == s.manifest
  {
  }

  /** The pages a step approves. */
  function Approves(s: State, f: SeenOp): set<string> {
    match f.op
    case Approve(paths, _, saves) => if saves >= 1 then Targets(s.tree, paths) else {}
    case AutoApprove(world, terms, _, saves) => if saves >= 1 then Mounted(s, f, world, terms) else {}
    case Bootstrap(staged, terms, _, dryRun, saves) =>
      if s.tree.present && !dryRun && staged.Some? && saves >= 1 && terms != [] && staged.value != ""
      then Mounted(s, f, staged.value, terms) else {}
    case _ => {}
  }

  lemma MountApproved(s: State, f: SeenOp, world: string, terms: Terms, approver: string, saves: nat, p: string)
    ensures var after, mounted := AutoApproveSeen(s, world, terms, approver, saves, f.first, f.loads), Mounted(s, f, world, terms);
            && (p in s.approved ==>
                  (p in after.approved <==> !(mounted != {} && Overwrites(s.tree, mounted, saves, f.loads, p))))
            && (p !in s.approved ==> (p in after.approved <==> saves >= 1 && p in mounted))
            && (p in after.approved && !(saves >= 1 && p in mounted) ==> after.approved[p] == s.approved[p])
  {
    AutoTargetsAreTermPaths(Seen(s, f.first), world, terms);
    ApproveSeenApproved(s, Mounted(s, f, world, terms), Record(true, approver), saves, f.loads, p);
  }

  lemma EmptyApproval(s: State, f: SeenOp, saves: nat, p: string)
    ensures var after := ApproveSeen(s, {}, Record(false, "operator"), saves, f.loads);
            && (p in after.approved <==> p in s.approved && !Overwrites(s.tree, {}, saves, f.loads, p))
            && (p in after.approved ==> after.approved[p] == s.approved[p])
  {
    assert Targets(s.tree, {}) == {};
    ApproveSeenApproved(s, {}, Record(false, "operator"), saves, f.loads, p);
  }

  lemma BootstrapApproved(s: State, f: SeenOp, p: string)
    requires f.op.Bootstrap?
    ensures var after := StepSeen(s, f);
            && (p in s.approved ==> (p in after.approved <==> !Loses(s, f, p)))
            && (p !in s.approved ==> (p in after.approved <==> p in Approves(s, f)))
            && (p in after.approved && p !in Approves(s, f) ==> after.approved[p] == s.approved[p])
  {
    var op := f.op;
    if op.staged.Some? && op.staged.value != "" && op.terms != [] {
      MountApproved(s, f, op.staged.value, op.terms, op.approver, op.saves, p);
    } else {
      EmptyApproval(s, f, op.saves, p);
    }
  }

  lemma RevokesApproved(s: State, f: SeenOp, p: string)
    requires f.op.Revoke? || f.op.RevokeAuto?
    ensures var after := StepSeen(s, f);
            && (p in after.approved <==> p in s.approved && !Loses(s, f, p))
            && (p in after.approved ==> after.approved[p] == s.approved[p])
  {
    match f.op
    case Revoke(paths, sticky, saves) => RevokeSeenApproved(s, Named(paths), sticky, saves, f.loads, p);
    case RevokeAuto(saves) => RevokeSeenApproved(s, Named(AutoPaths(Seen(s, f.first).approved)), false, saves, f.loads, p);
  }

  /**
   Step by step and page by page, whatever loads and saves fail: an approval stays exactly when the step does not
   take it away, one comes exactly when the step approves the page, and the record of one that only stays is
   left as it was.
   */
  lemma ApprovedAfterIff(s: State, f: SeenOp, p: string)
    ensures var after := StepSeen(s, f);
            && (p in s.approved ==> (p in after.approved <==> !Loses(s, f, p)))
            && (p !in s.approved ==> (p in after.approved <==> p in Approves(s, f)))
            && (p in after.approved && p !in Approves(s, f) ==> after.approved[p] == s.approved[p])
  {
    match f.op {
      case Approve(paths, approver, saves) => ApproveSeenApproved(s, paths, Record(false, approver), saves, f.loads, p);
      case Revoke(_, _, _) => RevokesApproved(s, f, p);
      case RevokeAuto(_) => RevokesApproved(s, f, p);
      case AutoApprove(world, terms, approver, saves) => MountApproved(s, f, world, terms, approver, saves, p);
      case Bootstrap(_, _, _, _, _) => BootstrapApproved(s, f, p);
      case Prune(_) => PruneSeenApproved(s, f, p);
      case Reject(_, _) =>
      case TreeChanges(_) =>
    }
  }

  /** The approval holds before every step of the run and at its end. */
  predicate AlwaysApproved(s: State, ops: seq<SeenOp>, p: string)
    decreases |ops|
  {
    p in s.approved && (ops == [] || AlwaysApproved(StepSeen(s, ops[0]), ops[1..], p))
  }

  predicate NeverLoses(s: State, ops: seq<SeenOp>, p: string)
    decreases |ops|
  {
    ops == [] || (!Loses(s, ops[0], p) && NeverLoses(StepSeen(s, ops[0]), ops[1..], p))
  }

  /** Over every run, whatever loads and saves fail, an approval holds throughout exactly when no step takes it away. */
  lemma {:induction false} ApprovalHoldsIff(s: State, ops: seq<SeenOp>, p: string)
    requires p in s.approved
    ensures AlwaysApproved(s, ops, p) <==> NeverLoses(s, ops, p)
    ensures AlwaysApproved(s, ops, p) ==> p in RunSeen(s, ops).approved
    decreases |ops|
  {
    if ops != [] {
      ApprovedAfterIff(s, ops[0], p);
      if !Loses(s, ops[0], p) {
        ApprovalHoldsIff(StepSeen(s, ops[0]), ops[1..], p);
      }
    }
  }

  /** One failed load of the approvals is enough: revoking a page, whichever, then revokes them all. */
  lemma FailedLoadRevokesAll(s: State, paths: set<string>, sticky: bool, saves: nat, loads: Loads)
    requires saves >= 1 && !loads.approved
    ensures RevokeSeen(s, paths, sticky, saves, loads).approved == map[]
  {
  }

  // ----- runs without failed loads -----

  function Seeing(ops: seq<Op>): (seen: seq<SeenOp>)
    ensures |seen| == |ops|
  {
    if ops == [] then [] else [SeenOp(ops[0], ALL, ALL)] + Seeing(ops[1..])
  }

  /** Where every load works a run is one of the gate without faults. */
  lemma {:induction false} RunSeenAll(s: State, ops: seq<Op>)
    ensures RunSeen(s, Seeing(ops)) == RunOps(s, ops)
    decreases |ops|
  {
    if ops != [] {
      SeenAllIsStep(s, ops[0]);
      RunSeenAll(Step(s, ops[0]), ops[1..]);
      assert Seeing(ops)[1..] == Seeing(ops[1..]);
    }
  }

  // ----- the manifest and the reported state -----

  lemma StepKeepsManifest(s: State, f: SeenOp, p: string)
    requires s.approved != map[] ==> s.manifest
    ensures p in StepSeen(s, f).approved ==> StepSeen(s, f).manifest
    ensures s.manifest ==> StepSeen(s, f).manifest
  {
    ApprovedAfterIff(s, f, p);
    match f.op {
      case Approve(paths, approver, saves) => ApproveSeenApproved(s, paths, Record(false, approver), saves, f.loads, p);
      case Revoke(paths, sticky, saves) => RevokeSeenApproved(s, Named(paths), sticky, saves, f.loads, p);
      case RevokeAuto(saves) => RevokeSeenApproved(s, Named(AutoPaths(Seen(s, f.first).approved)), false, saves, f.loads, p);
      case AutoApprove(world, terms, approver, saves) =>
        ApproveSeenApproved(s, Mounted(s, f, world, terms), Record(true, approver), saves, f.loads, p);
      case Bootstrap(staged, terms, approver, _, saves) =>
        if staged.Some? {
          ApproveSeenApproved(s, Mounted(s, f, staged.value, terms), Record(true, approver), saves, f.loads, p);
        }
        ApproveSeenApproved(s, {}, Record(false, "operator"), saves, f.loads, p);
      case _ =>
    }
  }

  /** In every reachable state approvals have a manifest, and a manifest once written stays. */
  lemma {:induction false} ApprovedMeansManifest(s: State, ops: seq<SeenOp>)
    requires s.approved != map[] ==> s.manifest
    ensures var after := RunSeen(s, ops); (after.approved != map[] ==> after.manifest) && (s.manifest ==> after.manifest)
    decreases |ops|
  {
    if ops != [] {
      var next := StepSeen(s, ops[0]);
      StepKeepsManifest(s, ops[0], "");
      if next.approved != map[] {
        var p :| p in next.approved;
        StepKeepsManifest(s, ops[0], p);
      }
      ApprovedMeansManifest(next, ops[1..]);
    }
  }

  /** Something approved that a search can still find; where the root is missing, anything approved. */
  predicate HasLive(s: State) {
    exists p :: p in s.approved && (s.tree.present ==> s.tree.isFile(p))
  }

  /** The reported state, one by one. */
  lemma GateStateIff(s: State, enabled: bool)
    ensures GateState(s, enabled) == Off <==> !enabled
    ensures GateState(s, enabled) == Unbootstrapped <==> enabled && !s.manifest
    ensures GateState(s, enabled) == Populated <==> enabled && s.manifest && HasLive(s)
    ensures GateState(s, enabled) == Empty <==> enabled && s.manifest && !HasLive(s)
  {
    if HasLive(s) {
      var p :| p in s.approved && (s.tree.present ==> s.tree.isFile(p));
      assert p in s.approved.Keys - Dangling(s);
    } else {
      assert s.approved.Keys - Dangling(s) == {};
    }
  }

  /** An approval that admits a page of the tree leaves the gate populated. */
  lemma ApprovingPopulates(s: State, paths: set<string>, record: Record, saves: nat, loads: Loads)
    requires saves >= 1 && Targets(s.tree, paths) != {}
    ensures GateState(ApproveSeen(s, paths, record, saves, loads), true) == Populated
  {
    var after := ApproveSeen(s, paths, record, saves, loads);
    var p :| p in Targets(s.tree, paths);
    ApproveSeenApproved(s, paths, record, saves, loads, p);
    TargetIsFile(s.tree, paths, p);
    assert p in after.approved && s.tree.isFile(p);
    GateStateIff(after, true);
  }

  lemma TargetIsFile(tree: Tree, paths: set<string>, p: string)
    requires p in Targets(tree, paths)
    ensures tree.isFile(p) && IsCandidate(p)
  {
  }
}
