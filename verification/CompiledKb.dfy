/**
 The gate of the compiled knowledge base (src/arail/compiled_kb.py): the approved, rejected and
 unapproved files as a state machine over operator steps, mount-time steps, rollback and pruning. Any save
 may fail; loads that fail are in GateReads.
 */
module CompiledKb {
  import opened Basics

  // ----- paths -----

  function Slashes(s: string): (t: string)
    ensures |t| == |s| && forall i :: 0 <= i < |s| ==> t[i] == if s[i] == '\\' then '/' else s[i]
  {
    seq(|s|, i requires 0 <= i < |s| => if s[i] == '\\' then '/' else s[i])
  }

  function StripLeft(s: string): (t: string)
    ensures t == "" || !IsSpace(t[0])
    ensures s == "" || !IsSpace(s[0]) ==> t == s
  {
    if s == "" || !IsSpace(s[0]) then s else StripLeft(s[1..])
  }

  function StripRight(s: string): (t: string)
    ensures t == "" || !IsSpace(t[|t| - 1])
    ensures s == "" || !IsSpace(s[|s| - 1]) ==> t == s
  {
    if s == "" || !IsSpace(s[|s| - 1]) then s else StripRight(s[..|s| - 1])
  }

  function StripSlashes(s: string): (t: string)
    ensures t == "" || t[0] != '/'
    ensures s == "" || s[0] != '/' ==> t == s
  {
    if s == "" || s[0] != '/' then s else StripSlashes(s[1..])
  }

  /** How every step reads a path it is given. */
  function Normal(raw: string): string {
    StripSlashes(StripRight(StripLeft(Slashes(raw))))
  }

  /** Some component of the path is `..`. */
  predicate HasDotDot(rel: string) {
    exists i :: 0 <= i <= |rel| - 2 && IsDotDotAt(rel, i)
  }

  predicate IsDotDotAt(rel: string, i: int)
    requires 0 <= i <= |rel| - 2
  {
    && rel[i] == '.' && rel[i + 1] == '.'
    && (i == 0 || rel[i - 1] == '/') && (i + 2 == |rel| || rel[i + 2] == '/')
  }

  /** `_clean_rel`; None stands for its ValueError. */
  function CleanRel(raw: string): (rel: Option<string>)
    ensures rel.Some? ==> rel.value == Normal(raw) && rel.value != ""
  {
    var rel := Normal(raw);
    if HasDotDot(rel) || rel == "" then None else Some(rel)
  }

  predicate StartsWith(s: string, prefix: string) {
    prefix <= s
  }

  /** `str.lower` of a character, as far as an ASCII letter can come of it. */
  function LowerChar(c: char): string {
    if 'A' <= c <= 'Z' then [c - 'A' + 'a']
    else if c == '\U{212A}' then "k"
    else if c == '\U{0130}' then "i\U{0307}"
    else [c]
  }

  function Lower(s: string): string {
    if s == "" then "" else LowerChar(s[0]) + Lower(s[1..])
  }

  /** The last component of a path. */
  function FileName(rel: string): string {
    if rel == "" then ""
    else if rel[|rel| - 1] == '/' then FileName(rel[..|rel| - 1])
    else LastPart(rel)
  }

  function LastPart(rel: string): string {
    if rel == "" || rel[|rel| - 1] == '/' then "" else LastPart(rel[..|rel| - 1]) + [rel[|rel| - 1]]
  }

  /** `Path.suffix` of a file name. */
  function Suffix(name: string, at: nat): string
    requires at <= |name|
  {
    if at <= 1 then ""
    else if name[at - 1] == '.' then if at == |name| then "" else name[at - 1..]
    else Suffix(name, at - 1)
  }

  predicate HasHiddenPart(rel: string) {
    StartsWith(rel, ".") || exists i :: 0 <= i < |rel| - 1 && rel[i] == '/' && rel[i + 1] == '.'
  }

  /** `_is_candidate`. */
  predicate IsCandidate(rel: string) {
    && !StartsWith(rel, "compiled/")
    && !HasHiddenPart(rel)
    && rel != "index.md"
    && Lower(Suffix(FileName(rel), |FileName(rel)|)) in {".md", ".markdown", ".txt"}
    && Lower(FileName(rel)) !in {"agent.md", "decisions.md", "readme.md", "skill.md"}
  }

  // ----- the state -----

  datatype Record = Record(auto: bool, approvedBy: string)

  /** What the gate reads and does not write: the tree under the root, and the two opt-outs as one flag. */
  datatype Tree = Tree(present: bool, isFile: string -> bool, autoDisabled: bool)

  datatype State = State(
    manifest: bool, approved: map<string, Record>, rejected: set<string>, unapproved: set<string>, tree: Tree)

  // ----- the steps -----

  predicate Admitted(tree: Tree, raw: string) {
    var rel := CleanRel(raw);
    rel.Some? && IsCandidate(rel.value) && tree.isFile(rel.value)
  }

  /** The paths a call of `approve` approves. */
  function Targets(tree: Tree, paths: set<string>): set<string> {
    set raw | raw in paths && Admitted(tree, raw) :: Normal(raw)
  }

  function Overlay(approved: map<string, Record>, targets: set<string>, record: Record): map<string, Record> {
    map p | p in approved.Keys + targets :: if p in targets then record else approved[p]
  }

  /** `approve`, when its first `saves` saves work and the next one raises. */
  function ApproveStep(s: State, paths: set<string>, record: Record, saves: nat): State {
    var targets := Targets(s.tree, paths);
    State(
      s.manifest || saves >= 1,
      if saves >= 1 then Overlay(s.approved, targets, record) else s.approved,
      if saves >= 2 then s.rejected - targets else s.rejected,
      if saves >= 3 then s.unapproved - targets else s.unapproved,
      s.tree)
  }

  function Cleaned(paths: set<string>): set<string> {
    set raw | raw in paths && CleanRel(raw).Some? :: Normal(raw)
  }

  function RejectStep(s: State, paths: set<string>, saves: nat): State {
    if saves == 0 then s else s.(rejected := s.rejected + Cleaned(paths))
  }

  function Named(paths: set<string>): set<string> {
    set raw | raw in paths :: Normal(raw)
  }

  function RevokeNamed(s: State, named: set<string>, sticky: bool, saves: nat): State {
    State(
      s.manifest || saves >= 1,
      if saves >= 1 then s.approved - named else s.approved,
      s.rejected,
      if saves >= 2 && sticky && named * s.approved.Keys != {} then s.unapproved + named else s.unapproved,
      s.tree)
  }

  function RevokeStep(s: State, paths: set<string>, sticky: bool, saves: nat): State {
    RevokeNamed(s, Named(paths), sticky, saves)
  }

  function AutoPaths(approved: map<string, Record>): set<string> {
    set p | p in approved && approved[p].auto
  }

  function RevokeAutoStep(s: State, saves: nat): State {
    RevokeStep(s, AutoPaths(s.approved), false, saves)
  }

  function Live(s: State): map<string, Record> {
    map p | p in s.approved && s.tree.isFile(p) :: s.approved[p]
  }

  function PruneStep(s: State, saves: nat): State {
    if !s.tree.present || saves == 0 then s else s.(approved := Live(s))
  }

  // ----- automatic approval -----

  predicate SlugChar(c: char) {
    'a' <= c <= 'z' || '0' <= c <= '9' || c == '-'
  }

  /** `^[a-z0-9][a-z0-9-]*$`, whose `$` also lets one final newline by. */
  predicate WorldSlug(slug: string) {
    && slug != "" && slug[0] != '-' && SlugChar(slug[0])
    && forall i :: 1 <= i < |slug| ==> SlugChar(slug[i]) || (slug[i] == '\n' && i == |slug| - 1)
  }

  /** The substitution in `_safe_term_slug`: each run of other characters becomes one dash. */
  function Dashed(s: string, inRun: bool): (t: string)
    ensures forall i :: 0 <= i < |t| ==> SlugChar(t[i])
  {
    if s == "" then ""
    else if SlugChar(s[0]) then [s[0]] + Dashed(s[1..], false)
    else (if inRun then "" else "-") + Dashed(s[1..], true)
  }

  function StripDashesLeft(s: string): (t: string)
    requires forall i :: 0 <= i < |s| ==> SlugChar(s[i])
    ensures forall i :: 0 <= i < |t| ==> SlugChar(t[i])
  {
    if s == "" || s[0] != '-' then s else StripDashesLeft(s[1..])
  }

  function StripDashesRight(s: string): (t: string)
    requires forall i :: 0 <= i < |s| ==> SlugChar(s[i])
    ensures forall i :: 0 <= i < |t| ==> SlugChar(t[i])
  {
    if s == "" || s[|s| - 1] != '-' then s else StripDashesRight(s[..|s| - 1])
  }

  /** `_safe_term_slug`. */
  function SafeTermSlug(raw: string): (slug: string)
    ensures |slug| <= 80 && forall i :: 0 <= i < |slug| ==> SlugChar(slug[i])
  {
    var slug := StripDashesRight(StripDashesLeft(Dashed(Lower(raw), false)));
    if |slug| <= 80 then slug else slug[..80]
  }

  function TermPath(world: string, slug: string): string {
    "sources/world-" + world + "/terms/" + slug + ".md"
  }

  /** A world's staged term page. */
  ghost predicate IsTermPath(rel: string) {
    exists world, slug :: IsTermPathOf(rel, world, slug)
  }

  predicate IsTermPathOf(rel: string, world: string, slug: string) {
    && WorldSlug(world) && slug != "" && (forall i :: 0 <= i < |slug| ==> SlugChar(slug[i]))
    && rel == TermPath(world, slug)
  }

  /** The terms of a bundle: the `slug` of each, None for one that is not an object. */
  type Terms = seq<Option<string>>

  predicate AutoCandidate(s: State, world: string, term: Option<string>) {
    && term.Some?
    && var slug := SafeTermSlug(term.value);
       && slug != ""
       && TermPath(world, slug) !in s.rejected + s.unapproved
       && IsCandidate(TermPath(world, slug)) && s.tree.isFile(TermPath(world, slug))
  }

  /** The paths `auto_approve_world_terms` hands to `approve`. */
  function AutoTargets(s: State, world: string, terms: Terms): set<string> {
    if !WorldSlug(world) || s.tree.autoDisabled then {}
    else set term | term in terms && AutoCandidate(s, world, term) :: TermPath(world, SafeTermSlug(term.value))
  }

  function AutoApproveStep(s: State, world: string, terms: Terms, approver: string, saves: nat): State {
    var targets := AutoTargets(s, world, terms);
    if targets == {} then s else ApproveStep(s, targets, Record(true, approver), saves)
  }

  /** `bootstrap`, with the staged world's slug and what the catalog says its terms are. */
  function BootstrapStep(
    s: State, staged: Option<string>, terms: Terms, approver: string, dryRun: bool, saves: nat): State
  {
    if !s.tree.present || dryRun then s
    else if staged.Some? && staged.value != "" && terms != [] then AutoApproveStep(s, staged.value, terms, approver, saves)
    else ApproveStep(s, {}, Record(false, "operator"), saves)
  }

  datatype Op =
    | Approve(paths: set<string>, approver: string, saves: nat)
    | Reject(paths: set<string>, saves: nat)
    | Revoke(paths: set<string>, sticky: bool, saves: nat)
    | RevokeAuto(saves: nat)
    | AutoApprove(world: string, terms: Terms, approver: string, saves: nat)
    | Bootstrap(staged: Option<string>, terms: Terms, approver: string, dryRun: bool, saves: nat)
    | Prune(saves: nat)
    | TreeChanges(tree: Tree)

  function Step(s: State, op: Op): State {
    match op
    case Approve(paths, approver, saves) => ApproveStep(s, paths, Record(false, approver), saves)
    case Reject(paths, saves) => RejectStep(s, paths, saves)
    case Revoke(paths, sticky, saves) => RevokeStep(s, paths, sticky, saves)
    case RevokeAuto(saves) => RevokeAutoStep(s, saves)
    case AutoApprove(world, terms, approver, saves) => AutoApproveStep(s, world, terms, approver, saves)
    case Bootstrap(staged, terms, approver, dryRun, saves) => BootstrapStep(s, staged, terms, approver, dryRun, saves)
    case Prune(saves) => PruneStep(s, saves)
    case TreeChanges(tree) => s.(tree := tree)
  }

  function RunOps(s: State, ops: seq<Op>): State
    decreases |ops|
  {
    if ops == [] then s else RunOps(Step(s, ops[0]), ops[1..])
  }

  // ----- term pages are named by themselves -----

  lemma TermPathLetters(world: string, slug: string, i: nat)
    requires IsTermPathOf(TermPath(world, slug), world, slug) && i < |TermPath(world, slug)|
    ensures var path := TermPath(world, slug);
            && path[i] != '\\' && (path[i] == '.' <==> i == |path| - 3)
  {
  }

  /** Cleaning a term page's path changes nothing, so what the automatic step checked is what it approves. */
  lemma TermPathIsClean(world: string, slug: string)
    requires IsTermPathOf(TermPath(world, slug), world, slug)
    ensures Normal(TermPath(world, slug)) == TermPath(world, slug)
    ensures CleanRel(TermPath(world, slug)) == Some(TermPath(world, slug))
  {
    var path := TermPath(world, slug);
    forall i | 0 <= i < |path| ensures path[i] != '\\' && (path[i] == '.' <==> i == |path| - 3) {
      TermPathLetters(world, slug, i);
    }
    assert Slashes(path) == path;
    assert path[0] == 's' && path[|path| - 1] == 'd';
    assert !HasDotDot(path);
  }

  lemma AutoTargetsAreTermPaths(s: State, world: string, terms: Terms)
    ensures forall p :: p in AutoTargets(s, world, terms) ==>
              IsTermPath(p) && CleanRel(p) == Some(p) && p !in s.rejected + s.unapproved
    ensures Targets(s.tree, AutoTargets(s, world, terms)) == AutoTargets(s, world, terms)
  {
    forall p | p in AutoTargets(s, world, terms)
      ensures IsTermPath(p) && CleanRel(p) == Some(p) && Normal(p) == p && p !in s.rejected + s.unapproved
      ensures Admitted(s.tree, p)
    {
      var term :| term in terms && AutoCandidate(s, world, term) && p == TermPath(world, SafeTermSlug(term.value));
      assert IsTermPathOf(p, world, SafeTermSlug(term.value));
      TermPathIsClean(world, SafeTermSlug(term.value));
    }
  }

  // ----- a sticky revocation stays -----

  /** Revoked, and remembered as revoked. */
  predicate Protected(s: State, p: string) {
    p in s.unapproved && p !in s.approved
  }

  /** The operator approves this path by name. */
  predicate OperatorNames(op: Op, p: string) {
    op.Approve? && exists raw :: raw in op.paths && CleanRel(raw) == Some(p)
  }

  /**
   When a sticky revocation of a path is remembered: exactly when it already was, or both saves worked and
   the call took some approved path away. Revoking only paths that are not approved is forgotten.
   */
  lemma RevokeRemembersIff(s: State, paths: set<string>, saves: nat, p: string)
    requires p in Named(paths)
    ensures Protected(RevokeStep(s, paths, true, saves), p) <==>
            || (saves >= 1 && p in s.unapproved)
            || (p in s.unapproved && p !in s.approved)
            || (saves >= 2 && exists q :: q in Named(paths) && q in s.approved)
  {
    if q :| q in Named(paths) && q in s.approved {
      assert q in Named(paths) * s.approved.Keys;
    } else {
      assert Named(paths) * s.approved.Keys == {};
    }
  }

  /** The operator's own approval brings a path back exactly when some name for it is admitted and the first save works. */
  lemma OperatorBringsBackIff(s: State, paths: set<string>, approver: string, saves: nat, p: string)
    requires Protected(s, p)
    ensures p in Step(s, Approve(paths, approver, saves)).approved <==>
            saves >= 1 && exists raw :: raw in paths && Normal(raw) == p && Admitted(s.tree, raw)
  {
  }

  /** A mount that runs through approves exactly the pages it admits, on top of what was approved. */
  lemma AutoApproves(s: State, world: string, terms: Terms, approver: string, p: string)
    ensures var after := AutoApproveStep(s, world, terms, approver, 3);
            && (p in after.approved <==> p in s.approved || p in AutoTargets(s, world, terms))
            && (p in AutoTargets(s, world, terms) ==> after.approved[p] == Record(true, approver))
            && (p in s.approved && p !in AutoTargets(s, world, terms) ==> after.approved[p] == s.approved[p])
    ensures AutoApproveStep(s, world, terms, approver, 3).rejected == s.rejected
    ensures AutoApproveStep(s, world, terms, approver, 3).unapproved == s.unapproved
  {
    AutoTargetsAreTermPaths(s, world, terms);
  }

  lemma RevokeStepUnsticky(s: State, p: string)
    requires p in s.approved && Normal(p) == p
    ensures p !in RevokeStep(s, {p}, true, 1).approved
    ensures RevokeStep(s, {p}, true, 1).unapproved == s.unapproved
  {
  }

  /** A revocation whose second save failed is undone by the next mount that finds the page. */
  lemma HalfSavedRevokeIsUndone(s: State, world: string, terms: Terms, approver: string, p: string)
    requires p in s.approved && p in AutoTargets(s, world, terms)
    ensures var after := RevokeStep(s, {p}, true, 1);
            p !in after.approved && p in AutoApproveStep(after, world, terms, approver, 3).approved
  {
    AutoTargetsAreTermPaths(s, world, terms);
    RevokeStepUnsticky(s, p);
    var after := RevokeStep(s, {p}, true, 1);
    SameAutoTargets(s, after, world, terms);
    AutoApproves(after, world, terms, approver, p);
  }

  lemma SameAutoTargets(s: State, t: State, world: string, terms: Terms)
    requires s.rejected == t.rejected && s.unapproved == t.unapproved && s.tree == t.tree
    ensures AutoTargets(s, world, terms) == AutoTargets(t, world, terms)
  {
  }

  // ----- nothing else gets in -----

  /** Approvals the mechanism made are of term pages. */
  ghost predicate AutoMeansTerm(s: State) {
    forall p :: p in s.approved && s.approved[p].auto ==> IsTermPath(p)
  }

  lemma AutoApproveAdds(s: State, world: string, terms: Terms, approver: string, saves: nat, p: string)
    requires p in AutoApproveStep(s, world, terms, approver, saves).approved
    ensures var after := AutoApproveStep(s, world, terms, approver, saves);
            (p in s.approved && after.approved[p] == s.approved[p]) || (IsTermPath(p) && after.approved[p].auto)
  {
    AutoTargetsAreTermPaths(s, world, terms);
  }

  /** What one step can put among the approved. */
  lemma StepAdds(s: State, op: Op, p: string)
    requires p in Step(s, op).approved
    ensures var after := Step(s, op);
            || (p in s.approved && after.approved[p] == s.approved[p])
            || (OperatorNames(op, p) && !after.approved[p].auto)
            || (IsTermPath(p) && after.approved[p].auto)
  {
    match op
    case AutoApprove(world, terms, approver, saves) => AutoApproveAdds(s, world, terms, approver, saves, p);
    case Bootstrap(staged, terms, approver, dryRun, saves) =>
      if s.tree.present && !dryRun && staged.Some? && staged.value != "" && terms != [] {
        AutoApproveAdds(s, staged.value, terms, approver, saves, p);
      } else {
        assert Targets(s.tree, {}) == {};
      }
    case _ =>
  }

  ghost predicate OperatorNamesIn(ops: seq<Op>, p: string) {
    exists i :: 0 <= i < |ops| && OperatorNames(ops[i], p)
  }

  /** Over whole runs: a path enters the approved set only if the operator named it or it is a term page. */
  lemma {:induction false} OnlyNamedOrTermsEnter(s: State, ops: seq<Op>, p: string)
    requires p in RunOps(s, ops).approved
    ensures p in s.approved || OperatorNamesIn(ops, p) || IsTermPath(p)
    decreases |ops|
  {
    if ops != [] {
      OnlyNamedOrTermsEnter(Step(s, ops[0]), ops[1..], p);
      if p in Step(s, ops[0]).approved {
        StepAdds(s, ops[0], p);
        assert OperatorNames(ops[0], p) ==> OperatorNamesIn(ops, p);
      } else if OperatorNamesIn(ops[1..], p) {
        var i :| 0 <= i < |ops[1..]| && OperatorNames(ops[1..][i], p);
        assert OperatorNames(ops[i + 1], p);
      }
    }
  }

  lemma {:induction false} AutoMeansTermAlways(s: State, ops: seq<Op>)
    requires AutoMeansTerm(s)
    ensures AutoMeansTerm(RunOps(s, ops))
    decreases |ops|
  {
    if ops != [] {
      forall p | p in Step(s, ops[0]).approved && Step(s, ops[0]).approved[p].auto ensures IsTermPath(p) {
        StepAdds(s, ops[0], p);
      }
      AutoMeansTermAlways(Step(s, ops[0]), ops[1..]);
    }
  }

  // ----- rollback -----

  /** Rolling the mechanism back removes exactly its own approvals and remembers none of them as revoked. */
  lemma RollbackRemovesAuto(s: State, saves: nat, p: string)
    requires AutoMeansTerm(s) && saves >= 1
    ensures p in RevokeAutoStep(s, saves).approved <==> p in s.approved && !s.approved[p].auto
    ensures RevokeAutoStep(s, saves).unapproved == s.unapproved
  {
    forall q | q in AutoPaths(s.approved) ensures Normal(q) == q {
      var world, slug :| IsTermPathOf(q, world, slug);
      TermPathIsClean(world, slug);
    }
    assert Named(AutoPaths(s.approved)) == AutoPaths(s.approved);
  }

  /** Rolled back and mounted again, the world's terms return: what is approved is the operator's and the mount's. */
  lemma RollbackThenMount(s: State, saves: nat, world: string, terms: Terms, approver: string, p: string)
    requires AutoMeansTerm(s) && saves >= 1
    ensures var after := AutoApproveStep(RevokeAutoStep(s, saves), world, terms, approver, 3);
            p in after.approved <==>
            (p in s.approved && !s.approved[p].auto) || p in AutoTargets(s, world, terms)
  {
    RollbackRemovesAuto(s, saves, p);
    SameAutoTargets(s, RevokeAutoStep(s, saves), world, terms);
    AutoApproves(RevokeAutoStep(s, saves), world, terms, approver, p);
  }

  /**
   An operator's approval outlives a mount and a rollback exactly when the mount did not admit that page:
   a mount stamps the pages it admits as its own, the operator's among them.
   */
  lemma OperatorApprovalSurvivesIff(s: State, saves: nat, world: string, terms: Terms, approver: string, p: string)
    requires AutoMeansTerm(s) && saves >= 1 && p in s.approved && !s.approved[p].auto
    ensures p in RevokeAutoStep(AutoApproveStep(s, world, terms, approver, 3), saves).approved <==>
            p !in AutoTargets(s, world, terms)
  {
    var mounted := AutoApproveStep(s, world, terms, approver, 3);
    MountKeepsAutoMeansTerm(s, world, terms, approver);
    AutoApproves(s, world, terms, approver, p);
    RollbackRemovesAuto(mounted, saves, p);
  }

  lemma MountKeepsAutoMeansTerm(s: State, world: string, terms: Terms, approver: string)
    requires AutoMeansTerm(s)
    ensures AutoMeansTerm(AutoApproveStep(s, world, terms, approver, 3))
  {
    forall p | p in AutoApproveStep(s, world, terms, approver, 3).approved
               && AutoApproveStep(s, world, terms, approver, 3).approved[p].auto
      ensures IsTermPath(p)
    {
      AutoApproveAdds(s, world, terms, approver, 3, p);
    }
  }

  // ----- pruning -----

  /** Pruning takes away dead approvals only, and a second prune finds none. */
  lemma PruneKeepsLive(s: State, saves: nat)
    ensures Live(PruneStep(s, saves)) == Live(s)
    ensures PruneStep(PruneStep(s, saves), saves) == PruneStep(s, saves)
    ensures s.tree.present && saves >= 1 ==> forall p :: p in PruneStep(s, saves).approved ==> s.tree.isFile(p)
  {
  }

  datatype GateSummary = Off | Unbootstrapped | Empty | Populated

  /** `dangling_paths`: none when the root is not there. */
  function Dangling(s: State): set<string> {
    if s.tree.present then set p | p in s.approved && !s.tree.isFile(p) else {}
  }

  /** `gate_state`. */
  function GateState(s: State, enabled: bool): GateSummary {
    if !enabled then Off
    else if !s.manifest then Unbootstrapped
    else if s.approved.Keys - Dangling(s) == {} then Empty
    else Populated
  }

  lemma PruneKeepsGateState(s: State, saves: nat, enabled: bool)
    ensures GateState(PruneStep(s, saves), enabled) == GateState(s, enabled)
    ensures s.tree.present && saves >= 1 ==> Dangling(PruneStep(s, saves)) == {}
  {
  }

  // ----- bootstrap -----

  /**
   Bootstrap leaves a manifest exactly when there was one, or its first save works and the root is there and there
   are no terms or some term qualifies.
   */
  lemma BootstrapWritesManifestIff(s: State, staged: Option<string>, terms: Terms, approver: string, saves: nat)
    ensures BootstrapStep(s, staged, terms, approver, false, saves).manifest <==>
            || s.manifest
            || (saves >= 1 && s.tree.present
                && (staged.None? || staged.value == "" || terms == [] || AutoTargets(s, staged.value, terms) != {}))
    ensures BootstrapStep(s, staged, terms, approver, true, saves) == s
  {
  }

  /** A mount run twice does what it did once. */
  lemma MountTwice(s: State, world: string, terms: Terms, approver: string)
    ensures var once := AutoApproveStep(s, world, terms, approver, 3);
            AutoApproveStep(once, world, terms, approver, 3) == once
  {
    var once := AutoApproveStep(s, world, terms, approver, 3);
    AutoApproves(s, world, terms, approver, "");
    SameAutoTargets(s, once, world, terms);
    AutoTargetsAreTermPaths(s, world, terms);
    OverlayTwice(s.approved, AutoTargets(s, world, terms), Record(true, approver));
    assert once.rejected - AutoTargets(s, world, terms) == once.rejected;
    assert once.unapproved - AutoTargets(s, world, terms) == once.unapproved;
  }

  lemma OverlayTwice(approved: map<string, Record>, targets: set<string>, record: Record)
    ensures Overlay(Overlay(approved, targets, record), targets, record) == Overlay(approved, targets, record)
  {
  }

  // ----- approved and unapproved do not meet -----

  /** Every save of the step works. */
  predicate Complete(op: Op) {
    !op.TreeChanges? ==> op.saves >= 3
  }

  lemma StepKeepsApart(s: State, op: Op, p: string)
    requires Complete(op) && !(p in s.approved && p in s.unapproved)
    ensures !(p in Step(s, op).approved && p in Step(s, op).unapproved)
  {
  }

  /** Where no save fails, no path is both approved and remembered as revoked. */
  lemma {:induction false} ApartAlways(s: State, ops: seq<Op>, p: string)
    requires forall i :: 0 <= i < |ops| ==> Complete(ops[i])
    requires !(p in s.approved && p in s.unapproved)
    ensures !(p in RunOps(s, ops).approved && p in RunOps(s, ops).unapproved)
    decreases |ops|
  {
    if ops != [] {
      StepKeepsApart(s, ops[0], p);
      ApartAlways(Step(s, ops[0]), ops[1..], p);
    }
  }
}
