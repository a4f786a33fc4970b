/**
 The three files of the gate, updated in place (src/arail/compiled_kb.py): any save may raise, and any
 load may fail and give nothing.
 */
module GateFiles {
  import opened Basics
  import opened CompiledKb
  import opened GateReads

  lemma TargetsStep(tree: Tree, paths: set<string>, raw: string)
    ensures Targets(tree, paths + {raw}) == Targets(tree, paths) + if Admitted(tree, raw) then {Normal(raw)} else {}
  {
  }

  lemma NamedStep(paths: set<string>, raw: string)
    ensures Named(paths + {raw}) == Named(paths) + {Normal(raw)}
    ensures Cleaned(paths + {raw}) == Cleaned(paths) + if CleanRel(raw).Some? then {Normal(raw)} else {}
  {
  }

  /** The targets of an approval, gathered in order. */
  function TargetsOf(tree: Tree, paths: seq<string>): set<string> {
    if paths == [] then {}
    else
      var last := paths[|paths| - 1];
      TargetsOf(tree, paths[..|paths| - 1]) + if Admitted(tree, last) then {Normal(last)} else {}
  }

  function NamedOf(paths: seq<string>): set<string> {
    if paths == [] then {} else NamedOf(paths[..|paths| - 1]) + {Normal(paths[|paths| - 1])}
  }

  function CleanedOf(paths: seq<string>): set<string> {
    if paths == [] then {}
    else
      var last := CleanRel(paths[|paths| - 1]);
      CleanedOf(paths[..|paths| - 1]) + if last.Some? then {last.value} else {}
  }

  lemma {:induction false} GatheredAll(tree: Tree, paths: seq<string>)
    ensures TargetsOf(tree, paths) == Targets(tree, Elements(paths))
    ensures NamedOf(paths) == Named(Elements(paths))
    ensures CleanedOf(paths) == Cleaned(Elements(paths))
  {
    if paths != [] {
      var n := |paths| - 1;
      GatheredAll(tree, paths[..n]);
      ElementsStep(paths, n);
      assert paths[..n + 1] == paths;
      TargetsStep(tree, Elements(paths[..n]), paths[n]);
      NamedStep(Elements(paths[..n]), paths[n]);
    }
  }

  lemma TargetsOfStep(tree: Tree, paths: seq<string>, i: nat)
    requires i < |paths|
    ensures TargetsOf(tree, paths[..i + 1])
            == TargetsOf(tree, paths[..i]) + if Admitted(tree, paths[i]) then {Normal(paths[i])} else {}
  {
    assert paths[..i + 1][..i] == paths[..i];
  }

  lemma NamedOfStep(paths: seq<string>, i: nat)
    requires i < |paths|
    ensures NamedOf(paths[..i + 1]) == NamedOf(paths[..i]) + {Normal(paths[i])}
  {
    assert paths[..i + 1][..i] == paths[..i];
  }

  lemma CleanedOfStep(paths: seq<string>, i: nat)
    requires i < |paths|
    ensures CleanRel(paths[i]).Some? ==> CleanedOf(paths[..i + 1]) == CleanedOf(paths[..i]) + {CleanRel(paths[i]).value}
    ensures CleanRel(paths[i]).None? ==> CleanedOf(paths[..i + 1]) == CleanedOf(paths[..i])
  {
    assert paths[..i + 1][..i] == paths[..i];
  }

  lemma CountTaken(keys: set<string>, named: set<string>, rel: string)
    ensures |(named + {rel}) * keys| == |named * keys| + if rel in keys && rel !in named then 1 else 0
  {
    if rel in keys && rel !in named {
      assert (named + {rel}) * keys == named * keys + {rel};
    } else {
      assert (named + {rel}) * keys == named * keys;
    }
  }

  lemma TakeOut(approved: map<string, Record>, named: set<string>, rel: string)
    ensures rel in approved - named ==> approved - (named + {rel}) == (approved - named) - {rel}
                                        && |(named + {rel}) * approved.Keys| == |named * approved.Keys| + 1
    ensures rel !in approved - named ==> approved - (named + {rel}) == approved - named
                                         && |(named + {rel}) * approved.Keys| == |named * approved.Keys|
  {
    CountTaken(approved.Keys, named, rel);
  }

  lemma PutIn(rejected: set<string>, cleaned: set<string>, rel: string)
    ensures rel !in rejected + cleaned ==> rejected + (cleaned + {rel}) == rejected + cleaned + {rel}
    ensures rel in rejected + cleaned ==> rejected + (cleaned + {rel}) == rejected + cleaned
  {
  }

  lemma CountPut(rejected: set<string>, cleaned: set<string>, rel: string)
    ensures |(cleaned + {rel}) - rejected| == |cleaned - rejected| + if rel in rejected + cleaned then 0 else 1
  {
    if rel in rejected + cleaned {
      assert (cleaned + {rel}) - rejected == cleaned - rejected;
    } else {
      assert (cleaned + {rel}) - rejected == (cleaned - rejected) + {rel};
    }
  }

  lemma OverlayStep(approved: map<string, Record>, targets: set<string>, p: string, record: Record)
    ensures Overlay(approved, targets, record)[p := record] == Overlay(approved, targets + {p}, record)
  {
  }

  lemma TakenStep(dismissals: set<string>, revocations: set<string>, names: seq<string>, name: string)
    ensures Elements(names + [name]) == Elements(names) + {name}
    ensures dismissals - Elements(names) - {name} == dismissals - Elements(names + [name])
    ensures revocations - Elements(names) - {name} == revocations - Elements(names + [name])
  {
    assert Elements(names + [name]) == Elements(names) + {name};
  }

  class Gate {
    var manifest: bool
    var approved: map<string, Record>
    var rejected: set<string>
    var unapproved: set<string>
    var tree: Tree

    ghost function Abstract(): State
      reads this
    {
      State(manifest, approved, rejected, unapproved, tree)
    }

    /** The loads of a step. */
    method Load(loads: Loads) returns (approvals: map<string, Record>, dismissals: set<string>, revocations: set<string>)
      ensures Seen(Abstract(), loads) == State(manifest, approvals, dismissals, revocations, tree)
    {
      approvals := if loads.approved then approved else map[];
      dismissals := if loads.rejected then rejected else {};
      revocations := if loads.unapproved then unapproved else {};
    }

    /** The loop of `approve`. */
    static method CollectApprovals(tree: Tree, approvals: map<string, Record>, dismissals: set<string>, revocations: set<string>,
                                   paths: seq<string>, record: Record)
      returns (current: map<string, Record>, dismissed: set<string>, revoked: set<string>, added: seq<string>)
      ensures Elements(added) == TargetsOf(tree, paths)
      ensures current == Overlay(approvals, Elements(added), record)
      ensures dismissed == dismissals - Elements(added) && revoked == revocations - Elements(added)
    {
      current, dismissed, revoked, added := approvals, dismissals, revocations, [];
      for i := 0 to |paths|
        invariant Elements(added) == TargetsOf(tree, paths[..i])
        invariant current == Overlay(approvals, Elements(added), record)
        invariant dismissed == dismissals - Elements(added) && revoked == revocations - Elements(added)
      {
        TargetsOfStep(tree, paths, i);
        var rel := CleanRel(paths[i]);
        if rel.Some? && IsCandidate(rel.value) && tree.isFile(rel.value) {
          OverlayStep(approvals, Elements(added), rel.value, record);
          TakenStep(dismissals, revocations, added, rel.value);
          current := current[rel.value := record];
          dismissed, revoked := dismissed - {rel.value}, revoked - {rel.value};
          added := added + [rel.value];
        }
      }
      assert paths[..|paths|] == paths;
    }

    method ApprovePaths(paths: seq<string>, record: Record, saves: nat, loads: Loads) returns (added: seq<string>, raised: bool)
      modifies this
      ensures Abstract() == ApproveSeen(old(Abstract()), Elements(paths), record, saves, loads)
      ensures Elements(added) == Targets(old(tree), Elements(paths))
      ensures raised <==> saves < if added == [] then 2 else 3
    {
      var current, dismissed, revoked := Load(loads);
      current, dismissed, revoked, added := CollectApprovals(tree, current, dismissed, revoked, paths, record);
      GatheredAll(tree, paths);
      assert added != [] ==> added[0] in Elements(added);
      raised := SaveApprovals(current, dismissed, revoked, added != [], saves, Elements(paths), record, loads);
    }

    /** The saves of `approve`. */
    method SaveApprovals(current: map<string, Record>, dismissed: set<string>, revoked: set<string>, any: bool, saves: nat,
                         ghost paths: set<string>, ghost record: Record, ghost loads: Loads)
      returns (raised: bool)
      requires var seen, targets := Seen(Abstract(), loads), Targets(tree, paths);
               && current == Overlay(seen.approved, targets, record) && dismissed == seen.rejected - targets
               && revoked == seen.unapproved - targets && (any <==> targets != {})
      modifies this`manifest, this`approved, this`rejected, this`unapproved
      ensures Abstract() == ApproveSeen(old(Abstract()), paths, record, saves, loads)
      ensures raised <==> saves < if any then 3 else 2
    {
      raised := saves < if any then 3 else 2;
      if saves >= 1 {
        manifest, approved := true, current;
      }
      if saves >= 2 {
        rejected := dismissed;
      }
      if saves >= 3 && any {
        unapproved := revoked;
      }
    }

    /** The loop of `reject`. */
    static method CollectDismissals(dismissals: set<string>, paths: seq<string>) returns (dismissed: set<string>, n: nat)
      ensures dismissed == dismissals + CleanedOf(paths) && n == |CleanedOf(paths) - dismissals|
    {
      dismissed, n := dismissals, 0;
      ghost var cleaned := {};
      for i := 0 to |paths|
        invariant cleaned == CleanedOf(paths[..i])
        invariant dismissed == dismissals + cleaned && n == |cleaned - dismissals|
      {
        CleanedOfStep(paths, i);
        var rel := CleanRel(paths[i]);
        if rel.Some? {
          PutIn(dismissals, cleaned, rel.value);
          CountPut(dismissals, cleaned, rel.value);
          cleaned := cleaned + {rel.value};
          if rel.value !in dismissed {
            dismissed, n := dismissed + {rel.value}, n + 1;
          }
        }
      }
      assert paths[..|paths|] == paths;
    }

    method RejectPaths(paths: seq<string>, saves: nat, loads: Loads) returns (n: nat, raised: bool)
      modifies this`rejected
      ensures Abstract() == RejectSeen(old(Abstract()), Elements(paths), saves, loads)
      ensures n == |Cleaned(Elements(paths)) - Seen(old(Abstract()), loads).rejected|
      ensures raised <==> saves == 0
    {
      var approvals, dismissed, revocations := Load(loads);
      dismissed, n := CollectDismissals(dismissed, paths);
      GatheredAll(tree, paths);
      raised := saves == 0;
      if saves >= 1 {
        rejected := dismissed;
      }
    }

    static method TakeOne(current: map<string, Record>, rel: string, n: nat,
                          ghost approvals: map<string, Record>, ghost named: set<string>)
      returns (next: map<string, Record>, count: nat)
      requires current == approvals - named && n == |named * approvals.Keys|
      ensures next == approvals - (named + {rel}) && count == |(named + {rel}) * approvals.Keys|
    {
      TakeOut(approvals, named, rel);
      next, count := current, n;
      if rel in current {
        next, count := current - {rel}, n + 1;
      }
    }

    /** The loop of `revoke`. */
    static method CollectRevocations(approvals: map<string, Record>, paths: seq<string>)
      returns (current: map<string, Record>, named: set<string>, n: nat)
      ensures named == NamedOf(paths) && current == approvals - named && n == |named * approvals.Keys|
    {
      current, named, n := approvals, {}, 0;
      assert named * approvals.Keys == {} && approvals - named == approvals;
      for i := 0 to |paths|
        invariant named == NamedOf(paths[..i]) && current == approvals - named && n == |named * approvals.Keys|
      {
        NamedOfStep(paths, i);
        var rel := Normal(paths[i]);
        current, n := TakeOne(current, rel, n, approvals, named);
        named := named + {rel};
      }
      assert paths[..|paths|] == paths;
    }

    method RevokePaths(paths: seq<string>, sticky: bool, saves: nat, loads: Loads) returns (n: nat, raised: bool)
      modifies this`manifest, this`approved, this`unapproved
      ensures Abstract() == RevokeSeen(old(Abstract()), Elements(paths), sticky, saves, loads)
      ensures n == |Named(Elements(paths)) * Seen(old(Abstract()), loads).approved.Keys|
      ensures raised <==> saves < if n > 0 && sticky then 2 else 1
    {
      var approvals, dismissals, revoked := Load(loads);
      var current, named;
      current, named, n := CollectRevocations(approvals, paths);
      GatheredAll(tree, paths);
      assert n > 0 <==> named * approvals.Keys != {};
      raised := SaveRevocations(current, revoked, named, n > 0, sticky, saves, loads);
    }

    /** The saves of `revoke`. */
    method SaveRevocations(current: map<string, Record>, revoked: set<string>, named: set<string>, any: bool,
                           sticky: bool, saves: nat, ghost loads: Loads)
      returns (raised: bool)
      requires current == Seen(Abstract(), loads).approved - named && revoked == Seen(Abstract(), loads).unapproved
      requires any <==> named * Seen(Abstract(), loads).approved.Keys != {}
      modifies this`manifest, this`approved, this`unapproved
      ensures Abstract() == RevokeSeenNamed(old(Abstract()), named, sticky, saves, loads)
      ensures raised <==> saves < if any && sticky then 2 else 1
    {
      raised := saves < if any && sticky then 2 else 1;
      if saves >= 1 {
        manifest, approved := true, current;
      }
      if saves >= 2 && any && sticky {
        unapproved := revoked + named;
      }
    }

    static method ListAuto(approvals: map<string, Record>) returns (autoPaths: seq<string>)
      ensures Elements(autoPaths) == AutoPaths(approvals)
    {
      autoPaths := [];
      var left := approvals.Keys;
      while left != {}
        invariant left <= approvals.Keys
        invariant Elements(autoPaths) == AutoPaths(approvals) - left
        decreases |left|
      {
        var p :| p in left;
        if approvals[p].auto {
          assert Elements(autoPaths + [p]) == Elements(autoPaths) + {p};
          autoPaths := autoPaths + [p];
        }
        left := left - {p};
      }
    }

    method RevokeAuto(saves: nat, first: Loads, loads: Loads) returns (n: nat, raised: bool)
      modifies this
      ensures Abstract() == RevokeAutoSeen(old(Abstract()), saves, first, loads)
      ensures n == |Named(AutoPaths(Seen(old(Abstract()), first).approved)) * Seen(old(Abstract()), loads).approved.Keys|
      ensures raised <==> saves == 0
    {
      var approvals, dismissals, revocations := Load(first);
      var autoPaths := ListAuto(approvals);
      n, raised := RevokePaths(autoPaths, false, saves, loads);
    }

    /** The filter of `auto_approve_world_terms`; `s` is the gate as its loads give it. */
    static method CollectTerms(s: State, world: string, terms: Terms) returns (candidates: seq<string>)
      requires WorldSlug(world) && !s.tree.autoDisabled
      ensures Elements(candidates) == AutoTargets(s, world, terms)
      ensures candidates == [] <==> AutoTargets(s, world, terms) == {}
    {
      candidates := [];
      for i := 0 to |terms|
        invariant Elements(candidates) == AutoTargets(s, world, terms[..i])
      {
        AutoTargetsStep(s, world, terms, i);
        if terms[i].Some? {
          var slug := SafeTermSlug(terms[i].value);
          var rel := TermPath(world, slug);
          if slug != "" && rel !in s.rejected && rel !in s.unapproved && IsCandidate(rel) && s.tree.isFile(rel) {
            assert Elements(candidates + [rel]) == Elements(candidates) + {rel};
            candidates := candidates + [rel];
          }
        }
      }
      assert terms[..|terms|] == terms;
      assert candidates != [] ==> candidates[0] in Elements(candidates);
    }

    method AutoApproveTerms(world: string, terms: Terms, approver: string, saves: nat, first: Loads, loads: Loads)
      returns (added: seq<string>)
      modifies this
      ensures Abstract() == AutoApproveSeen(old(Abstract()), world, terms, approver, saves, first, loads)
      ensures Elements(added) == if saves < 3 then {} else Targets(old(tree), AutoTargets(Seen(old(Abstract()), first), world, terms))
    {
      added := [];
      if !WorldSlug(world) || tree.autoDisabled {
        return;
      }
      var approvals, dismissals, revocations := Load(first);
      var candidates := CollectTerms(State(manifest, approvals, dismissals, revocations, tree), world, terms);
      if candidates == [] {
        return;
      }
      var raised;
      added, raised := ApprovePaths(candidates, Record(true, approver), saves, loads);
      added := if raised then [] else added;
    }

    method BootstrapRoot(staged: Option<string>, terms: Terms, approver: string, dryRun: bool, saves: nat, first: Loads, loads: Loads)
      modifies this
      ensures Abstract() == BootstrapSeen(old(Abstract()), staged, terms, approver, dryRun, saves, first, loads)
    {
      if !tree.present {
        return;
      }
      if staged.Some? && staged.value != "" && terms != [] {
        if !dryRun {
          var added := AutoApproveTerms(staged.value, terms, approver, saves, first, loads);
        }
        return;
      }
      if !dryRun {
        assert Elements<string>([]) == {};
        var added, raised := ApprovePaths([], Record(false, "operator"), saves, loads);
      }
    }

    static method DropAll(approvals: map<string, Record>, dropped: set<string>) returns (current: map<string, Record>)
      ensures current == approvals - dropped
    {
      current := approvals;
      var left := dropped;
      while left != {}
        invariant left <= dropped
        invariant current == approvals - (dropped - left)
        decreases |left|
      {
        var p :| p in left;
        current, left := current - {p}, left - {p};
      }
      assert dropped - {} == dropped;
    }

    method PruneDangling(saves: nat, loads: Loads) returns (dropped: set<string>, raised: bool)
      modifies this`approved
      ensures Abstract() == PruneSeen(old(Abstract()), saves, loads)
      ensures dropped == Dangling(Seen(old(Abstract()), loads))
      ensures raised <==> dropped != {} && saves == 0
    {
      dropped, raised := {}, false;
      if !tree.present {
        return;
      }
      var approvals, dismissals, revocations := Load(loads);
      dropped := set p | p in approvals && !tree.isFile(p);
      LiveIsUndropped(Abstract(), dropped);
      if dropped == {} {
        return;
      }
      raised := saves == 0;
      var current := DropAll(approvals, dropped);
      if !raised {
        approved := current;
      }
    }
  }

  lemma LiveIsUndropped(s: State, dropped: set<string>)
    ensures dropped == (set p | p in s.approved && !s.tree.isFile(p)) ==> Live(s) == s.approved - dropped
  {
  }

  lemma AutoTargetsStep(s: State, world: string, terms: Terms, i: nat)
    requires i < |terms| && WorldSlug(world) && !s.tree.autoDisabled
    ensures AutoTargets(s, world, terms[..i + 1]) == AutoTargets(s, world, terms[..i])
            + if AutoCandidate(s, world, terms[i]) then {TermPath(world, SafeTermSlug(terms[i].value))} else {}
  {
  }
}
