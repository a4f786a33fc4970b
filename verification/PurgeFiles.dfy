/**
 The purge over files that may fail (src/arail/jsonl_purge.py), and its two callers, who hold the same
 records in memory (src/arail/agent_trace.py, src/arail/activity.py).
 */
module PurgeFiles {
  import opened Basics
  import opened TextLines
  import opened JsonlPurge

  type Path = string

  /** A file: its text, and whether it decodes to the end. */
  datatype File = File(text: string, decodes: bool)

  /**
   What the system calls for one path do: an OSError in the existence test, which nothing catches; one opening
   the file or its temporary, so that no temporary is made; one after that, before anything is read; one at
   the end; or none.
   */
  datatype Course = ExistsFails | OpenFails | FailsEarly | FailsLate | Lands
  datatype Fate = Fate(course: Course, unlinkWorks: bool)

  /** `strays` are the paths whose temporary file is left behind. */
  datatype Progress = Progress(
    files: map<Path, File>, strays: set<Path>, purged: nat, ok: bool, errors: seq<Path>, raised: bool)

  /** Nothing in this file raises out of the loop. */
  predicate Readable<E>(r: Rules<E>, f: File) {
    f.decodes && NoneEscapes(r, f.text)
  }

  /** The open is not the last thing to happen: lines are read. */
  predicate Reads(course: Course) {
    course.FailsLate? || course.Lands?
  }

  function Failed(p: Progress, path: Path, fate: Fate): Progress {
    p.(ok := false, errors := p.errors + [path], strays := StraysAfter(p.strays, path, fate))
  }

  /** A failure removes its temporary file, if it can; if it cannot, what was made stays. */
  function StraysAfter(strays: set<Path>, path: Path, fate: Fate): set<Path> {
    if fate.unlinkWorks then strays - {path} else if fate.course.OpenFails? then strays else strays + {path}
  }

  function Raised(p: Progress, strays: set<Path>): Progress {
    p.(raised := true, strays := strays)
  }

  function Landed<E>(r: Rules<E>, p: Progress, path: Path, text: string): Progress {
    p.(files := p.files[path := File(Purged(r, text), true)], strays := p.strays - {path},
       purged := p.purged + CountStripped(r, LinesOf(text)))
  }

  /** Reading this file raises out of the loop. */
  predicate UnreadableAt<E>(r: Rules<E>, files: map<Path, File>, path: Path, fate: Fate) {
    path in files && Reads(fate.course) && !Readable(r, files[path])
  }

  /** One turn of the loop over paths. */
  function Step<E>(r: Rules<E>, p: Progress, path: Path, fate: Fate): Progress {
    if p.raised then p
    else if fate.course.ExistsFails? then Raised(p, p.strays)
    else if path !in p.files then p
    else if UnreadableAt(r, p.files, path, fate) then Raised(p, p.strays + {path})
    else if fate.course.Lands? then Landed(r, p, path, p.files[path].text)
    else Failed(p, path, fate)
  }

  function Start(files: map<Path, File>, strays: set<Path>): Progress {
    Progress(files, strays, 0, true, [], false)
  }

  function Run<E>(r: Rules<E>, p: Progress, paths: seq<Path>, fates: seq<Fate>): Progress
    requires |fates| == |paths|
  {
    if paths == [] then p
    else Step(r, Run(r, p, paths[..|paths| - 1], fates[..|paths| - 1]), paths[|paths| - 1], fates[|paths| - 1])
  }

  // ----- the operation -----

  class Disk {
    var files: map<Path, File>
    var strays: set<Path>

    ghost function Progressed(purged: nat, ok: bool, errors: seq<Path>, raised: bool): Progress
      reads this
    {
      Progress(files, strays, purged, ok, errors, raised)
    }

    /** The loop over the lines of one file. */
    static method Rewrite<E>(r: Rules<E>, text: string) returns (out: string, purged: nat, raised: bool)
      ensures raised <==> !NoneEscapes(r, text)
      ensures !raised ==> out == Purged(r, text) && purged == CountStripped(r, LinesOf(text))
    {
      var written;
      written, purged, raised := CleanLines(r, LinesOf(text));
      out := Join(written);
    }

    static method CleanLines<E>(r: Rules<E>, lines: seq<string>) returns (written: seq<string>, purged: nat, raised: bool)
      ensures raised <==> SomeEscapes(r, lines)
      ensures !raised ==> written == CleanedAll(r, lines) && purged == CountStripped(r, lines)
    {
      written, purged, raised := [], 0, false;
      for i := 0 to |lines|
        invariant written == CleanedAll(r, lines[..i]) && purged == CountStripped(r, lines[..i])
        invariant !raised && !SomeEscapes(r, lines[..i])
      {
        var out, stripped;
        out, stripped, raised := CleanOne(r, lines[i]);
        CleanStep(r, lines, i);
        EscapeStep(r, lines, i);
        if raised {
          return;
        }
        written, purged := written + [out], purged + if stripped then 1 else 0;
      }
      assert lines[..|lines|] == lines;
    }

    /** The body of the loop: one line, as it is written out. */
    static method CleanOne<E>(r: Rules<E>, line: string) returns (out: string, stripped: bool, raised: bool)
      ensures raised == Escapes(r, line)
      ensures !raised ==> out == Cleaned(r, line) && stripped == Strippable(r, line)
    {
      out, stripped, raised := line, false, false;
      var raw := Body(line);
      if IsBlank(raw) {
        return;
      }
      var loaded := r.loads(raw);
      if loaded.TooDeep? {
        raised := true;
      } else if loaded.Value? {
        var event := loaded.event;
        var has := r.has(event);
        if has == Some(true) {
          var without := r.strip(event);
          if without.Some? {
            out, stripped := r.dumps(without.value) + "\n", true;
          }
        } else if has == Some(false) {
          out := r.dumps(event) + "\n";
        }
      }
    }

    /** `purge_jsonl_bodies`. */
    method Purge<E>(r: Rules<E>, paths: seq<Path>, fates: seq<Fate>)
      returns (purged: nat, ok: bool, errors: seq<Path>, raised: bool)
      requires |fates| == |paths|
      modifies this
      ensures Progressed(purged, ok, errors, raised) == Run(r, Start(old(files), old(strays)), paths, fates)
    {
      ghost var start := Start(files, strays);
      purged, ok, errors, raised := 0, true, [], false;
      for i := 0 to |paths|
        invariant Progressed(purged, ok, errors, raised) == Run(r, start, paths[..i], fates[..i])
        invariant !raised
      {
        RunStep(r, start, paths, fates, i);
        var n, failed;
        n, failed, raised := PurgeOne(r, paths[i], fates[i], purged, ok, errors);
        if raised {
          RaisedStays(r, start, paths, fates, i + 1);
          return;
        }
        purged := purged + n;
        if failed {
          ok, errors := false, errors + [paths[i]];
        }
      }
      assert paths[..|paths|] == paths && fates[..|paths|] == fates;
    }

    /** The body of the loop over paths; the counters are there for what it is compared with. */
    method PurgeOne<E>(r: Rules<E>, path: Path, fate: Fate, ghost purged: nat, ghost ok: bool, ghost errors: seq<Path>)
      returns (n: nat, failed: bool, raised: bool)
      modifies this
      ensures Progressed(purged + n, ok && !failed, errors + if failed then [path] else [], raised)
              == Step(r, old(Progressed(purged, ok, errors, false)), path, fate)
      ensures raised ==> n == 0 && !failed
    {
      n, failed := 0, false;
      assert errors + [] == errors;
      raised := fate.course.ExistsFails?;
      if raised || path !in files {
        return;
      }
      var landed := false;
      if Reads(fate.course) {
        n, landed, raised := ReadAndReplace(r, path, fate.course);
      }
      if !raised && !landed {
        failed := true;
        Unlink(path, fate);
      }
    }

    /** The rewrite of a file that could be opened, and the replace at its end. */
    method ReadAndReplace<E>(r: Rules<E>, path: Path, course: Course) returns (n: nat, landed: bool, raised: bool)
      requires path in files && Reads(course)
      modifies this
      ensures raised <==> !Readable(r, old(files)[path])
      ensures landed <==> !raised && course.Lands?
      ensures landed ==>
        files == old(files)[path := File(Purged(r, old(files)[path].text), true)] && strays == old(strays) - {path}
        && n == CountStripped(r, LinesOf(old(files)[path].text))
      ensures !landed ==> files == old(files) && n == 0 && strays == if raised then old(strays) + {path} else old(strays)
    {
      var out, count, escaped := Rewrite(r, files[path].text);
      n, landed, raised := 0, false, escaped || !files[path].decodes;
      if raised {
        strays := strays + {path};
      } else if course.Lands? {
        files, strays, n, landed := files[path := File(out, true)], strays - {path}, count, true;
      }
    }

    /** The cleaning up after an OSError. */
    method Unlink(path: Path, fate: Fate)
      modifies this`strays
      ensures strays == StraysAfter(old(strays), path, fate)
    {
      if fate.unlinkWorks {
        strays := strays - {path};
      } else if !fate.course.OpenFails? {
        strays := strays + {path};
      }
    }
  }

  ghost predicate SomeEscapes<E>(r: Rules<E>, lines: seq<string>) {
    exists j :: 0 <= j < |lines| && Escapes(r, lines[j])
  }

  lemma EscapeStep<E>(r: Rules<E>, lines: seq<string>, i: nat)
    requires i < |lines|
    ensures SomeEscapes(r, lines[..i + 1]) <==> SomeEscapes(r, lines[..i]) || Escapes(r, lines[i])
    ensures Escapes(r, lines[i]) ==> SomeEscapes(r, lines)
  {
  }

  lemma CleanStep<E>(r: Rules<E>, lines: seq<string>, i: nat)
    requires i < |lines|
    ensures CleanedAll(r, lines[..i + 1]) == CleanedAll(r, lines[..i]) + [Cleaned(r, lines[i])]
    ensures CountStripped(r, lines[..i + 1]) == CountStripped(r, lines[..i]) + if Strippable(r, lines[i]) then 1 else 0
  {
    assert lines[..i + 1][..i] == lines[..i];
  }

  lemma RunStep<E>(r: Rules<E>, p: Progress, paths: seq<Path>, fates: seq<Fate>, i: nat)
    requires |fates| == |paths| && i < |paths|
    ensures Run(r, p, paths[..i + 1], fates[..i + 1]) == Step(r, Run(r, p, paths[..i], fates[..i]), paths[i], fates[i])
  {
    assert paths[..i + 1][..i] == paths[..i] && fates[..i + 1][..i] == fates[..i];
  }

  lemma {:induction false} RaisedStays<E>(r: Rules<E>, p: Progress, paths: seq<Path>, fates: seq<Fate>, i: nat)
    requires |fates| == |paths| && i <= |paths| && Run(r, p, paths[..i], fates[..i]).raised
    ensures Run(r, p, paths, fates) == Run(r, p, paths[..i], fates[..i])
    decreases |paths|
  {
    if i < |paths| {
      var n := |paths| - 1;
      assert paths[..n][..i] == paths[..i] && fates[..n][..i] == fates[..i];
      RaisedStays(r, p, paths[..n], fates[..n], i);
    } else {
      assert paths[..i] == paths && fates[..i] == fates;
    }
  }

  // ----- what a purge did, and did not -----

  /** How many bodies the listed files hold. */
  function Bodies<E>(r: Rules<E>, files: map<Path, File>, paths: seq<Path>): nat {
    if paths == [] then 0
    else Bodies(r, files, paths[..|paths| - 1])
         + if paths[|paths| - 1] in files then CountStripped(r, LinesOf(files[paths[|paths| - 1]].text)) else 0
  }

  ghost predicate Distinct(paths: seq<Path>) {
    forall i, j :: 0 <= i < j < |paths| ==> paths[i] != paths[j]
  }

  lemma {:induction false} BodiesElsewhere<E>(r: Rules<E>, files: map<Path, File>, paths: seq<Path>, path: Path, f: File)
    requires path !in paths
    ensures Bodies(r, files[path := f], paths) == Bodies(r, files, paths)
  {
    if paths != [] {
      BodiesElsewhere(r, files, paths[..|paths| - 1], path, f);
    }
  }

  lemma BodiesLast<E>(r: Rules<E>, files: map<Path, File>, front: seq<Path>, last: Path)
    ensures Bodies(r, files, front + [last])
            == Bodies(r, files, front) + if last in files then CountStripped(r, LinesOf(files[last].text)) else 0
  {
  }

  lemma {:induction false} BodiesReplaced<E>(r: Rules<E>, files: map<Path, File>, paths: seq<Path>, path: Path, f: File)
    requires Distinct(paths) && path in paths && path in files
    ensures Bodies(r, files[path := f], paths) + CountStripped(r, LinesOf(files[path].text))
            == Bodies(r, files, paths) + CountStripped(r, LinesOf(f.text))
    decreases |paths|
  {
    var front, last := paths[..|paths| - 1], paths[|paths| - 1];
    assert paths == front + [last];
    BodiesLast(r, files, front, last);
    BodiesLast(r, files[path := f], front, last);
    if last == path {
      BodiesElsewhere(r, files, front, path, f);
    } else {
      BodiesReplaced(r, files, front, path, f);
    }
  }

  lemma StepConserves<E(!new)>(r: Rules<E>, p: Progress, path: Path, fate: Fate, all: seq<Path>)
    requires Lawful(r) && Distinct(all) && path in all
    ensures var after := Step(r, p, path, fate);
            after.purged + Bodies(r, after.files, all) == p.purged + Bodies(r, p.files, all)
  {
    if !p.raised && path in p.files && fate.course.Lands? && Readable(r, p.files[path]) {
      var text := p.files[path].text;
      PurgedIsClean(r, text);
      BodiesReplaced(r, p.files, all, path, File(Purged(r, text), true));
    }
  }

  /** Every body reported as purged is gone from disk, and none but those: whatever fails, even when the call raises. */
  lemma {:induction false} PurgedPlusLeft<E(!new)>(
    r: Rules<E>, files: map<Path, File>, strays: set<Path>, paths: seq<Path>, fates: seq<Fate>, all: seq<Path>)
    requires Lawful(r) && |fates| == |paths| && Distinct(all) && forall p :: p in paths ==> p in all
    ensures var after := Run(r, Start(files, strays), paths, fates);
            after.purged + Bodies(r, after.files, all) == Bodies(r, files, all)
    decreases |paths|
  {
    if paths != [] {
      var n := |paths| - 1;
      PurgedPlusLeft(r, files, strays, paths[..n], fates[..n], all);
      StepConserves(r, Run(r, Start(files, strays), paths[..n], fates[..n]), paths[n], fates[n], all);
    }
  }

  /** The loop comes to a path it cannot get past: the existence test raises, or reading the file does. */
  ghost predicate Stumbles<E>(r: Rules<E>, files: map<Path, File>, paths: seq<Path>, fates: seq<Fate>)
    requires |fates| == |paths|
  {
    exists i :: 0 <= i < |paths| && StumblesAt(r, files, paths[i], fates[i])
  }

  predicate StumblesAt<E>(r: Rules<E>, files: map<Path, File>, path: Path, fate: Fate) {
    fate.course.ExistsFails? || UnreadableAt(r, files, path, fate)
  }

  /** Each file is as it was, or purged. */
  ghost predicate OldOrPurged<E>(r: Rules<E>, before: map<Path, File>, after: map<Path, File>) {
    && after.Keys == before.Keys
    && forall p :: p in before ==>
         after[p] == before[p] || (Readable(r, before[p]) && after[p] == File(Purged(r, before[p].text), true))
  }

  /** A step changes one file at most, and that by purging it. */
  lemma StepFiles<E>(r: Rules<E>, p: Progress, path: Path, fate: Fate)
    ensures var after := Step(r, p, path, fate).files;
            after == p.files || (path in p.files && Readable(r, p.files[path])
                                 && after == p.files[path := File(Purged(r, p.files[path].text), true)])
  {
  }

  lemma PurgedAgain<E(!new)>(r: Rules<E>, f: File)
    requires Lawful(r) && Readable(r, f)
    ensures Readable(r, File(Purged(r, f.text), true)) && Purged(r, Purged(r, f.text)) == Purged(r, f.text)
  {
    PurgedIsClean(r, f.text);
  }

  lemma OldOrPurgedReads<E(!new)>(r: Rules<E>, before: map<Path, File>, after: map<Path, File>, path: Path)
    requires Lawful(r) && OldOrPurged(r, before, after) && path in before
    ensures Readable(r, after[path]) <==> Readable(r, before[path])
    ensures Readable(r, before[path]) ==> Purged(r, after[path].text) == Purged(r, before[path].text)
  {
    if Readable(r, before[path]) {
      PurgedAgain(r, before[path]);
    }
  }

  lemma StepOldOrPurged<E(!new)>(r: Rules<E>, before: map<Path, File>, p: Progress, path: Path, fate: Fate)
    requires Lawful(r) && OldOrPurged(r, before, p.files)
    ensures OldOrPurged(r, before, Step(r, p, path, fate).files)
    ensures path in before ==> (Readable(r, p.files[path]) <==> Readable(r, before[path]))
  {
    StepFiles(r, p, path, fate);
    if path in before {
      OldOrPurgedReads(r, before, p.files, path);
    }
  }

  /**
   Whatever fails, a file is either untouched or wholly purged; the call raises exactly when it comes to a path
   whose existence test raises or a file it cannot read.
   */
  lemma {:induction false} FilesAreOldOrPurged<E(!new)>(
    r: Rules<E>, files: map<Path, File>, strays: set<Path>, paths: seq<Path>, fates: seq<Fate>)
    requires Lawful(r) && |fates| == |paths|
    ensures OldOrPurged(r, files, Run(r, Start(files, strays), paths, fates).files)
    ensures Run(r, Start(files, strays), paths, fates).raised <==> Stumbles(r, files, paths, fates)
    decreases |paths|
  {
    if paths != [] {
      var n := |paths| - 1;
      FilesAreOldOrPurged(r, files, strays, paths[..n], fates[..n]);
      var p := Run(r, Start(files, strays), paths[..n], fates[..n]);
      StepOldOrPurged(r, files, p, paths[n], fates[n]);
      StumblesStep(r, files, paths, fates);
    }
  }

  /** A line that is not blank and nests deeper than the parser goes. */
  ghost predicate HasDeepLine<E>(r: Rules<E>, text: string) {
    exists i :: 0 <= i < |LinesOf(text)|
                && (exists c :: c in Body(LinesOf(text)[i]) && !IsSpace(c)) && r.loads(Body(LinesOf(text)[i])).TooDeep?
  }

  lemma EscapesIff<E>(r: Rules<E>, text: string)
    ensures NoneEscapes(r, text) <==> !HasDeepLine(r, text)
  {
    forall i | 0 <= i < |LinesOf(text)|
      ensures IsBlank(Body(LinesOf(text)[i])) <==> !exists c :: c in Body(LinesOf(text)[i]) && !IsSpace(c)
    {
      BlankIff(Body(LinesOf(text)[i]));
    }
  }

  /**
   What the caller could look at beforehand: a purge raises exactly when the existence test of some path does, or
   some file is read that does not decode or has a line nesting too deep.
   */
  lemma RaisesIff<E(!new)>(r: Rules<E>, files: map<Path, File>, strays: set<Path>, paths: seq<Path>, fates: seq<Fate>)
    requires Lawful(r) && |fates| == |paths|
    ensures Run(r, Start(files, strays), paths, fates).raised <==>
            exists i :: 0 <= i < |paths|
                        && (fates[i].course.ExistsFails?
                            || (paths[i] in files && (fates[i].course.FailsLate? || fates[i].course.Lands?)
                                && (!files[paths[i]].decodes || HasDeepLine(r, files[paths[i]].text))))
  {
    FilesAreOldOrPurged(r, files, strays, paths, fates);
    forall i | 0 <= i < |paths|
      ensures StumblesAt(r, files, paths[i], fates[i]) <==>
              fates[i].course.ExistsFails?
              || (paths[i] in files && (fates[i].course.FailsLate? || fates[i].course.Lands?)
                  && (!files[paths[i]].decodes || HasDeepLine(r, files[paths[i]].text)))
    {
      if paths[i] in files {
        EscapesIff(r, files[paths[i]].text);
      }
    }
  }

  lemma StumblesStep<E>(r: Rules<E>, files: map<Path, File>, paths: seq<Path>, fates: seq<Fate>)
    requires |fates| == |paths| && paths != []
    ensures var n := |paths| - 1;
            Stumbles(r, files, paths, fates) <==>
            Stumbles(r, files, paths[..n], fates[..n]) || StumblesAt(r, files, paths[n], fates[n])
  {
  }

  // ----- the report -----

  /** The listed files that are there and were not replaced, in order. */
  function Unreplaced(files: map<Path, File>, paths: seq<Path>, fates: seq<Fate>): seq<Path>
    requires |fates| == |paths|
  {
    if paths == [] then []
    else
      var n := |paths| - 1;
      Unreplaced(files, paths[..n], fates[..n]) + if paths[n] in files && !fates[n].course.Lands? then [paths[n]] else []
  }

  /** A call that returns lists exactly the files that are there and were not replaced, and is ok exactly when there are none. */
  lemma {:induction false} ReportIs<E(!new)>(
    r: Rules<E>, files: map<Path, File>, strays: set<Path>, paths: seq<Path>, fates: seq<Fate>)
    requires Lawful(r) && |fates| == |paths| && !Run(r, Start(files, strays), paths, fates).raised
    ensures var after := Run(r, Start(files, strays), paths, fates);
            after.errors == Unreplaced(files, paths, fates) && (after.ok <==> after.errors == [])
    decreases |paths|
  {
    if paths != [] {
      var n := |paths| - 1;
      var p := Run(r, Start(files, strays), paths[..n], fates[..n]);
      ReportIs(r, files, strays, paths[..n], fates[..n]);
      FilesAreOldOrPurged(r, files, strays, paths[..n], fates[..n]);
      StepReports(r, p, paths[n], fates[n]);
    }
  }

  lemma StepReports<E>(r: Rules<E>, p: Progress, path: Path, fate: Fate)
    requires !Step(r, p, path, fate).raised
    ensures var after := Step(r, p, path, fate);
            if path in p.files && !fate.course.Lands? then !after.ok && after.errors == p.errors + [path]
            else after.ok == p.ok && after.errors == p.errors
  {
  }

  // ----- temporary files -----

  /** The loop comes to path `i`. */
  ghost predicate Reached<E>(r: Rules<E>, files: map<Path, File>, paths: seq<Path>, fates: seq<Fate>, i: int)
    requires |fates| == |paths|
  {
    0 <= i < |paths| && !Stumbles(r, files, paths[..i], fates[..i])
  }

  /** A path gone through this way has a temporary file afterwards; `was` is whether it had one before. */
  predicate Leaves<E>(r: Rules<E>, files: map<Path, File>, path: Path, fate: Fate, was: bool) {
    if fate.course.ExistsFails? || path !in files then was
    else if UnreadableAt(r, files, path, fate) then true
    else match fate.course
      case OpenFails => was && !fate.unlinkWorks
      case Lands => false
      case _ => !fate.unlinkWorks
  }

  lemma StepElsewhere<E>(r: Rules<E>, p: Progress, path: Path, fate: Fate)
    ensures forall q :: q != path ==> (q in Step(r, p, path, fate).strays <==> q in p.strays)
  {
  }

  lemma StepHere<E>(r: Rules<E>, p: Progress, path: Path, fate: Fate)
    ensures path in Step(r, p, path, fate).strays <==>
            if p.raised then path in p.strays else Leaves(r, p.files, path, fate, path in p.strays)
  {
  }

  /** A file purged before is read as the file it was. */
  lemma LeavesTheSame<E>(r: Rules<E>, files: map<Path, File>, now: map<Path, File>, path: Path, fate: Fate, was: bool)
    requires (path in files <==> path in now) && (path in files ==> (Readable(r, now[path]) <==> Readable(r, files[path])))
    ensures Leaves(r, now, path, fate, was) == Leaves(r, files, path, fate, was)
  {
  }

  lemma StepStrays<E(!new)>(r: Rules<E>, files: map<Path, File>, p: Progress, path: Path, fate: Fate)
    requires Lawful(r) && OldOrPurged(r, files, p.files)
    ensures var after := Step(r, p, path, fate);
            && (forall q :: q != path ==> (q in after.strays <==> q in p.strays))
            && (path in after.strays <==>
                if p.raised then path in p.strays else Leaves(r, files, path, fate, path in p.strays))
  {
    StepElsewhere(r, p, path, fate);
    StepHere(r, p, path, fate);
    if path in files {
      OldOrPurgedReads(r, files, p.files, path);
    }
    LeavesTheSame(r, files, p.files, path, fate, path in p.strays);
  }

  lemma ReachedStep<E>(r: Rules<E>, files: map<Path, File>, paths: seq<Path>, fates: seq<Fate>, i: int)
    requires |fates| == |paths| && paths != [] && i < |paths| - 1
    ensures Reached(r, files, paths, fates, i) <==> Reached(r, files, paths[..|paths| - 1], fates[..|paths| - 1], i)
  {
    var n := |paths| - 1;
    if 0 <= i {
      assert paths[..n][..i] == paths[..i] && fates[..n][..i] == fates[..i];
    }
  }

  /** A temporary file of a path the loop does not come to stays as it was. */
  lemma {:induction false} StrayElsewhere<E(!new)>(
    r: Rules<E>, files: map<Path, File>, strays: set<Path>, paths: seq<Path>, fates: seq<Fate>, q: Path)
    requires Lawful(r) && |fates| == |paths| && forall i :: Reached(r, files, paths, fates, i) ==> paths[i] != q
    ensures q in Run(r, Start(files, strays), paths, fates).strays <==> q in strays
    decreases |paths|
  {
    if paths != [] {
      var n := |paths| - 1;
      forall i | Reached(r, files, paths[..n], fates[..n], i) ensures paths[..n][i] != q {
        ReachedStep(r, files, paths, fates, i);
      }
      StrayElsewhere(r, files, strays, paths[..n], fates[..n], q);
      FilesAreOldOrPurged(r, files, strays, paths[..n], fates[..n]);
      assert Reached(r, files, paths, fates, n) <==> !Stumbles(r, files, paths[..n], fates[..n]);
      StepStrays(r, files, Run(r, Start(files, strays), paths[..n], fates[..n]), paths[n], fates[n]);
    }
  }

  /** One of a path the loop comes to is there exactly when what happened to that path leaves one. */
  lemma {:induction false} StrayAt<E(!new)>(
    r: Rules<E>, files: map<Path, File>, strays: set<Path>, paths: seq<Path>, fates: seq<Fate>, i: nat)
    requires Lawful(r) && |fates| == |paths| && Distinct(paths) && Reached(r, files, paths, fates, i)
    ensures paths[i] in Run(r, Start(files, strays), paths, fates).strays <==>
            Leaves(r, files, paths[i], fates[i], paths[i] in strays)
    decreases |paths|
  {
    var n := |paths| - 1;
    FilesAreOldOrPurged(r, files, strays, paths[..n], fates[..n]);
    StepStrays(r, files, Run(r, Start(files, strays), paths[..n], fates[..n]), paths[n], fates[n]);
    if i < n {
      ReachedStep(r, files, paths, fates, i);
      StrayAt(r, files, strays, paths[..n], fates[..n], i);
    } else {
      StrayElsewhere(r, files, strays, paths[..n], fates[..n], paths[n]);
    }
  }

  /** Which temporary files a purge leaves: of each path it comes to, by what happened to it; of the others, what was there. */
  lemma StraysAre<E(!new)>(
    r: Rules<E>, files: map<Path, File>, strays: set<Path>, paths: seq<Path>, fates: seq<Fate>)
    requires Lawful(r) && |fates| == |paths| && Distinct(paths)
    ensures var after := Run(r, Start(files, strays), paths, fates);
            && (forall i :: Reached(r, files, paths, fates, i) ==>
                  (paths[i] in after.strays <==> Leaves(r, files, paths[i], fates[i], paths[i] in strays)))
            && (forall q :: (forall i :: Reached(r, files, paths, fates, i) ==> paths[i] != q) ==>
                  (q in after.strays <==> q in strays))
  {
    forall i | Reached(r, files, paths, fates, i)
      ensures paths[i] in Run(r, Start(files, strays), paths, fates).strays <==>
              Leaves(r, files, paths[i], fates[i], paths[i] in strays)
    {
      StrayAt(r, files, strays, paths, fates, i);
    }
    forall q | forall i :: Reached(r, files, paths, fates, i) ==> paths[i] != q
      ensures q in Run(r, Start(files, strays), paths, fates).strays <==> q in strays
    {
      StrayElsewhere(r, files, strays, paths, fates, q);
    }
  }

  /** A temporary file is made for this path and stays: reading raises, or a later failure cannot remove it. */
  predicate Strands<E>(r: Rules<E>, files: map<Path, File>, path: Path, fate: Fate) {
    UnreadableAt(r, files, path, fate)
    || (path in files && (fate.course.FailsEarly? || fate.course.FailsLate?) && !fate.unlinkWorks)
  }

  /**
   No temporary file survives a purge that found none exactly when no file it came to was unreadable and
   every failure after a temporary was made could remove it. An existence test that raises leaves none.
   */
  lemma NoStrayIff<E(!new)>(r: Rules<E>, files: map<Path, File>, paths: seq<Path>, fates: seq<Fate>)
    requires Lawful(r) && |fates| == |paths| && Distinct(paths)
    ensures Run(r, Start(files, {}), paths, fates).strays == {} <==>
            forall i :: Reached(r, files, paths, fates, i) ==> !Strands(r, files, paths[i], fates[i])
  {
    var after := Run(r, Start(files, {}), paths, fates);
    StraysAre(r, files, {}, paths, fates);
    if after.strays != {} {
      var q :| q in after.strays;
      var i :| Reached(r, files, paths, fates, i) && paths[i] == q;
      assert Leaves(r, files, paths[i], fates[i], false);
    } else {
      forall i | Reached(r, files, paths, fates, i) ensures !Strands(r, files, paths[i], fates[i]) {
        assert paths[i] !in after.strays;
        assert !Leaves(r, files, paths[i], fates[i], false);
      }
    }
  }

  // ----- success -----

  /** The file holds no body that would be detected. */
  ghost predicate Clean<E>(r: Rules<E>, f: File) {
    f.decodes && forall i :: 0 <= i < |LinesOf(f.text)| ==> !Detected(r, LinesOf(f.text)[i])
  }

  lemma PurgedFileIsClean<E(!new)>(r: Rules<E>, text: string)
    requires Lawful(r)
    ensures Clean(r, File(Purged(r, text), true))
  {
    PurgedIsClean(r, text);
  }

  lemma StepCleans<E(!new)>(r: Rules<E>, p: Progress, path: Path, fate: Fate, q: Path)
    requires Lawful(r) && q in p.files
    ensures var after := Step(r, p, path, fate);
            && (after.ok && !after.raised && path == q ==> Clean(r, after.files[q]))
            && (Clean(r, p.files[q]) ==> Clean(r, after.files[q]))
  {
    PurgedFileIsClean(r, p.files[q].text);
  }

  /** A purge that reports success has left no body in any listed file. */
  lemma {:induction false} SuccessMeansClean<E(!new)>(
    r: Rules<E>, files: map<Path, File>, strays: set<Path>, paths: seq<Path>, fates: seq<Fate>)
    requires Lawful(r) && |fates| == |paths|
    ensures var after := Run(r, Start(files, strays), paths, fates);
            after.ok && !after.raised ==> forall p :: p in paths && p in after.files ==> Clean(r, after.files[p])
    decreases |paths|
  {
    if paths != [] {
      var n := |paths| - 1;
      SuccessMeansClean(r, files, strays, paths[..n], fates[..n]);
      var p := Run(r, Start(files, strays), paths[..n], fates[..n]);
      var after := Step(r, p, paths[n], fates[n]);
      if after.ok && !after.raised {
        forall q | q in paths && q in after.files ensures Clean(r, after.files[q]) {
          StepCleans(r, p, paths[n], fates[n], q);
          assert q in paths[..n] || q == paths[n];
        }
      }
    }
  }

  lemma {:induction false} CleanHasNoBodies<E(!new)>(r: Rules<E>, files: map<Path, File>, paths: seq<Path>)
    requires forall p :: p in paths && p in files ==> Clean(r, files[p])
    ensures Bodies(r, files, paths) == 0
  {
    if paths != [] {
      var n := |paths| - 1;
      CleanHasNoBodies(r, files, paths[..n]);
      if paths[n] in files {
        NoneToStrip(r, LinesOf(files[paths[n]].text));
      }
    }
  }

  /** After a successful purge a second one reports nothing purged, whatever then fails. */
  lemma SecondPurgeReportsNone<E(!new)>(
    r: Rules<E>, files: map<Path, File>, strays: set<Path>, paths: seq<Path>, fates: seq<Fate>, again: seq<Fate>)
    requires Lawful(r) && |fates| == |paths| == |again| && Distinct(paths)
    requires Run(r, Start(files, strays), paths, fates).ok && !Run(r, Start(files, strays), paths, fates).raised
    ensures var after := Run(r, Start(files, strays), paths, fates);
            Run(r, Start(after.files, after.strays), paths, again).purged == 0
  {
    var after := Run(r, Start(files, strays), paths, fates);
    SuccessMeansClean(r, files, strays, paths, fates);
    CleanHasNoBodies(r, after.files, paths);
    PurgedPlusLeft(r, after.files, after.strays, paths, again, paths);
  }

  // ----- the callers: records also held in memory -----

  /** A record of the in-memory ring, stripped in place. */
  class Record<E> {
    var event: E

    constructor (event: E)
      ensures this.event == event
    {
      this.event := event;
    }
  }

  function HasBody<E>(r: Rules<E>, e: E): bool {
    r.has(e) == Some(true)
  }

  /** The records of the ring that hold a body. */
  ghost function Bearers<E>(r: Rules<E>, ring: seq<Record<E>>): set<Record<E>>
    reads ring
  {
    set rec | rec in ring && HasBody(r, rec.event)
  }

  /** The loop over the ring; a record that stands in it twice is counted once. */
  method StripRing<E(!new)>(r: Rules<E>, ring: seq<Record<E>>) returns (purged: nat)
    requires forall rec :: rec in ring ==> LawfulFor(r, rec.event)
    modifies ring
    ensures forall rec :: rec in ring ==> rec.event == WithoutBody(r, old(rec.event)) && !HasBody(r, rec.event)
    ensures purged == |old(Bearers(r, ring))|
  {
    purged := 0;
    ghost var bearers := Bearers(r, ring);
    ghost var left := bearers;
    for i := 0 to |ring|
      invariant forall rec :: rec in ring && rec !in ring[..i] ==> rec.event == old(rec.event)
      invariant forall rec :: rec in ring[..i] ==> rec.event == WithoutBody(r, old(rec.event)) && !HasBody(r, rec.event)
      invariant forall rec :: rec in left ==> rec in ring && rec !in ring[..i]
      invariant forall rec :: rec in ring && rec !in left ==> !HasBody(r, rec.event)
      invariant left <= bearers && purged + |left| == |bearers|
    {
      var rec := ring[i];
      assert ring[..i + 1] == ring[..i] + [rec];
      if HasBody(r, rec.event) {
        assert LawfulFor(r, old(rec.event));
        rec.event := r.strip(rec.event).value;
        purged := purged + 1;
        left := left - {rec};
      }
    }
    assert ring[..|ring|] == ring;
    assert left == {};
  }

  /**
   `purge_flight_recorder_bodies` and `purge_legacy_bodies`: the ring is stripped only when every rewrite
   landed, so memory is never cleaner than disk.
   */
  method PurgeBodies<E(!new)>(r: Rules<E>, disk: Disk, paths: seq<Path>, fates: seq<Fate>, ring: seq<Record<E>>)
    returns (purged: nat, purgedMemory: nat, ok: bool, raised: bool)
    requires Lawful(r) && |fates| == |paths|
    requires forall rec :: rec in ring ==> LawfulFor(r, rec.event)
    modifies disk, ring
    ensures var after := Run(r, Start(old(disk.files), old(disk.strays)), paths, fates);
            && disk.files == after.files && purged == after.purged && raised == after.raised
            && (!raised ==> ok == after.ok)
    ensures raised || !ok ==> purgedMemory == 0 && forall rec :: rec in ring ==> rec.event == old(rec.event)
    ensures ok && !raised ==>
              && (forall rec :: rec in ring ==> rec.event == WithoutBody(r, old(rec.event)) && !HasBody(r, rec.event))
              && purgedMemory == |old(Bearers(r, ring))|
              && (forall p :: p in paths && p in disk.files ==> Clean(r, disk.files[p]))
  {
    var errors;
    purged, ok, errors, raised := disk.Purge(r, paths, fates);
    purgedMemory := 0;
    if raised {
      return;
    }
    SuccessMeansClean(r, old(disk.files), old(disk.strays), paths, fates);
    if ok {
      purgedMemory := StripRing(r, ring);
    }
  }
}
