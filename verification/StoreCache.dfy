/**
 The two caches of the deep-verdict reader (src/arail/deep_verdict.py): the parsed document cached by
 file signature, and the assembled verdict. A writer mutates the very document object its read has
 just cached, so what matters is which objects are shared. Every system call of a read and of a locked
 update may fail.

 A file signature (mtime, size, inode) is taken to be used for one content only.
 */
module StoreCache {
  import opened Basics
  import opened VerdictRecord
  import opened VerdictStore
  import opened UnsavedFailures

  type Sig = int
  datatype Content = Readable(bins: Bins) | Unreadable
  datatype File = File(sig: Sig, content: Content)

  /** `verdict.json`, its signature, and the signatures it has ever had. */
  class Disk {
    var file: Option<File>
    ghost var used: set<Sig>

    ghost predicate Valid()
      reads this
    {
      file.Some? ==> file.value.sig in used
    }

    /** The file is replaced, or moved aside, by somebody. */
    method Replace(next: Option<File>)
      requires Valid() && (next.Some? ==> next.value.sig !in used)
      modifies this
      ensures Valid() && file == next
      ensures used == old(used) + if next.Some? then {next.value.sig} else {}
    {
      file := next;
      used := used + if next.Some? then {next.value.sig} else {};
    }

    /** What others do to the file while this process looks away. */
    method Interfere(others: seq<Option<File>>)
      requires Valid() && NewSignatures(others, used)
      modifies this
      ensures Valid() && old(used) <= used
      ensures file == LastOf(others, old(file)) && (others == [] ==> used == old(used))
      ensures file == old(file) || file.None? || file.value.sig !in old(used)
    {
      for i := 0 to |others|
        invariant Valid() && old(used) <= used
        invariant NewSignatures(others[i..], used)
        invariant file == LastOf(others[..i], old(file)) && (i == 0 ==> used == old(used))
        invariant file == old(file) || file.None? || file.value.sig !in old(used)
      {
        assert others[i..][1..] == others[i + 1..];
        Replace(others[i]);
      }
      assert others[..|others|] == others;
    }
  }

  /** The file after some replacements. */
  function LastOf(others: seq<Option<File>>, file: Option<File>): Option<File> {
    if others == [] then file else others[|others| - 1]
  }

  /** Every replacement carries a signature not seen before. */
  ghost predicate NewSignatures(others: seq<Option<File>>, used: set<Sig>) {
    others == []
    || (if others[0].Some? then others[0].value.sig !in used && NewSignatures(others[1..], used + {others[0].value.sig})
        else NewSignatures(others[1..], used + {}))
  }

  /** The verdict a reader with nothing cached assembles from a file and the process's memory. */
  function View(file: Option<File>, mem: map<Sha, Failure>, sha: Sha): Report {
    var m := if sha in mem then Some(mem[sha]) else None;
    if file.None? then Assemble(BLANK, m)
    else if file.value.content.Unreadable? then UNREADABLE
    else Assemble(EntryOf(file.value.content.bins, sha), m)
  }

  /** How the system calls of a read go: all work, `lstat` raises, or the open or the reading after it does. */
  datatype Reading = Works | StatFails | OpenFails

  /** Which of the system calls of a locked update work; the last is the `lstat` of what was just written. */
  datatype Fate = Fate(lockWorks: bool, reading: Reading, moveWorks: bool, writeWorks: bool, statWorks: bool)

  /** The read under the lock ends in an error, so that the file has to be moved aside. */
  predicate BadRead(file: Option<File>, reading: Reading) {
    if file.None? then reading.StatFails? else !reading.Works? || file.value.content.Unreadable?
  }

  /** What a locked update starts from. */
  function Loaded(file: Option<File>, reading: Reading): Bins {
    if BadRead(file, reading) then map[] else BinsOf(file)
  }

  predicate Saves(file: Option<File>, fate: Fate) {
    fate.lockWorks && fate.writeWorks && (BadRead(file, fate.reading) ==> fate.moveWorks && file.Some?)
  }

  /** What an update that does not save leaves: nothing, if it got as far as moving the file aside. */
  function Left(file: Option<File>, fate: Fate): Option<File> {
    if fate.lockWorks && BadRead(file, fate.reading) && fate.moveWorks then None else file
  }

  const UNREADABLE := Report(Failing, None, None)

  datatype Cached = Cached(sig: Sig, doc: Document?)       // no document: the file was unreadable, or reading it failed
  datatype Key = Key(sha: Sha, sig: Option<Sig>, err: bool, memVersion: nat, writeError: bool)
  datatype CachedVerdict = CachedVerdict(key: Key, report: Report)

  class Process {
    const disk: Disk
    var readCache: Option<Cached>
    var mem: map<Sha, Failure>
    var memVersion: nat
    var writeError: bool
    var verdictCache: Option<CachedVerdict>

    constructor (disk: Disk)
      requires disk.Valid()
      ensures this.disk == disk && fresh(this) && Valid() && Coherent() && mem == map[]
    {
      this.disk := disk;
      readCache, mem, memVersion, writeError, verdictCache := None, map[], 0, false, None;
    }

    ghost function CachedDoc(): set<object>
      reads this`readCache
    {
      if readCache.Some? && readCache.value.doc != null then {readCache.value.doc} else {}
    }

    /** Signatures held are signatures the file has had, and a verdict assembled from an error is failing. */
    ghost predicate Valid()
      reads this, disk
    {
      && disk.Valid()
      && (readCache.Some? ==> readCache.value.sig in disk.used)
      && (verdictCache.Some? ==>
            verdictCache.value.key.memVersion <= memVersion
            && (verdictCache.value.key.sig.Some? ==> verdictCache.value.key.sig.value in disk.used)
            && (verdictCache.value.key.err ==> verdictCache.value.report == UNREADABLE))
    }

    /** A cached document is a fresh parse of the file, as long as the file has the cached signature. */
    ghost predicate ReadCoherent()
      reads this, disk, CachedDoc()
    {
      readCache.Some? && disk.file.Some? && readCache.value.sig == disk.file.value.sig ==>
        if disk.file.value.content.Unreadable? then readCache.value.doc == null
        else readCache.value.doc != null && readCache.value.doc.bins == disk.file.value.content.bins
    }

    /** A cached verdict is a fresh one, as long as its key would be found again. */
    ghost predicate VerdictCoherent()
      reads this, disk
    {
      verdictCache.Some? && verdictCache.value.key.memVersion == memVersion ==>
        var k := verdictCache.value.key;
        && (k.sig.Some? && disk.file.Some? && k.sig.value == disk.file.value.sig ==>
              verdictCache.value.report == View(disk.file, mem, k.sha))
        && (k.sig.None? && !k.err ==> verdictCache.value.report == View(None, mem, k.sha))
    }

    ghost predicate Coherent()
      reads this, disk, CachedDoc()
    {
      ReadCoherent() && VerdictCoherent()
    }

    /** Time passes: others replace the file. Coherence survives any number of replacements. */
    method Elapse(others: seq<Option<File>>)
      requires Valid() && Coherent() && NewSignatures(others, disk.used)
      modifies disk
      ensures Valid() && Coherent() && disk.file == LastOf(others, old(disk.file))
    {
      disk.Interfere(others);
    }

    /** The cache holds an answer under the file's signature. */
    predicate Hit()
      reads this`readCache, disk
    {
      disk.file.Some? && readCache.Some? && readCache.value.sig == disk.file.value.sig
    }

    /**
     Read the store; `others` is what happens to the file between the stat and the open. From a coherent
     cache a read that works answers with the file as it was at the stat or as it was at the open. A failed
     open is cached as an error under the signature of the file it could not read.
     */
    method ReadStore(useCache: bool, reading: Reading, others: seq<Option<File>>) returns (doc: Document?, err: bool)
      requires Valid() && NewSignatures(others, disk.used)
      modifies this`readCache, disk
      ensures Valid() && old(disk.used) <= disk.used
      ensures others == [] ==> disk.file == old(disk.file) && disk.used == old(disk.used)
      ensures disk.file == old(disk.file) || disk.file.None? || disk.file.value.sig !in old(disk.used)
      ensures !reading.StatFails? && old(disk.file).Some? && !(useCache && old(Hit())) ==>
        disk.file == LastOf(others, old(disk.file))
      ensures reading.StatFails? ==>
        disk.file == old(disk.file) && disk.used == old(disk.used) && readCache.None? && doc == null && err
      ensures !reading.StatFails? && old(disk.file).None? ==> readCache.None? && disk.file.None? && doc == null && !err
      ensures !reading.StatFails? && old(disk.file).Some? ==>
        readCache == Some(Cached(old(disk.file).value.sig, doc)) && err == (doc == null)
      ensures !reading.StatFails? && useCache && old(Hit()) ==> readCache == old(readCache) && disk.file == old(disk.file)
      ensures reading.OpenFails? && old(disk.file).Some? && !(useCache && old(Hit())) ==> doc == null
      ensures reading.Works? && (!useCache || old(ReadCoherent())) ==>
        ReadCoherent()
        && (Answers(doc, err, old(disk.file)) || Answers(doc, err, disk.file) || (err && disk.file.None?))
      ensures !useCache && doc != null ==> fresh(doc)
    {
      if reading.StatFails? {
        readCache := None;
        return null, true;
      }
      if disk.file.None? {
        readCache := None;
        return null, false;
      }
      var sig := disk.file.value.sig;
      if useCache && readCache.Some? && readCache.value.sig == sig {
        return readCache.value.doc, readCache.value.doc == null;
      }
      disk.Interfere(others);
      if reading.Works? && disk.file.Some? && disk.file.value.content.Readable? {
        doc := new Document(disk.file.value.content.bins);
        err := false;
      } else {
        doc, err := null, true;
      }
      readCache := Some(Cached(sig, doc));
    }

    /** The parse of a file: no document when it is missing, an error when it is unreadable. */
    ghost predicate Answers(doc: Document?, err: bool, file: Option<File>)
      reads if doc != null then {doc} else {}
    {
      if file.None? then doc == null && !err
      else if file.value.content.Unreadable? then doc == null && err
      else doc != null && !err && doc.bins == file.value.content.bins
    }

    /**
     `_locked_update`: the document read under the lock is the object left in the cache, and `mutate`
     changes it in place. When the write lands the cache is coherent, though empty if the stat behind it
     fails, and the file holds the update of what the read gave: of nothing at all, if the read failed. When
     the write fails, the cache keeps the update nobody saved, so it is coherent exactly if there was no
     readable file or nothing changed; and when a failed open of a readable file could not even be followed
     by moving it aside, it keeps the error.
     */
    method LockedUpdate(u: Update, fate: Fate, sig: Sig) returns (ok: bool)
      requires Valid() && sig !in disk.used
      modifies this`readCache, disk
      ensures Valid() && old(disk.used) <= disk.used <= old(disk.used) + {sig}
      ensures ok <==> Saves(old(disk.file), fate)
      ensures ok ==> disk.file == Some(File(sig, Readable(ApplyUpdate(Loaded(old(disk.file), fate.reading), u)))) && ReadCoherent()
      ensures ok ==> (Hit() <==> fate.statWorks)
      ensures !ok ==> disk.file == Left(old(disk.file), fate)
      ensures !ok ==>
        (ReadCoherent() <==>
          if !fate.lockWorks then old(ReadCoherent())
          else if !IsReadable(old(disk.file)) then true
          else if fate.reading.Works? then ApplyUpdate(BinsOf(old(disk.file)), u) == BinsOf(old(disk.file))
          else fate.reading.StatFails? || fate.moveWorks)
      ensures !ok && fate.lockWorks && IsReadable(old(disk.file)) && fate.reading.Works? ==>
        readCache.Some? && readCache.value.sig == disk.file.value.sig
        && readCache.value.doc != null && readCache.value.doc.bins == ApplyUpdate(BinsOf(old(disk.file)), u)
      ensures !ok && fate.lockWorks && IsReadable(old(disk.file)) && fate.reading.OpenFails? ==>
        readCache == Some(Cached(old(disk.file).value.sig, null))
      ensures !fate.lockWorks ==> readCache == old(readCache)
    {
      if !fate.lockWorks {
        return false;
      }
      var d := ReadUnderLock(fate);
      if d == null {
        return false;
      }
      Mutate(d, u);
      if !fate.writeWorks {
        return false;
      }
      disk.Replace(Some(File(sig, Readable(d.bins))));
      readCache := if fate.statWorks then Some(Cached(sig, d)) else None;
      ok := true;
    }

    /** The document to mutate: the one just read, or a new one in place of a file moved aside; none if that fails. */
    method ReadUnderLock(fate: Fate) returns (d: Document?)
      requires Valid()
      modifies this`readCache, disk
      ensures Valid() && disk.used == old(disk.used)
      ensures var bad := BadRead(old(disk.file), fate.reading);
              && (d == null <==> bad && !(fate.moveWorks && old(disk.file).Some?))
              && disk.file == (if bad && fate.moveWorks then None else old(disk.file))
              && readCache == if fate.reading.StatFails? || old(disk.file).None? then None
                              else Some(Cached(old(disk.file).value.sig, if bad then null else d))
      ensures d != null ==> fresh(d) && d.bins == Loaded(old(disk.file), fate.reading)
    {
      var err;
      d, err := ReadStore(false, fate.reading, []);
      if err {
        if !fate.moveWorks || disk.file.None? {
          return null;
        }
        disk.Replace(None);
      }
      if d == null {
        d := new Document(map[]);
      }
    }

    static method Mutate(d: Document, u: Update)
      modifies d
      ensures d.bins == ApplyUpdate(old(d.bins), u)
    {
      match u.ev
      case CallFailed(now, source) => var _ := d.NoteFailure(u.sha, source, now);
      case Probed(lp, now, lockedAt) => d.RecordProbe(u.sha, lp, now, lockedAt);
    }

    function AsPlain(): Plain
      reads this, disk
    {
      Plain(disk.file, mem)
    }

    function MemOf(sha: Sha): Option<Failure>
      reads this
    {
      if sha in mem then Some(mem[sha]) else None
    }

    /** The last probe a read of the store gives now. */
    function ProbeSeen(sha: Sha, reading: Reading): Option<Probe>
      reads this`readCache, disk, CachedDoc()
    {
      if reading.StatFails? || disk.file.None? then None
      else if Hit() then (if readCache.value.doc == null then None else EntryOf(readCache.value.doc.bins, sha).lastProbe)
      else if reading.OpenFails? then None
      else EntryOf(BinsOf(disk.file), sha).lastProbe
    }

    /** From a coherent cache that is the one on disk, but where the read fails; an open fails only where nothing is cached. */
    lemma ProbeSeenIsStored(sha: Sha, reading: Reading)
      requires Valid() && ReadCoherent()
      ensures ProbeSeen(sha, reading) ==
              if reading.StatFails? || (reading.OpenFails? && !Hit()) then None else EntryOf(BinsOf(disk.file), sha).lastProbe
    {
    }

    /** `_stored_last_probe`. */
    method StoredLastProbe(sha: Sha, reading: Reading) returns (lp: Option<Probe>)
      requires Valid()
      modifies this`readCache, disk
      ensures Valid() && disk.file == old(disk.file) && disk.used == old(disk.used)
      ensures lp == old(ProbeSeen(sha, reading))
      ensures old(ReadCoherent()) && !reading.OpenFails? ==> ReadCoherent()
    {
      var doc, err := ReadStore(true, reading, []);
      lp := if doc == null then None else EntryOf(doc.bins, sha).lastProbe;
    }

    /** The save of a failure, and the last probe that is seen after it when it does not work. */
    method SaveFailure(sha: Sha, source: Source, now: Stamp, fate: Fate, sig: Sig) returns (saved: bool)
      requires Valid() && sig !in disk.used
      modifies this`readCache, disk
      ensures Valid() && disk.used <= old(disk.used) + {sig}
      ensures saved <==> Saves(old(disk.file), fate)
      ensures saved ==> ReadCoherent()
      ensures saved ==> disk.file ==
                        Some(File(sig, Readable(ApplyUpdate(Loaded(old(disk.file), fate.reading), Update(sha, CallFailed(now, source))))))
      ensures !saved ==> disk.file == Left(old(disk.file), fate)
      ensures !saved && (fate.lockWorks || old(ReadCoherent())) && !fate.reading.OpenFails? ==>
        ProbeSeen(sha, Works) == EntryOf(BinsOf(disk.file), sha).lastProbe
      ensures !saved && fate.lockWorks && fate.reading.OpenFails? && IsReadable(old(disk.file)) ==>
        disk.file.None? || (Hit() && readCache.value.doc == null)
      ensures old(ReadCoherent()) && Clean(fate) ==> ReadCoherent()
    {
      FailureKeepsLastProbe(BinsOf(disk.file), sha, source, now);
      saved := LockedUpdate(Update(sha, CallFailed(now, source)), fate, sig);
    }

    /** `_mem_note`. */
    method NoteInMemory(sha: Sha, source: Source, now: Stamp, reading: Reading)
      requires Valid() && verdictCache.None?
      modifies this`readCache, this`mem, this`memVersion, disk
      ensures Valid() && disk.file == old(disk.file) && disk.used == old(disk.used)
      ensures mem == old(mem)[sha := MemNote(old(MemOf(sha)), old(ProbeSeen(sha, reading)), source, now)]
      ensures memVersion == old(memVersion) + 1
      ensures old(ReadCoherent()) && !reading.OpenFails? ==> ReadCoherent()
    {
      var lp := StoredLastProbe(sha, reading);
      memVersion := memVersion + 1;
      mem := mem[sha := MemNote(MemOf(sha), lp, source, now)];
    }

    /**
     `_note_failure`: save it, or keep it in memory; `again` is the read of the store after a failed save.
     Even when the failed write has left its update in the cache, the memory is updated against the last
     probe that is on disk. Only when a failed open is remembered, or the second read fails, is no probe seen.
     */
    method NoteFailure(sha: Sha, source: Source, now: Stamp, fate: Fate, again: Reading, sig: Sig) returns (saved: bool)
      requires Valid() && sig !in disk.used
      modifies this, disk
      ensures Valid() && verdictCache.None? && writeError == !saved
      ensures saved <==> Saves(old(disk.file), fate)
      ensures saved ==> Coherent() && mem == old(mem) - {sha}
      ensures saved ==> disk.file ==
                        Some(File(sig, Readable(ApplyUpdate(Loaded(old(disk.file), fate.reading), Update(sha, CallFailed(now, source))))))
      ensures !saved ==> disk.file == Left(old(disk.file), fate) && memVersion == old(memVersion) + 1
      ensures !saved && (fate.lockWorks || old(ReadCoherent())) && !fate.reading.OpenFails? && again.Works? ==>
        mem == old(mem)[sha := MemNote(old(MemOf(sha)), EntryOf(BinsOf(disk.file), sha).lastProbe, source, now)]
      ensures !saved && (again.StatFails? || (fate.lockWorks && fate.reading.OpenFails? && IsReadable(old(disk.file)))) ==>
        mem == old(mem)[sha := MemNote(old(MemOf(sha)), None, source, now)]
      ensures old(ReadCoherent()) && Clean(fate) && !again.OpenFails? ==> Coherent()
      ensures disk.used <= old(disk.used) + {sig}
    {
      saved := SaveFailure(sha, source, now, fate, sig);
      writeError := !saved;
      verdictCache := None;
      if saved {
        mem := mem - {sha};
      } else {
        NoteInMemory(sha, source, now, again);
      }
    }

    /** `record_probe` for a well-formed result. */
    method RecordProbe(sha: Sha, lp: Probe, now: Stamp, lockedAt: real, fate: Fate, sig: Sig) returns (saved: bool)
      requires Valid() && sig !in disk.used
      modifies this, disk
      ensures Valid() && verdictCache.None? && writeError == !saved
      ensures mem == old(mem) && memVersion == old(memVersion)
      ensures saved <==> Saves(old(disk.file), fate)
      ensures saved ==> Coherent() && (Hit() <==> fate.statWorks)
      ensures saved ==> disk.file ==
                        Some(File(sig, Readable(ApplyUpdate(Loaded(old(disk.file), fate.reading), Update(sha, Probed(lp, now, lockedAt))))))
      ensures !saved ==> disk.file == Left(old(disk.file), fate)
      ensures !saved && fate.lockWorks && IsReadable(old(disk.file)) && fate.reading.Works? ==>
        Hit() && readCache.value.doc != null
        && readCache.value.doc.bins == ApplyUpdate(BinsOf(old(disk.file)), Update(sha, Probed(lp, now, lockedAt)))
      ensures old(ReadCoherent()) && Clean(fate) ==> Coherent()
      ensures disk.used <= old(disk.used) + {sig}
    {
      saved := LockedUpdate(Update(sha, Probed(lp, now, lockedAt)), fate, sig);
      verdictCache := None;
      writeError := !saved;
    }

    /**
     `current`: from coherent caches, the verdict of the file as it was at the stat or at the open. (When
     the file is moved aside between the two, the read is an error and the verdict is failing.) A failed read
     is failing too, and one that failed after the stat is remembered.
     */
    method Current(sha: Sha, reading: Reading, others: seq<Option<File>>) returns (r: Report)
      requires Valid() && NewSignatures(others, disk.used)
      modifies this`readCache, this`verdictCache, disk
      ensures Valid()
      ensures verdictCache.Some? && verdictCache.value.report == r
      ensures verdictCache.value.key ==
        Key(sha, if readCache.Some? then Some(readCache.value.sig) else None, verdictCache.value.key.err, memVersion, writeError)
      ensures old(verdictCache).Some? && old(verdictCache).value.key == verdictCache.value.key ==>
        verdictCache == old(verdictCache)
      ensures reading.Works? && old(Coherent()) ==>
        Coherent()
        && (r == View(old(disk.file), mem, sha) || r == View(disk.file, mem, sha) || (r == UNREADABLE && disk.file.None?))
      ensures reading.StatFails? ==> r == UNREADABLE && disk.file == old(disk.file) && disk.used == old(disk.used)
      ensures reading.StatFails? && old(Coherent()) ==> Coherent()
      ensures reading.OpenFails? && old(disk.file).Some? && !old(Hit()) ==>
        r == UNREADABLE && readCache == Some(Cached(old(disk.file).value.sig, null))
      ensures others == [] ==> disk.file == old(disk.file) && disk.used == old(disk.used)
      ensures others == [] && reading.Works? && old(Coherent()) ==> r == View(disk.file, mem, sha)
      ensures !reading.StatFails? && old(Hit()) ==> readCache == old(readCache) && disk.file == old(disk.file)
      ensures !reading.StatFails? && old(Hit()) && old(readCache).value.doc == null ==> r == UNREADABLE
      ensures !reading.StatFails? && old(verdictCache).None? && old(Hit()) && old(readCache).value.doc != null ==>
        r == Assemble(EntryOf(old(readCache).value.doc.bins, sha), MemOf(sha))
    {
      var doc, err := ReadStore(true, reading, others);
      var sig := if readCache.Some? then Some(readCache.value.sig) else None;
      var key := Key(sha, sig, err, memVersion, writeError);
      if verdictCache.Some? && verdictCache.value.key == key {
        return verdictCache.value.report;
      }
      if err {
        r := UNREADABLE;
      } else {
        r := Assemble(if doc == null then BLANK else EntryOf(doc.bins, sha), MemOf(sha));
      }
      verdictCache := Some(CachedVerdict(key, r));
    }
  }

  /** No write fails once the lock is held, and no open: these are what the caches go on believing. */
  predicate Clean(fate: Fate) {
    (fate.lockWorks ==> fate.writeWorks) && !fate.reading.OpenFails?
  }

  /**
   A probe pass whose write fails is believed all the same by the process that made it: its next verdict
   agrees with the file exactly when the pass clears nothing and was not the first one.
   */
  method UnsavedPassIsBelieved(p: Process, sha: Sha, lp: Probe, now: Stamp, lockedAt: real, sig: Sig) returns (r: Report)
    requires p.Valid() && sig !in p.disk.used && IsReadable(p.disk.file) && sha !in p.mem && lp.outcome.Passed?
    modifies p, p.disk
    ensures p.disk.file == old(p.disk.file)
    ensures var e := EntryOf(BinsOf(p.disk.file), sha);
            r.state == View(p.disk.file, p.mem, sha).state <==>
              if e.failure.Some? then LandedDuringProbe(e.failure.value.last.ts, lp.startedTs, lockedAt)
              else e.lastProbe.Some? && e.lastProbe.value.outcome.Passed?
    ensures EntryOf(BinsOf(p.disk.file), sha).failure.Some? && r.state != View(p.disk.file, p.mem, sha).state ==>
            r.state.Passing?
  {
    var u := Update(sha, Probed(lp, now, lockedAt));
    ApplyUpdateAt(BinsOf(p.disk.file), u, sha);
    var saved := p.RecordProbe(sha, lp, now, lockedAt, Fate(true, Works, true, false, true), sig);
    r := p.Current(sha, Works, []);
  }

  /**
   One failed open of a good file is remembered for as long as the file stays: every binary then reads as
   failing, which agrees with the file exactly when the binary is.
   */
  method FailedOpenIsRemembered(p: Process, first: Sha, sha: Sha) returns (r: Report)
    requires p.Valid() && IsReadable(p.disk.file) && !p.Hit()
    modifies p, p.disk
    ensures p.disk.file == old(p.disk.file) && r == UNREADABLE
    ensures r.state == View(p.disk.file, p.mem, sha).state <==> View(p.disk.file, p.mem, sha).state.Failing?
    ensures !p.ReadCoherent()
  {
    var _ := p.Current(first, OpenFails, []);
    r := p.Current(sha, Works, []);
  }

  // ----- whole runs of one process -----

  /** What a process does, or others do to its file. */
  datatype CacheOp =
    | Failed(sha: Sha, source: Source, now: Stamp, fate: Fate, again: Reading, sig: Sig)
    | Probes(sha: Sha, lp: Probe, now: Stamp, lockedAt: real, fate: Fate, sig: Sig)
    | Asked(sha: Sha, reading: Reading)
    | Replaced(content: Content, sig: Sig)
    | Removed

  /** Locks, moves aside and stats may fail; no write under the lock does, and no open. */
  predicate CleanOp(op: CacheOp) {
    match op
    case Failed(_, _, _, fate, again, _) => Clean(fate) && !again.OpenFails?
    case Probes(_, _, _, _, fate, _) => Clean(fate)
    case Asked(_, reading) => !reading.OpenFails?
    case _ => true
  }

  predicate CleanOps(ops: seq<CacheOp>) {
    forall op :: op in ops ==> CleanOp(op)
  }

  /** Every signature is new when it is used. */
  predicate NewSigs(ops: seq<CacheOp>, used: set<Sig>) {
    ops == []
    || (if ops[0].Asked? || ops[0].Removed? then NewSigs(ops[1..], used)
        else ops[0].sig !in used && NewSigs(ops[1..], used + {ops[0].sig}))
  }

  lemma {:induction false} FewerUsed(ops: seq<CacheOp>, used: set<Sig>, fewer: set<Sig>)
    requires NewSigs(ops, used) && fewer <= used
    ensures NewSigs(ops, fewer)
  {
    if ops != [] {
      if ops[0].Asked? || ops[0].Removed? {
        FewerUsed(ops[1..], used, fewer);
      } else {
        FewerUsed(ops[1..], used + {ops[0].sig}, fewer + {ops[0].sig});
      }
    }
  }

  /** A process without caches: the file, and what the process could not save. */
  datatype Plain = Plain(file: Option<File>, mem: map<Sha, Failure>)

  /** What one thing that happens leaves of a file and of a memory without caches. */
  ghost function After(s: Plain, op: CacheOp): Plain {
    match op
    case Failed(sha, source, now, fate, again, sig) =>
      if Saves(s.file, fate) then
        Plain(Written(s.file, Update(sha, CallFailed(now, source)), fate, sig), s.mem - {sha})
      else
        var left := Left(s.file, fate);
        var lp := if again.StatFails? then None else EntryOf(BinsOf(left), sha).lastProbe;
        Plain(left, s.mem[sha := MemNote(if sha in s.mem then Some(s.mem[sha]) else None, lp, source, now)])
    case Probes(sha, lp, now, lockedAt, fate, sig) =>
      Plain(if Saves(s.file, fate) then Written(s.file, Update(sha, Probed(lp, now, lockedAt)), fate, sig) else Left(s.file, fate), s.mem)
    case Asked(_, _) => s
    case Replaced(content, sig) => s.(file := Some(File(sig, content)))
    case Removed => s.(file := None)
  }

  ghost function Written(file: Option<File>, u: Update, fate: Fate, sig: Sig): Option<File> {
    Some(File(sig, Readable(ApplyUpdate(Loaded(file, fate.reading), u))))
  }

  ghost function AfterAll(s: Plain, ops: seq<CacheOp>): Plain {
    if ops == [] then s else After(AfterAll(s, ops[..|ops| - 1]), ops[|ops| - 1])
  }

  /** The verdicts a process without caches tells. */
  ghost function Tells(s: Plain, ops: seq<CacheOp>): seq<Report> {
    if ops == [] then []
    else
      var front, last := ops[..|ops| - 1], ops[|ops| - 1];
      Tells(s, front) + if last.Asked? then [Fresh(AfterAll(s, front).file, AfterAll(s, front).mem, last.sha, last.reading)] else []
  }

  /** What a process with nothing cached would assemble from a read that goes this way. */
  function Fresh(file: Option<File>, mem: map<Sha, Failure>, sha: Sha, reading: Reading): Report {
    if reading.StatFails? then UNREADABLE else View(file, mem, sha)
  }

  /**
   Over every sequence of own failures, own probes, questions and replacements by others, as long as no
   write and no open fails: a process with caches leaves the file and the memory of one without, and tells the
   same verdicts. The file is that one whatever fails.
   */
  method RunOps(p: Process, ops: seq<CacheOp>) returns (told: seq<Report>)
    requires p.Valid() && p.Coherent() && NewSigs(ops, p.disk.used)
    modifies p, p.disk
    ensures p.Valid() && p.disk.file == AfterAll(old(p.AsPlain()), ops).file
    ensures CleanOps(ops) ==>
      p.Coherent() && p.AsPlain() == AfterAll(old(p.AsPlain()), ops) && told == Tells(old(p.AsPlain()), ops)
  {
    told := [];
    for i := 0 to |ops|
      invariant p.Valid() && NewSigs(ops[i..], p.disk.used) && p.disk.file == AfterAll(old(p.AsPlain()), ops[..i]).file
      invariant CleanOps(ops) ==>
        p.Coherent() && p.AsPlain() == AfterAll(old(p.AsPlain()), ops[..i]) && told == Tells(old(p.AsPlain()), ops[..i])
    {
      assert ops[i..][0] == ops[i] && ops[i..][1..] == ops[i + 1..] && ops[..i + 1][..i] == ops[..i];
      ghost var used := p.disk.used;
      var report := DoOp(p, ops[i]);
      told := if report.Some? then told + [report.value] else told;
      FewerUsed(ops[i + 1..], if ops[i].Asked? || ops[i].Removed? then used else used + {ops[i].sig}, p.disk.used);
    }
    assert ops[..|ops|] == ops;
  }

  /** One thing that happens, to a process with caches. */
  method DoOp(p: Process, op: CacheOp) returns (report: Option<Report>)
    requires p.Valid() && (op.Asked? || op.Removed? || op.sig !in p.disk.used)
    modifies p, p.disk
    ensures p.Valid() && p.disk.used <= old(p.disk.used) + if op.Asked? || op.Removed? then {} else {op.sig}
    ensures p.disk.file == After(old(p.AsPlain()), op).file && (report.Some? <==> op.Asked?)
    ensures old(p.Coherent()) && CleanOp(op) ==> p.Coherent() && p.AsPlain() == After(old(p.AsPlain()), op)
    ensures old(p.Coherent()) && CleanOp(op) && op.Asked? ==>
      report == Some(Fresh(old(p.disk.file), old(p.mem), op.sha, op.reading))
  {
    report := None;
    match op {
      case Failed(sha, source, now, fate, again, sig) =>
        var saved := p.NoteFailure(sha, source, now, fate, again, sig);
      case Probes(sha, lp, now, lockedAt, fate, sig) =>
        var saved := p.RecordProbe(sha, lp, now, lockedAt, fate, sig);
      case Asked(sha, reading) =>
        var r := p.Current(sha, reading, []);
        report := Some(r);
      case Replaced(content, sig) =>
        p.disk.Replace(Some(File(sig, content)));
      case Removed =>
        p.disk.Replace(None);
    }
  }

  lemma FailureKeepsLastProbe(bins: Bins, sha: Sha, source: Source, now: Stamp)
    ensures EntryOf(ApplyUpdate(bins, Update(sha, CallFailed(now, source))), sha).lastProbe == EntryOf(bins, sha).lastProbe
  {
    ApplyUpdateAt(bins, Update(sha, CallFailed(now, source)), sha);
  }

  predicate IsUnreadable(file: Option<File>) {
    file.Some? && file.value.content.Unreadable?
  }

  predicate IsReadable(file: Option<File>) {
    file.Some? && file.value.content.Readable?
  }

  function BinsOf(file: Option<File>): Bins {
    if IsReadable(file) then file.value.content.bins else map[]
  }
}
