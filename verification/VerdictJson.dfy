/**
 The deep-verdict store as the arbitrary JSON it may hold (src/arail/deep_verdict.py): validation, and
 the assembly of a verdict with every operation that can raise. A JSON document is any value the parser
 returns; an object key that is absent reads as null.
 */
module VerdictJson {
  import opened Basics
  import opened JsonValues
  import R = VerdictRecord
  import S = VerdictStore
  import U = UnsavedFailures

  const SCHEMA := "arail.deep-verdict/v1"

  /** Python's truth value. */
  predicate Truthy(j: Json) {
    match j
    case JNull => false
    case JBool(b) => b
    case JInt(n) => n != 0
    case JFloat(x) => x != 0.0
    case JNonFinite => true
    case JStr(s) => s != ""
    case JArr(items) => items != []
    case JObj(fields) => fields != map[]
  }

  function Or(a: Json, b: Json): Json {
    if Truthy(a) then a else b
  }

  /** 2^1024 - 2^970: from here on an integer rounds past the largest float. */
  const FLOAT_LIMIT := 0xFFFFFFFFFFFFFC00000000000000000000000000000000000000000000000000000000000000000000000000000000000000000000000000000000000000000000000000000000000000000000000000000000000000000000000000000000000000000000000000000000000000000000000000000000000000000000000000

  /** An integer `float()` accepts; a larger one raises OverflowError. */
  predicate FitsFloat(n: int) {
    -FLOAT_LIMIT < n < FLOAT_LIMIT
  }

  // ----- validation -----

  /** `_is_finite_number` returns True; it raises for an integer beyond the float range. */
  predicate IsFiniteNumber(j: Json) {
    (j.JInt? && FitsFloat(j.n)) || j.JFloat?
  }

  predicate NullOr(j: Json, ok: bool) {
    j.JNull? || ok
  }

  predicate ValidFailure(f: map<string, Json>) {
    && NullOr(Get(f, "since_ts"), IsFiniteNumber(Get(f, "since_ts")))
    && NullOr(Get(f, "last_ts"), IsFiniteNumber(Get(f, "last_ts")))
    && NullOr(Get(f, "since"), Get(f, "since").JStr?)
    && NullOr(Get(f, "last_at"), Get(f, "last_at").JStr?)
    && NullOr(Get(f, "count"), Get(f, "count").JInt?)
  }

  predicate ValidProbe(lp: map<string, Json>) {
    && NullOr(Get(lp, "started_ts"), IsFiniteNumber(Get(lp, "started_ts")))
    && NullOr(Get(lp, "at"), Get(lp, "at").JStr?)
    && NullOr(Get(lp, "started_at"), Get(lp, "started_at").JStr?)
    && NullOr(Get(lp, "passed"), Get(lp, "passed").JInt?)
    && NullOr(Get(lp, "total"), Get(lp, "total").JInt?)
    && NullOr(Get(lp, "first_error"), Get(lp, "first_error").JObj?)
  }

  predicate ValidEntry(e: map<string, Json>) {
    var f, lp := Get(e, "failure"), Get(e, "last_probe");
    && NullOr(f, f.JObj? && ValidFailure(f.fields))
    && NullOr(lp, lp.JObj? && ValidProbe(lp.fields))
    && NullOr(Get(e, "last_pass_at"), Get(e, "last_pass_at").JStr?)
  }

  /** `_validate_doc` returns None. Anything else, an exception included, makes the store unreadable. */
  predicate ValidDoc(doc: Json) {
    && doc.JObj?
    && Get(doc.fields, "schema") == JStr(SCHEMA)
    && var bins := Get(doc.fields, "binaries");
    && bins.JObj?
    && forall sha :: sha in bins.fields ==> bins.fields[sha].JObj? && ValidEntry(bins.fields[sha].fields)
  }

  // ----- assembly, with everything that can raise -----

  datatype Result<+T> = Raised | Ok(value: T) {
    predicate IsFailure() { Raised? }
    function PropagateFailure<V>(): Result<V> requires Raised? { Raised }
    function Extract(): T requires Ok? { value }
  }

  datatype Told = Told(state: U.State, failure: Json, lastProbe: Json)

  /** `float(v)`. */
  function FloatOf(j: Json): Result<real> {
    match j
    case JInt(n) => if FitsFloat(n) then Ok(n as real) else Raised
    case JFloat(x) => Ok(x)
    case JBool(b) => Ok(if b then 1.0 else 0.0)
    case _ => Raised
  }

  /** `v.get(name)`: raises unless `v` is an object. */
  function GetOf(j: Json, name: string): Result<Json> {
    if j.JObj? then Ok(Get(j.fields, name)) else Raised
  }

  /** `_passed_since`: a missing or unusable stamp means no, an integer beyond the float range raises. */
  function PassedSince(lastTs: real, lp: Json): Result<bool> {
    if !lp.JObj? || Get(lp.fields, "outcome") != JStr("pass") then Ok(false)
    else
      var started := Get(lp.fields, "started_ts");
      if started.JInt? && !FitsFloat(started.n) then Raised
      else if FloatOf(started).Raised? then Ok(false)
      else Ok(lastTs < FloatOf(started).value)
  }

  /** A number, or a truth value taken for one, and larger than `bound`. */
  predicate Exceeds(j: Json, bound: real) {
    || (j.JFloat? && bound < j.x)
    || (j.JInt? && FitsFloat(j.n) && bound < j.n as real)
    || (j.JBool? && bound < if j.b then 1.0 else 0.0)
  }

  /**
   Whatever is on record: a failure is superseded exactly by a pass that says it began later, in a number a
   float can hold; only a larger integer raises, and every other stamp leaves the failure standing.
   */
  lemma PassedSinceIff(lastTs: real, lp: Json)
    ensures PassedSince(lastTs, lp) == Ok(true) <==>
            lp.JObj? && Get(lp.fields, "outcome") == JStr("pass") && Exceeds(Get(lp.fields, "started_ts"), lastTs)
    ensures PassedSince(lastTs, lp).Raised? <==>
            lp.JObj? && Get(lp.fields, "outcome") == JStr("pass")
            && Get(lp.fields, "started_ts").JInt? && !FitsFloat(Get(lp.fields, "started_ts").n)
  {
  }

  /** `_utc_minute`: slices a text, and treats null and the empty text alike. */
  function UtcMinute(j: Json): Result<()> {
    if !Truthy(j) || j.JStr? then Ok(()) else Raised
  }

  /** `_what_failed`: the text itself is not modelled, only whether building it raises. */
  function WhatFailed(f: Json, lp: Json): Result<()> {
    var source :- GetOf(f, "source");
    var _ :- GetOf(f, "lab");
    if source != JStr("probe") then Ok(())
    else
      var first :- GetOf(Or(lp, JObj(map[])), "first_error");
      if !Truthy(lp) then Ok(())
      else
        var outcome :- GetOf(lp, "outcome");
        if outcome == JStr("fail") then
          var _ :- GetOf(Or(first, JObj(map[])), "call");
          Ok(())
        else Ok(())
  }

  function FailingDetail(f: Json, lp: Json): Result<()> {
    var since :- GetOf(f, "since");
    var _ :- (if Truthy(since) then UtcMinute(since) else Ok(()));
    WhatFailed(f, lp)
  }

  /** The failure kept in memory, as the dictionary it is. */
  function FailureJson(f: R.Failure): Json {
    JObj(map["since" := JStr(f.since.iso), "since_ts" := JFloat(f.since.ts), "last_at" := JStr(f.last.iso),
             "last_ts" := JFloat(f.last.ts), "source" := SourceJson(f.source), "count" := JInt(f.count)])
  }

  function SourceJson(s: R.Source): Json {
    match s
    case FromProbe => JStr("probe")
    case FromCall => JStr("call")
    case FromLoad => JStr("load")
  }

  /** Is the failure in memory newer than the stored one? */
  function MemoryIsNewer(mem: R.Failure, stored: Json): Result<bool> {
    var last :- GetOf(stored, "last_ts");
    var t :- FloatOf(Or(last, JInt(0)));
    Ok(mem.last.ts > t)
  }

  /**
   How deep the interpreter lets the parser and `copy.deepcopy` recurse. The copy takes more of the stack
   for each level, so its limit is the smaller; a record of the writers' own is always within it.
   */
  datatype Limits = Limits(parse: nat, copy: nat)

  const WRITTEN_DEPTH := 2

  ghost predicate Sensible(limits: Limits) {
    WRITTEN_DEPTH <= limits.copy && limits.copy + 4 <= limits.parse
  }

  /** `copy.deepcopy`. */
  function Copy(j: Json, limits: Limits): Result<Json> {
    if NestedWithin(j, limits.copy) then Ok(j) else Raised
  }

  /** `_assemble` for a document that validated, or none, and an identified binary. */
  function AssembleDoc(doc: Option<Json>, sha: string, mem: Option<R.Failure>, limits: Limits): Result<Told> {
    var bins :- (if doc.None? then Ok(JObj(map[])) else GetOf(doc.value, "binaries"));
    var entry :- GetOf(bins, sha);
    var stored := if entry.JObj? then Get(entry.fields, "failure") else JNull;
    var lp := if entry.JObj? then Get(entry.fields, "last_probe") else JNull;
    AssembleEntry(stored, lp, mem, limits)
  }

  /** The rest of `_assemble`, given what the document holds for the binary. */
  function AssembleEntry(stored: Json, probe: Json, mem: Option<R.Failure>, limits: Limits): Result<Told> {
    var lp :- Copy(probe, limits);
    var hidden :- (if mem.Some? then PassedSince(mem.value.last.ts, lp) else Ok(false));
    var visible := if hidden then None else mem;
    var copied :- (if stored.JNull? then Ok(JNull) else Copy(stored, limits));
    var newer :- (if !stored.JNull? && visible.Some? then MemoryIsNewer(visible.value, stored) else Ok(false));
    var f := if visible.Some? && (stored.JNull? || newer) then FailureJson(visible.value) else copied;
    if !f.JNull? then
      var _ :- FailingDetail(f, lp);
      var shown :- Copy(f, limits);
      Ok(Told(U.Failing, shown, lp))
    else if lp.JObj? && Get(lp.fields, "outcome") == JStr("pass") then
      var median := Get(lp.fields, "median_ok_s");
      if median.JInt? && !FitsFloat(median.n) then Raised
      else
        var _ :- UtcMinute(Get(lp.fields, "at"));
        Ok(Told(U.Passing, JNull, lp))
    else Ok(Told(U.Untested, JNull, if lp.JObj? then lp else JNull))
  }

  /** The store can be read: the parser gets through it and the validator accepts it. */
  predicate Accepted(doc: Json, limits: Limits) {
    NestedWithin(doc, limits.parse) && ValidDoc(doc)
  }

  /** `current`: what the file holds, whatever it is, to a verdict. An exception in the assembly reads as untested. */
  function Current(doc: Option<Json>, sha: string, mem: Option<R.Failure>, limits: Limits): Told {
    if doc.Some? && !Accepted(doc.value, limits) then Told(U.Failing, JNull, JNull)
    else match AssembleDoc(doc, sha, mem, limits)
      case Ok(v) => v
      case Raised => Told(U.Untested, JNull, JNull)
  }

  /** The failure a document has on record for a binary; any value but null counts. */
  function RecordedFailure(doc: Json, sha: string): Json
    requires ValidDoc(doc)
  {
    var bins := Get(doc.fields, "binaries").fields;
    if sha in bins then Get(bins[sha].fields, "failure") else JNull
  }

  function RecordedProbe(doc: Json, sha: string): Json
    requires ValidDoc(doc)
  {
    var bins := Get(doc.fields, "binaries").fields;
    if sha in bins then Get(bins[sha].fields, "last_probe") else JNull
  }

  // ----- fail closed -----

  lemma EntryIsValid(doc: Json, sha: string)
    requires ValidDoc(doc)
    ensures RecordedFailure(doc, sha).JNull?
            || (RecordedFailure(doc, sha).JObj? && ValidFailure(RecordedFailure(doc, sha).fields))
    ensures RecordedProbe(doc, sha).JNull?
            || (RecordedProbe(doc, sha).JObj? && ValidProbe(RecordedProbe(doc, sha).fields))
  {
  }

  lemma DetailNeverRaises(f: Json, lp: Json)
    requires f.JObj? && ValidFailure(f.fields)
    requires lp.JNull? || (lp.JObj? && ValidProbe(lp.fields))
    ensures FailingDetail(f, lp).Ok?
  {
  }

  /** A failure in memory is a flat object. */
  lemma FailureIsFlat(f: R.Failure)
    ensures NestedWithin(FailureJson(f), 1)
  {
  }

  /** A failure in memory raises nothing, whatever the document holds beside it. */
  lemma MemoryNeverRaises(mem: R.Failure, lp: Json, limits: Limits)
    requires Sensible(limits) && (lp.JNull? || (lp.JObj? && ValidProbe(lp.fields)))
    ensures Copy(FailureJson(mem), limits) == Ok(FailureJson(mem))
    ensures FailingDetail(FailureJson(mem), lp).Ok? && PassedSince(mem.last.ts, lp).Ok?
  {
    FailureIsFlat(mem);
    NestedWithinMore(FailureJson(mem), 1, limits.copy);
    DetailNeverRaises(FailureJson(mem), lp);
  }

  lemma FailureOnRecordFails(stored: Json, lp: Json, mem: Option<R.Failure>, limits: Limits)
    requires Sensible(limits)
    requires stored.JObj? && ValidFailure(stored.fields)
    requires lp.JNull? || (lp.JObj? && ValidProbe(lp.fields))
    ensures var told := AssembleEntry(stored, lp, mem, limits);
            && (told.Ok? <==> NestedWithin(stored, limits.copy) && NestedWithin(lp, limits.copy))
            && (told.Ok? ==> told.value.state == U.Failing)
  {
    if mem.Some? {
      FailureBesideMemoryFails(stored, lp, mem.value, limits);
    } else {
      DetailNeverRaises(stored, lp);
    }
  }

  lemma FailureBesideMemoryFails(stored: Json, lp: Json, mem: R.Failure, limits: Limits)
    requires Sensible(limits)
    requires stored.JObj? && ValidFailure(stored.fields)
    requires lp.JNull? || (lp.JObj? && ValidProbe(lp.fields))
    ensures var told := AssembleEntry(stored, lp, Some(mem), limits);
            && (told.Ok? <==> NestedWithin(stored, limits.copy) && NestedWithin(lp, limits.copy))
            && (told.Ok? ==> told.value.state == U.Failing)
  {
    DetailNeverRaises(stored, lp);
    MemoryNeverRaises(mem, lp, limits);
    StoredStampIsUsable(mem, stored);
  }

  lemma StoredStampIsUsable(mem: R.Failure, stored: Json)
    requires stored.JObj? && ValidFailure(stored.fields)
    ensures MemoryIsNewer(mem, stored).Ok?
  {
  }

  /** The records of this binary can be copied. */
  predicate CanBeCopied(doc: Json, sha: string, limits: Limits)
    requires ValidDoc(doc)
  {
    NestedWithin(RecordedFailure(doc, sha), limits.copy) && NestedWithin(RecordedProbe(doc, sha), limits.copy)
  }

  /**
   Fail closed, and where it ends: a store that is not accepted reads as failing; an accepted one with any
   failure on record, even an empty object, reads as failing exactly when neither that failure nor the
   last probe is nested deeper than the copy goes.
   */
  lemma FailClosed(doc: Json, sha: string, mem: Option<R.Failure>, limits: Limits)
    requires Sensible(limits)
    ensures !Accepted(doc, limits) ==> Current(Some(doc), sha, mem, limits).state == U.Failing
    ensures Accepted(doc, limits) && !RecordedFailure(doc, sha).JNull? ==>
              (Current(Some(doc), sha, mem, limits).state == U.Failing <==> CanBeCopied(doc, sha, limits))
  {
    if Accepted(doc, limits) && !RecordedFailure(doc, sha).JNull? {
      EntryIsValid(doc, sha);
      FailureOnRecordFails(RecordedFailure(doc, sha), RecordedProbe(doc, sha), mem, limits);
    }
  }

  /** What an unknown key of a failure may hold. */
  function DeepFailureDoc(sha: string, depth: nat): Json {
    var failure := JObj(map["x" := Nest(depth)]);
    JObj(map["schema" := JStr(SCHEMA), "binaries" := JObj(map[sha := JObj(map["failure" := failure])])])
  }

  lemma DeepFailureDocIsValid(sha: string, depth: nat)
    ensures ValidDoc(DeepFailureDoc(sha, depth))
    ensures RecordedFailure(DeepFailureDoc(sha, depth), sha) == JObj(map["x" := Nest(depth)])
    ensures RecordedProbe(DeepFailureDoc(sha, depth), sha) == JNull
  {
  }

  lemma DeepFailureDocIsNested(sha: string, depth: nat, n: nat)
    ensures NestedWithin(DeepFailureDoc(sha, depth), n) <==> depth + 4 <= n
    ensures NestedWithin(JObj(map["x" := Nest(depth)]), n) <==> depth + 1 <= n
  {
    var failure := JObj(map["x" := Nest(depth)]);
    var entry := JObj(map["failure" := failure]);
    var bins := JObj(map[sha := entry]);
    assert failure.fields["x"] == Nest(depth) && entry.fields["failure"] == failure && bins.fields[sha] == entry;
    assert DeepFailureDoc(sha, depth).fields["binaries"] == bins;
    forall m: nat ensures NestedWithin(failure, m) <==> depth + 1 <= m {
      if m > 0 {
        NestIsExact(depth, m - 1);
      }
    }
    assert n >= 1 ==> (NestedWithin(entry, n - 1) <==> n >= 2 && NestedWithin(failure, n - 2));
    assert n >= 2 ==> (NestedWithin(entry, n - 2) <==> n >= 3 && NestedWithin(failure, n - 3));
    assert n >= 1 ==> (NestedWithin(bins, n - 1) <==> n >= 2 && NestedWithin(entry, n - 2));
  }

  /** The failing input: an array under an unknown key, deep enough for the copy and not for the parser, reads as untested. */
  lemma DeepFailureFailsOpen(sha: string, mem: Option<R.Failure>, limits: Limits)
    requires Sensible(limits)
    ensures var doc := DeepFailureDoc(sha, limits.copy);
            && Accepted(doc, limits) && !RecordedFailure(doc, sha).JNull?
            && Current(Some(doc), sha, mem, limits).state == U.Untested
  {
    var doc := DeepFailureDoc(sha, limits.copy);
    DeepFailureDocIsValid(sha, limits.copy);
    DeepFailureDocIsNested(sha, limits.copy, limits.parse);
    DeepFailureDocIsNested(sha, limits.copy, limits.copy);
    FailureOnRecordFails(RecordedFailure(doc, sha), JNull, mem, limits);
  }

  /**
   The untested handler of `current` is reached from an accepted document exactly when a record of the
   binary is nested deeper than the copy goes, or the verdict would have been passing and its median is an
   integer no float can hold.
   */
  lemma HandlerIsReachedIff(doc: Json, sha: string, mem: Option<R.Failure>, limits: Limits)
    requires Sensible(limits) && ValidDoc(doc)
    ensures AssembleDoc(Some(doc), sha, mem, limits).Raised? <==>
            var lp := RecordedProbe(doc, sha);
            || !CanBeCopied(doc, sha, limits)
            || (&& RecordedFailure(doc, sha).JNull?
                && lp.JObj? && Get(lp.fields, "outcome") == JStr("pass")
                && Get(lp.fields, "median_ok_s").JInt? && !FitsFloat(Get(lp.fields, "median_ok_s").n)
                && (mem.Some? ==> PassedSince(mem.value.last.ts, lp) == Ok(true)))
  {
    EntryIsValid(doc, sha);
    var stored, lp := RecordedFailure(doc, sha), RecordedProbe(doc, sha);
    if !stored.JNull? {
      FailureOnRecordFails(stored, lp, mem, limits);
    } else if mem.Some? {
      MemoryNeverRaises(mem.value, lp, limits);
    }
  }

  // ----- the documents the writers write -----

  function ProbeJson(lp: R.Probe): Json {
    JObj(map["started_ts" := JFloat(lp.startedTs), "at" := JStr(lp.at),
             "outcome" := JStr(if lp.outcome.Passed? then "pass" else "fail"),
             "passed" := JInt(lp.passed), "total" := JInt(lp.total)])
  }

  function EntryJson(e: R.Entry): Json {
    JObj(map["last_probe" := if e.lastProbe.Some? then ProbeJson(e.lastProbe.value) else JNull,
             "failure" := if e.failure.Some? then FailureJson(e.failure.value) else JNull,
             "last_pass_at" := if e.lastPassAt.Some? then JStr(e.lastPassAt.value) else JNull])
  }

  function DocJson(bins: S.Bins): Json {
    JObj(map["schema" := JStr(SCHEMA), "binaries" := JObj(map sha | sha in bins :: EntryJson(bins[sha]))])
  }

  function ReadSource(j: Json): R.Source {
    if j == JStr("probe") then R.FromProbe else if j == JStr("load") then R.FromLoad else R.FromCall
  }

  function Text(j: Json): string {
    if j.JStr? then j.s else ""
  }

  function Real(j: Json): real {
    if j.JFloat? then j.x else if j.JInt? then j.n as real else 0.0
  }

  function Whole(j: Json): int {
    if j.JInt? then j.n else 0
  }

  function ReadFailure(j: Json): Option<R.Failure> {
    if !j.JObj? then None
    else
      var f := j.fields;
      Some(R.Failure(R.Stamp(Real(Get(f, "since_ts")), Text(Get(f, "since"))),
                     R.Stamp(Real(Get(f, "last_ts")), Text(Get(f, "last_at"))),
                     ReadSource(Get(f, "source")), Whole(Get(f, "count"))))
  }

  function ReadProbe(j: Json): Option<R.Probe> {
    if !j.JObj? then None
    else
      var f := j.fields;
      Some(R.Probe(Real(Get(f, "started_ts")), Text(Get(f, "at")),
                   if Get(f, "outcome") == JStr("pass") then R.Passed else R.Failed,
                   Whole(Get(f, "passed")), Whole(Get(f, "total"))))
  }

  function ReadEntry(j: Json): R.Entry {
    var f := if j.JObj? then j.fields else map[];
    R.Entry(ReadProbe(Get(f, "last_probe")), ReadFailure(Get(f, "failure")),
            if Get(f, "last_pass_at").JStr? then Some(Get(f, "last_pass_at").s) else None)
  }

  function ReadDoc(doc: Json): S.Bins {
    var bins := if doc.JObj? then Get(doc.fields, "binaries") else JNull;
    if bins.JObj? then map sha | sha in bins.fields :: ReadEntry(bins.fields[sha]) else map[]
  }

  /** A document the writers write validates, and is read back as it was. */
  lemma WrittenDocRoundTrips(bins: S.Bins)
    ensures ValidDoc(DocJson(bins)) && ReadDoc(DocJson(bins)) == bins
  {
    forall sha | sha in bins
      ensures ValidEntry(EntryJson(bins[sha]).fields) && ReadEntry(EntryJson(bins[sha])) == bins[sha]
    {
      EntryRoundTrips(bins[sha]);
    }
  }

  lemma FailureRoundTrips(f: R.Failure)
    ensures ReadFailure(FailureJson(f)) == Some(f) && ValidFailure(FailureJson(f).fields)
  {
  }

  lemma ProbeRoundTrips(lp: R.Probe)
    ensures ReadProbe(ProbeJson(lp)) == Some(lp) && ValidProbe(ProbeJson(lp).fields)
  {
  }

  lemma EntryRoundTrips(e: R.Entry)
    ensures ValidEntry(EntryJson(e).fields) && ReadEntry(EntryJson(e)) == e
  {
    if e.failure.Some? {
      FailureRoundTrips(e.failure.value);
    }
    if e.lastProbe.Some? {
      ProbeRoundTrips(e.lastProbe.value);
    }
  }

  /** A stored failure or probe and the record it stands for. */
  ghost predicate Represents(stored: Json, lp: Json, e: R.Entry) {
    && (if e.failure.None? then stored.JNull?
        else stored.JObj? && ValidFailure(stored.fields) && Get(stored.fields, "last_ts") == JFloat(e.failure.value.last.ts))
    && (if e.lastProbe.None? then lp.JNull?
        else
          && lp.JObj? && ValidProbe(lp.fields)
          && Get(lp.fields, "outcome") == JStr(if e.lastProbe.value.outcome.Passed? then "pass" else "fail")
          && Get(lp.fields, "started_ts") == JFloat(e.lastProbe.value.startedTs)
          && Get(lp.fields, "median_ok_s").JNull?)
  }

  lemma WrittenEntryRepresents(e: R.Entry)
    ensures Represents(Get(EntryJson(e).fields, "failure"), Get(EntryJson(e).fields, "last_probe"), e)
  {
    if e.failure.Some? {
      FailureRoundTrips(e.failure.value);
    }
    if e.lastProbe.Some? {
      ProbeRoundTrips(e.lastProbe.value);
    }
  }

  /** With nothing on record, the memory decides. */
  lemma AssemblyWithoutFailure(lp: Json, e: R.Entry, mem: Option<R.Failure>, limits: Limits)
    requires Sensible(limits) && e.failure.None? && Represents(JNull, lp, e) && NestedWithin(lp, limits.copy)
    ensures var told, report := AssembleEntry(JNull, lp, mem, limits), U.Assemble(e, mem);
            && told.Ok? && told.value.state == report.state && told.value.lastProbe == lp
            && (if report.failure.None? then told.value.failure.JNull?
                else told.value.failure == FailureJson(report.failure.value))
  {
    if mem.Some? {
      MemoryNeverRaises(mem.value, lp, limits);
      assert PassedSince(mem.value.last.ts, lp) == Ok(U.PassedSince(mem.value, e.lastProbe));
    }
  }

  lemma MemoryAgainstRecord(stored: Json, lp: Json, e: R.Entry, mem: R.Failure)
    requires e.failure.Some? && Represents(stored, lp, e)
    ensures PassedSince(mem.last.ts, lp) == Ok(U.PassedSince(mem, e.lastProbe))
    ensures MemoryIsNewer(mem, stored) == Ok(mem.last.ts > e.failure.value.last.ts)
  {
  }

  lemma AssemblyWithFailure(stored: Json, lp: Json, e: R.Entry, mem: Option<R.Failure>, limits: Limits)
    requires Sensible(limits) && e.failure.Some? && Represents(stored, lp, e)
    requires NestedWithin(stored, limits.copy) && NestedWithin(lp, limits.copy)
    ensures var told, report := AssembleEntry(stored, lp, mem, limits), U.Assemble(e, mem);
            && told.Ok? && told.value.state == report.state && told.value.lastProbe == lp
            && ((told.value.failure == stored && report.failure == e.failure)
                || (report.failure.Some? && told.value.failure == FailureJson(report.failure.value)))
  {
    FailureOnRecordFails(stored, lp, mem, limits);
    if mem.Some? {
      MemoryAgainstRecord(stored, lp, e, mem.value);
    }
  }

  lemma WrittenIsFlat(e: R.Entry, limits: Limits)
    requires Sensible(limits)
    ensures e.failure.Some? ==> NestedWithin(FailureJson(e.failure.value), limits.copy)
    ensures e.lastProbe.Some? ==> NestedWithin(ProbeJson(e.lastProbe.value), limits.copy)
  {
    if e.failure.Some? {
      FailureIsFlat(e.failure.value);
      NestedWithinMore(FailureJson(e.failure.value), 1, limits.copy);
    }
  }

  lemma WrittenEntryIsFlat(e: R.Entry, n: nat)
    requires n >= 2
    ensures NestedWithin(EntryJson(e), n)
  {
    if e.failure.Some? {
      FailureIsFlat(e.failure.value);
      NestedWithinMore(FailureJson(e.failure.value), 1, n - 1);
    }
  }

  lemma WrittenDocIsParsed(bins: S.Bins, limits: Limits)
    requires Sensible(limits)
    ensures NestedWithin(DocJson(bins), limits.parse)
  {
    forall sha | sha in bins ensures NestedWithin(EntryJson(bins[sha]), limits.parse - 2) {
      WrittenEntryIsFlat(bins[sha], limits.parse - 2);
    }
  }

  /** What the assembly makes of an entry that reads back as its record. */
  lemma RepresentedAssembles(stored: Json, lp: Json, e: R.Entry, mem: Option<R.Failure>, limits: Limits)
    requires Sensible(limits) && Represents(stored, lp, e)
    requires NestedWithin(stored, limits.copy) && NestedWithin(lp, limits.copy)
    requires ReadFailure(stored) == e.failure && ReadProbe(lp) == e.lastProbe
    ensures var told, report := AssembleEntry(stored, lp, mem, limits), U.Assemble(e, mem);
            && told.Ok? && told.value.state == report.state
            && ReadFailure(told.value.failure) == report.failure && ReadProbe(told.value.lastProbe) == report.lastProbe
  {
    var report := U.Assemble(e, mem);
    if report.failure.Some? {
      FailureRoundTrips(report.failure.value);
    }
    if e.failure.Some? {
      AssemblyWithFailure(stored, lp, e, mem, limits);
    } else {
      AssemblyWithoutFailure(lp, e, mem, limits);
    }
  }

  lemma WrittenIsAssembled(bins: S.Bins, sha: string, mem: Option<R.Failure>, limits: Limits)
    requires Sensible(limits) && ValidDoc(DocJson(bins))
    ensures Current(Some(DocJson(bins)), sha, mem, limits) ==
            match AssembleEntry(RecordedFailure(DocJson(bins), sha), RecordedProbe(DocJson(bins), sha), mem, limits)
            case Ok(v) => v
            case Raised => Told(U.Untested, JNull, JNull)
  {
    WrittenDocIsParsed(bins, limits);
  }

  /** What a written document holds for a binary stands for the record it was written from. */
  lemma WrittenRecords(bins: S.Bins, sha: string, limits: Limits)
    requires Sensible(limits) && ValidDoc(DocJson(bins))
    ensures var e := S.EntryOf(bins, sha);
            var stored, lp := RecordedFailure(DocJson(bins), sha), RecordedProbe(DocJson(bins), sha);
            && Represents(stored, lp, e) && NestedWithin(stored, limits.copy) && NestedWithin(lp, limits.copy)
            && ReadFailure(stored) == e.failure && ReadProbe(lp) == e.lastProbe
  {
    var e := S.EntryOf(bins, sha);
    EntryRoundTrips(e);
    WrittenEntryRepresents(e);
    WrittenIsFlat(e, limits);
  }

  /** On written documents the JSON assembly gives the report of the record-level one. */
  lemma AssemblyAgreesWithRecords(bins: S.Bins, sha: string, mem: Option<R.Failure>, limits: Limits)
    requires Sensible(limits)
    ensures var told, report := Current(Some(DocJson(bins)), sha, mem, limits), U.Assemble(S.EntryOf(bins, sha), mem);
            && told.state == report.state
            && ReadFailure(told.failure) == report.failure
            && ReadProbe(told.lastProbe) == report.lastProbe
  {
    WrittenDocRoundTrips(bins);
    WrittenIsAssembled(bins, sha, mem, limits);
    WrittenRecords(bins, sha, limits);
    RepresentedAssembles(RecordedFailure(DocJson(bins), sha), RecordedProbe(DocJson(bins), sha), S.EntryOf(bins, sha), mem, limits);
  }
}
