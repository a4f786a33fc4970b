/**
 Which JSON documents the deep-verdict store reads at all (`_validate_doc` and `_validate_entry` in
 src/arail/deep_verdict.py), as a table of fields and kinds.
 */
module VerdictFormat {
  import opened Basics
  import opened JsonValues
  import opened VerdictJson

  /** What a field is to hold, unless it is absent or null. */
  datatype Kind = ANumber | AText | AWhole | AnObject

  predicate Holds(j: Json, kind: Kind) {
    match kind
    case ANumber => j.JFloat? || (j.JInt? && FitsFloat(j.n))
    case AText => j.JStr?
    case AWhole => j.JInt?
    case AnObject => j.JObj?
  }

  const FAILURE_FIELDS: map<string, Kind> :=
    map["since_ts" := ANumber, "last_ts" := ANumber, "since" := AText, "last_at" := AText, "count" := AWhole]

  const PROBE_FIELDS: map<string, Kind> :=
    map["started_ts" := ANumber, "at" := AText, "started_at" := AText, "passed" := AWhole, "total" := AWhole, "first_error" := AnObject]

  /** Every field of the table that is there and not null is of its kind; any other field may hold anything. */
  ghost predicate Fits(fields: map<string, Json>, table: map<string, Kind>) {
    forall name :: name in table && name in fields && !fields[name].JNull? ==> Holds(fields[name], table[name])
  }

  lemma FieldFits(fields: map<string, Json>, table: map<string, Kind>, name: string)
    requires Fits(fields, table) && name in table
    ensures Get(fields, name).JNull? || Holds(Get(fields, name), table[name])
  {
  }

  /** The checks on a failure are those of its table, no more and no fewer. */
  lemma FailureChecks(f: map<string, Json>)
    ensures ValidFailure(f) <==> Fits(f, FAILURE_FIELDS)
  {
    if Fits(f, FAILURE_FIELDS) {
      FieldFits(f, FAILURE_FIELDS, "since_ts");
      FieldFits(f, FAILURE_FIELDS, "last_ts");
      FieldFits(f, FAILURE_FIELDS, "since");
      FieldFits(f, FAILURE_FIELDS, "last_at");
      FieldFits(f, FAILURE_FIELDS, "count");
    }
  }

  lemma ProbeChecks(lp: map<string, Json>)
    ensures ValidProbe(lp) <==> Fits(lp, PROBE_FIELDS)
  {
    if Fits(lp, PROBE_FIELDS) {
      FieldFits(lp, PROBE_FIELDS, "started_ts");
      FieldFits(lp, PROBE_FIELDS, "at");
      FieldFits(lp, PROBE_FIELDS, "started_at");
      FieldFits(lp, PROBE_FIELDS, "passed");
      FieldFits(lp, PROBE_FIELDS, "total");
      FieldFits(lp, PROBE_FIELDS, "first_error");
    }
  }

  /** Absent, null, or an object whose fields fit the table. */
  ghost predicate FitsRecord(j: Json, table: map<string, Kind>) {
    j.JNull? || (j.JObj? && Fits(j.fields, table))
  }

  /**
   Which documents are read at all: an object of this schema whose `binaries` are an object of objects, in each of
   which the failure and the last probe are absent, null or fit their tables, and the last pass is absent, null or
   text. Everything else is refused.
   */
  lemma ValidDocIff(doc: Json)
    ensures ValidDoc(doc) <==>
            && doc.JObj? && "schema" in doc.fields && doc.fields["schema"] == JStr(SCHEMA)
            && "binaries" in doc.fields && doc.fields["binaries"].JObj?
            && forall sha :: sha in doc.fields["binaries"].fields ==>
                 var e := doc.fields["binaries"].fields[sha];
                 && e.JObj?
                 && FitsRecord(Get(e.fields, "failure"), FAILURE_FIELDS)
                 && FitsRecord(Get(e.fields, "last_probe"), PROBE_FIELDS)
                 && (Get(e.fields, "last_pass_at").JNull? || Get(e.fields, "last_pass_at").JStr?)
  {
    if doc.JObj? && Get(doc.fields, "binaries").JObj? {
      forall sha | sha in doc.fields["binaries"].fields && doc.fields["binaries"].fields[sha].JObj?
        ensures var e := doc.fields["binaries"].fields[sha].fields;
                ValidEntry(e) <==>
                && FitsRecord(Get(e, "failure"), FAILURE_FIELDS) && FitsRecord(Get(e, "last_probe"), PROBE_FIELDS)
                && (Get(e, "last_pass_at").JNull? || Get(e, "last_pass_at").JStr?)
      {
        EntryChecks(doc.fields["binaries"].fields[sha].fields);
      }
    }
  }

  lemma EntryChecks(e: map<string, Json>)
    ensures ValidEntry(e) <==>
            && FitsRecord(Get(e, "failure"), FAILURE_FIELDS) && FitsRecord(Get(e, "last_probe"), PROBE_FIELDS)
            && (Get(e, "last_pass_at").JNull? || Get(e, "last_pass_at").JStr?)
  {
    if Get(e, "failure").JObj? {
      FailureChecks(Get(e, "failure").fields);
    }
    if Get(e, "last_probe").JObj? {
      ProbeChecks(Get(e, "last_probe").fields);
    }
  }
}
