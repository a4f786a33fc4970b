/**
 The two kinds of body the purge takes out: what the flight recorder keeps (src/arail/agent_trace.py)
 and what older activity events carry (src/arail/activity.py). An object is a map: key order and the
 spelling of values on a line are not part of it.
 */
module PurgeRules {
  import opened Basics
  import opened JsonValues
  import opened JsonlPurge

  /** `_has_recorder_body`; None stands for the AttributeError on a value that is not an object. */
  function HasRecorderBody(j: Json): Option<bool> {
    if !j.JObj? then None else Some(Get(j.fields, "bodies").JObj?)
  }

  /** `_strip_recorder_body`. */
  function StripRecorderBody(j: Json): Option<Json> {
    if !j.JObj? then None else Some(JObj(j.fields["bodies" := JNull]["bodies_purged" := JBool(true)]))
  }

  /** The trace an activity event may carry. */
  function TraceOf(j: Json): Json {
    if j.JObj? && Get(j.fields, "data").JObj? then Get(Get(j.fields, "data").fields, "prompt_trace") else JNull
  }

  /** `_has_legacy_body`. */
  function HasLegacyBody(j: Json): Option<bool> {
    var trace := TraceOf(j);
    Some(trace.JObj? && ("prompt" in trace.fields || "response" in trace.fields))
  }

  /** `_strip_legacy_body`; None where an index on the way raises. */
  function StripLegacyBody(j: Json): Option<Json> {
    var trace := TraceOf(j);
    if !trace.JObj? then None
    else
      var data := j.fields["data"].fields;
      var kept := (trace.fields - {"prompt", "response"})["body_purged" := JBool(true)];
      Some(JObj(j.fields["data" := JObj(data["prompt_trace" := JObj(kept)])]))
  }

  lemma RecorderBodyGoes(j: Json)
    requires HasRecorderBody(j) == Some(true)
    ensures StripRecorderBody(j).Some?
    ensures HasRecorderBody(StripRecorderBody(j).value) == Some(false)
    ensures forall k :: k in j.fields && k !in {"bodies", "bodies_purged"} ==>
              k in StripRecorderBody(j).value.fields && StripRecorderBody(j).value.fields[k] == j.fields[k]
  {
  }

  /** The body goes and every other field stays: of the event, of its data, and of the trace. */
  lemma LegacyBodyGoes(j: Json)
    requires HasLegacyBody(j) == Some(true)
    ensures StripLegacyBody(j).Some?
    ensures HasLegacyBody(StripLegacyBody(j).value) == Some(false)
    ensures var s := StripLegacyBody(j).value;
            && (forall k :: k in j.fields && k != "data" ==> k in s.fields && s.fields[k] == j.fields[k])
            && (forall k :: k in j.fields["data"].fields && k != "prompt_trace" ==>
                  k in s.fields["data"].fields && s.fields["data"].fields[k] == j.fields["data"].fields[k])
            && (forall k :: k in TraceOf(j).fields && k !in {"prompt", "response", "body_purged"} ==>
                  k in TraceOf(s).fields && TraceOf(s).fields[k] == TraceOf(j).fields[k])
  {
  }

  function RecorderRules(loads: string -> Loaded<Json>, dumps: Json -> string): Rules<Json> {
    Rules(loads, dumps, HasRecorderBody, StripRecorderBody)
  }

  function LegacyRules(loads: string -> Loaded<Json>, dumps: Json -> string): Rules<Json> {
    Rules(loads, dumps, HasLegacyBody, StripLegacyBody)
  }

  /** All that is asked of the parser and the printer: what was read, and what is stripped of it, is written so that it reads back. */
  ghost predicate WritesBack(r: Rules<Json>) {
    forall s :: r.loads(s).Value? ==> WritableToo(r, r.loads(s).event)
  }

  ghost predicate WritableToo(r: Rules<Json>, j: Json) {
    Writable(r, j) && (r.strip(j).Some? ==> Writable(r, r.strip(j).value))
  }

  /** Both callers keep the law the purge rests on. */
  lemma CallersAreLawful(loads: string -> Loaded<Json>, dumps: Json -> string)
    ensures WritesBack(RecorderRules(loads, dumps)) ==> Lawful(RecorderRules(loads, dumps))
    ensures WritesBack(LegacyRules(loads, dumps)) ==> Lawful(LegacyRules(loads, dumps))
  {
    RecorderIsLawful(loads, dumps);
    LegacyIsLawful(loads, dumps);
  }

  lemma RecorderIsLawful(loads: string -> Loaded<Json>, dumps: Json -> string)
    ensures WritesBack(RecorderRules(loads, dumps)) ==> Lawful(RecorderRules(loads, dumps))
  {
    var r := RecorderRules(loads, dumps);
    if WritesBack(r) {
      forall s | r.loads(s).Value? ensures LawfulFor(r, r.loads(s).event) {
        RecorderLawfulFor(loads, dumps, r.loads(s).event);
      }
    }
  }

  lemma RecorderLawfulFor(loads: string -> Loaded<Json>, dumps: Json -> string, j: Json)
    requires WritableToo(RecorderRules(loads, dumps), j)
    ensures LawfulFor(RecorderRules(loads, dumps), j)
  {
    if HasRecorderBody(j) == Some(true) {
      RecorderBodyGoes(j);
    }
  }

  lemma LegacyIsLawful(loads: string -> Loaded<Json>, dumps: Json -> string)
    ensures WritesBack(LegacyRules(loads, dumps)) ==> Lawful(LegacyRules(loads, dumps))
  {
    var r := LegacyRules(loads, dumps);
    if WritesBack(r) {
      forall s | r.loads(s).Value? ensures LawfulFor(r, r.loads(s).event) {
        LegacyLawfulFor(loads, dumps, r.loads(s).event);
      }
    }
  }

  lemma LegacyLawfulFor(loads: string -> Loaded<Json>, dumps: Json -> string, j: Json)
    requires WritableToo(LegacyRules(loads, dumps), j)
    ensures LawfulFor(LegacyRules(loads, dumps), j)
  {
    if HasLegacyBody(j) == Some(true) {
      LegacyBodyGoes(j);
    }
  }
}
