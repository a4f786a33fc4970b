/**
 The two callers of the purge, `purge_flight_recorder_bodies` (src/arail/agent_trace.py) and
 `purge_legacy_bodies` (src/arail/activity.py), and what they leave, said of the fields on a line and in memory.
 */
module PurgeCallers {
  import opened Basics
  import opened JsonValues
  import opened TextLines
  import opened JsonlPurge
  import opened PurgeFiles
  import opened PurgeRules

  // ----- what a body is, field by field -----

  /** An event whose `data` has a `prompt_trace` with a prompt or a response in it. */
  predicate CarriesLegacyBody(j: Json) {
    && j.JObj? && "data" in j.fields && j.fields["data"].JObj?
    && "prompt_trace" in j.fields["data"].fields && j.fields["data"].fields["prompt_trace"].JObj?
    && ("prompt" in j.fields["data"].fields["prompt_trace"].fields || "response" in j.fields["data"].fields["prompt_trace"].fields)
  }

  /** A record whose `bodies` are an object. */
  predicate CarriesRecorderBody(j: Json) {
    j.JObj? && "bodies" in j.fields && j.fields["bodies"].JObj?
  }

  /**
   The legacy rule detects exactly those, whatever the value; the other, on objects, exactly its own, and raises on
   the rest.
   */
  lemma DetectionIsExact(j: Json)
    ensures HasLegacyBody(j) == Some(CarriesLegacyBody(j))
    ensures HasRecorderBody(j) == if j.JObj? then Some(CarriesRecorderBody(j)) else None
  {
  }

  /**
   Stripped, the trace has neither key and says so; no other field of the event, its data or its trace is touched,
   added or lost.
   */
  lemma LegacyStripped(j: Json)
    requires CarriesLegacyBody(j)
    ensures StripLegacyBody(j).Some? && StripLegacyBody(j).value.JObj?
    ensures var was, now := j.fields, StripLegacyBody(j).value.fields;
            && now.Keys == was.Keys && now["data"].JObj? && now["data"].fields.Keys == was["data"].fields.Keys
            && now["data"].fields["prompt_trace"].JObj?
            && (forall k :: k in was && k != "data" ==> now[k] == was[k])
            && (forall k :: k in was["data"].fields && k != "prompt_trace" ==> now["data"].fields[k] == was["data"].fields[k])
    ensures var trace := j.fields["data"].fields["prompt_trace"].fields;
            var left := StripLegacyBody(j).value.fields["data"].fields["prompt_trace"].fields;
            && "prompt" !in left && "response" !in left
            && left.Keys == trace.Keys - {"prompt", "response"} + {"body_purged"} && left["body_purged"] == JBool(true)
            && forall k :: k in left && k != "body_purged" ==> left[k] == trace[k]
  {
    LegacyBodyGoes(j);
  }

  /** Stripped, `bodies` is null and the record says so; no other field is touched, added or lost. */
  lemma RecorderStripped(j: Json)
    requires CarriesRecorderBody(j)
    ensures StripRecorderBody(j).Some? && StripRecorderBody(j).value.JObj?
    ensures var was, now := j.fields, StripRecorderBody(j).value.fields;
            && now.Keys == was.Keys + {"bodies_purged"}
            && now["bodies"] == JNull && now["bodies_purged"] == JBool(true)
            && forall k :: k in now && k != "bodies" && k != "bodies_purged" ==> now[k] == was[k]
  {
    RecorderBodyGoes(j);
  }

  // ----- the callers -----

  /** No line of the file reads as a value that carries one. */
  ghost predicate NoneOnDisk(loads: string -> Loaded<Json>, carries: Json -> bool, f: File) {
    forall i :: 0 <= i < |LinesOf(f.text)| ==>
      !IsBlank(Body(LinesOf(f.text)[i])) && loads(Body(LinesOf(f.text)[i])).Value? ==>
        !carries(loads(Body(LinesOf(f.text)[i])).event)
  }

  /** The rules detect exactly what carries a body. */
  ghost predicate DetectsExactly(r: Rules<Json>, carries: Json -> bool) {
    forall j :: HasBody(r, j) <==> carries(j)
  }

  lemma CleanMeansNone(r: Rules<Json>, carries: Json -> bool, f: File)
    requires Clean(r, f) && DetectsExactly(r, carries)
    ensures NoneOnDisk(r.loads, carries, f)
  {
    forall i | 0 <= i < |LinesOf(f.text)| && !IsBlank(Body(LinesOf(f.text)[i])) && r.loads(Body(LinesOf(f.text)[i])).Value?
      ensures !carries(r.loads(Body(LinesOf(f.text)[i])).event)
    {
      assert !Detected(r, LinesOf(f.text)[i]);
      assert !HasBody(r, r.loads(Body(LinesOf(f.text)[i])).event);
    }
  }

  ghost function Carriers(carries: Json -> bool, ring: seq<Record<Json>>): set<Record<Json>>
    reads ring
  {
    set rec | rec in ring && carries(rec.event)
  }

  /** No listed file has a line, and the ring no record, that carries a body. */
  ghost predicate AllGone(loads: string -> Loaded<Json>, carries: Json -> bool, disk: Disk, paths: seq<Path>, ring: seq<Record<Json>>)
    reads disk, ring
  {
    && (forall p :: p in paths && p in disk.files ==> NoneOnDisk(loads, carries, disk.files[p]))
    && forall rec :: rec in ring ==> !carries(rec.event)
  }

  /** What both callers do, with their own rules. */
  method PurgeCarried(r: Rules<Json>, ghost carries: Json -> bool, disk: Disk, paths: seq<Path>, fates: seq<Fate>, ring: seq<Record<Json>>)
    returns (purged: nat, purgedMemory: nat, ok: bool, raised: bool)
    requires Lawful(r) && |fates| == |paths| && DetectsExactly(r, carries)
    requires forall rec :: rec in ring ==> LawfulFor(r, rec.event)
    modifies disk, ring
    ensures ok && !raised ==> AllGone(r.loads, carries, disk, paths, ring) && purgedMemory == |old(Carriers(carries, ring))|
    ensures raised || !ok ==> purgedMemory == 0 && forall rec :: rec in ring ==> rec.event == old(rec.event)
  {
    assert Bearers(r, ring) == Carriers(carries, ring);
    purged, purgedMemory, ok, raised := PurgeBodies(r, disk, paths, fates, ring);
    forall p | ok && !raised && p in paths && p in disk.files ensures NoneOnDisk(r.loads, carries, disk.files[p]) {
      CleanMeansNone(r, carries, disk.files[p]);
    }
    forall rec | ok && !raised && rec in ring ensures !carries(rec.event) {
      assert !HasBody(r, rec.event);
    }
  }

  /**
   `purge_legacy_bodies`: a success leaves no prompt and no response in any trace, on any line of a listed file
   or in the ring, and counts the events stripped in memory; anything else leaves the ring as it was.
   */
  method PurgeLegacyBodies(loads: string -> Loaded<Json>, dumps: Json -> string, disk: Disk, paths: seq<Path>, fates: seq<Fate>,
                           ring: seq<Record<Json>>)
    returns (purged: nat, purgedMemory: nat, ok: bool, raised: bool)
    requires WritesBack(LegacyRules(loads, dumps)) && |fates| == |paths|
    requires forall rec :: rec in ring ==> WritableToo(LegacyRules(loads, dumps), rec.event)
    modifies disk, ring
    ensures ok && !raised ==>
              AllGone(loads, CarriesLegacyBody, disk, paths, ring) && purgedMemory == |old(Carriers(CarriesLegacyBody, ring))|
    ensures raised || !ok ==> purgedMemory == 0 && forall rec :: rec in ring ==> rec.event == old(rec.event)
  {
    CallersAreLawful(loads, dumps);
    forall j ensures HasBody(LegacyRules(loads, dumps), j) <==> CarriesLegacyBody(j) {
      DetectionIsExact(j);
    }
    forall rec | rec in ring ensures LawfulFor(LegacyRules(loads, dumps), rec.event) {
      LegacyLawfulFor(loads, dumps, rec.event);
    }
    purged, purgedMemory, ok, raised := PurgeCarried(LegacyRules(loads, dumps), CarriesLegacyBody, disk, paths, fates, ring);
  }

  /** `purge_flight_recorder_bodies`: the same of `bodies`. */
  method PurgeRecorderBodies(loads: string -> Loaded<Json>, dumps: Json -> string, disk: Disk, paths: seq<Path>, fates: seq<Fate>,
                             ring: seq<Record<Json>>)
    returns (purged: nat, purgedMemory: nat, ok: bool, raised: bool)
    requires WritesBack(RecorderRules(loads, dumps)) && |fates| == |paths|
    requires forall rec :: rec in ring ==> WritableToo(RecorderRules(loads, dumps), rec.event)
    modifies disk, ring
    ensures ok && !raised ==>
              AllGone(loads, CarriesRecorderBody, disk, paths, ring) && purgedMemory == |old(Carriers(CarriesRecorderBody, ring))|
    ensures raised || !ok ==> purgedMemory == 0 && forall rec :: rec in ring ==> rec.event == old(rec.event)
  {
    CallersAreLawful(loads, dumps);
    forall j ensures HasBody(RecorderRules(loads, dumps), j) <==> CarriesRecorderBody(j) {
      DetectionIsExact(j);
    }
    forall rec | rec in ring ensures LawfulFor(RecorderRules(loads, dumps), rec.event) {
      RecorderLawfulFor(loads, dumps, rec.event);
    }
    purged, purgedMemory, ok, raised := PurgeCarried(RecorderRules(loads, dumps), CarriesRecorderBody, disk, paths, fates, ring);
  }
}
