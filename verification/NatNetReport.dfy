/** What the motion-capture client reports of its rigid bodies (`rigidBodies()` in `optitrack.cpp`). */
module NatNetReport {
  import opened Cdr
  import opened NatNetFormat
  import opened NatNetDecoder
  import opened NatNetModel

  /** A reported body: its pose, and the definition whose offsets are added to the position. */
  datatype Reported = Reported(body: Body, def: Definition)

  type Report = map<Bytes, Reported>

  /** What `operator[]` puts under an id without a definition: no name and no offsets. */
  const NO_DEFINITION := Definition([], ZERO_WORD, ZERO_WORD, ZERO_WORD, ZERO_WORD, ZERO_WORD)

  function DefinitionFor(definitions: map<Word, Definition>, id: Word): Definition {
    if id in definitions then definitions[id] else NO_DEFINITION
  }

  /** Body i is tracked and goes by `name`. */
  predicate Named(bodies: seq<Body>, definitions: map<Word, Definition>, i: nat, name: Bytes)
    requires i < |bodies|
  {
    bodies[i].trackingValid && DefinitionFor(definitions, bodies[i].id).name == name
  }

  /** Of the first k bodies the report holds, under each name, the first tracked one that goes by it, and no other. */
  ghost predicate Reports(bodies: seq<Body>, definitions: map<Word, Definition>, k: nat, report: Report)
    requires k <= |bodies|
  {
    && (forall i, name :: 0 <= i < k && Named(bodies, definitions, i, name) ==> name in report)
    && (forall name :: name in report ==>
          exists i: nat :: i < k && Named(bodies, definitions, i, name)
            && (forall j :: 0 <= j < i ==> !Named(bodies, definitions, j, name))
            && report[name] == Reported(bodies[i], DefinitionFor(definitions, bodies[i].id)))
  }

  /** The definitions as the lookups leave them: the same, with empty ones for tracked ids that had none. */
  ghost predicate LookedUp(before: map<Word, Definition>, after: map<Word, Definition>) {
    forall id: Word :: DefinitionFor(after, id) == DefinitionFor(before, id)
  }

  /** The loop of rigidBodies(): emplace keeps the first body under a name. */
  method ReportBodies(bodies: seq<Body>, definitions: map<Word, Definition>)
    returns (report: Report, definitions': map<Word, Definition>)
    ensures Reports(bodies, definitions, |bodies|, report) && LookedUp(definitions, definitions')
  {
    report, definitions' := map[], definitions;
    var k := 0;
    while k < |bodies|
      invariant k <= |bodies| && LookedUp(definitions, definitions')
      invariant Reports(bodies, definitions, k, report)
    {
      var rb := bodies[k];
      ghost var before := report;
      if rb.trackingValid {
        if rb.id !in definitions' {
          definitions' := definitions'[rb.id := NO_DEFINITION];
        }
        var def := definitions'[rb.id];
        assert def == DefinitionFor(definitions', rb.id) == DefinitionFor(definitions, rb.id);
        if def.name !in report {
          report := report[def.name := Reported(rb, def)];
        }
      }
      ReportsStep(bodies, definitions, k, before, report);
      k := k + 1;
    }
  }

  lemma ReportsStep(bodies: seq<Body>, definitions: map<Word, Definition>, k: nat, before: Report, after: Report)
    requires k < |bodies| && Reports(bodies, definitions, k, before)
    requires var rb := bodies[k];
             var def := DefinitionFor(definitions, rb.id);
             after == if rb.trackingValid && def.name !in before then before[def.name := Reported(rb, def)] else before
    ensures Reports(bodies, definitions, k + 1, after)
  {
  }

  /** In a version without the parameters nothing is ever reported, whatever the frames say. */
  lemma NothingTracked(v: Version, bodies: seq<Body>, definitions: map<Word, Definition>, report: Report)
    requires !HasParams(v) && Clean(v, bodies) && Reports(bodies, definitions, |bodies|, report)
    ensures report == map[]
  {
    assert forall i :: 0 <= i < |bodies| ==> bodies[i] in bodies;
  }

  /** A frame body of this version is reported if it is the only one and its tracked bit is set. */
  lemma TrackedIsReported(v: Version, b: RigidBody, definitions: map<Word, Definition>, report: Report)
    requires HasParams(v) && b.params[0] % 2 == 1
    requires Reports(AllDecoded(v, [b]), definitions, 1, report)
    ensures var def := DefinitionFor(definitions, b.id);
            report == map[def.name := Reported(Decoded(v, b), def)]
  {
    var bodies, def := AllDecoded(v, [b]), DefinitionFor(definitions, b.id);
    assert bodies == [Decoded(v, b)];
    assert Named(bodies, definitions, 0, def.name);
    forall name | name in report
      ensures name == def.name && report[name] == Reported(Decoded(v, b), def)
    {
      var i: nat :| i < 1 && Named(bodies, definitions, i, name)
        && report[name] == Reported(bodies[i], DefinitionFor(definitions, bodies[i].id));
    }
  }

  /** Some frame of the version makes the client report a body, exactly if the version sends the parameters. */
  ghost predicate CanReport(v: Version) {
    exists s: seq<RigidBody>, report ::
      Reports(AllDecoded(v, s), map[], |AllDecoded(v, s)|, report) && report != map[]
  }

  lemma ReportsIff(v: Version)
    ensures CanReport(v) <==> HasParams(v)
  {
    if HasParams(v) {
      var tracked := RigidBody(ZERO_WORD, ZERO_WORD, ZERO_WORD, ZERO_WORD, ZERO_WORD, ZERO_WORD, ZERO_WORD, ZERO_WORD,
                               ZERO_WORD, [1, 0]);
      var bodies := AllDecoded(v, [tracked]);
      var report := map[[] := Reported(Decoded(v, tracked), NO_DEFINITION)];
      assert bodies == [Decoded(v, tracked)];
      assert Reports(bodies, map[], 0, map[]);
      ReportsStep(bodies, map[], 0, map[], report);
      assert [] in report;
    } else {
      forall s: seq<RigidBody>, report | Reports(AllDecoded(v, s), map[], |AllDecoded(v, s)|, report)
        ensures report == map[]
      {
        NothingTracked(v, AllDecoded(v, s), map[], report);
      }
    }
  }
}
