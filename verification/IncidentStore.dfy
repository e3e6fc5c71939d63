/** The transactions as the backend runs them: rows inserted one at a time, in whatever order
    the query returns them, and fields of the incident rows reassigned. */
module IncidentStore {
  import opened Options
  import opened Results
  import opened IncidentModel

  /** Insert each row of `rows` unless the key is taken. */
  method InsertMissing<K(==), V>(rows: map<K, V>, table: map<K, V>) returns (r: map<K, V>)
    ensures r == rows + table
  {
    r := table;
    var todo := rows.Keys;
    while todo != {}
      invariant todo <= rows.Keys
      invariant r == (rows - todo) + table
    {
      var k :| k in todo;
      if k !in r {
        r := r[k := rows[k]];
      }
      todo := todo - {k};
    }
  }

  method InsertMissingRows<K(==)>(rows: set<K>, table: set<K>) returns (r: set<K>)
    ensures r == rows + table
  {
    r := table;
    var todo := rows;
    while todo != {}
      invariant todo <= rows
      invariant r == table + (rows - todo)
    {
      var k :| k in todo;
      r := r + {k};
      todo := todo - {k};
    }
  }

  /** The maximum over the linked detections, by one pass over the joined rows. */
  method MaxHint(catalog: map<Id, Detection>, dets: set<Id>, otherwise: Severity) returns (s: Severity)
    ensures s == TopHint(catalog, dets, otherwise)
  {
    s := otherwise;
    var todo := set d | d in dets && d in catalog;
    ghost var rows := todo;
    var found := false;
    while todo != {}
      invariant todo <= rows
      invariant found <==> rows - todo != {}
      invariant !found ==> s == otherwise
      invariant found ==> exists d :: d in rows - todo && catalog[d].hint == s
      invariant found ==> forall d :: d in rows - todo ==> catalog[d].hint.Ord() <= s.Ord()
    {
      var d :| d in todo;
      if !found || catalog[d].hint.Ord() > s.Ord() {
        s := catalog[d].hint;
      }
      found := true;
      assert rows - (todo - {d}) == (rows - todo) + {d};
      todo := todo - {d};
    }
    if found {
      assert HasHint(catalog, dets, s);
    } else {
      assert forall d :: d in dets && d in catalog ==> d in rows;
    }
  }

  /** Read the selected event rows, delete them, and insert them into an empty table. */
  method TakeEvents(table: map<Id, EventRole>, events: set<Id>)
    returns (moved: map<Id, EventRole>, kept: map<Id, EventRole>)
    ensures moved == map e | e in table && e in events :: table[e]
    ensures kept == map e | e in table && e !in events :: table[e]
  {
    moved, kept := map[], table;
    if events != {} {
      var rows := map e | e in table && e in events :: table[e];
      kept := table - events;
      moved := InsertMissing(rows, map[]);
    }
  }

  /** The same for the rows of the selected entities, in every role. */
  method TakeEntities(table: set<(Id, EntityRole)>, entities: set<Id>)
    returns (moved: set<(Id, EntityRole)>, kept: set<(Id, EntityRole)>)
    ensures moved == set row | row in table && row.0 in entities
    ensures kept == set row | row in table && row.0 !in entities
  {
    moved, kept := {}, table;
    if entities != {} {
      var rows := set row | row in table && row.0 in entities;
      kept := table - rows;
      moved := InsertMissingRows(rows, {});
    }
  }

  /** Take the selected rows off the source and give them to the child, roles included, with
      the detections that fired on the moved events. */
  method MoveRows(catalog: map<Id, Detection>, ev: Evidence, events: set<Id>, entities: set<Id>)
    returns (moved: Evidence, kept: Evidence)
    ensures moved == Selected(catalog, ev, events, entities)
    ensures kept == Remaining(ev, events, entities)
  {
    var movedEvents, keptEvents := TakeEvents(ev.events, events);
    var movedEntities, keptEntities := TakeEntities(ev.entities, entities);
    var copied := {};
    if events != {} {
      var fired := set d | d in catalog && catalog[d].event in events;
      copied := InsertMissingRows(fired, {});
    }
    moved := Evidence(movedEvents, movedEntities, copied, map[]);
    kept := ev.(events := keptEvents, entities := keptEntities);
  }

  /** The requested entities that are on the incident, in any role. */
  function Attached(ev: Evidence, entities: set<Id>): set<Id> {
    set row | row in ev.entities && row.0 in entities :: row.0
  }

  lemma NoneMissing<T>(a: set<T>, b: set<T>)
    ensures a - b == {} <==> a <= b
  {
    assert forall x :: x in a ==> (x in b <==> x !in a - b);
  }

  lemma EntitiesAttached(ev: Evidence, entities: set<Id>)
    ensures entities - Attached(ev, entities) == {} <==> entities <= EntityIds(ev)
  {
    var attached := Attached(ev, entities);
    forall x | x in entities ensures x in attached <==> x in EntityIds(ev) {
      if x in EntityIds(ev) {
        var row :| row in ev.entities && row.0 == x;
        assert row.0 in attached;
      }
    }
    NoneMissing(entities, attached);
  }

  class Store {
    var incidents: map<Id, Incident>
    var catalog: map<Id, Detection>
    var log: seq<Row>

    constructor ()
      ensures View() == EMPTY
    {
      incidents, catalog, log := map[], map[], [];
    }

    function View(): Db
      reads this
    {
      Db(incidents, catalog, log)
    }

    method OpenIncident(id: Id, severity: Severity, confidence: nat, evidence: Evidence)
      returns (r: Result<Id, SplitError>)
      modifies this
      ensures match Create(old(View()), id, severity, confidence, evidence)
              case Ok(db) => r == Ok(id) && View() == db
              case Err(x) => r == Err(x) && View() == old(View())
    {
      if id in incidents {
        return Err(IdTaken);
      }
      incidents := incidents[id := Incident(New, severity, confidence, None, None, evidence)];
      log := log + [Row(id, None, New)];
      return Ok(id);
    }

    method MergeIncidents(source: Id, target: Id) returns (r: Result<Id, MergeError>)
      modifies this
      ensures match Merge(old(View()), source, target)
              case Ok(db) => r == Ok(target) && View() == db
              case Err(x) => r == Err(x) && View() == old(View())
    {
      if source == target {
        return Err(SelfMerge);
      }
      if source !in incidents {
        return Err(SourceMissing);
      }
      if target !in incidents {
        return Err(TargetMissing);
      }
      var src, tgt := incidents[source], incidents[target];
      if src.status == Merged {
        return Err(SourceMerged);
      }
      if tgt.status == Closed || tgt.status == Merged {
        return Err(TargetClosed);
      }
      var events := InsertMissing(src.evidence.events, tgt.evidence.events);
      var entities := InsertMissingRows(src.evidence.entities, tgt.evidence.entities);
      var detections := InsertMissingRows(src.evidence.detections, tgt.evidence.detections);
      var attack := InsertMissing(src.evidence.attack, tgt.evidence.attack);
      tgt := tgt.(evidence := Evidence(events, entities, detections, attack));
      if !(tgt.severity.Ord() > src.severity.Ord()) {
        tgt := tgt.(severity := src.severity);
      }
      tgt := tgt.(confidence := HalfEven(src.confidence + tgt.confidence));
      var prev := src.status;
      src := src.(status := Merged, parent := Some(target));
      incidents := incidents[target := tgt];
      incidents := incidents[source := src];
      log := log + [Row(source, Some(prev), Merged)];
      log := log + [Row(target, Some(tgt.status), tgt.status)];
      return Ok(target);
    }

    method SplitIncident(source: Id, events: set<Id>, entities: set<Id>, child: Id) returns (r: Result<Id, SplitError>)
      modifies this
      ensures match Split(old(View()), source, events, entities, child)
              case Ok(db) => r == Ok(child) && View() == db
              case Err(x) => r == Err(x) && View() == old(View())
    {
      if events == {} && entities == {} {
        return Err(EmptySelection);
      }
      if source !in incidents {
        return Err(SplitSourceMissing);
      }
      var src := incidents[source];
      if src.status == Closed || src.status == Merged {
        return Err(SourceClosed);
      }
      var attached := set e | e in src.evidence.events && e in events;
      NoneMissing(events, attached);
      assert events <= attached <==> events <= src.evidence.events.Keys;
      if events - attached != {} {
        return Err(EventsNotInSource);
      }
      var missing := entities - Attached(src.evidence, entities);
      EntitiesAttached(src.evidence, entities);
      if missing != {} {
        return Err(EntitiesNotInSource);
      }
      if child in incidents {
        return Err(IdTaken);
      }
      var moved, kept := MoveRows(catalog, src.evidence, events, entities);
      var new_ := Incident(New, src.severity, src.confidence, None, None, moved);
      src := src.(evidence := kept);
      var severity := MaxHint(catalog, src.evidence.detections, src.severity);
      src := src.(severity := severity);
      incidents := incidents[source := src][child := new_];
      log := log + [Row(source, Some(src.status), src.status)];
      log := log + [Row(child, None, New)];
      return Ok(child);
    }

    method TransitionIncident(id: Id, to: Status, hasReason: bool, now: int) returns (r: Result<Id, TransitionError>)
      modifies this
      ensures match Transition(old(View()), id, to, hasReason, now)
              case Ok(db) => r == Ok(id) && View() == db
              case Err(x) => r == Err(x) && View() == old(View())
    {
      if id !in incidents {
        return Err(NotFound);
      }
      var inc := incidents[id];
      if to !in AllowedTargets(inc.status) {
        return Err(InvalidTransition);
      }
      if NeedsReason(to) && !hasReason {
        return Err(ReasonRequired);
      }
      var from := inc.status;
      inc := inc.(status := to);
      if to == Closed {
        inc := inc.(closedAt := Some(now));
      }
      incidents := incidents[id := inc];
      log := log + [Row(id, Some(from), to)];
      return Ok(id);
    }

    method ExtendIncident(
      id: Id, event: Id, detection: Option<Id>, entities: set<(Id, EntityRole)>, tags: set<Technique>)
      returns (r: Result<Id, TransitionError>)
      modifies this
      ensures match Extend(old(View()), id, Brought(event, detection, entities, tags))
              case Ok(db) => r == Ok(id) && View() == db
              case Err(x) => r == Err(x) && View() == old(View())
    {
      if id !in incidents {
        return Err(NotFound);
      }
      var inc := incidents[id];
      var events := inc.evidence.events;
      if event !in events {
        events := events[event := Context];
      }
      var detections := inc.evidence.detections;
      if detection.Some? {
        detections := detections + {detection.value};
      }
      var linked := InsertMissingRows(entities, inc.evidence.entities);
      var inferred := map t | t in tags :: CorrelatorInferred;
      var attack := InsertMissing(inferred, inc.evidence.attack);
      incidents := incidents[id := inc.(evidence := Evidence(events, linked, detections, attack))];
      ghost var brought := Brought(event, detection, entities, tags);
      assert events == brought.events + inc.evidence.events;
      assert detections == brought.detections + inc.evidence.detections;
      return Ok(id);
    }
  }
}
