/** Where evidence goes: merging unites it, splitting partitions it, and splitting then merging
    back restores it. */
module IncidentEvidence {
  import opened Results
  import opened IncidentModel

  // ---------------------------------------------------------------------------
  // One merge.
  // ---------------------------------------------------------------------------

  /** The target holds exactly the rows of both, its own row where a key is shared. */
  ghost predicate United(a: Evidence, b: Evidence, r: Evidence) {
    && (forall e :: e in r.events <==> e in a.events || e in b.events)
    && (forall e :: e in r.events ==> r.events[e] == if e in b.events then b.events[e] else a.events[e])
    && (forall row :: row in r.entities <==> row in a.entities || row in b.entities)
    && (forall d :: d in r.detections <==> d in a.detections || d in b.detections)
    && (forall t :: t in r.attack <==> t in a.attack || t in b.attack)
    && (forall t :: t in r.attack ==> r.attack[t] == if t in b.attack then b.attack[t] else a.attack[t])
  }

  /** `c` is within half a hundredth of the average of `a` and `b`, and even at a tie. */
  predicate RoundedAverage(c: nat, a: nat, b: nat) {
    -1 <= 2 * c - (a + b) <= 1 && (2 * c != a + b ==> c % 2 == 0)
  }

  lemma HalfEvenRounds(a: nat, b: nat)
    ensures RoundedAverage(HalfEven(a + b), a, b)
    ensures a <= b ==> a <= HalfEven(a + b) <= b
    ensures b <= a ==> b <= HalfEven(a + b) <= a
  {
  }

  /** A merge that succeeds: exactly the union for the target, the larger severity, the rounded
      average confidence, and no other incident touched, the source keeping its own rows. */
  lemma MergeConserves(db: Db, source: Id, target: Id)
    requires Merge(db, source, target).Ok?
    ensures var (src, tgt, after) := (db.incidents[source], db.incidents[target], Merge(db, source, target).value);
            && after.incidents.Keys == db.incidents.Keys
            && United(src.evidence, tgt.evidence, after.incidents[target].evidence)
            && after.incidents[source].evidence == src.evidence
            && (forall i :: i in db.incidents && i != source && i != target ==> after.incidents[i] == db.incidents[i])
            && after.catalog == db.catalog
    ensures var (src, tgt, t) := (db.incidents[source], db.incidents[target], Merge(db, source, target).value.incidents[target]);
            && (t.severity == src.severity || t.severity == tgt.severity)
            && t.severity.Ord() >= src.severity.Ord() && t.severity.Ord() >= tgt.severity.Ord()
            && RoundedAverage(t.confidence, src.confidence, tgt.confidence)
            && (src.confidence == tgt.confidence ==> t.confidence == tgt.confidence)
  {
    HalfEvenRounds(db.incidents[source].confidence, db.incidents[target].confidence);
  }

  // ---------------------------------------------------------------------------
  // Many merges into one target.
  // ---------------------------------------------------------------------------

  function MergeAll(db: Db, sources: seq<Id>, target: Id): Result<Db, MergeError> {
    if sources == [] then Ok(db)
    else
      match MergeAll(db, sources[..|sources| - 1], target)
      case Err(x) => Err(x)
      case Ok(mid) => Merge(mid, sources[|sources| - 1], target)
  }

  /** The primary key of a junction row, without its incident. */
  datatype Key =
    | EventKey(event: Id)
    | EntityKey(entity: Id, role: EntityRole)
    | DetectionKey(detection: Id)
    | AttackKey(technique: Technique)

  predicate Holds(ev: Evidence, k: Key) {
    match k
    case EventKey(e) => e in ev.events
    case EntityKey(e, role) => (e, role) in ev.entities
    case DetectionKey(d) => d in ev.detections
    case AttackKey(t) => t in ev.attack
  }

  predicate SourceHolds(db: Db, sources: seq<Id>, k: Key) {
    exists s :: s in sources && s in db.incidents && Holds(db.incidents[s].evidence, k)
  }

  /** The keys that `t` holds are those of the target and of the sources, in whatever order. */
  ghost predicate GathersKeys(db: Db, sources: seq<Id>, target: Id, t: Evidence)
    requires target in db.incidents
  {
    forall k :: Holds(t, k) <==> Holds(db.incidents[target].evidence, k) || SourceHolds(db, sources, k)
  }

  /** `top` is the highest severity among the target and the sources. */
  predicate IsHighest(db: Db, sources: seq<Id>, target: Id, top: Severity)
    requires target in db.incidents && forall s :: s in sources ==> s in db.incidents
  {
    && (top == db.incidents[target].severity || exists s :: s in sources && top == db.incidents[s].severity)
    && top.Ord() >= db.incidents[target].severity.Ord()
    && forall s :: s in sources ==> top.Ord() >= db.incidents[s].severity.Ord()
  }

  lemma KeysGrow(db: Db, front: seq<Id>, s: Id, target: Id, t: Evidence)
    requires target in db.incidents && s in db.incidents && GathersKeys(db, front, target, t)
    ensures GathersKeys(db, front + [s], target, Union(db.incidents[s].evidence, t))
  {
    var t' := Union(db.incidents[s].evidence, t);
    forall k
      ensures Holds(t', k) <==> Holds(db.incidents[target].evidence, k) || SourceHolds(db, front + [s], k)
    {
      assert Holds(t', k) <==> Holds(t, k) || Holds(db.incidents[s].evidence, k);
      if Holds(db.incidents[s].evidence, k) {
        assert s in front + [s];
      } else if SourceHolds(db, front, k) {
        var s' :| s' in front && s' in db.incidents && Holds(db.incidents[s'].evidence, k);
        assert s' in front + [s];
      }
    }
  }

  /** Merges into one target do not change each other's sources. */
  lemma {:induction false} SourcesUntouched(db: Db, sources: seq<Id>, target: Id, i: Id)
    requires MergeAll(db, sources, target).Ok? && i in db.incidents && i != target
    ensures var after := MergeAll(db, sources, target).value.incidents;
            && after.Keys == db.incidents.Keys
            && after[i].evidence == db.incidents[i].evidence && after[i].severity == db.incidents[i].severity
  {
    if sources != [] { SourcesUntouched(db, sources[..|sources| - 1], target, i); }
  }

  lemma {:induction false} MergeAllGathers(db: Db, sources: seq<Id>, target: Id)
    requires target in db.incidents && MergeAll(db, sources, target).Ok?
    ensures var after := MergeAll(db, sources, target).value.incidents;
            && after.Keys == db.incidents.Keys
            && (forall s :: s in sources ==> s in db.incidents && s != target)
            && GathersKeys(db, sources, target, after[target].evidence)
            && IsHighest(db, sources, target, after[target].severity)
  {
    if sources != [] {
      var front, s := sources[..|sources| - 1], sources[|sources| - 1];
      MergeAllGathers(db, front, target);
      var mid := MergeAll(db, front, target).value.incidents;
      SourcesUntouched(db, front, target, s);
      KeysGrow(db, front, s, target, mid[target].evidence);
      assert front + [s] == sources;
    }
  }

  predicate Distinct(ids: seq<Id>) {
    forall i, j :: 0 <= i < j < |ids| ==> ids[i] != ids[j]
  }

  /** Different incidents, none of them merged or the target, and a target that is open. */
  predicate Mergeable(db: Db, sources: seq<Id>, target: Id) {
    && Distinct(sources)
    && (forall s :: s in sources ==> s in db.incidents && s != target && db.incidents[s].status != Merged)
    && target in db.incidents && db.incidents[target].status != Closed && db.incidents[target].status != Merged
  }

  /** Exactly the sources are merged away, and no other status changes. */
  lemma {:induction false} StatusesAfter(db: Db, sources: seq<Id>, target: Id)
    requires MergeAll(db, sources, target).Ok?
    ensures var after := MergeAll(db, sources, target).value.incidents;
            && after.Keys == db.incidents.Keys
            && forall i :: i in db.incidents ==>
                 after[i].status == if i in sources then Merged else db.incidents[i].status
  {
    if sources != [] {
      var front := sources[..|sources| - 1];
      StatusesAfter(db, front, target);
      assert sources == front + [sources[|sources| - 1]];
    }
  }

  lemma DistinctFront(ids: seq<Id>)
    requires ids != []
    ensures Distinct(ids) <==> Distinct(ids[..|ids| - 1]) && ids[|ids| - 1] !in ids[..|ids| - 1]
  {
    var front := ids[..|ids| - 1];
    assert forall i :: 0 <= i < |front| ==> front[i] == ids[i];
  }

  lemma MergeableFront(db: Db, front: seq<Id>, s: Id, target: Id)
    ensures Mergeable(db, front + [s], target) <==>
            && (front == [] || Mergeable(db, front, target)) && s !in front
            && s in db.incidents && s != target && db.incidents[s].status != Merged
            && target in db.incidents && db.incidents[target].status != Closed && db.incidents[target].status != Merged
  {
    var ids := front + [s];
    assert ids[..|ids| - 1] == front;
    DistinctFront(ids);
  }

  /** After the merges of `front`, one more succeeds exactly when its source is a new one. */
  lemma OneMergeMoreIff(db: Db, front: seq<Id>, s: Id, target: Id)
    requires MergeAll(db, front, target).Ok? && target !in front
    ensures Merge(MergeAll(db, front, target).value, s, target).Ok? <==>
            && s !in front && s in db.incidents && s != target && db.incidents[s].status != Merged
            && target in db.incidents && db.incidents[target].status != Closed && db.incidents[target].status != Merged
  {
    StatusesAfter(db, front, target);
  }

  lemma MergeAllOne(db: Db, front: seq<Id>, s: Id, target: Id)
    ensures MergeAll(db, front + [s], target).Ok? <==>
            MergeAll(db, front, target).Ok? && Merge(MergeAll(db, front, target).value, s, target).Ok?
  {
    assert (front + [s])[..|front|] == front;
  }

  lemma SucceedsOneMore(db: Db, front: seq<Id>, s: Id, target: Id)
    requires MergeAll(db, front, target).Ok? <==> front == [] || Mergeable(db, front, target)
    ensures MergeAll(db, front + [s], target).Ok? <==> Mergeable(db, front + [s], target)
  {
    MergeAllOne(db, front, s, target);
    MergeableFront(db, front, s, target);
    if MergeAll(db, front, target).Ok? { OneMergeMoreIff(db, front, s, target); }
  }

  /** A sequence of merges into one target succeeds exactly when its sources are mergeable. */
  lemma {:induction false} MergeAllSucceedsIff(db: Db, sources: seq<Id>, target: Id)
    ensures MergeAll(db, sources, target).Ok? <==> sources == [] || Mergeable(db, sources, target)
  {
    if sources != [] {
      var front, s := sources[..|sources| - 1], sources[|sources| - 1];
      assert sources == front + [s];
      MergeAllSucceedsIff(db, front, target);
      SucceedsOneMore(db, front, s, target);
    }
  }

  /** Merging the same sources in any order succeeds whenever one order does, and leaves the target
      the same keys and severity. */
  lemma MergeOrderIrrelevant(db: Db, a: seq<Id>, b: seq<Id>, target: Id)
    requires target in db.incidents && MergeAll(db, a, target).Ok?
    requires Distinct(b) && forall s :: s in a <==> s in b
    ensures MergeAll(db, b, target).Ok?
    ensures var (x, y) := (MergeAll(db, a, target).value.incidents, MergeAll(db, b, target).value.incidents);
            && target in x && target in y
            && (forall k :: Holds(x[target].evidence, k) <==> Holds(y[target].evidence, k))
            && x[target].severity == y[target].severity
  {
    MergeAllSucceedsIff(db, a, target);
    MergeAllSucceedsIff(db, b, target);
    SameMembersMergeable(db, a, b, target);
    MergeAllGathers(db, a, target);
    MergeAllGathers(db, b, target);
    var (x, y) := (MergeAll(db, a, target).value.incidents[target], MergeAll(db, b, target).value.incidents[target]);
  }

  lemma SameMembersMergeable(db: Db, a: seq<Id>, b: seq<Id>, target: Id)
    requires a == [] || Mergeable(db, a, target)
    requires Distinct(b) && forall s :: s in a <==> s in b
    ensures b == [] || Mergeable(db, b, target)
  {
    assert b != [] ==> b[0] in a;
  }

  // ---------------------------------------------------------------------------
  // One split.
  // ---------------------------------------------------------------------------

  /** Every event and entity row of the source is on exactly one side afterwards, as it was. */
  predicate Partitioned(was: Evidence, stays: Evidence, goes: Evidence) {
    && was.events == stays.events + goes.events && stays.events.Keys !! goes.events.Keys
    && was.entities == stays.entities + goes.entities && stays.entities !! goes.entities
  }

  /** No linked detection's hint is above `s`, and some one has it. */
  ghost predicate IsTopHint(catalog: map<Id, Detection>, dets: set<Id>, s: Severity) {
    HasHint(catalog, dets, s) && forall t: Severity :: HasHint(catalog, dets, t) ==> t.Ord() <= s.Ord()
  }

  lemma SplitPartitions(db: Db, source: Id, events: set<Id>, entities: set<Id>, child: Id)
    requires Split(db, source, events, entities, child).Ok?
    ensures var (src, after) := (db.incidents[source], Split(db, source, events, entities, child).value.incidents);
            && after.Keys == db.incidents.Keys + {child} && child !in db.incidents
            && Partitioned(src.evidence, after[source].evidence, after[child].evidence)
            && after[child].evidence.events.Keys == events
            && EntityIds(after[child].evidence) == entities
            && after[source].evidence.detections == src.evidence.detections
            && (forall i :: i in db.incidents && i != source ==> after[i] == db.incidents[i])
            && after[source].confidence == after[child].confidence == src.confidence
            && after[child].severity == src.severity
    ensures var (src, s) := (db.incidents[source], Split(db, source, events, entities, child).value.incidents[source].severity);
            IsTopHint(db.catalog, src.evidence.detections, s)
            || (s == src.severity && forall t: Severity :: !HasHint(db.catalog, src.evidence.detections, t))
  {
    var ev := db.incidents[source].evidence;
    var moved := Selected(db.catalog, ev, events, entities);
    assert moved.events.Keys == events;
    forall x | x in entities ensures x in EntityIds(moved) {
      assert x in EntityIds(ev);
      var row :| row in ev.entities && row.0 == x;
      assert row in moved.entities;
    }
    assert EntityIds(moved) == entities;
  }

  /** What the child of a split has: the moved rows in their roles, every detection known to have fired
      on a moved event whether or not the source held it, no technique, and a life of its own. Nothing
      but the rows and the severity of the source changes. */
  lemma SplitChild(db: Db, source: Id, events: set<Id>, entities: set<Id>, child: Id)
    requires Split(db, source, events, entities, child).Ok?
    ensures var (src, after) := (db.incidents[source], Split(db, source, events, entities, child).value);
            var (c, s) := (after.incidents[child], after.incidents[source]);
            && (forall d :: d in c.evidence.detections <==> d in db.catalog && db.catalog[d].event in events)
            && (forall e :: e in events ==>
                  e in src.evidence.events && e in c.evidence.events && c.evidence.events[e] == src.evidence.events[e])
            && (forall row :: row in c.evidence.entities <==> row in src.evidence.entities && row.0 in entities)
            && c.evidence.attack == map[] && c.status == New && c.parent.None? && c.closedAt.None?
            && s.(evidence := src.evidence, severity := src.severity) == src
            && s.evidence.attack == src.evidence.attack && after.catalog == db.catalog
  {
  }

  /** A split goes through if and only if something is selected, the source is neither closed nor merged
      and holds all of the selection, and the child is new. */
  lemma SplitSucceedsIff(db: Db, source: Id, events: set<Id>, entities: set<Id>, child: Id)
    ensures Split(db, source, events, entities, child).Ok? <==>
            && (events != {} || entities != {}) && source in db.incidents && child !in db.incidents
            && db.incidents[source].status != Closed && db.incidents[source].status != Merged
            && (forall e :: e in events ==> e in db.incidents[source].evidence.events)
            && (forall x :: x in entities ==> exists role :: (x, role) in db.incidents[source].evidence.entities)
  {
    if source in db.incidents {
      var ev := db.incidents[source].evidence;
      forall x ensures x in EntityIds(ev) <==> exists role :: (x, role) in ev.entities {
        if x in EntityIds(ev) {
          var row :| row in ev.entities && row.0 == x;
          assert (x, row.1) in ev.entities;
        }
        if role :| (x, role) in ev.entities { assert (x, role).0 in EntityIds(ev); }
      }
    }
  }

  // ---------------------------------------------------------------------------
  // The severity after a split.
  // ---------------------------------------------------------------------------

  predicate Known(catalog: map<Id, Detection>, dets: set<Id>, d: Id) {
    d in dets && d in catalog
  }

  /** The linked detections that did not fire on the moved events. */
  function OnKeptEvents(catalog: map<Id, Detection>, dets: set<Id>, events: set<Id>): set<Id> {
    set d | d in dets && d in catalog && catalog[d].event !in events
  }

  /** A linked detection on a moved event whose hint is above that of every one on a kept event. */
  ghost predicate SomeMovedAbove(catalog: map<Id, Detection>, dets: set<Id>, events: set<Id>) {
    exists d :: Known(catalog, dets, d) && catalog[d].event in events
                && forall k :: k in OnKeptEvents(catalog, dets, events) ==> catalog[k].hint.Ord() < catalog[d].hint.Ord()
  }

  lemma TopHintIsTop(catalog: map<Id, Detection>, dets: set<Id>, d: Id, otherwise: Severity)
    requires Known(catalog, dets, d)
    ensures IsTopHint(catalog, dets, TopHint(catalog, dets, otherwise))
    ensures catalog[d].hint.Ord() <= TopHint(catalog, dets, otherwise).Ord()
  {
    assert HasHint(catalog, dets, catalog[d].hint);
  }

  lemma HintIsKnown(catalog: map<Id, Detection>, dets: set<Id>, t: Severity)
    ensures HasHint(catalog, dets, t) ==> exists d :: Known(catalog, dets, d)
  {
    if HasHint(catalog, dets, t) {
      var d :| d in dets && d in catalog && catalog[d].hint == t;
      assert Known(catalog, dets, d);
    }
  }

  /** The copied detections of the moved events count for the source's severity. Leaving them out
      would give the same if and only if none of them is above every other linked one or, when
      there is no other, the severity was already the top hint. */
  lemma SeverityWithoutMovedIff(catalog: map<Id, Detection>, dets: set<Id>, events: set<Id>, was: Severity)
    ensures TopHint(catalog, dets, was) == TopHint(catalog, OnKeptEvents(catalog, dets, events), was) <==>
            if OnKeptEvents(catalog, dets, events) != {} then !SomeMovedAbove(catalog, dets, events)
            else (forall d :: !Known(catalog, dets, d)) || IsTopHint(catalog, dets, was)
  {
    var kept := OnKeptEvents(catalog, dets, events);
    if kept == {} {
      assert forall t: Severity :: !HasHint(catalog, kept, t);
      if d :| Known(catalog, dets, d) {
        TopHintIsTop(catalog, dets, d, was);
      } else {
        forall t: Severity { HintIsKnown(catalog, dets, t); }
      }
    }
  }

  /** A critical detection on the moved event, a low one on the kept event: the source stays critical. */
  lemma SplitStaysCritical(db: Db, child: Id)
    requires db.catalog == map[1 := Detection(10, Critical), 2 := Detection(20, Low)]
    requires db.incidents.Keys == {0} && child != 0
    requires var inc := db.incidents[0];
             inc.status == New && inc.evidence.events == map[10 := Trigger, 20 := Trigger] && inc.evidence.detections == {1, 2}
    ensures Split(db, 0, {10}, {}, child).Ok?
    ensures var src := Split(db, 0, {10}, {}, child).value.incidents[0];
            && src.severity == Critical
            && TopHint(db.catalog, OnKeptEvents(db.catalog, src.evidence.detections, {10}), src.severity) == Low
  {
    var (dets, kept) := (db.incidents[0].evidence.detections, OnKeptEvents(db.catalog, {1, 2}, {10}));
    assert db.catalog[1].hint == Critical && HasHint(db.catalog, dets, Critical);
    assert kept == {2};
    assert HasHint(db.catalog, kept, Low);
  }

  // ---------------------------------------------------------------------------
  // Splitting, then merging back.
  // ---------------------------------------------------------------------------

  /** The child of a split can be merged back into its source at once. The source then has its
      event and entity rows back, roles included, and its confidence; its detections are its own
      and those that fired on the moved events; and its severity is the larger of what it was
      and its linked detections' top hint. */
  lemma SplitThenMergeBack(db: Db, source: Id, events: set<Id>, entities: set<Id>, child: Id)
    requires Split(db, source, events, entities, child).Ok?
    ensures var mid := Split(db, source, events, entities, child).value;
            Merge(mid, child, source).Ok?
    ensures var (was, is_) := (db.incidents[source],
                               Merge(Split(db, source, events, entities, child).value, child, source).value.incidents[source]);
            && is_.evidence.events == was.evidence.events
            && is_.evidence.entities == was.evidence.entities
            && is_.evidence.attack == was.evidence.attack
            && is_.evidence.detections ==
               was.evidence.detections + (set d | d in db.catalog && db.catalog[d].event in events)
            && is_.confidence == was.confidence && is_.status == was.status && is_.parent == was.parent
            && is_.severity ==
               MaxSeverity(was.severity, TopHint(db.catalog, was.evidence.detections, was.severity))
  {
    var src := db.incidents[source];
    Rejoined(db.catalog, src.evidence, events, entities);
    HalfEvenRounds(src.confidence, src.confidence);
  }

  /** The moved rows and the remaining ones together. */
  lemma Rejoined(catalog: map<Id, Detection>, ev: Evidence, events: set<Id>, entities: set<Id>)
    ensures var r := Union(Selected(catalog, ev, events, entities), Remaining(ev, events, entities));
            && r.events == ev.events && r.entities == ev.entities && r.attack == ev.attack
            && r.detections == ev.detections + (set d | d in catalog && catalog[d].event in events)
  {
    var (goes, stays) := (Selected(catalog, ev, events, entities), Remaining(ev, events, entities));
    assert (goes.events + stays.events).Keys == ev.events.Keys;
    assert goes.attack + stays.attack == ev.attack;
  }

  // ---------------------------------------------------------------------------
  // Nothing is lost.
  // ---------------------------------------------------------------------------

  ghost predicate EventHeld(db: Db, e: Id) {
    exists i :: i in db.incidents && e in db.incidents[i].evidence.events
  }

  ghost predicate RowHeld(db: Db, row: (Id, EntityRole)) {
    exists i :: i in db.incidents && row in db.incidents[i].evidence.entities
  }

  lemma SplitHolds(db: Db, source: Id, events: set<Id>, entities: set<Id>, child: Id)
    requires Split(db, source, events, entities, child).Ok?
    ensures var after := Split(db, source, events, entities, child).value;
            && (forall e :: EventHeld(db, e) ==> EventHeld(after, e))
            && forall row :: RowHeld(db, row) ==> RowHeld(after, row)
  {
    SplitPartitions(db, source, events, entities, child);
    var after := Split(db, source, events, entities, child).value;
    forall e | EventHeld(db, e) ensures EventHeld(after, e) {
      var i :| i in db.incidents && e in db.incidents[i].evidence.events;
      assert e in after.incidents[i].evidence.events || e in after.incidents[child].evidence.events;
    }
    forall row | RowHeld(db, row) ensures RowHeld(after, row) {
      var i :| i in db.incidents && row in db.incidents[i].evidence.entities;
      assert row in after.incidents[i].evidence.entities || row in after.incidents[child].evidence.entities;
    }
  }

  predicate Keeps(b: Incident, a: Incident) {
    b.evidence.events.Keys <= a.evidence.events.Keys && b.evidence.entities <= a.evidence.entities
  }

  /** No step takes an event or an entity row away from every incident. */
  lemma StepHolds(db: Db, step: Step)
    ensures forall e :: EventHeld(db, e) ==> EventHeld(Apply(db, step), e)
    ensures forall row :: RowHeld(db, row) ==> RowHeld(Apply(db, step), row)
  {
    var after := Apply(db, step);
    if step.DoSplit? && Split(db, step.source, step.events, step.moved, step.child).Ok? {
      SplitHolds(db, step.source, step.events, step.moved, step.child);
    } else {
      assert forall i :: i in db.incidents ==> i in after.incidents && Keeps(db.incidents[i], after.incidents[i]);
      forall e | EventHeld(db, e) ensures EventHeld(after, e) {
        var i :| i in db.incidents && e in db.incidents[i].evidence.events;
        assert e in after.incidents[i].evidence.events;
      }
      forall row | RowHeld(db, row) ensures RowHeld(after, row) {
        var i :| i in db.incidents && row in db.incidents[i].evidence.entities;
        assert row in after.incidents[i].evidence.entities;
      }
    }
  }

  lemma {:induction false} RunHolds(db: Db, steps: seq<Step>)
    ensures forall e :: EventHeld(db, e) ==> EventHeld(Run(db, steps), e)
    ensures forall row :: RowHeld(db, row) ==> RowHeld(Run(db, steps), row)
  {
    if steps != [] {
      RunHolds(db, steps[..|steps| - 1]);
      StepHolds(Run(db, steps[..|steps| - 1]), steps[|steps| - 1]);
    }
  }
}
