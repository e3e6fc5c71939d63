/** What every run of transactions keeps: the merge forest and the audit log. */
module IncidentRuns {
  import opened Options
  import opened IncidentModel

  // ---------------------------------------------------------------------------
  // The merge forest.
  // ---------------------------------------------------------------------------

  /** `n` parent links lead from `i` to `j`. */
  predicate Climbs(incidents: map<Id, Incident>, i: Id, j: Id, n: nat)
    decreases n
  {
    i in incidents &&
    if n == 0 then i == j
    else incidents[i].parent.Some? && Climbs(incidents, incidents[i].parent.value, j, n - 1)
  }

  /** `n` parent links lead from `i` to `root`, which has no parent. */
  predicate RootAt(incidents: map<Id, Incident>, i: Id, root: Id, n: nat) {
    Climbs(incidents, i, root, n) && root in incidents && incidents[root].parent.None?
  }

  ghost predicate HasRoot(incidents: map<Id, Incident>, i: Id) {
    exists root, n: nat :: RootAt(incidents, i, root, n)
  }

  ghost predicate Rooted(incidents: map<Id, Incident>) {
    forall i {:trigger HasRoot(incidents, i)} :: i in incidents ==> HasRoot(incidents, i)
  }

  predicate StatusFits(inc: Incident) {
    && (inc.status == Merged <==> inc.parent.Some?)
    && (inc.status == Closed ==> inc.closedAt.Some?)
    && (inc.closedAt.Some? ==> inc.status == Closed || inc.status == Merged)
    && inc.status != Reopened
  }

  // ---------------------------------------------------------------------------
  // The audit log.
  // ---------------------------------------------------------------------------

  /** The rows of one incident, in order. */
  function RowsOf(log: seq<Row>, i: Id): seq<Row> {
    if log == [] then []
    else
      var rows := RowsOf(log[..|log| - 1], i);
      if log[|log| - 1].incident == i then rows + [log[|log| - 1]] else rows
  }

  /** A row that records an opening, an allowed transition, a merge away, or no change. */
  predicate LegalRow(r: Row) {
    match r.from
    case None => r.to == New
    case Some(from) => r.to == from || r.to in AllowedTargets(from) || (r.to == Merged && from != Merged)
  }

  /** The rows lead from nothing through `New` to `status`, each from where the last one ended. */
  predicate Replays(rows: seq<Row>, status: Status) {
    && rows != [] && rows[0].from == None
    && (forall k :: 0 <= k < |rows| ==> LegalRow(rows[k]))
    && (forall k :: 0 < k < |rows| ==> rows[k].from == Some(rows[k - 1].to))
    && rows[|rows| - 1].to == status
  }

  predicate LogFits(incidents: map<Id, Incident>, log: seq<Row>) {
    && (forall i :: i in incidents ==> Replays(RowsOf(log, i), incidents[i].status))
    && forall k :: 0 <= k < |log| ==> log[k].incident in incidents
  }

  predicate StatusesFit(incidents: map<Id, Incident>) {
    forall i :: i in incidents ==> StatusFits(incidents[i])
  }

  ghost predicate Inv(db: Db) {
    Rooted(db.incidents) && StatusesFit(db.incidents) && LogFits(db.incidents, db.log)
  }

  /** What one transaction may do to an incident: move it along an allowed edge or merge it
      away; a merged one keeps its parent, and a closing time is never rewritten. */
  predicate IncidentAdvances(b: Incident, a: Incident) {
    && (a.status == b.status || a.status in AllowedTargets(b.status) || (a.status == Merged && b.status != Merged))
    && (b.status == Merged ==> a.parent == b.parent)
    && (b.closedAt.Some? ==> a.closedAt == b.closedAt)
  }

  /** No incident disappears, and the log only grows. */
  predicate Advances(before: Db, after: Db) {
    && (forall i :: i in before.incidents ==>
          i in after.incidents && IncidentAdvances(before.incidents[i], after.incidents[i]))
    && before.log <= after.log
  }

  // ---------------------------------------------------------------------------
  // Rows of a longer log.
  // ---------------------------------------------------------------------------

  lemma RowsAppend(log: seq<Row>, r: Row, i: Id)
    ensures RowsOf(log + [r], i) == RowsOf(log, i) + if r.incident == i then [r] else []
  {
    assert (log + [r])[..|log|] == log;
  }

  lemma {:induction false} RowsAbsent(log: seq<Row>, i: Id)
    requires forall k :: 0 <= k < |log| ==> log[k].incident != i
    ensures RowsOf(log, i) == []
  {
    if log != [] { RowsAbsent(log[..|log| - 1], i); }
  }

  lemma ReplayOne(rows: seq<Row>, status: Status, r: Row)
    requires Replays(rows, status) && r.from == Some(status) && LegalRow(r)
    ensures Replays(rows + [r], r.to)
  {
  }

  /** The rows of incident `i`, when incident `id` gets one more that is set to its target status. */
  lemma RowsOne(incidents: map<Id, Incident>, log: seq<Row>, id: Id, r: Row, i: Id)
    requires forall k :: 0 <= k < |log| ==> log[k].incident in incidents
    requires i in incidents ==> Replays(RowsOf(log, i), incidents[i].status)
    requires r.incident == id && LegalRow(r)
    requires r.from == if id in incidents then Some(incidents[id].status) else None
    ensures i == id ==> Replays(RowsOf(log + [r], i), r.to)
    ensures i != id && i in incidents ==> Replays(RowsOf(log + [r], i), incidents[i].status)
  {
    RowsAppend(log, r, i);
    if i == id {
      if i in incidents {
        ReplayOne(RowsOf(log, i), incidents[i].status, r);
      } else {
        RowsAbsent(log, i);
        assert RowsOf(log + [r], i) == [r];
      }
    }
  }

  /** A row more for incident `id`, which is set to the row's target status. */
  lemma LogOne(incidents: map<Id, Incident>, log: seq<Row>, id: Id, inc: Incident, r: Row)
    requires LogFits(incidents, log)
    requires r.incident == id && r.to == inc.status && LegalRow(r)
    requires r.from == if id in incidents then Some(incidents[id].status) else None
    ensures LogFits(incidents[id := inc], log + [r])
  {
    var after := incidents[id := inc];
    forall i | i in after ensures Replays(RowsOf(log + [r], i), after[i].status) {
      RowsOne(incidents, log, id, r, i);
    }
  }

  // ---------------------------------------------------------------------------
  // Roots survive.
  // ---------------------------------------------------------------------------

  lemma {:induction false} ClimbKept(before: map<Id, Incident>, id: Id, inc: Incident, i: Id, j: Id, n: nat)
    requires Climbs(before, i, j, n)
    requires id in before ==> inc.parent == before[id].parent
    ensures Climbs(before[id := inc], i, j, n)
    decreases n
  {
    if n > 0 { ClimbKept(before, id, inc, before[i].parent.value, j, n - 1); }
  }

  /** An incident that keeps its parent, or a new one without, changes no one's root. */
  lemma RootedKept(before: map<Id, Incident>, id: Id, inc: Incident)
    requires Rooted(before)
    requires inc.parent == if id in before then before[id].parent else None
    ensures Rooted(before[id := inc])
  {
    var after := before[id := inc];
    forall i | i in after ensures HasRoot(after, i) {
      if i in before {
        assert HasRoot(before, i);
        var root, n: nat :| RootAt(before, i, root, n);
        ClimbKept(before, id, inc, i, root, n);
        assert RootAt(after, i, root, n);
      } else {
        assert RootAt(after, i, i, 0);
      }
    }
  }

  /** A root that is given a parent: what climbed to it now climbs one link further, and what
      climbed elsewhere never passed it. */
  lemma {:induction false} ClimbLinked(
    before: map<Id, Incident>, source: Id, inc: Incident, target: Id, i: Id, root: Id, n: nat)
    requires RootAt(before, i, root, n)
    requires source in before && before[source].parent.None? && source != target
    requires target in before && before[target].parent.None?
    requires inc.parent == Some(target)
    ensures if root == source then RootAt(before[source := inc], i, target, n + 1)
            else RootAt(before[source := inc], i, root, n)
    decreases n
  {
    var after := before[source := inc];
    if n > 0 {
      assert i != source;
      ClimbLinked(before, source, inc, target, before[i].parent.value, root, n - 1);
    } else if root == source {
      assert Climbs(after, target, target, 0);
      assert Climbs(after, source, target, 1);
    }
  }

  lemma RootedLinked(before: map<Id, Incident>, source: Id, inc: Incident, target: Id)
    requires Rooted(before)
    requires source in before && before[source].parent.None? && source != target
    requires target in before && before[target].parent.None?
    requires inc.parent == Some(target)
    ensures Rooted(before[source := inc])
  {
    var after := before[source := inc];
    forall i | i in after ensures HasRoot(after, i) {
      assert HasRoot(before, i);
      var root, n: nat :| RootAt(before, i, root, n);
      ClimbLinked(before, source, inc, target, i, root, n);
    }
  }

  // ---------------------------------------------------------------------------
  // The ways a transaction writes one incident.
  // ---------------------------------------------------------------------------

  function Written(db: Db, id: Id, inc: Incident, r: Row): Db {
    db.(incidents := db.incidents[id := inc], log := db.log + [r])
  }

  /** An incident of the same parent, or a new one, written with its audit row. */
  lemma WriteKeeps(db: Db, id: Id, inc: Incident, r: Row)
    requires Inv(db) && StatusFits(inc) && LegalRow(r) && r.incident == id && r.to == inc.status
    requires r.from == if id in db.incidents then Some(db.incidents[id].status) else None
    requires inc.parent == if id in db.incidents then db.incidents[id].parent else None
    ensures Inv(Written(db, id, inc, r))
  {
    RootedKept(db.incidents, id, inc);
    LogOne(db.incidents, db.log, id, inc, r);
  }

  lemma LinkKeeps(db: Db, source: Id, inc: Incident, target: Id, r: Row)
    requires Inv(db) && StatusFits(inc) && inc.status == Merged && inc.parent == Some(target)
    requires source in db.incidents && target in db.incidents && source != target
    requires db.incidents[source].status != Merged && db.incidents[target].status != Merged
    requires r == Row(source, Some(db.incidents[source].status), Merged)
    ensures Inv(Written(db, source, inc, r))
  {
    assert StatusFits(db.incidents[source]) && StatusFits(db.incidents[target]);
    RootedLinked(db.incidents, source, inc, target);
    LogOne(db.incidents, db.log, source, inc, r);
  }

  // ---------------------------------------------------------------------------
  // Each transaction.
  // ---------------------------------------------------------------------------

  lemma TransitionKeeps(db: Db, id: Id, to: Status, hasReason: bool, now: int)
    requires Inv(db) && Transition(db, id, to, hasReason, now).Ok?
    ensures Inv(Transition(db, id, to, hasReason, now).value)
  {
    var inc := db.incidents[id];
    assert StatusFits(inc);
    var inc' := inc.(status := to, closedAt := if to == Closed then Some(now) else inc.closedAt);
    WriteKeeps(db, id, inc', Row(id, Some(inc.status), to));
  }

  lemma CreateKeeps(db: Db, id: Id, severity: Severity, confidence: nat, evidence: Evidence)
    requires Inv(db) && Create(db, id, severity, confidence, evidence).Ok?
    ensures Inv(Create(db, id, severity, confidence, evidence).value)
  {
    WriteKeeps(db, id, Incident(New, severity, confidence, None, None, evidence), Row(id, None, New));
  }

  lemma ExtendKeeps(db: Db, id: Id, added: Evidence)
    requires Inv(db) && id in db.incidents
    ensures Inv(Extend(db, id, added).value)
  {
    var inc := db.incidents[id];
    RootedKept(db.incidents, id, inc.(evidence := Union(added, inc.evidence)));
    assert StatusFits(inc);
  }

  lemma MergeWrites(db: Db, source: Id, target: Id)
    requires Merge(db, source, target).Ok?
    ensures var (src, tgt, after) := (db.incidents[source], db.incidents[target], Merge(db, source, target).value);
            && target in after.incidents && source in after.incidents
            && after == Written(Written(db, source, after.incidents[source], Row(source, Some(src.status), Merged)),
                                target, after.incidents[target], Row(target, Some(tgt.status), tgt.status))
            && after.incidents[source] == src.(status := Merged, parent := Some(target))
            && after.incidents[target].status == tgt.status && after.incidents[target].parent == tgt.parent
            && after.incidents[target].closedAt == tgt.closedAt
  {
    var (src, tgt, after) := (db.incidents[source], db.incidents[target], Merge(db, source, target).value);
    var r1, r2 := Row(source, Some(src.status), Merged), Row(target, Some(tgt.status), tgt.status);
    assert db.log + [r1, r2] == db.log + [r1] + [r2];
  }

  lemma MergeKeeps(db: Db, source: Id, target: Id)
    requires Inv(db) && Merge(db, source, target).Ok?
    ensures Inv(Merge(db, source, target).value)
  {
    MergeWrites(db, source, target);
    var (src, tgt, after) := (db.incidents[source], db.incidents[target], Merge(db, source, target).value);
    var r1 := Row(source, Some(src.status), Merged);
    assert StatusFits(src) && StatusFits(tgt);
    LinkKeeps(db, source, after.incidents[source], target, r1);
    WriteKeeps(Written(db, source, after.incidents[source], r1), target, after.incidents[target],
               Row(target, Some(tgt.status), tgt.status));
  }

  lemma SplitWrites(db: Db, source: Id, events: set<Id>, entities: set<Id>, child: Id)
    requires Split(db, source, events, entities, child).Ok?
    ensures var (src, after) := (db.incidents[source], Split(db, source, events, entities, child).value);
            && child !in db.incidents && source in after.incidents && child in after.incidents
            && after == Written(Written(db, source, after.incidents[source], Row(source, Some(src.status), src.status)),
                                child, after.incidents[child], Row(child, None, New))
            && after.incidents[source].status == src.status && after.incidents[source].parent == src.parent
            && after.incidents[source].closedAt == src.closedAt
            && after.incidents[child].status == New && after.incidents[child].parent == None
            && after.incidents[child].closedAt == None
  {
    var (src, after) := (db.incidents[source], Split(db, source, events, entities, child).value);
    var r1, r2 := Row(source, Some(src.status), src.status), Row(child, None, New);
    assert db.log + [r1, r2] == db.log + [r1] + [r2];
  }

  lemma SplitKeeps(db: Db, source: Id, events: set<Id>, entities: set<Id>, child: Id)
    requires Inv(db) && Split(db, source, events, entities, child).Ok?
    ensures Inv(Split(db, source, events, entities, child).value)
  {
    SplitWrites(db, source, events, entities, child);
    var (src, after) := (db.incidents[source], Split(db, source, events, entities, child).value);
    var r1 := Row(source, Some(src.status), src.status);
    assert StatusFits(src);
    WriteKeeps(db, source, after.incidents[source], r1);
    WriteKeeps(Written(db, source, after.incidents[source], r1), child, after.incidents[child], Row(child, None, New));
  }

  lemma StepKeeps(db: Db, step: Step)
    requires Inv(db)
    ensures Inv(Apply(db, step))
  {
    if Apply(db, step) != db {
      match step
      case DoCreate(id, severity, confidence, evidence) => CreateKeeps(db, id, severity, confidence, evidence);
      case DoTransition(id, to, hasReason, now) => TransitionKeeps(db, id, to, hasReason, now);
      case DoMerge(source, target) => MergeKeeps(db, source, target);
      case DoSplit(source, events, entities, child) => SplitKeeps(db, source, events, entities, child);
      case DoExtend(id, event, detection, entities, tags) =>
        ExtendKeeps(db, id, Brought(event, detection, entities, tags));
      case DoDetect(_, _, _) =>
    }
  }

  lemma SplitAdvances(db: Db, source: Id, events: set<Id>, entities: set<Id>, child: Id)
    requires Split(db, source, events, entities, child).Ok?
    ensures Advances(db, Split(db, source, events, entities, child).value)
  {
    SplitWrites(db, source, events, entities, child);
  }

  lemma StepAdvances(db: Db, step: Step)
    requires StatusesFit(db.incidents)
    ensures Advances(db, Apply(db, step))
  {
    match step
    case DoSplit(source, events, moved, child) =>
      if Split(db, source, events, moved, child).Ok? { SplitAdvances(db, source, events, moved, child); }
    case _ =>
  }

  // ---------------------------------------------------------------------------
  // Whole runs.
  // ---------------------------------------------------------------------------

  /** Every run from an empty database keeps the forest rooted, the statuses consistent and the
      log replayable. */
  lemma {:induction false} RunKeeps(steps: seq<Step>)
    ensures Inv(Run(EMPTY, steps))
  {
    if steps != [] {
      RunKeeps(steps[..|steps| - 1]);
      StepKeeps(Run(EMPTY, steps[..|steps| - 1]), steps[|steps| - 1]);
    }
  }

  /** A merged incident stays merged into the same parent, however the run goes on. */
  lemma {:induction false} MergedForever(db: Db, steps: seq<Step>, i: Id)
    requires Inv(db) && i in db.incidents && db.incidents[i].status == Merged
    ensures Inv(Run(db, steps)) && i in Run(db, steps).incidents
    ensures Run(db, steps).incidents[i].status == Merged && Run(db, steps).incidents[i].parent == db.incidents[i].parent
  {
    if steps != [] {
      var front := steps[..|steps| - 1];
      MergedForever(db, front, i);
      StepKeeps(Run(db, front), steps[|steps| - 1]);
      StepAdvances(Run(db, front), steps[|steps| - 1]);
    }
  }

  /** Wherever a climb stops, the root is still ahead, and as much nearer. */
  lemma {:induction false} ClimbTowardsRoot(incidents: map<Id, Incident>, i: Id, j: Id, k: nat, root: Id, n: nat)
    requires Climbs(incidents, i, j, k) && RootAt(incidents, i, root, n)
    ensures k <= n && RootAt(incidents, j, root, n - k)
    decreases k
  {
    if k > 0 { ClimbTowardsRoot(incidents, incidents[i].parent.value, j, k - 1, root, n - 1); }
  }

  /** The root of an incident, and its distance, are unique. */
  lemma {:induction false} RootUnique(incidents: map<Id, Incident>, i: Id, root: Id, n: nat, root': Id, n': nat)
    requires RootAt(incidents, i, root, n) && RootAt(incidents, i, root', n')
    ensures root == root' && n == n'
    decreases n
  {
    if n > 0 && n' > 0 { RootUnique(incidents, incidents[i].parent.value, root, n - 1, root', n' - 1); }
  }

  lemma NeverBack(incidents: map<Id, Incident>, i: Id, k: nat)
    requires HasRoot(incidents, i) && Climbs(incidents, i, i, k)
    ensures k == 0
  {
    var root, n: nat :| RootAt(incidents, i, root, n);
    ClimbTowardsRoot(incidents, i, i, k, root, n);
    RootUnique(incidents, i, root, n, root, n - k);
  }

  /** In a run, following parents from any incident ends at an incident that is not merged, and
      never comes back to where it started. */
  lemma MergeForest(steps: seq<Step>, i: Id)
    requires i in Run(EMPTY, steps).incidents
    ensures var incidents := Run(EMPTY, steps).incidents;
            && (exists root, n: nat :: RootAt(incidents, i, root, n) && incidents[root].status != Merged)
            && (forall k: nat :: Climbs(incidents, i, i, k) ==> k == 0)
            && (incidents[i].status == Merged <==> incidents[i].parent.Some?)
  {
    RunKeeps(steps);
    var incidents := Run(EMPTY, steps).incidents;
    assert HasRoot(incidents, i) && StatusFits(incidents[i]);
    var root, n: nat :| RootAt(incidents, i, root, n);
    assert StatusFits(incidents[root]);
    forall k: nat | Climbs(incidents, i, i, k) ensures k == 0 {
      NeverBack(incidents, i, k);
    }
  }
}
