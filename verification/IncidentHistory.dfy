/** What the history of an incident tells: which steps may move it, when it was closed, and that its
    rows keep the role they came with. */
module IncidentHistory {
  import opened Options
  import opened Results
  import opened IncidentModel
  import opened IncidentRuns

  // ---------------------------------------------------------------------------
  // Moves.
  // ---------------------------------------------------------------------------

  /** A transition goes through if and only if its edge is allowed and, towards contained, resolved or
      closed, a reason is given; it touches the status of that incident and, on closing, its closing
      time. */
  lemma TransitionSucceedsIff(db: Db, id: Id, to: Status, hasReason: bool, now: int)
    ensures Transition(db, id, to, hasReason, now).Ok? <==>
            id in db.incidents && to in AllowedTargets(db.incidents[id].status)
            && (hasReason || to in {New, Triaged, Investigating, Reopened, Merged})
    ensures Transition(db, id, to, hasReason, now).Ok? ==>
              var (inc, after) := (db.incidents[id], Transition(db, id, to, hasReason, now).value);
              && after.incidents.Keys == db.incidents.Keys && after.catalog == db.catalog
              && (forall i :: i in db.incidents && i != id ==> after.incidents[i] == db.incidents[i])
              && after.incidents[id].(status := inc.status, closedAt := inc.closedAt) == inc
              && after.incidents[id].status == to
              && after.incidents[id].closedAt == if to == Closed then Some(now) else inc.closedAt
  {
  }

  /** From where each status can be reached: an incident is triaged when new, contained when it is being
      investigated, resolved from either of those two, taken up again from any later status, and closed
      from every status that is not an end; nothing leads to new, reopened or merged. */
  lemma EdgesInto(from: Status)
    ensures Triaged in AllowedTargets(from) <==> from == New
    ensures Investigating in AllowedTargets(from) <==> from in {Triaged, Contained, Resolved, Reopened}
    ensures Contained in AllowedTargets(from) <==> from == Investigating
    ensures Resolved in AllowedTargets(from) <==> from in {Investigating, Contained}
    ensures Closed in AllowedTargets(from) <==> from !in {Closed, Merged, Reopened}
    ensures AllowedTargets(from) !! {New, Reopened, Merged}
  {
  }

  /** Only a transition with a reason brings an incident to contained, resolved or closed. */
  lemma ReasonGiven(db: Db, step: Step, i: Id)
    requires i in Apply(db, step).incidents
    requires Apply(db, step).incidents[i].status in {Contained, Resolved, Closed}
    requires i in db.incidents ==> db.incidents[i].status != Apply(db, step).incidents[i].status
    ensures exists now :: step == DoTransition(i, Apply(db, step).incidents[i].status, true, now)
  {
    if step.DoTransition? {
      TransitionSucceedsIff(db, step.id, step.to, step.hasReason, step.now);
      assert step == DoTransition(i, step.to, true, step.now);
    }
  }

  predicate Passed(rows: seq<Row>, s: Status) {
    exists k :: 0 <= k < |rows| && rows[k].to == s
  }

  predicate Through(rows: seq<Row>, status: Status) {
    && status != Reopened
    && (status in {Triaged, Investigating, Contained, Resolved} ==> Passed(rows, Triaged))
    && (status in {Investigating, Contained, Resolved} ==> Passed(rows, Investigating))
  }

  lemma {:induction false} RowsThrough(rows: seq<Row>, n: nat)
    requires 0 < n <= |rows| && Replays(rows, rows[|rows| - 1].to)
    ensures Through(rows, rows[n - 1].to)
  {
    assert LegalRow(rows[n - 1]);
    if n > 1 {
      RowsThrough(rows, n - 1);
      assert rows[n - 1].from == Some(rows[n - 2].to);
    }
    assert Passed(rows, rows[n - 1].to);
  }

  /** In every run an incident that is being investigated, contained or resolved was triaged before,
      and investigated; its log rows say so. */
  lemma WorkedThrough(steps: seq<Step>, i: Id)
    requires i in Run(EMPTY, steps).incidents
    ensures Through(RowsOf(Run(EMPTY, steps).log, i), Run(EMPTY, steps).incidents[i].status)
  {
    RunKeeps(steps);
    var rows := RowsOf(Run(EMPTY, steps).log, i);
    RowsThrough(rows, |rows|);
  }

  // ---------------------------------------------------------------------------
  // The closing time.
  // ---------------------------------------------------------------------------

  /** Step `k` closed incident `i` at time `t`. */
  ghost predicate ClosedBy(steps: seq<Step>, i: Id, t: int, k: nat) {
    && k < |steps| && steps[k] == DoTransition(i, Closed, true, t)
    && i in Run(EMPTY, steps[..k]).incidents && Transition(Run(EMPTY, steps[..k]), i, Closed, true, t).Ok?
  }

  lemma StepClosingTime(db: Db, step: Step, i: Id)
    requires i in Apply(db, step).incidents && Apply(db, step).incidents[i].closedAt.Some?
    ensures (i in db.incidents && db.incidents[i].closedAt == Apply(db, step).incidents[i].closedAt)
            || (i in db.incidents && step == DoTransition(i, Closed, true, Apply(db, step).incidents[i].closedAt.value)
                && Transition(db, i, Closed, true, Apply(db, step).incidents[i].closedAt.value).Ok?)
  {
    if step.DoTransition? { TransitionSucceedsIff(db, step.id, step.to, step.hasReason, step.now); }
  }

  lemma ClosedByLonger(front: seq<Step>, steps: seq<Step>, i: Id, t: int, k: nat)
    requires front <= steps && k < |front|
    ensures ClosedBy(front, i, t, k) <==> ClosedBy(steps, i, t, k)
  {
    assert front[..k] == steps[..k];
  }

  lemma {:induction false} SomeClosed(steps: seq<Step>, i: Id, t: int) returns (k: nat)
    requires i in Run(EMPTY, steps).incidents && Run(EMPTY, steps).incidents[i].closedAt == Some(t)
    ensures ClosedBy(steps, i, t, k)
  {
    var n := |steps| - 1;
    var front := steps[..n];
    var was := Run(EMPTY, front);
    StepClosingTime(was, steps[n], i);
    if was.incidents[i].closedAt == Some(t) {
      k := SomeClosed(front, i, t);
      ClosedByLonger(front, steps, i, t, k);
    } else {
      k := n;
    }
  }

  lemma ClosingCloses(steps: seq<Step>, i: Id, t: int, k: nat)
    requires ClosedBy(steps, i, t, k)
    ensures i in Run(EMPTY, steps[..k + 1]).incidents && Run(EMPTY, steps[..k + 1]).incidents[i].closedAt.Some?
  {
    assert steps[..k + 1][..k] == steps[..k];
    TransitionSucceedsIff(Run(EMPTY, steps[..k]), i, Closed, true, t);
  }

  lemma StaysClosed(db: Db, step: Step, i: Id)
    requires Inv(db) && i in db.incidents && db.incidents[i].closedAt.Some?
    ensures i in Apply(db, step).incidents && Apply(db, step).incidents[i].closedAt.Some?
  {
    StepAdvances(db, step);
  }

  lemma {:induction false} ClosedStays(steps: seq<Step>, i: Id, m: nat)
    requires m <= |steps| && i in Run(EMPTY, steps[..m]).incidents && Run(EMPTY, steps[..m]).incidents[i].closedAt.Some?
    ensures i in Run(EMPTY, steps).incidents && Run(EMPTY, steps).incidents[i].closedAt.Some?
  {
    if m == |steps| {
      assert steps[..m] == steps;
    } else {
      var front := steps[..|steps| - 1];
      assert front[..m] == steps[..m];
      ClosedStays(front, i, m);
      RunKeeps(front);
      StaysClosed(Run(EMPTY, front), steps[|steps| - 1], i);
    }
  }

  lemma NotClosable(db: Db, i: Id, t: int)
    requires i in db.incidents && StatusFits(db.incidents[i]) && db.incidents[i].closedAt.Some?
    ensures Transition(db, i, Closed, true, t).Err?
  {
    EdgesInto(db.incidents[i].status);
  }

  lemma NotClosedTwice(steps: seq<Step>, i: Id, t: int, k: nat, t': int, k': nat)
    requires ClosedBy(steps, i, t, k) && ClosedBy(steps, i, t', k')
    ensures k' <= k
  {
    if k < k' {
      var front := steps[..k'];
      ClosingCloses(steps, i, t, k);
      assert front[..k + 1] == steps[..k + 1];
      ClosedStays(front, i, k + 1);
      RunKeeps(front);
      NotClosable(Run(EMPTY, front), i, t');
    }
  }

  /** In every run the closing time of an incident is the time of a transition that closed it, and of
      the only one. */
  lemma ClosedOnce(steps: seq<Step>, i: Id)
    requires i in Run(EMPTY, steps).incidents && Run(EMPTY, steps).incidents[i].closedAt.Some?
    ensures exists k: nat :: ClosedBy(steps, i, Run(EMPTY, steps).incidents[i].closedAt.value, k)
                             && forall t: int, k': nat :: ClosedBy(steps, i, t, k') ==> k' == k
  {
    var t := Run(EMPTY, steps).incidents[i].closedAt.value;
    var k := SomeClosed(steps, i, t);
    forall t': int, k': nat | ClosedBy(steps, i, t', k') ensures k' == k {
      NotClosedTwice(steps, i, t, k, t', k');
      NotClosedTwice(steps, i, t', k', t, k);
    }
  }

  // ---------------------------------------------------------------------------
  // Roles.
  // ---------------------------------------------------------------------------

  /** A row that stays on its incident keeps its role, and a technique its source, whatever else joins. */
  predicate RolesKept(was: Evidence, now: Evidence) {
    && (forall e :: e in was.events && e in now.events ==> now.events[e] == was.events[e])
    && (forall t :: t in was.attack ==> t in now.attack && now.attack[t] == was.attack[t])
    && was.detections <= now.detections
  }

  lemma SplitKeepsRoles(db: Db, source: Id, events: set<Id>, entities: set<Id>, child: Id, i: Id)
    requires i in db.incidents && Split(db, source, events, entities, child).Ok?
    ensures i in Split(db, source, events, entities, child).value.incidents
    ensures RolesKept(db.incidents[i].evidence, Split(db, source, events, entities, child).value.incidents[i].evidence)
  {
  }

  lemma StepKeepsRoles(db: Db, step: Step, i: Id)
    requires i in db.incidents
    ensures i in Apply(db, step).incidents
    ensures RolesKept(db.incidents[i].evidence, Apply(db, step).incidents[i].evidence)
  {
    match step
    case DoSplit(source, events, moved, child) =>
      if Split(db, source, events, moved, child).Ok? { SplitKeepsRoles(db, source, events, moved, child, i); }
    case _ =>
  }

  /** What extending adds: the event as context unless it was there, the detection, the entities, and
      the techniques as inferred unless they were there; nothing else changes. */
  lemma ExtendAdds(db: Db, id: Id, event: Id, detection: Option<Id>, entities: set<(Id, EntityRole)>, tags: set<Technique>)
    requires id in db.incidents
    ensures var (inc, after) := (db.incidents[id], Apply(db, DoExtend(id, event, detection, entities, tags)));
            var (was, now) := (inc.evidence, after.incidents[id].evidence);
            && after == db.(incidents := db.incidents[id := inc.(evidence := now)])
            && (forall e :: e in now.events <==> e in was.events || e == event)
            && now.events[event] == (if event in was.events then was.events[event] else Context)
            && (forall row :: row in now.entities <==> row in was.entities || row in entities)
            && (forall d :: d in now.detections <==> d in was.detections || detection == Some(d))
            && (forall t :: t in now.attack <==> t in was.attack || t in tags)
            && (forall t :: t in tags && t !in was.attack ==> now.attack[t] == CorrelatorInferred)
            && RolesKept(was, now)
  {
  }

  /** An incident is opened as new, with what it is given and nothing else. */
  lemma OpenedAs(db: Db, id: Id, severity: Severity, confidence: nat, evidence: Evidence)
    ensures var after := Apply(db, DoCreate(id, severity, confidence, evidence));
            if id in db.incidents then after == db
            else
              && after.incidents.Keys == db.incidents.Keys + {id} && after.catalog == db.catalog
              && (forall i :: i in db.incidents ==> after.incidents[i] == db.incidents[i])
              && var inc := after.incidents[id];
                 && inc.status == New && inc.severity == severity && inc.confidence == confidence
                 && inc.parent.None? && inc.closedAt.None? && inc.evidence == evidence
  {
  }

  /** A detection, once there, keeps its event and its hint for the rest of any run. */
  lemma {:induction false} DetectionsKept(db: Db, steps: seq<Step>, d: Id)
    requires d in db.catalog
    ensures d in Run(db, steps).catalog && Run(db, steps).catalog[d] == db.catalog[d]
  {
    if steps != [] { DetectionsKept(db, steps[..|steps| - 1], d); }
  }
}
