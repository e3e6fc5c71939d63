/** Incidents, their evidence and their audit log, and what each committed transaction does to
    them. A transaction that raises leaves the database as it was. */
module IncidentModel {
  import opened Options
  import opened Results

  type Id = nat

  datatype Status = New | Triaged | Investigating | Contained | Resolved | Closed | Reopened | Merged

  datatype Severity = Info | Low | Medium | High | Critical {
    function Ord(): nat {
      match this
      case Info => 0
      case Low => 1
      case Medium => 2
      case High => 3
      case Critical => 4
    }
  }

  datatype EventRole = Trigger | Supporting | Context

  datatype EntityRole = User | Host | SourceIp | Observable | TargetHost | TargetUser

  datatype AttackSource = RuleDerived | CorrelatorInferred

  /** A row of incident_attack, by its unique key; a missing subtechnique is "". */
  datatype Technique = Technique(tactic: string, technique: string, subtechnique: string)

  /** The junction rows of one incident, by primary key. */
  datatype Evidence = Evidence(
    events: map<Id, EventRole>,
    entities: set<(Id, EntityRole)>,
    detections: set<Id>,
    attack: map<Technique, AttackSource>)

  /** Confidence is held in hundredths. */
  datatype Incident = Incident(
    status: Status,
    severity: Severity,
    confidence: nat,
    parent: Option<Id>,
    closedAt: Option<int>,
    evidence: Evidence)

  datatype Detection = Detection(event: Id, hint: Severity)

  /** A row of incident_transitions. */
  datatype Row = Row(incident: Id, from: Option<Status>, to: Status)

  datatype Db = Db(incidents: map<Id, Incident>, catalog: map<Id, Detection>, log: seq<Row>)

  // ---------------------------------------------------------------------------
  // Status transitions.
  // ---------------------------------------------------------------------------

  /** The transitions that the API allows; `Merged` has no entry in the source's table. */
  function AllowedTargets(from: Status): set<Status> {
    match from
    case New => {Triaged, Closed}
    case Triaged => {Investigating, Closed}
    case Investigating => {Contained, Resolved, Closed}
    case Contained => {Resolved, Investigating, Closed}
    case Resolved => {Closed, Investigating}
    case Closed => {}
    case Reopened => {Investigating}
    case Merged => {}
  }

  predicate NeedsReason(to: Status) {
    to == Contained || to == Resolved || to == Closed
  }

  datatype TransitionError = NotFound | InvalidTransition | ReasonRequired

  function Transition(db: Db, id: Id, to: Status, hasReason: bool, now: int): Result<Db, TransitionError> {
    if id !in db.incidents then Err(NotFound)
    else
      var inc := db.incidents[id];
      if to !in AllowedTargets(inc.status) then Err(InvalidTransition)
      else if NeedsReason(to) && !hasReason then Err(ReasonRequired)
      else
        var closed := if to == Closed then Some(now) else inc.closedAt;
        Ok(db.(incidents := db.incidents[id := inc.(status := to, closedAt := closed)],
               log := db.log + [Row(id, Some(inc.status), to)]))
  }

  // ---------------------------------------------------------------------------
  // Merge.
  // ---------------------------------------------------------------------------

  datatype MergeError = SelfMerge | SourceMissing | TargetMissing | SourceMerged | TargetClosed

  /** The evidence of both, a row of `kept` winning over a row of `added` with the same key. */
  function Union(added: Evidence, kept: Evidence): Evidence {
    Evidence(added.events + kept.events, added.entities + kept.entities, added.detections + kept.detections,
             added.attack + kept.attack)
  }

  function MaxSeverity(a: Severity, b: Severity): Severity {
    if b.Ord() > a.Ord() then b else a
  }

  /** Half of `n`, rounded to the nearest whole number, ties to the even one. */
  function HalfEven(n: nat): nat {
    if n % 2 == 0 || (n / 2) % 2 == 0 then n / 2 else n / 2 + 1
  }

  function Merge(db: Db, source: Id, target: Id): Result<Db, MergeError> {
    if source == target then Err(SelfMerge)
    else if source !in db.incidents then Err(SourceMissing)
    else if target !in db.incidents then Err(TargetMissing)
    else
      var (src, tgt) := (db.incidents[source], db.incidents[target]);
      if src.status == Merged then Err(SourceMerged)
      else if tgt.status == Closed || tgt.status == Merged then Err(TargetClosed)
      else
        var tgt' := tgt.(evidence := Union(src.evidence, tgt.evidence),
                         severity := MaxSeverity(src.severity, tgt.severity),
                         confidence := HalfEven(src.confidence + tgt.confidence));
        var src' := src.(status := Merged, parent := Some(target));
        Ok(db.(incidents := db.incidents[target := tgt'][source := src'],
               log := db.log + [Row(source, Some(src.status), Merged), Row(target, Some(tgt.status), tgt.status)]))
  }

  // ---------------------------------------------------------------------------
  // Split.
  // ---------------------------------------------------------------------------

  datatype SplitError =
    | EmptySelection
    | SplitSourceMissing
    | SourceClosed
    | EventsNotInSource
    | EntitiesNotInSource
    | IdTaken

  /** Some linked detection carries this severity hint. */
  predicate HasHint(catalog: map<Id, Detection>, dets: set<Id>, s: Severity) {
    exists d :: d in dets && d in catalog && catalog[d].hint == s
  }

  /** The highest hint among the linked detections; `otherwise` when there is none. */
  function TopHint(catalog: map<Id, Detection>, dets: set<Id>, otherwise: Severity): Severity {
    if HasHint(catalog, dets, Critical) then Critical
    else if HasHint(catalog, dets, High) then High
    else if HasHint(catalog, dets, Medium) then Medium
    else if HasHint(catalog, dets, Low) then Low
    else if HasHint(catalog, dets, Info) then Info
    else otherwise
  }

  function EntityIds(ev: Evidence): set<Id> {
    set row | row in ev.entities :: row.0
  }

  /** The rows of the selected events and entities, and the detections that fired on those events. */
  function Selected(catalog: map<Id, Detection>, ev: Evidence, events: set<Id>, entities: set<Id>): Evidence {
    Evidence(map e | e in ev.events && e in events :: ev.events[e],
             set row | row in ev.entities && row.0 in entities,
             set d | d in catalog && catalog[d].event in events,
             map[])
  }

  /** What stays: every other event and entity row, and every detection and technique. */
  function Remaining(ev: Evidence, events: set<Id>, entities: set<Id>): Evidence {
    ev.(events := map e | e in ev.events && e !in events :: ev.events[e],
        entities := set row | row in ev.entities && row.0 !in entities)
  }

  function Split(db: Db, source: Id, events: set<Id>, entities: set<Id>, child: Id): Result<Db, SplitError> {
    if events == {} && entities == {} then Err(EmptySelection)
    else if source !in db.incidents then Err(SplitSourceMissing)
    else
      var src := db.incidents[source];
      if src.status == Closed || src.status == Merged then Err(SourceClosed)
      else if !(events <= src.evidence.events.Keys) then Err(EventsNotInSource)
      else if !(entities <= EntityIds(src.evidence)) then Err(EntitiesNotInSource)
      else if child in db.incidents then Err(IdTaken)
      else
        var moved := Selected(db.catalog, src.evidence, events, entities);
        var new_ := Incident(New, src.severity, src.confidence, None, None, moved);
        var src' := src.(evidence := Remaining(src.evidence, events, entities),
                         severity := TopHint(db.catalog, src.evidence.detections, src.severity));
        Ok(db.(incidents := db.incidents[source := src'][child := new_],
               log := db.log + [Row(source, Some(src.status), src.status), Row(child, None, New)]))
  }

  // ---------------------------------------------------------------------------
  // Correlators: opening and extending an incident; a detection that fires.
  // ---------------------------------------------------------------------------

  function Create(db: Db, id: Id, severity: Severity, confidence: nat, evidence: Evidence): Result<Db, SplitError> {
    if id in db.incidents then Err(IdTaken)
    else
      Ok(db.(incidents := db.incidents[id := Incident(New, severity, confidence, None, None, evidence)],
             log := db.log + [Row(id, None, New)]))
  }

  /** What a correlator adds for one event: the event as context, the detection if there is one, the
      entities by their roles, and the techniques as inferred. */
  function Brought(event: Id, detection: Option<Id>, entities: set<(Id, EntityRole)>, tags: set<Technique>): Evidence {
    Evidence(map[event := Context], entities, if detection.Some? then {detection.value} else {},
             map t | t in tags :: CorrelatorInferred)
  }

  /** New evidence joins an incident of any status; rows already there are kept. */
  function Extend(db: Db, id: Id, added: Evidence): Result<Db, TransitionError> {
    if id !in db.incidents then Err(NotFound)
    else
      var inc := db.incidents[id];
      Ok(db.(incidents := db.incidents[id := inc.(evidence := Union(added, inc.evidence))]))
  }

  function Detect(db: Db, id: Id, event: Id, hint: Severity): Db {
    if id in db.catalog then db else db.(catalog := db.catalog[id := Detection(event, hint)])
  }

  // ---------------------------------------------------------------------------
  // Runs.
  // ---------------------------------------------------------------------------

  datatype Step =
    | DoCreate(id: Id, severity: Severity, confidence: nat, evidence: Evidence)
    | DoTransition(id: Id, to: Status, hasReason: bool, now: int)
    | DoMerge(source: Id, target: Id)
    | DoSplit(source: Id, events: set<Id>, moved: set<Id>, child: Id)
    | DoExtend(id: Id, event: Id, detection: Option<Id>, entities: set<(Id, EntityRole)>, tags: set<Technique>)
    | DoDetect(id: Id, event: Id, hint: Severity)

  function OrElse<E>(r: Result<Db, E>, db: Db): Db {
    if r.Ok? then r.value else db
  }

  function Apply(db: Db, step: Step): Db {
    match step
    case DoCreate(id, severity, confidence, evidence) => OrElse(Create(db, id, severity, confidence, evidence), db)
    case DoTransition(id, to, hasReason, now) => OrElse(Transition(db, id, to, hasReason, now), db)
    case DoMerge(source, target) => OrElse(Merge(db, source, target), db)
    case DoSplit(source, events, moved, child) => OrElse(Split(db, source, events, moved, child), db)
    case DoExtend(id, event, detection, entities, tags) =>
      OrElse(Extend(db, id, Brought(event, detection, entities, tags)), db)
    case DoDetect(id, event, hint) => Detect(db, id, event, hint)
  }

  function Run(db: Db, steps: seq<Step>): Db {
    if steps == [] then db else Apply(Run(db, steps[..|steps| - 1]), steps[|steps| - 1])
  }

  const EMPTY := Db(map[], map[], [])
}
