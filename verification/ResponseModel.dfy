/** Response actions: the proposed, executed, reverted states of an action, and what the block,
    flag-host and invalidate-session handlers do to the tables behind them. */
module ResponseModel {
  import opened Options
  import opened Results
  import opened Text

  type Id = nat

  /** The kind of an action with its parameters. `Other` stands for the kinds that touch none of
      these tables and that the policy does not class as reversible, with the host that the scope
      check looks up for some of them ("" for the others) and what the handler returns. */
  datatype Kind =
    | Block(kind: string, value: string)
    | Flag(host: string)
    | Invalidate(user: string, host: string)
    | Other(host: string, outcome: Outcome)

  datatype Status = Proposed | Executed | Failed | Skipped | Reverted | Partial

  datatype Outcome = Good | Bad | Skip | Part

  datatype Action = Action(kind: Kind, status: Status)

  /** What an execution records so that it can be undone. */
  datatype Reversal = BlockInfo(observable: Id) | FlagInfo(priorNotes: string) | SessionInfo(session: Id)

  datatype LogRow = LogRow(action: Id, outcome: Outcome, reversal: Option<Reversal>)

  datatype Observable = Observable(value: string, owner: Id, active: bool)

  datatype Session = Session(user: Id, host: Id, openedAt: int, invalidatedAt: Option<int>)

  /** The tables outside the executor's own: `hosts` and `users` are the registered lab assets, a
      host with its notes; `userEntities` and `hostEntities` give the entity that a name finds by
      its lower-cased form. */
  datatype Lab = Lab(
    hosts: map<string, Option<string>>,
    users: set<string>,
    userEntities: map<string, Id>,
    hostEntities: map<string, Id>,
    sessions: map<Id, Session>)

  datatype World = World(actions: map<Id, Action>, logs: seq<LogRow>, blocked: map<Id, Observable>, lab: Lab)

  datatype ActionError = NotFound | NotProposed | OutOfScope | NotReversible | Conflict

  // ---------------------------------------------------------------------------
  // Guards.
  // ---------------------------------------------------------------------------

  /** The lab-scope check: a named host or user must be registered. */
  predicate InScope(lab: Lab, kind: Kind) {
    match kind
    case Flag(host) => host == "" || host in lab.hosts
    case Invalidate(user, _) => user == "" || user in lab.users
    case Other(host, _) => host == "" || host in lab.hosts
    case Block(_, _) => true
  }

  predicate IsReversible(kind: Kind) {
    !kind.Other?
  }

  /** The most recent log row of the action that went well. */
  function LastGood(logs: seq<LogRow>, id: Id): Option<LogRow> {
    if logs == [] then None
    else
      var r := logs[|logs| - 1];
      if r.action == id && r.outcome == Good then Some(r) else LastGood(logs[..|logs| - 1], id)
  }

  // ---------------------------------------------------------------------------
  // Handlers.
  // ---------------------------------------------------------------------------

  const MARKER := "[under-investigation]"

  function Notes(n: Option<string>): string {
    if n.Some? then n.value else ""
  }

  /** Python's `str.isspace` on one character. */
  predicate IsSpace(c: char) {
    || '\t' <= c <= '\r' || '\U{1C}' <= c <= ' '
    || c in {'\U{85}', '\U{A0}', '\U{1680}', '\U{2028}', '\U{2029}', '\U{202F}', '\U{205F}', '\U{3000}'}
    || '\U{2000}' <= c <= '\U{200A}'
  }

  function Strip(s: string): string {
    if s != "" && IsSpace(s[0]) then Strip(s[1..])
    else if s != "" && IsSpace(s[|s| - 1]) then Strip(s[..|s| - 1])
    else s
  }

  function Flagged(n: Option<string>): Option<string> {
    if Contains(Notes(n), MARKER) then n else Some(Strip(MARKER + " " + Notes(n)))
  }

  predicate ActiveFor(s: Session, user: Id, host: Id) {
    s.user == user && s.host == host && s.invalidatedAt.None?
  }

  /** What the session query may answer: an active session of this user and host that was opened
      no earlier than any other, or nothing when there is none. */
  predicate IsAnswer(sessions: map<Id, Session>, user: Id, host: Id, answer: Option<Id>) {
    match answer
    case None => forall s :: s in sessions ==> !ActiveFor(sessions[s], user, host)
    case Some(id) =>
      && id in sessions && ActiveFor(sessions[id], user, host)
      && forall s :: s in sessions && ActiveFor(sessions[s], user, host) ==>
                       sessions[s].openedAt <= sessions[id].openedAt
  }

  /** What the run of a handler is given from outside: a fresh row id, the clock, and the answer
      of the session query. */
  datatype Env = Env(newId: Id, now: int, answer: Option<Id>)

  /** What a handler leaves: the tables it may write, its outcome and what it records. */
  datatype Effect = Effect(blocked: map<Id, Observable>, lab: Lab, outcome: Outcome, reversal: Option<Reversal>)

  function HandleBlock(w: World, id: Id, kind: string, value: string, newId: Id): Option<Effect> {
    if kind == "" || value == "" || kind !in {"ip", "domain", "hash", "file"} then
      Some(Effect(w.blocked, w.lab, Bad, None))
    else if newId in w.blocked then None
    else Some(Effect(w.blocked[newId := Observable(value, id, true)], w.lab, Good, Some(BlockInfo(newId))))
  }

  function HandleFlag(w: World, host: string): Effect {
    var lab := w.lab;
    if host == "" || host !in lab.hosts then Effect(w.blocked, lab, Bad, None)
    else
      Effect(w.blocked, lab.(hosts := lab.hosts[host := Flagged(lab.hosts[host])]), Good,
             Some(FlagInfo(Notes(lab.hosts[host]))))
  }

  predicate CanInvalidate(lab: Lab, user: string, host: string) {
    && user != "" && host != "" && user in lab.users && host in lab.hosts
    && user in lab.userEntities && host in lab.hostEntities
  }

  function HandleInvalidate(w: World, user: string, host: string, env: Env): Option<Effect> {
    var lab := w.lab;
    if !CanInvalidate(lab, user, host) then Some(Effect(w.blocked, lab, Bad, None))
    else
      var (u, h) := (lab.userEntities[user], lab.hostEntities[host]);
      if !IsAnswer(lab.sessions, u, h, env.answer) || (env.answer.None? && env.newId in lab.sessions) then None
      else
        var s := if env.answer.Some? then env.answer.value else env.newId;
        var row := if env.answer.Some? then lab.sessions[s] else Session(u, h, env.now, None);
        Some(Effect(w.blocked, lab.(sessions := lab.sessions[s := row.(invalidatedAt := Some(env.now))]), Good,
                    Some(SessionInfo(s))))
  }

  /** `None` for a row id already in use, or for an answer that the session query cannot give. */
  function Handle(w: World, id: Id, kind: Kind, env: Env): Option<Effect> {
    match kind
    case Other(_, outcome) => Some(Effect(w.blocked, w.lab, outcome, None))
    case Block(k, value) => HandleBlock(w, id, k, value, env.newId)
    case Flag(host) => Some(HandleFlag(w, host))
    case Invalidate(user, host) => HandleInvalidate(w, user, host, env)
  }

  function Undo(w: World, kind: Kind, info: Reversal): Effect {
    match (kind, info)
    case (Block(_, _), BlockInfo(o)) =>
      if o in w.blocked then Effect(w.blocked[o := w.blocked[o].(active := false)], w.lab, Good, None)
      else Effect(w.blocked, w.lab, Bad, None)
    case (Flag(host), FlagInfo(notes)) =>
      if host in w.lab.hosts then
        Effect(w.blocked, w.lab.(hosts := w.lab.hosts[host := Some(notes)]), Good, None)
      else Effect(w.blocked, w.lab, Bad, None)
    case (Invalidate(_, _), SessionInfo(s)) =>
      if s in w.lab.sessions then
        var row := w.lab.sessions[s].(invalidatedAt := None);
        Effect(w.blocked, w.lab.(sessions := w.lab.sessions[s := row]), Good, None)
      else Effect(w.blocked, w.lab, Bad, None)
    case _ => Effect(w.blocked, w.lab, Bad, None)
  }

  // ---------------------------------------------------------------------------
  // The executor.
  // ---------------------------------------------------------------------------

  function StatusOf(outcome: Outcome): Status {
    match outcome
    case Good => Executed
    case Bad => Failed
    case Skip => Skipped
    case Part => Partial
  }

  /** The world after a handler ran for the action: its effect, the new status and one log row. */
  function Logged(w: World, id: Id, status: Status, e: Effect): World
    requires id in w.actions
  {
    World(w.actions[id := w.actions[id].(status := status)], w.logs + [LogRow(id, e.outcome, e.reversal)],
          e.blocked, e.lab)
  }

  function Propose(w: World, id: Id, kind: Kind): Result<World, ActionError> {
    if !InScope(w.lab, kind) then Err(OutOfScope)
    else if id in w.actions then Err(Conflict)
    else Ok(w.(actions := w.actions[id := Action(kind, Proposed)]))
  }

  function Execute(w: World, id: Id, env: Env): Result<World, ActionError> {
    if id !in w.actions then Err(NotFound)
    else if w.actions[id].status != Proposed then Err(NotProposed)
    else if !InScope(w.lab, w.actions[id].kind) then Err(OutOfScope)
    else
      var e := Handle(w, id, w.actions[id].kind, env);
      if e.None? then Err(Conflict) else Ok(Logged(w, id, StatusOf(e.value.outcome), e.value))
  }

  function Revert(w: World, id: Id): Result<World, ActionError> {
    if id !in w.actions then Err(NotFound)
    else if w.actions[id].status != Executed || !IsReversible(w.actions[id].kind) then Err(NotReversible)
    else
      var prior := LastGood(w.logs, id);
      if prior.None? || prior.value.reversal.None? then Err(NotReversible)
      else Ok(Logged(w, id, Reverted, Undo(w, w.actions[id].kind, prior.value.reversal.value)))
  }

  /** `Elsewhere` is anything that other parts of the backend do to the lab tables. */
  datatype Step =
    | DoPropose(id: Id, kind: Kind)
    | DoExecute(id: Id, env: Env)
    | DoRevert(id: Id)
    | Elsewhere(lab: Lab)

  function OrElse(r: Result<World, ActionError>, w: World): World {
    if r.Ok? then r.value else w
  }

  /** A step that raises leaves everything as it was. */
  function Apply(w: World, step: Step): World {
    match step
    case DoPropose(id, kind) => OrElse(Propose(w, id, kind), w)
    case DoExecute(id, env) => OrElse(Execute(w, id, env), w)
    case DoRevert(id) => OrElse(Revert(w, id), w)
    case Elsewhere(lab) => w.(lab := lab)
  }

  function Run(w: World, steps: seq<Step>): World {
    if steps == [] then w else Apply(Run(w, steps[..|steps| - 1]), steps[|steps| - 1])
  }

  /** A database in which no action was proposed yet. */
  predicate IsFresh(w: World) {
    w.actions == map[] && w.logs == [] && w.blocked == map[]
  }
}
