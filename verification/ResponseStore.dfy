/** The executor and its handlers as the backend runs them: fields of the action, asset, session
    and observable rows are reassigned in place, around one appended log row. */
module ResponseStore {
  import opened Options
  import opened ResponseModel
  import opened Text

  class Executor {
    var actions: map<Id, Action>
    var logs: seq<LogRow>
    var blocked: map<Id, Observable>
    var hosts: map<string, Option<string>>
    var users: set<string>
    var userEntities: map<string, Id>
    var hostEntities: map<string, Id>
    var sessions: map<Id, Session>

    ghost function LabView(): Lab
      reads this
    {
      Lab(hosts, users, userEntities, hostEntities, sessions)
    }

    ghost function View(): World
      reads this
    {
      World(actions, logs, blocked, LabView())
    }

    constructor ()
      ensures IsFresh(View())
    {
      actions, logs, blocked := map[], [], map[];
      hosts, users, userEntities, hostEntities, sessions := map[], {}, map[], map[], map[];
    }

    method CheckLabScope(kind: Kind) returns (ok: bool)
      ensures ok == InScope(LabView(), kind)
    {
      ok := true;
      match kind {
        case Flag(host) =>
          if host != "" { ok := host in hosts; }
        case Invalidate(user, _) =>
          if user != "" { ok := user in users; }
        case Other(host, _) =>
          if host != "" { ok := host in hosts; }
        case Block(_, _) =>
      }
    }

    method ProposeAction(id: Id, kind: Kind) returns (error: Option<ActionError>)
      modifies `actions
      ensures var r := Propose(old(View()), id, kind);
              && View() == OrElse(r, old(View()))
              && error == if r.Ok? then None else Some(r.error)
    {
      var ok := CheckLabScope(kind);
      if !ok { return Some(OutOfScope); }
      if id in actions { return Some(Conflict); }
      actions := actions[id := Action(kind, Proposed)];
      return None;
    }

    method BlockObservable(id: Id, kind: string, value: string, newId: Id)
      returns (r: Option<(Outcome, Option<Reversal>)>)
      modifies `blocked
      ensures var e := HandleBlock(old(View()), id, kind, value, newId);
              if e.None? then r == None && blocked == old(blocked)
              else r == Some((e.value.outcome, e.value.reversal)) && blocked == e.value.blocked
    {
      if kind == "" || value == "" { return Some((Bad, None)); }
      if kind !in {"ip", "domain", "hash", "file"} { return Some((Bad, None)); }
      if newId in blocked { return None; }
      blocked := blocked[newId := Observable(value, id, true)];
      return Some((Good, Some(BlockInfo(newId))));
    }

    method FlagHost(host: string) returns (outcome: Outcome, info: Option<Reversal>)
      modifies `hosts
      ensures Effect(blocked, LabView(), outcome, info) == HandleFlag(old(View()), host)
    {
      if host == "" || host !in hosts { return Bad, None; }
      var prior := Notes(hosts[host]);
      ghost var marked := Flagged(hosts[host]);
      var present := Contains(prior, MARKER);
      if !present {
        hosts := hosts[host := Some(Strip(MARKER + " " + prior))];
      } else {
        assert old(hosts)[host := marked] == hosts;
      }
      return Good, Some(FlagInfo(prior));
    }

    /** The active session of the user on the host that was opened last. */
    method FindSession(user: Id, host: Id) returns (answer: Option<Id>)
      ensures IsAnswer(sessions, user, host, answer)
    {
      answer := None;
      var todo := sessions.Keys;
      while todo != {}
        invariant todo <= sessions.Keys
        invariant answer.None? ==> forall s :: s in sessions.Keys - todo ==> !ActiveFor(sessions[s], user, host)
        invariant answer.Some? ==> answer.value in sessions && ActiveFor(sessions[answer.value], user, host)
        invariant answer.Some? ==>
                    forall s :: s in sessions.Keys - todo && ActiveFor(sessions[s], user, host) ==>
                                  sessions[s].openedAt <= sessions[answer.value].openedAt
      {
        var s: Id :| s in todo;
        if ActiveFor(sessions[s], user, host) {
          if answer.None? || sessions[answer.value].openedAt < sessions[s].openedAt {
            answer := Some(s);
          }
        }
        todo := todo - {s};
      }
    }

    method InvalidateSession(user: string, host: string, newId: Id, now: int)
      returns (r: Option<(Outcome, Option<Reversal>)>, ghost answer: Option<Id>)
      modifies `sessions
      ensures var e := HandleInvalidate(old(View()), user, host, Env(newId, now, answer));
              if e.None? then r == None && sessions == old(sessions)
              else r == Some((e.value.outcome, e.value.reversal)) && sessions == e.value.lab.sessions
    {
      answer := None;
      if user == "" || host == "" || user !in users || host !in hosts { return Some((Bad, None)), None; }
      if user !in userEntities || host !in hostEntities { return Some((Bad, None)), None; }
      var u, h := userEntities[user], hostEntities[host];
      var found := FindSession(u, h);
      answer := found;
      var s := newId;
      if found.Some? {
        s := found.value;
      } else if newId in sessions {
        return None, answer;
      } else {
        sessions := sessions[newId := Session(u, h, now, None)];
      }
      sessions := sessions[s := sessions[s].(invalidatedAt := Some(now))];
      ghost var row := if found.Some? then old(sessions)[s] else Session(u, h, now, None);
      assert sessions == old(sessions)[s := row.(invalidatedAt := Some(now))];
      return Some((Good, Some(SessionInfo(s)))), answer;
    }

    method Finish(id: Id, status: Status, outcome: Outcome, info: Option<Reversal>)
      requires id in actions
      modifies `actions, `logs
      ensures actions == old(actions)[id := old(actions)[id].(status := status)]
      ensures logs == old(logs) + [LogRow(id, outcome, info)]
    {
      actions := actions[id := actions[id].(status := status)];
      logs := logs + [LogRow(id, outcome, info)];
    }

    /** `answer` is what the session query answered. */
    method ExecuteAction(id: Id, newId: Id, now: int) returns (error: Option<ActionError>, ghost answer: Option<Id>)
      modifies this
      ensures var r := Execute(old(View()), id, Env(newId, now, answer));
              && View() == OrElse(r, old(View()))
              && error == if r.Ok? then None else Some(r.error)
    {
      answer := None;
      if id !in actions { return Some(NotFound), None; }
      var action := actions[id];
      if action.status != Proposed { return Some(NotProposed), None; }
      var ok := CheckLabScope(action.kind);
      if !ok { return Some(OutOfScope), None; }
      var r: Option<(Outcome, Option<Reversal>)>;
      match action.kind {
        case Other(_, outcome) => r := Some((outcome, None));
        case Block(kind, value) => r := BlockObservable(id, kind, value, newId);
        case Flag(host) =>
          var outcome, info := FlagHost(host);
          r := Some((outcome, info));
        case Invalidate(user, host) => r, answer := InvalidateSession(user, host, newId, now);
      }
      if r.None? { return Some(Conflict), answer; }
      Finish(id, StatusOf(r.value.0), r.value.0, r.value.1);
      return None, answer;
    }

    /** What the handler of the kind undoes with the recorded information. */
    method UndoAction(kind: Kind, info: Reversal) returns (outcome: Outcome)
      modifies `blocked, `hosts, `sessions
      ensures Effect(blocked, LabView(), outcome, None) == Undo(old(View()), kind, info)
    {
      outcome := Bad;
      match (kind, info) {
        case (Block(_, _), BlockInfo(o)) =>
          if o in blocked {
            blocked := blocked[o := blocked[o].(active := false)];
            outcome := Good;
          }
        case (Flag(host), FlagInfo(notes)) =>
          if host in hosts {
            hosts := hosts[host := Some(notes)];
            outcome := Good;
          }
        case (Invalidate(_, _), SessionInfo(s)) =>
          if s in sessions {
            sessions := sessions[s := sessions[s].(invalidatedAt := None)];
            outcome := Good;
          }
        case _ =>
      }
    }

    /** The newest log row of the action that went well, looking from the end. */
    method PriorLog(id: Id) returns (row: Option<LogRow>)
      ensures row == LastGood(logs, id)
    {
      var n := |logs|;
      assert logs[..n] == logs;
      while n > 0
        invariant 0 <= n <= |logs|
        invariant LastGood(logs[..n], id) == LastGood(logs, id)
      {
        n := n - 1;
        if logs[n].action == id && logs[n].outcome == Good { return Some(logs[n]); }
        assert logs[..n + 1][..n] == logs[..n];
      }
      return None;
    }

    method RevertAction(id: Id) returns (error: Option<ActionError>)
      modifies this
      ensures var r := Revert(old(View()), id);
              && View() == OrElse(r, old(View()))
              && error == if r.Ok? then None else Some(r.error)
    {
      if id !in actions { return Some(NotFound); }
      var action := actions[id];
      if action.status != Executed || !IsReversible(action.kind) { return Some(NotReversible); }
      var prior := PriorLog(id);
      if prior.None? || prior.value.reversal.None? { return Some(NotReversible); }
      var outcome := UndoAction(action.kind, prior.value.reversal.value);
      Finish(id, Reverted, outcome, None);
      return None;
    }
  }
}
