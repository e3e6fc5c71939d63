/** Undoing responses. Executions and reverts that nest like parentheses restore host notes,
    blocked values and active sessions; two that cross do not. */
module ResponseUndo {
  import opened Options
  import opened Results
  import opened ResponseModel
  import opened ResponseRuns
  import opened Text

  // ---------------------------------------------------------------------------
  // Well-nested sequences.
  // ---------------------------------------------------------------------------

  /** Execute `id`, run `inner`, revert `id`, run `rest`. */
  datatype Nest = Done | Around(id: Id, env: Env, inner: Nest, rest: Nest)

  function StepsOf(n: Nest): seq<Step> {
    match n
    case Done => []
    case Around(id, env, inner, rest) =>
      [DoExecute(id, env)] + (StepsOf(inner) + ([DoRevert(id)] + StepsOf(rest)))
  }

  function Ids(n: Nest): set<Id> {
    match n
    case Done => {}
    case Around(id, _, inner, rest) => {id} + Ids(inner) + Ids(rest)
  }

  /** No action takes part between its own execution and its own revert. */
  predicate WellNested(n: Nest) {
    match n
    case Done => true
    case Around(id, _, inner, rest) => id !in Ids(inner) && WellNested(inner) && WellNested(rest)
  }

  // ---------------------------------------------------------------------------
  // What is restored.
  // ---------------------------------------------------------------------------

  predicate IsActive(sessions: map<Id, Session>, s: Id) {
    s in sessions && sessions[s].invalidatedAt.None?
  }

  /** Every host has its notes back, up to null for empty. */
  predicate SameNotes(was: Lab, lab: Lab) {
    lab.hosts.Keys == was.hosts.Keys && forall h :: h in was.hosts ==> Notes(lab.hosts[h]) == Notes(was.hosts[h])
  }

  /** Every session that was there is active if it was; those that were added are active. */
  predicate SameSessions(was: Lab, lab: Lab) {
    && was.sessions.Keys <= lab.sessions.Keys
    && (forall s :: s in was.sessions ==> (IsActive(lab.sessions, s) <==> IsActive(was.sessions, s)))
    && (forall s :: s in lab.sessions && s !in was.sessions ==> IsActive(lab.sessions, s))
  }

  /** Every observable that was there is as it was; those that were added are inactive. */
  predicate SameBlocks(was: map<Id, Observable>, blocked: map<Id, Observable>) {
    && was.Keys <= blocked.Keys
    && (forall o :: o in was ==> blocked[o] == was[o])
    && (forall o :: o in blocked && o !in was ==> !blocked[o].active)
  }

  predicate Restored(was: World, w: World) {
    && SameNotes(was.lab, w.lab)
    && SameSessions(was.lab, w.lab)
    && SameBlocks(was.blocked, w.blocked)
  }

  lemma BlockUndone(was: map<Id, Observable>, o: Id, row: Observable, mid: map<Id, Observable>)
    requires o !in was
    requires SameBlocks(was[o := row], mid)
    ensures o in mid && SameBlocks(was, mid[o := mid[o].(active := false)])
  {
    assert o in was[o := row];
  }

  lemma FlagUndone(was: Lab, host: string, marked: Option<string>, mid: Lab)
    requires host in was.hosts
    requires SameNotes(was.(hosts := was.hosts[host := marked]), mid)
    ensures host in mid.hosts
    ensures SameNotes(was, mid.(hosts := mid.hosts[host := Some(Notes(was.hosts[host]))]))
  {
    var hosts := was.hosts[host := marked];
    assert host in hosts;
    assert hosts.Keys == was.hosts.Keys;
    forall h | h in was.hosts && h != host ensures Notes(mid.hosts[h]) == Notes(was.hosts[h]) {
      assert hosts[h] == was.hosts[h];
    }
  }

  lemma SessionUndone(was: Lab, s: Id, row: Session, mid: Lab)
    requires row.invalidatedAt.Some?
    requires s in was.sessions ==> IsActive(was.sessions, s)
    requires SameSessions(was.(sessions := was.sessions[s := row]), mid)
    ensures s in mid.sessions
    ensures SameSessions(was, mid.(sessions := mid.sessions[s := mid.sessions[s].(invalidatedAt := None)]))
  {
    var later := was.sessions[s := row];
    assert s in later;
    forall t | t in was.sessions && t != s ensures IsActive(mid.sessions, t) <==> IsActive(was.sessions, t) {
      assert t in later && later[t] == was.sessions[t];
    }
    forall t | t in mid.sessions && t !in was.sessions && t != s ensures IsActive(mid.sessions, t) {
      assert t !in later;
    }
  }

  /** The handler of a kind, then anything that restores what it found, then the undoing of what
      the handler recorded. */
  lemma HandlerUndone(w: World, id: Id, kind: Kind, env: Env, mid: World)
    requires IsReversible(kind)
    requires Handle(w, id, kind, env).Some?
    requires var e := Handle(w, id, kind, env).value;
             e.outcome == Good && Restored(w.(blocked := e.blocked, lab := e.lab), mid)
    ensures var e := Handle(w, id, kind, env).value;
            && e.reversal.Some?
            && var u := Undo(mid, kind, e.reversal.value);
               Restored(w, mid.(blocked := u.blocked, lab := u.lab))
  {
    var e := Handle(w, id, kind, env).value;
    match kind
    case Block(k, value) =>
      BlockUndone(w.blocked, env.newId, Observable(value, id, true), mid.blocked);
    case Flag(host) =>
      FlagUndone(w.lab, host, Flagged(w.lab.hosts[host]), mid.lab);
    case Invalidate(user, host) =>
      var s := e.reversal.value.session;
      SessionUndone(w.lab, s, e.lab.sessions[s], mid.lab);
  }

  // ---------------------------------------------------------------------------
  // Runs of nests.
  // ---------------------------------------------------------------------------

  lemma {:induction false} RunAppend(w: World, a: seq<Step>, b: seq<Step>)
    ensures Run(w, a + b) == Run(Run(w, a), b)
    decreases |b|
  {
    if b == [] {
      assert a + b == a;
    } else {
      var front, last := b[..|b| - 1], b[|b| - 1];
      RunAppend(w, a, front);
      assert (a + b)[..|a + b| - 1] == a + front;
    }
  }

  lemma RunOne(w: World, step: Step)
    ensures Run(w, [step]) == Apply(w, step)
  {
    assert Run(w, [step][..0]) == w;
  }

  lemma RunAround(w: World, n: Nest)
    requires n.Around?
    ensures Run(w, StepsOf(n)) ==
            Run(Apply(Run(Apply(w, DoExecute(n.id, n.env)), StepsOf(n.inner)), DoRevert(n.id)), StepsOf(n.rest))
  {
    var (inner, rest) := (StepsOf(n.inner), StepsOf(n.rest));
    RunAppend(w, [DoExecute(n.id, n.env)], inner + ([DoRevert(n.id)] + rest));
    RunOne(w, DoExecute(n.id, n.env));
    var w1 := Apply(w, DoExecute(n.id, n.env));
    RunAppend(w1, inner, [DoRevert(n.id)] + rest);
    RunAppend(Run(w1, inner), [DoRevert(n.id)], rest);
    RunOne(Run(w1, inner), DoRevert(n.id));
  }

  /** The action was executed and can be reverted. */
  predicate Standing(w: World, id: Id) {
    id in w.actions && w.actions[id].status == Executed && IsReversible(w.actions[id].kind)
  }

  /** Nothing that a revert of `id` reads changed. */
  predicate Untouched(was: World, w: World, id: Id) {
    && (id in was.actions <==> id in w.actions)
    && (id in was.actions ==> w.actions[id] == was.actions[id])
    && LastGood(w.logs, id) == LastGood(was.logs, id)
  }

  /** One pair of parentheses: the execution of an action that was not standing, something that
      restores what it finds and leaves this action alone, and the revert. */
  lemma PairRestores(w: World, id: Id, env: Env, mid: World)
    requires !Standing(w, id)
    requires Restored(Apply(w, DoExecute(id, env)), mid)
    requires Untouched(Apply(w, DoExecute(id, env)), mid, id)
    ensures Restored(w, Apply(mid, DoRevert(id)))
    ensures !Standing(Apply(mid, DoRevert(id)), id)
  {
    if Execute(w, id, env).Ok? {
      var kind := w.actions[id].kind;
      var e := Handle(w, id, kind, env).value;
      if e.outcome == Good && IsReversible(kind) {
        LastGoodAppend(w.logs, LogRow(id, Good, e.reversal), id);
        HandlerUndone(w, id, kind, env, mid);
        assert LastGood(mid.logs, id) == Some(LogRow(id, Good, e.reversal));
        assert Revert(mid, id) == Ok(Logged(mid, id, Reverted, Undo(mid, kind, e.reversal.value)));
      } else {
        NotGoodChangesNothing(w, id, env);
        assert Revert(mid, id).Err?;
      }
    } else {
      assert Revert(mid, id).Err?;
    }
  }

  lemma NotGoodChangesNothing(w: World, id: Id, env: Env)
    requires id in w.actions && Handle(w, id, w.actions[id].kind, env).Some?
    ensures var e := Handle(w, id, w.actions[id].kind, env).value;
            e.outcome != Good || !IsReversible(w.actions[id].kind) ==> e.blocked == w.blocked && e.lab == w.lab
  {
  }

  predicate NoneStanding(w: World, ids: set<Id>) {
    forall id :: id in ids ==> !Standing(w, id)
  }

  ghost predicate OthersUntouched(was: World, w: World, ids: set<Id>) {
    forall id :: id !in ids ==> Untouched(was, w, id)
  }

  /** Every well-nested sequence restores notes, blocks and active sessions, whatever its
      executions and reverts answer. */
  lemma {:induction false} NestRestores(w: World, n: Nest)
    requires WellNested(n)
    requires NoneStanding(w, Ids(n))
    ensures Restored(w, Run(w, StepsOf(n)))
    ensures NoneStanding(Run(w, StepsOf(n)), Ids(n))
    ensures OthersUntouched(w, Run(w, StepsOf(n)), Ids(n))
    decreases n
  {
    match n
    case Done =>
    case Around(id, env, inner, rest) =>
      var w1 := Apply(w, DoExecute(id, env));
      OneTouched(w, w1, id, DoExecute(id, env));
      NestRestores(w1, inner);
      var w2 := Run(w1, StepsOf(inner));
      var w3 := Apply(w2, DoRevert(id));
      OneTouched(w2, w3, id, DoRevert(id));
      PairRestores(w, id, env, w2);
      PairStanding(w, w1, w2, w3, n);
      NestRestores(w3, rest);
      RunAround(w, n);
  }

  lemma OneTouched(w: World, w': World, id: Id, step: Step)
    requires w' == Apply(w, step)
    requires (step.DoExecute? || step.DoRevert?) && step.id == id
    ensures OthersUntouched(w, w', {id})
  {
    forall other | other !in {id} ensures Untouched(w, w', other) {
    }
  }

  lemma PairStanding(w: World, w1: World, w2: World, w3: World, n: Nest)
    requires n.Around? && NoneStanding(w, Ids(n))
    requires OthersUntouched(w, w1, {n.id}) && OthersUntouched(w1, w2, Ids(n.inner)) && OthersUntouched(w2, w3, {n.id})
    requires NoneStanding(w2, Ids(n.inner)) && !Standing(w3, n.id)
    ensures NoneStanding(w3, Ids(n))
    ensures OthersUntouched(w, w3, {n.id} + Ids(n.inner))
  {
    forall id | id in Ids(n) ensures !Standing(w3, id) {
      if id != n.id {
        assert Untouched(w, w1, id) && Untouched(w2, w3, id);
        if id !in Ids(n.inner) { assert Untouched(w1, w2, id); }
      }
    }
    forall id | id !in {n.id} + Ids(n.inner) ensures Untouched(w, w3, id) {
      assert Untouched(w, w1, id) && Untouched(w1, w2, id) && Untouched(w2, w3, id);
    }
  }

  /** The ids of the active sessions. */
  function ActiveSessions(w: World): set<Id> {
    set s | s in w.lab.sessions && w.lab.sessions[s].invalidatedAt.None?
  }

  /** The session query finds one for every invalidation of the sequence. */
  predicate AllFound(w: World, n: Nest) {
    match n
    case Done => true
    case Around(id, env, inner, rest) =>
      && (id in w.actions && w.actions[id].kind.Invalidate? ==> env.answer.Some?)
      && AllFound(w, inner) && AllFound(w, rest)
  }

  predicate SameKinds(was: World, w: World) {
    w.actions.Keys == was.actions.Keys && forall id :: id in was.actions ==> w.actions[id].kind == was.actions[id].kind
  }

  lemma ExecuteAddsNone(was: World, w: World, id: Id, env: Env)
    requires SameKinds(was, w)
    requires id in was.actions && was.actions[id].kind.Invalidate? ==> env.answer.Some?
    ensures SameKinds(was, Apply(w, DoExecute(id, env)))
    ensures Apply(w, DoExecute(id, env)).lab.sessions.Keys == w.lab.sessions.Keys
  {
  }

  lemma RevertAddsNone(was: World, w: World, id: Id)
    requires SameKinds(was, w)
    ensures SameKinds(was, Apply(w, DoRevert(id)))
    ensures Apply(w, DoRevert(id)).lab.sessions.Keys == w.lab.sessions.Keys
  {
  }

  /** Then no session is created. */
  lemma {:induction false} NestAddsNone(was: World, w: World, n: Nest)
    requires SameKinds(was, w) && AllFound(was, n)
    ensures SameKinds(was, Run(w, StepsOf(n)))
    ensures Run(w, StepsOf(n)).lab.sessions.Keys == w.lab.sessions.Keys
    decreases n
  {
    if n.Around? {
      var w1 := Apply(w, DoExecute(n.id, n.env));
      ExecuteAddsNone(was, w, n.id, n.env);
      NestAddsNone(was, w1, n.inner);
      var w2 := Run(w1, StepsOf(n.inner));
      RevertAddsNone(was, w2, n.id);
      NestAddsNone(was, Apply(w2, DoRevert(n.id)), n.rest);
      RunAround(w, n);
    }
  }

  /** Well-nested undo. Notes come back, a value is blocked if it was before, and the active
      sessions are those from before with those that an invalidation had to create: where each
      found one, exactly the same. */
  lemma WellNestedUndo(w: World, n: Nest)
    requires WellNested(n)
    requires NoneStanding(w, Ids(n))
    ensures var w' := Run(w, StepsOf(n));
            && SameNotes(w.lab, w'.lab)
            && (forall value :: IsBlocked(w', value) <==> IsBlocked(w, value))
            && ActiveSessions(w') == ActiveSessions(w) + (w'.lab.sessions.Keys - w.lab.sessions.Keys)
            && (AllFound(w, n) ==> ActiveSessions(w') == ActiveSessions(w))
  {
    NestRestores(w, n);
    if AllFound(w, n) { NestAddsNone(w, w, n); }
    var w' := Run(w, StepsOf(n));
    forall value ensures IsBlocked(w', value) <==> IsBlocked(w, value) {
      if IsBlocked(w, value) {
        var o :| o in w.blocked && w.blocked[o].active && w.blocked[o].value == value;
        assert o in w'.blocked;
      }
    }
    forall s ensures s in ActiveSessions(w') <==>
                     s in ActiveSessions(w) + (w'.lab.sessions.Keys - w.lab.sessions.Keys)
    {
      assert IsActive(w'.lab.sessions, s) <==> s in ActiveSessions(w');
      assert IsActive(w.lab.sessions, s) <==> s in ActiveSessions(w);
    }
  }

  // ---------------------------------------------------------------------------
  // What there is to undo.
  // ---------------------------------------------------------------------------

  /** An action that was executed has taken effect, and nothing else changed: its value is blocked,
      its host is marked, or the session that the query answered is the one session that is no
      longer active. */
  lemma ExecutedTakesEffect(w: World, id: Id, env: Env)
    requires Execute(w, id, env).Ok? && Execute(w, id, env).value.actions[id].status == Executed
    ensures var w' := Execute(w, id, env).value;
            match w.actions[id].kind
            case Block(_, value) => IsBlocked(w', value) && w'.lab == w.lab
            case Flag(host) =>
              && w'.lab.hosts.Keys == w.lab.hosts.Keys && host in w.lab.hosts
              && Contains(Notes(w'.lab.hosts[host]), MARKER)
              && (forall h :: h in w.lab.hosts && h != host ==> w'.lab.hosts[h] == w.lab.hosts[h])
              && w'.lab == w.lab.(hosts := w'.lab.hosts) && w'.blocked == w.blocked
            case Invalidate(_, _) =>
              && ActiveSessions(w') == (if env.answer.Some? then ActiveSessions(w) - {env.answer.value} else ActiveSessions(w))
              && (env.answer.Some? ==> env.answer.value in ActiveSessions(w))
              && w'.lab == w.lab.(sessions := w'.lab.sessions) && w'.blocked == w.blocked
            case Other(_, _) => w'.lab == w.lab && w'.blocked == w.blocked
  {
    var w' := Execute(w, id, env).value;
    match w.actions[id].kind
    case Block(_, value) =>
      assert env.newId in w'.blocked && w'.blocked[env.newId].active && w'.blocked[env.newId].value == value;
    case Flag(host) => FlaggedCarriesMarker(w.lab.hosts[host]);
    case Invalidate(user, host) => InvalidationTakesOne(w, user, host, env);
    case Other(_, _) =>
  }

  lemma InvalidationTakesOne(w: World, user: string, host: string, env: Env)
    requires HandleInvalidate(w, user, host, env).Some? && HandleInvalidate(w, user, host, env).value.outcome == Good
    ensures var e := HandleInvalidate(w, user, host, env).value;
            && ActiveSessions(w.(lab := e.lab)) ==
               (if env.answer.Some? then ActiveSessions(w) - {env.answer.value} else ActiveSessions(w))
            && (env.answer.Some? ==> env.answer.value in ActiveSessions(w))
            && e.lab == w.lab.(sessions := e.lab.sessions) && e.blocked == w.blocked
  {
    var e := HandleInvalidate(w, user, host, env).value;
    var s := e.reversal.value.session;
    assert e.lab.sessions[s].invalidatedAt == Some(env.now);
    assert forall t :: t in w.lab.sessions && t != s ==> e.lab.sessions[t] == w.lab.sessions[t];
  }

  // ---------------------------------------------------------------------------
  // Crossing.
  // ---------------------------------------------------------------------------

  /** Stripping keeps a beginning that itself begins and ends with something else than space. */
  lemma {:induction false} StripKeeps(part: string, rest: string)
    requires part != "" && !IsSpace(part[0]) && !IsSpace(part[|part| - 1])
    ensures part <= Strip(part + rest)
    decreases |rest|
  {
    var s := part + rest;
    assert s[0] == part[0];
    if IsSpace(s[|s| - 1]) {
      assert rest != "";
      var r := |rest| - 1;
      StripKeeps(part, rest[..r]);
      assert s[..|s| - 1] == part + rest[..r];
    }
  }

  /** A flagged host carries the marker. */
  lemma FlaggedCarriesMarker(n: Option<string>)
    ensures Contains(Notes(Flagged(n)), "[under-investigation]")
  {
    if !Contains(Notes(n), MARKER) {
      StripKeeps(MARKER, " " + Notes(n));
      assert MARKER + " " + Notes(n) == MARKER + (" " + Notes(n));
      var marked := Notes(Flagged(n));
      assert MARKER <= marked && marked[0..] == marked;
    }
  }

  lemma FlagRuns(w: World, id: Id, host: string, env: Env)
    requires id in w.actions && w.actions[id] == Action(Flag(host), Proposed)
    requires host != "" && host in w.lab.hosts
    ensures var w' := Apply(w, DoExecute(id, env));
            && w'.actions == w.actions[id := Action(Flag(host), Executed)]
            && w'.lab.hosts == w.lab.hosts[host := Flagged(w.lab.hosts[host])]
            && LastGood(w'.logs, id) == Some(LogRow(id, Good, Some(FlagInfo(Notes(w.lab.hosts[host])))))
  {
    LastGoodAppend(w.logs, LogRow(id, Good, Some(FlagInfo(Notes(w.lab.hosts[host])))), id);
  }

  lemma UnflagRuns(w: World, id: Id, host: string, notes: string)
    requires id in w.actions && w.actions[id] == Action(Flag(host), Executed)
    requires LastGood(w.logs, id) == Some(LogRow(id, Good, Some(FlagInfo(notes))))
    requires host in w.lab.hosts
    ensures Apply(w, DoRevert(id)).lab.hosts == w.lab.hosts[host := Some(notes)]
  {
  }

  lemma CrossedRun(w: World, a: Id, b: Id, host: string, ea: Env, eb: Env)
    requires a != b
    requires a in w.actions && w.actions[a] == Action(Flag(host), Proposed)
    requires b in w.actions && w.actions[b] == Action(Flag(host), Proposed)
    requires host != "" && host in w.lab.hosts
    ensures Run(w, [DoExecute(a, ea), DoExecute(b, eb), DoRevert(a), DoRevert(b)]).lab.hosts
         == w.lab.hosts[host := Some(Notes(Flagged(w.lab.hosts[host])))]
  {
    var w1 := Apply(w, DoExecute(a, ea));
    var w2 := Apply(w1, DoExecute(b, eb));
    var w3 := Apply(w2, DoRevert(a));
    var prior := w.lab.hosts[host];
    FlagRuns(w, a, host, ea);
    FlagRuns(w1, b, host, eb);
    UnflagRuns(w2, a, host, Notes(prior));
    UnflagRuns(w3, b, host, Notes(Flagged(prior)));
    FourSteps(w, DoExecute(a, ea), DoExecute(b, eb), DoRevert(a), DoRevert(b));
  }

  /** Two flags of one host, reverted in the order of their execution: the notes come back exactly
      when the host carried the marker to begin with. Otherwise the second revert puts the marker
      back and both actions stand reverted on a host that is still marked. */
  lemma CrossedUndoIff(w: World, a: Id, b: Id, host: string, ea: Env, eb: Env)
    requires a != b
    requires a in w.actions && w.actions[a] == Action(Flag(host), Proposed)
    requires b in w.actions && w.actions[b] == Action(Flag(host), Proposed)
    requires host != "" && host in w.lab.hosts
    ensures var w' := Run(w, [DoExecute(a, ea), DoExecute(b, eb), DoRevert(a), DoRevert(b)]);
            && host in w'.lab.hosts
            && Contains(Notes(w'.lab.hosts[host]), MARKER)
            && (SameNotes(w.lab, w'.lab) <==> Contains(Notes(w.lab.hosts[host]), MARKER))
  {
    var prior := w.lab.hosts[host];
    CrossedRun(w, a, b, host, ea, eb);
    FlaggedCarriesMarker(prior);
    var hosts := w.lab.hosts[host := Some(Notes(Flagged(prior)))];
    assert hosts.Keys == w.lab.hosts.Keys;
    assert Notes(hosts[host]) == Notes(Flagged(prior));
  }

  lemma FourSteps(w: World, s: Step, t: Step, u: Step, v: Step)
    ensures Run(w, [s, t, u, v]) == Apply(Apply(Apply(Apply(w, s), t), u), v)
  {
    assert [s, t, u, v] == [s] + ([t] + ([u] + [v]));
    RunAppend(w, [s], [t] + ([u] + [v]));
    RunOne(w, s);
    RunAppend(Apply(w, s), [t], [u] + [v]);
    RunOne(Apply(w, s), t);
    RunAppend(Apply(Apply(w, s), t), [u], [v]);
    RunOne(Apply(Apply(w, s), t), u);
    RunOne(Apply(Apply(Apply(w, s), t), u), v);
  }
}
